/** screenio/utils.py: log-level selection, the settings-file list, dynamic
    lookup of job functions and the timestamped file names of `format_now`. */
module Utils {
  import opened Wrappers
  import opened Text

  // ---------------------------------------------------------------------------
  // setup_logger
  // ---------------------------------------------------------------------------

  const NOTSET := 0
  const DEBUG := 10
  const INFO := 20
  const WARNING := 30

  /** `levels = [logging.WARNING, logging.INFO, logging.DEBUG]` */
  const LEVELS: seq<int> := [WARNING, INFO, DEBUG]

  /** `s[i]` with Python's indexing: negative indexes count from the end, and
      anything else out of range is an `IndexError` (here `None`). */
  function PyIndex<T>(s: seq<T>, i: int): (r: Option<T>)
    ensures r.Some? <==> -|s| <= i < |s|
    ensures 0 <= i < |s| ==> r == Some(s[i])
    ensures -|s| <= i < 0 ==> r == Some(s[|s| + i])
  {
    if 0 <= i < |s| then Some(s[i])
    else if -|s| <= i < 0 then Some(s[|s| + i])
    else None
  }

  /** The level `setup_logger` installs for a verbosity count (`None` when the
      option was not given): `levels[min(len(levels) - 1, level or 0)]`. */
  function LevelFor(verbosity: Option<int>): (r: Option<int>)
    ensures verbosity == None || verbosity == Some(0) ==> r == Some(WARNING)
    ensures verbosity == Some(1) ==> r == Some(INFO)
    ensures verbosity.Some? && verbosity.value >= 2 ==> r == Some(DEBUG)
    ensures verbosity.Some? && -3 <= verbosity.value < 0 ==> r == Some(LEVELS[3 + verbosity.value])
    ensures r.None? <==> verbosity.Some? && verbosity.value < -3
  {
    var v := verbosity.GetOr(0);
    PyIndex(LEVELS, if v < |LEVELS| - 1 then v else |LEVELS| - 1)
  }

  /** More `-v` flags never make the log quieter. */
  lemma LevelForMonotone(a: nat, b: nat)
    requires a <= b
    ensures LevelFor(Some(b)).value <= LevelFor(Some(a)).value
  {
  }

  datatype Handler = StreamHandler(format: string)

  const LOG_FORMAT := "%(asctime)s - %(name)s - %(levelname)s - %(message)s"

  /** The part of a `logging.Logger` that `setup_logger` changes. */
  class Logger {
    var level: int
    var handlers: seq<Handler>

    /** A logger with no handlers yet, at the level it starts with: WARNING
        for the root logger `logging.getLogger('')` returns, NOTSET for a
        fresh named one. */
    constructor (initial: int)
      ensures level == initial && handlers == []
    {
      level := initial;
      handlers := [];
    }
  }

  /** `setup_logger(level)`: set the level and add one more stream handler.
      An index Python rejects raises before anything is changed. */
  method SetupLogger(logger: Logger, verbosity: Option<int>) returns (ok: bool)
    modifies logger
    ensures ok <==> LevelFor(verbosity).Some?
    ensures ok ==> logger.level == LevelFor(verbosity).value
    ensures ok ==> logger.handlers == old(logger.handlers) + [StreamHandler(LOG_FORMAT)]
    ensures !ok ==> unchanged(logger)
  {
    var level := LevelFor(verbosity);
    if level.None? {
      return false;
    }
    logger.level := level.value;
    logger.handlers := logger.handlers + [StreamHandler(LOG_FORMAT)];
    ok := true;
  }

  // ---------------------------------------------------------------------------
  // load_settings
  // ---------------------------------------------------------------------------

  const DEFAULT_SETTINGS_FILES: seq<string> := ["/etc/screenio/settings.toml", "settings.toml"]

  /** The `settings_files` handed to Dynaconf: the two defaults, then the
      explicit path when one is given (an empty path counts as none). */
  function LoadSettings(path: Option<string>): (files: seq<string>)
    ensures |files| >= 2 && files[..2] == DEFAULT_SETTINGS_FILES
    ensures |files| == 3 <==> path.Some? && path.value != ""
    ensures |files| <= 3
    ensures |files| == 3 ==> files[2] == path.value
  {
    if path.Some? && path.value != "" then DEFAULT_SETTINGS_FILES + [path.value]
    else DEFAULT_SETTINGS_FILES
  }

  // ---------------------------------------------------------------------------
  // FUNCS_MAP and load_func
  // ---------------------------------------------------------------------------

  /** A function named by its module and attribute. */
  datatype FuncRef = FuncRef(moduleName: string, attr: string)

  const FUNCS_MODULE := "screenio.funcs"

  /** The dotted path of a function of screenio/funcs.py. */
  function InFuncs(attr: string): string { FUNCS_MODULE + "." + attr }

  /** The job kinds and the dotted paths they name ("screenio.funcs.record_video_pil", ...). */
  const FUNCS_MAP: map<string, string> := map[
    "video-pil" := InFuncs("record_video_pil"),
    "video-ffmpeg" := InFuncs("record_video_ffmpeg"),
    "frames-pil" := InFuncs("record_frames_pil"),
    "frames-ffmpeg" := InFuncs("record_frames_ffmpeg")
  ]

  /** The functions screenio/funcs.py defines, i.e. what `import_module` and
      `getattr` find there. */
  const FUNCS_DEFINED: set<FuncRef> := {
    FuncRef(FUNCS_MODULE, "record_frames_pil"),
    FuncRef(FUNCS_MODULE, "record_frames_ffmpeg"),
    FuncRef(FUNCS_MODULE, "record_video_pil"),
    FuncRef(FUNCS_MODULE, "record_video_ffmpeg"),
    FuncRef(FUNCS_MODULE, "frames_to_video_moviepy"),
    FuncRef(FUNCS_MODULE, "frames_to_video_ffmpeg")
  }

  /** `load_func(name, mapper)`: look the name up, split the dotted path at its
      last `.`, import. `importable` stands for what `import_module` plus
      `getattr` can reach. Every failure is caught and gives `None`. */
  function LoadFunc(name: string, mapper: map<string, string>, importable: set<FuncRef>): (r: Option<FuncRef>)
    ensures r.Some? ==> name in mapper && r.value in importable
    ensures r.Some? ==> mapper[name] == r.value.moduleName + "." + r.value.attr && '.' !in r.value.attr
    ensures name in mapper && '.' !in mapper[name] ==> r.None?
  {
    if name !in mapper then None
    else
      match RSplitOnce(mapper[name], '.')
      case None => None
      case Some((m, a)) => if FuncRef(m, a) in importable then Some(FuncRef(m, a)) else None
  }

  /** Conversely, a mapped path whose split names an importable function loads it. */
  lemma LoadFuncFinds(name: string, mapper: map<string, string>, importable: set<FuncRef>, m: string, a: string)
    requires name in mapper && mapper[name] == m + "." + a && '.' !in a
    requires FuncRef(m, a) in importable
    ensures LoadFunc(name, mapper, importable) == Some(FuncRef(m, a))
  {
    RSplitJoin(m, '.', a);
  }

  /** Every entry of `FUNCS_MAP` resolves to a function of screenio/funcs.py
      with a non-empty name. */
  lemma FuncsMapResolves(key: string)
    requires key in FUNCS_MAP
    ensures LoadFunc(key, FUNCS_MAP, FUNCS_DEFINED).Some?
    ensures LoadFunc(key, FUNCS_MAP, FUNCS_DEFINED).value.moduleName == FUNCS_MODULE
    ensures LoadFunc(key, FUNCS_MAP, FUNCS_DEFINED).value.attr != ""
  {
    if key == "video-pil" {
      FuncsEntry(key, "record_video_pil");
    } else if key == "video-ffmpeg" {
      FuncsEntry(key, "record_video_ffmpeg");
    } else if key == "frames-pil" {
      FuncsEntry(key, "record_frames_pil");
    } else {
      FuncsEntry(key, "record_frames_ffmpeg");
    }
  }

  /** The job kinds are plain words: none holds a `.`. */
  lemma FuncsMapKeysDotFree(name: string)
    requires '.' in name
    ensures name !in FUNCS_MAP
  {
  }

  lemma FuncsEntry(key: string, a: string)
    requires key in FUNCS_MAP && FUNCS_MAP[key] == FUNCS_MODULE + "." + a
    requires FuncRef(FUNCS_MODULE, a) in FUNCS_DEFINED && a != ""
    requires forall i :: 0 <= i < |a| ==> a[i] != '.'
    ensures LoadFunc(key, FUNCS_MAP, FUNCS_DEFINED) == Some(FuncRef(FUNCS_MODULE, a))
  {
    LoadFuncFinds(key, FUNCS_MAP, FUNCS_DEFINED, FUNCS_MODULE, a);
  }

  /** The default `func` of `FuncRunner` is a dotted path, not a key of
      `FUNCS_MAP`, so `load_func` never resolves it. */
  const DEFAULT_FUNC := "screenio.record.record_video_pil"

  lemma DefaultFuncUnresolved(importable: set<FuncRef>)
    ensures LoadFunc(DEFAULT_FUNC, FUNCS_MAP, importable) == None
  {
    assert DEFAULT_FUNC !in FUNCS_MAP;
  }

  // ---------------------------------------------------------------------------
  // format_now: strftime, then str.format
  // ---------------------------------------------------------------------------

  /** A `datetime` reading (the clock is an input of the model). */
  datatype DateTime = DateTime(year: nat, month: nat, day: nat, hour: nat, minute: nat, second: nat)

  const DEFAULT_LAYOUT := "%Y-%m-%d_%H-%M-%S"

  /** One `strftime` directive: `%Y` is the plain year (as the C library
      prints it), the others two-digit zero-padded fields, `%%` a percent sign. */
  function Directive(c: char, d: DateTime): string
  {
    match c
    case 'Y' => Decimal(d.year)
    case 'm' => ZeroPad(d.month, 2)
    case 'd' => ZeroPad(d.day, 2)
    case 'H' => ZeroPad(d.hour, 2)
    case 'M' => ZeroPad(d.minute, 2)
    case 'S' => ZeroPad(d.second, 2)
    case '%' => "%"
    case _ => ['%', c]
  }

  /** `d.strftime(layout)`. */
  function Strftime(layout: string, d: DateTime): string
  {
    if layout == [] then []
    else if layout[0] == '%' && |layout| >= 2 then Directive(layout[1], d) + Strftime(layout[2..], d)
    else [layout[0]] + Strftime(layout[1..], d)
  }

  /** A layout without directives is copied as written. */
  lemma {:induction false} StrftimePlain(layout: string, d: DateTime)
    requires '%' !in layout
    ensures Strftime(layout, d) == layout
  {
    if layout != [] {
      assert layout == [layout[0]] + layout[1..];
      StrftimePlain(layout[1..], d);
    }
  }

  predicate NoBraces(s: string) { '{' !in s && '}' !in s }

  /** How the fields met so far were numbered. `str.format` refuses to mix
      automatic `{}` fields with explicit `{0}` ones; with one argument, an
      automatic field after the first has no argument left. */
  datatype Numbering = Unnumbered | Automatic | Manual

  /** Why `template.format(arg)` fails. Every error but `FieldNotModelled`
      is an exception Python raises; `FieldNotModelled` marks a field whose
      meaning this model does not evaluate. */
  datatype FormatError =
    | SingleBrace                 // ValueError: a lone `{` at the end or a lone `}`
    | UnclosedField               // ValueError: a field whose `}` never comes
    | NumberingSwitch             // ValueError: `{}` and `{0}` in one template
    | ReplacementIndexOutOfRange  // IndexError: a field past the one argument
                                  // (ValueError for an index too wide to parse)
    | MissingKey                  // KeyError: a named field, with no keyword arguments
    | FieldNotModelled            // nesting, `.` or `[` access, `!r`, `!a` and other format specs

  function Prepend(p: string, r: Result<string, FormatError>): Result<string, FormatError>
  {
    match r
    case Ok(s) => Ok(p + s)
    case Err(e) => Err(e)
  }

  /** Where the field that follows a `{` ends: the position of the first `}`,
      or `None` when the template ends first. */
  function FieldLength(t: string): (r: Option<nat>)
    ensures r.Some? ==> r.value < |t| && t[r.value] == '}' && '}' !in t[..r.value]
    ensures r.None? ==> '}' !in t
  {
    if t == [] then None
    else if t[0] == '}' then Some(0)
    else match FieldLength(t[1..])
      case None => None
      case Some(n) =>
        assert t[..n + 1] == [t[0]] + t[1..][..n];
        Some(n + 1)
  }

  /** The length of a field's name: its text before the first `:` or `!`. */
  function NameLength(f: string): (r: nat)
    ensures r <= |f|
    ensures forall i :: 0 <= i < r ==> f[i] != ':' && f[i] != '!'
    ensures r < |f| ==> f[r] == ':' || f[r] == '!'
  {
    if f == [] || f[0] == ':' || f[0] == '!' then 0 else 1 + NameLength(f[1..])
  }

  /** A conversion and format spec that leave a string argument as it is:
      none, `!s`, an empty spec or the `s` type. */
  predicate PlainSpec(s: string) { s in ["", ":", ":s", "!s", "!s:", "!s:s"] }

  predicate Ascii(s: string) { forall i :: 0 <= i < |s| ==> s[i] < 128 as char }

  predicate AllZeros(s: string) { forall i :: 0 <= i < |s| ==> s[i] == '0' }

  /** The text the field `{f}` stands for, given how the fields before it
      were numbered, and the numbering after it. An empty name takes the
      next automatic index, a decimal name is an explicit index, and any
      other name is looked up among the (absent) keyword arguments. */
  function RenderField(f: string, arg: string, mode: Numbering): (r: Result<(string, Numbering), FormatError>)
    ensures r.Ok? ==> r.value.0 == arg && r.value.1 != Unnumbered
    ensures mode == Automatic ==> r.Err?
    ensures mode == Manual && r.Ok? ==> r.value.1 == Manual
  {
    var n := NameLength(f);
    if '.' in f || '[' in f || !PlainSpec(f[n..]) || !Ascii(f[..n]) then Err(FieldNotModelled)
    else if n == 0 then
      match mode
      case Unnumbered => Ok((arg, Automatic))
      case Automatic => Err(ReplacementIndexOutOfRange)
      case Manual => Err(NumberingSwitch)
    else if AllDigits(f[..n]) then
      if mode.Automatic? then Err(NumberingSwitch)
      else if AllZeros(f[..n]) then Ok((arg, Manual))
      else Err(ReplacementIndexOutOfRange)
    else Err(MissingKey)
  }

  /** `template.format(arg)` from the current position, the fields before it
      having been numbered as `mode` says. */
  function FormatFrom(template: string, arg: string, mode: Numbering): Result<string, FormatError>
    decreases |template|
  {
    if template == [] then Ok([])
    else if template[0] == '{' then
      if |template| == 1 then Err(SingleBrace)
      else if template[1] == '{' then Prepend("{", FormatFrom(template[2..], arg, mode))
      else match FieldLength(template[1..])
        case None => Err(UnclosedField)
        case Some(n) =>
          if '{' in template[1..n + 1] then Err(FieldNotModelled)
          else
            var r := RenderField(template[1..n + 1], arg, mode);
            if r.Err? then Err(r.error) else Prepend(r.value.0, FormatFrom(template[n + 2..], arg, r.value.1))
    else if template[0] == '}' then
      if |template| >= 2 && template[1] == '}' then Prepend("}", FormatFrom(template[2..], arg, mode))
      else Err(SingleBrace)
    else Prepend([template[0]], FormatFrom(template[1..], arg, mode))
  }

  /** `template.format(arg)` with one positional argument. */
  function Format(template: string, arg: string): Result<string, FormatError>
  {
    FormatFrom(template, arg, Unnumbered)
  }

  /** `format_now(format_str, format_datetime)` at the clock reading `now`. */
  function FormatNow(template: string, layout: string, now: DateTime): Result<string, FormatError>
  {
    Format(template, Strftime(layout, now))
  }

  lemma {:induction false} FormatBraceFree(s: string, arg: string, mode: Numbering)
    requires NoBraces(s)
    ensures FormatFrom(s, arg, mode) == Ok(s)
  {
    if s != [] {
      assert s == [s[0]] + s[1..];
      FormatBraceFree(s[1..], arg, mode);
    }
  }

  lemma {:induction false} FormatBraceFreePrefix(p: string, rest: string, arg: string, mode: Numbering)
    requires NoBraces(p)
    ensures FormatFrom(p + rest, arg, mode) == Prepend(p, FormatFrom(rest, arg, mode))
  {
    if p == [] {
      assert p + rest == rest;
      match FormatFrom(rest, arg, mode)
      case Ok(s) => assert p + s == s;
      case Err(_) =>
    } else {
      assert (p + rest)[0] == p[0] && (p + rest)[1..] == p[1..] + rest;
      FormatBraceFreePrefix(p[1..], rest, arg, mode);
      match FormatFrom(rest, arg, mode)
      case Ok(s) => assert [p[0]] + (p[1..] + s) == p + s;
      case Err(_) =>
    }
  }

  /** A brace-free field text `f` between `{` and `}` is rendered on its own
      and the rest of the template follows with the numbering it leaves. */
  lemma FieldAt(f: string, rest: string, arg: string, mode: Numbering)
    requires NoBraces(f)
    ensures var r := RenderField(f, arg, mode);
      FormatFrom("{" + f + "}" + rest, arg, mode)
        == if r.Err? then Err(r.error) else Prepend(r.value.0, FormatFrom(rest, arg, r.value.1))
  {
    FieldSplit(f, rest);
  }

  /** Where `{f}` and what follows it sit in `{f}rest`. */
  lemma FieldSplit(f: string, rest: string)
    requires NoBraces(f)
    ensures var t := "{" + f + "}" + rest;
      && |t| >= 2 && t[0] == '{' && t[1] != '{'
      && FieldLength(t[1..]) == Some(|f|) && t[1..|f| + 1] == f && t[|f| + 2..] == rest
  {
    var t := "{" + f + "}" + rest;
    var u := f + "}" + rest;
    assert t[1..] == u && u[..|f|] == f && u[|f|] == '}';
    assert t[1..|f| + 1] == f && t[|f| + 2..] == rest;
  }

  /** A replacement field that stands for the one argument itself: `{}` or
      an explicit index made of zeros (`{0}`), optionally with the `!s`
      conversion and an empty or `s` format spec. */
  predicate ArgField(field: string)
  {
    && |field| >= 2 && field[0] == '{' && field[|field| - 1] == '}'
    && var f := field[1..|field| - 1];
       && NoBraces(f) && '.' !in f && '[' !in f
       && AllZeros(f[..NameLength(f)]) && PlainSpec(f[NameLength(f)..])
  }

  /** `{}` and `{0}` both stand for the argument. */
  lemma ArgFieldsPlain()
    ensures ArgField("{}") && ArgField("{0}")
  {
    assert "{}"[1..1] == "" && NameLength("") == 0;
    assert "{0}"[1..2] == "0" && NameLength("0") == 1 && "0"[..1] == "0" && "0"[1..] == "";
  }

  /** An argument field in front of `rest` puts the argument there, and sets
      the numbering to automatic (`{}`) or manual (`{0}`). */
  lemma ArgFieldAt(field: string, rest: string, arg: string)
    requires ArgField(field)
    ensures var f := field[1..|field| - 1];
            var m := if NameLength(f) == 0 then Automatic else Manual;
            FormatFrom(field + rest, arg, Unnumbered) == Prepend(arg, FormatFrom(rest, arg, m))
  {
    var f := field[1..|field| - 1];
    assert field == "{" + f + "}";
    FieldAt(f, rest, arg, Unnumbered);
  }

  /** A template with one field standing for the argument, and no other
      brace, gets the argument in place of that field and keeps everything
      else as it is: `{}` and `{0}` alike. */
  lemma FormatSubstitutes(pre: string, field: string, post: string, arg: string)
    requires NoBraces(pre) && ArgField(field) && NoBraces(post)
    ensures Format(pre + field + post, arg) == Ok(pre + arg + post)
  {
    var f := field[1..|field| - 1];
    var m := if NameLength(f) == 0 then Automatic else Manual;
    assert FormatFrom(post, arg, m) == Ok(post) by { FormatBraceFree(post, arg, m); }
    assert FormatFrom(field + post, arg, Unnumbered) == Ok(arg + post) by { ArgFieldAt(field, post, arg); }
    assert FormatFrom(pre + (field + post), arg, Unnumbered) == Ok(pre + (arg + post)) by {
      FormatBraceFreePrefix(pre, field + post, arg, Unnumbered);
    }
    assert pre + field + post == pre + (field + post);
    assert pre + (arg + post) == pre + arg + post;
  }

  /** How the fields `{}`, `{0}` and `{name}` render after each numbering. */
  lemma RenderAuto(arg: string, mode: Numbering)
    ensures mode.Unnumbered? ==> RenderField("", arg, mode) == Ok((arg, Automatic))
    ensures mode.Automatic? ==> RenderField("", arg, mode) == Err(ReplacementIndexOutOfRange)
    ensures mode.Manual? ==> RenderField("", arg, mode) == Err(NumberingSwitch)
  {
    assert NameLength("") == 0 && ""[0..] == "" && ""[..0] == "";
  }

  lemma RenderZero(arg: string, mode: Numbering)
    ensures !mode.Automatic? ==> RenderField("0", arg, mode) == Ok((arg, Manual))
    ensures mode.Automatic? ==> RenderField("0", arg, mode) == Err(NumberingSwitch)
  {
    assert NameLength("0") == 1 && "0"[..1] == "0" && "0"[1..] == "";
  }

  /** `{0}.mp4` puts the argument before `.mp4`, as the default `{}.mp4`
      does (`FormatNowDefault`). */
  lemma FormatIndexMp4(arg: string)
    ensures Format("{0}.mp4", arg) == Ok(arg + ".mp4")
  {
    Mp4Templates();
    ArgFieldsPlain();
    FormatSubstitutes("", "{0}", ".mp4", arg);
    assert "" + arg + ".mp4" == arg + ".mp4";
  }

  lemma Mp4Templates()
    ensures "" + "{0}" + ".mp4" == "{0}.mp4" && "" + "{}" + ".mp4" == "{}.mp4"
  {
  }

  /** `{}` and `{0}` spelt out as a field text between braces. */
  lemma FieldLiterals()
    ensures "{}" == "{" + "" + "}" && "{0}" == "{" + "0" + "}"
  {
  }

  lemma Concat4(a: string, b: string, c: string, d: string)
    ensures a + b + c + d == a + (b + (c + d))
  {
  }

  lemma Concat5(a: string, b: string, c: string, d: string, e: string)
    ensures a + b + c + d + e == a + (b + (c + (d + e)))
  {
  }

  /** A second `{}` has no argument left: Python raises `IndexError`. */
  lemma FormatTwoFields(pre: string, mid: string, post: string, arg: string)
    requires NoBraces(pre) && NoBraces(mid)
    ensures Format(pre + "{}" + mid + "{}" + post, arg) == Err(ReplacementIndexOutOfRange)
  {
    FieldLiterals();
    Concat5(pre, "{}", mid, "{}", post);
    var t1 := mid + ("{}" + post);
    assert FormatFrom("{}" + post, arg, Automatic) == Err(ReplacementIndexOutOfRange) by {
      RenderAuto(arg, Automatic);
      FieldAt("", post, arg, Automatic);
    }
    assert FormatFrom(t1, arg, Automatic) == Err(ReplacementIndexOutOfRange) by {
      FormatBraceFreePrefix(mid, "{}" + post, arg, Automatic);
    }
    assert FormatFrom("{}" + t1, arg, Unnumbered) == Err(ReplacementIndexOutOfRange) by {
      RenderAuto(arg, Unnumbered);
      FieldAt("", t1, arg, Unnumbered);
    }
    FormatBraceFreePrefix(pre, "{}" + t1, arg, Unnumbered);
  }

  /** An explicit `{0}` may repeat: every occurrence is the argument. */
  lemma FormatRepeatedIndex(pre: string, mid: string, post: string, arg: string)
    requires NoBraces(pre) && NoBraces(mid) && NoBraces(post)
    ensures Format(pre + "{0}" + mid + "{0}" + post, arg) == Ok(pre + arg + mid + arg + post)
  {
    FieldLiterals();
    Concat5(pre, "{0}", mid, "{0}", post);
    Concat5(pre, arg, mid, arg, post);
    var t1 := mid + ("{0}" + post);
    assert FormatFrom("{0}" + post, arg, Manual) == Ok(arg + post) by {
      RenderZero(arg, Manual);
      FieldAt("0", post, arg, Manual);
      FormatBraceFree(post, arg, Manual);
    }
    assert FormatFrom(t1, arg, Manual) == Ok(mid + (arg + post)) by {
      FormatBraceFreePrefix(mid, "{0}" + post, arg, Manual);
    }
    assert FormatFrom("{0}" + t1, arg, Unnumbered) == Ok(arg + (mid + (arg + post))) by {
      RenderZero(arg, Unnumbered);
      FieldAt("0", t1, arg, Unnumbered);
    }
    FormatBraceFreePrefix(pre, "{0}" + t1, arg, Unnumbered);
  }

  /** An explicit `{0}` after an automatic `{}` raises `ValueError`. */
  lemma FormatMixedNumbering(pre: string, mid: string, post: string, arg: string)
    requires NoBraces(pre) && NoBraces(mid)
    ensures Format(pre + "{}" + mid + "{0}" + post, arg) == Err(NumberingSwitch)
  {
    FieldLiterals();
    Concat5(pre, "{}", mid, "{0}", post);
    var t1 := mid + ("{0}" + post);
    assert FormatFrom("{0}" + post, arg, Automatic) == Err(NumberingSwitch) by {
      RenderZero(arg, Automatic);
      FieldAt("0", post, arg, Automatic);
    }
    assert FormatFrom(t1, arg, Automatic) == Err(NumberingSwitch) by {
      FormatBraceFreePrefix(mid, "{0}" + post, arg, Automatic);
    }
    assert FormatFrom("{}" + t1, arg, Unnumbered) == Err(NumberingSwitch) by {
      RenderAuto(arg, Unnumbered);
      FieldAt("", t1, arg, Unnumbered);
    }
    FormatBraceFreePrefix(pre, "{}" + t1, arg, Unnumbered);
  }

  /** A lower-case name such as `{name}` or `{date}`. */
  predicate LowerName(name: string)
  {
    name != [] && forall i :: 0 <= i < |name| ==> 'a' <= name[i] <= 'z' || name[i] == '_'
  }

  lemma RenderNamed(name: string, arg: string, mode: Numbering)
    requires LowerName(name)
    ensures NoBraces(name) && RenderField(name, arg, mode) == Err(MissingKey)
  {
    assert NameLength(name) == |name|;
    assert name[..|name|] == name && name[|name|..] == "";
    assert !IsDigit(name[0]);
  }

  /** A named field looks for a keyword argument `format_now` never passes:
      Python raises `KeyError`. */
  lemma FormatNamedField(pre: string, name: string, post: string, arg: string)
    requires NoBraces(pre) && LowerName(name)
    ensures Format(pre + "{" + name + "}" + post, arg) == Err(MissingKey)
  {
    var t := "{" + name + "}" + post;
    Concat5(pre, "{", name, "}", post);
    Concat4("{", name, "}", post);
    assert FormatFrom(t, arg, Unnumbered) == Err(MissingKey) by {
      RenderNamed(name, arg, Unnumbered);
      FieldAt(name, post, arg, Unnumbered);
    }
    FormatBraceFreePrefix(pre, t, arg, Unnumbered);
  }

  // The default layout, field by field.

  /** The default time stamp, `YYYY-MM-DD_HH-MM-SS`, built from the right. */
  function Stamp(d: DateTime): string
  {
    Decimal(d.year) + ("-" + (ZeroPad(d.month, 2) + ("-" + (ZeroPad(d.day, 2) + ("_"
      + (ZeroPad(d.hour, 2) + ("-" + (ZeroPad(d.minute, 2) + ("-" + ZeroPad(d.second, 2))))))))))
  }

  /** A directive at position `k` of the layout. */
  lemma StrftimeDirectiveAt(layout: string, k: nat, d: DateTime)
    requires k + 1 < |layout| && layout[k] == '%'
    ensures Strftime(layout[k..], d) == Directive(layout[k + 1], d) + Strftime(layout[k + 2..], d)
  {
    assert layout[k..][2..] == layout[k + 2..];
  }

  /** A plain character at position `k` of the layout. */
  lemma StrftimeLiteralAt(layout: string, k: nat, d: DateTime)
    requires k < |layout| && layout[k] != '%'
    ensures Strftime(layout[k..], d) == [layout[k]] + Strftime(layout[k + 1..], d)
  {
    assert layout[k..][1..] == layout[k + 1..];
  }

  /** The time part `%H-%M-%S` of the default layout. */
  lemma DefaultLayoutTime(d: DateTime)
    ensures Strftime(DEFAULT_LAYOUT[9..], d)
         == ZeroPad(d.hour, 2) + ("-" + (ZeroPad(d.minute, 2) + ("-" + ZeroPad(d.second, 2))))
  {
    var l := DEFAULT_LAYOUT;
    assert |l| == 17 && l[17..] == [];
    var t10 := ZeroPad(d.second, 2);
    assert Strftime(l[15..], d) == t10 by { StrftimeDirectiveAt(l, 15, d); }
    var t9 := "-" + t10;
    assert Strftime(l[14..], d) == t9 by { StrftimeLiteralAt(l, 14, d); }
    var t8 := ZeroPad(d.minute, 2) + t9;
    assert Strftime(l[12..], d) == t8 by { StrftimeDirectiveAt(l, 12, d); }
    var t7 := "-" + t8;
    assert Strftime(l[11..], d) == t7 by { StrftimeLiteralAt(l, 11, d); }
    StrftimeDirectiveAt(l, 9, d);
  }

  /** The day part `-%d_` of the default layout. */
  lemma DefaultLayoutDay(d: DateTime)
    ensures Strftime(DEFAULT_LAYOUT[5..], d)
         == "-" + (ZeroPad(d.day, 2) + ("_" + Strftime(DEFAULT_LAYOUT[9..], d)))
  {
    var l := DEFAULT_LAYOUT;
    var t5 := "_" + Strftime(l[9..], d);
    assert Strftime(l[8..], d) == t5 by { StrftimeLiteralAt(l, 8, d); }
    var t4 := ZeroPad(d.day, 2) + t5;
    assert Strftime(l[6..], d) == t4 by { StrftimeDirectiveAt(l, 6, d); }
    StrftimeLiteralAt(l, 5, d);
  }

  /** The date part `%Y-%m-%d_` of the default layout. */
  lemma DefaultLayoutDate(d: DateTime)
    ensures Strftime(DEFAULT_LAYOUT, d)
         == Decimal(d.year) + ("-" + (ZeroPad(d.month, 2) + ("-" + (ZeroPad(d.day, 2)
          + ("_" + Strftime(DEFAULT_LAYOUT[9..], d))))))
  {
    var l := DEFAULT_LAYOUT;
    var t3 := "-" + (ZeroPad(d.day, 2) + ("_" + Strftime(l[9..], d)));
    assert Strftime(l[5..], d) == t3 by { DefaultLayoutDay(d); }
    var t2 := ZeroPad(d.month, 2) + t3;
    assert Strftime(l[3..], d) == t2 by { StrftimeDirectiveAt(l, 3, d); }
    var t1 := "-" + t2;
    assert Strftime(l[2..], d) == t1 by { StrftimeLiteralAt(l, 2, d); }
    assert Strftime(l[0..], d) == Decimal(d.year) + t1 by { StrftimeDirectiveAt(l, 0, d); }
    assert l[0..] == l;
  }

  lemma DefaultLayoutExpands(d: DateTime)
    ensures Strftime(DEFAULT_LAYOUT, d) == Stamp(d)
  {
    DefaultLayoutDate(d);
    DefaultLayoutTime(d);
  }

  /** Reads a default-layout time stamp back: fixed positions, digits between
      the separators. */
  function ParseStamp(s: string): Option<DateTime>
  {
    if |s| == 19 && AllDigits(s[0..4]) && s[4] == '-' && AllDigits(s[5..7]) && s[7] == '-'
      && AllDigits(s[8..10]) && s[10] == '_' && AllDigits(s[11..13]) && s[13] == '-'
      && AllDigits(s[14..16]) && s[16] == '-' && AllDigits(s[17..19])
    then Some(DateTime(Value(s[0..4]), Value(s[5..7]), Value(s[8..10]),
                       Value(s[11..13]), Value(s[14..16]), Value(s[17..19])))
    else None
  }

  predicate FourDigitYear(d: DateTime)
  {
    1000 <= d.year <= 9999 && d.month < 100 && d.day < 100 && d.hour < 100 && d.minute < 100 && d.second < 100
  }

  /** The default time stamp has the fixed `YYYY-MM-DD_HH-MM-SS` shape, holds
      no brace, and determines the clock reading it was made from. */
  lemma DefaultStampRoundTrip(d: DateTime)
    requires FourDigitYear(d)
    ensures |Strftime(DEFAULT_LAYOUT, d)| == 19
    ensures NoBraces(Strftime(DEFAULT_LAYOUT, d))
    ensures ParseStamp(Strftime(DEFAULT_LAYOUT, d)) == Some(d)
  {
    DefaultLayoutExpands(d);
    StampFields(d);
    var s := Stamp(d);
    ValueDecimal(d.year);
    ValueZeroPad(d.month, 2);
    ValueZeroPad(d.day, 2);
    ValueZeroPad(d.hour, 2);
    ValueZeroPad(d.minute, 2);
    ValueZeroPad(d.second, 2);
    assert NoBraces(s) by {
      forall i | 0 <= i < |s| ensures s[i] != '{' && s[i] != '}' {
        StampChar(d, i);
      }
    }
  }

  /** Every character of a stamp is a digit or one of its separators. */
  lemma StampChar(d: DateTime, i: nat)
    requires FourDigitYear(d) && i < |Stamp(d)|
    ensures IsDigit(Stamp(d)[i]) || Stamp(d)[i] in "-_"
  {
    StampFields(d);
    var s := Stamp(d);
    if i < 4 { assert s[i] == s[0..4][i]; }
    else if 5 <= i < 7 { assert s[i] == s[5..7][i - 5]; }
    else if 8 <= i < 10 { assert s[i] == s[8..10][i - 8]; }
    else if 11 <= i < 13 { assert s[i] == s[11..13][i - 11]; }
    else if 14 <= i < 16 { assert s[i] == s[14..16][i - 14]; }
    else if 17 <= i { assert s[i] == s[17..19][i - 17]; }
  }

  /** Where the fields of a stamp sit. */
  lemma StampFields(d: DateTime)
    requires FourDigitYear(d)
    ensures var s := Stamp(d);
      && |s| == 19
      && s[0..4] == Decimal(d.year) && s[4] == '-'
      && s[5..7] == ZeroPad(d.month, 2) && s[7] == '-'
      && s[8..10] == ZeroPad(d.day, 2) && s[10] == '_'
      && s[11..13] == ZeroPad(d.hour, 2) && s[13] == '-'
      && s[14..16] == ZeroPad(d.minute, 2) && s[16] == '-'
      && s[17..19] == ZeroPad(d.second, 2)
  {
    YearDigits(d.year);
    TwoDigits(d.month);
    TwoDigits(d.day);
    TwoDigits(d.hour);
    TwoDigits(d.minute);
    TwoDigits(d.second);
    var y, mo, dd, h, mi, se := Decimal(d.year), ZeroPad(d.month, 2), ZeroPad(d.day, 2),
      ZeroPad(d.hour, 2), ZeroPad(d.minute, 2), ZeroPad(d.second, 2);
    var t := h + ("-" + (mi + ("-" + se)));
    TimeFields(h, mi, se);
    DateFields(y, mo, dd, t);
    var s := Stamp(d);
    assert s[11..13] == t[0..2] && s[13] == t[2] by { assert s[11..19] == t; }
    assert s[14..16] == t[3..5] && s[16] == t[5] by { assert s[11..19] == t; }
    assert s[17..19] == t[6..8] by { assert s[11..19] == t; }
  }

  /** Where the parts of `HH-MM-SS` sit. */
  lemma TimeFields(h: string, mi: string, se: string)
    requires |h| == 2 && |mi| == 2 && |se| == 2
    ensures var t := h + ("-" + (mi + ("-" + se)));
      && |t| == 8 && t[0..2] == h && t[2] == '-' && t[3..5] == mi && t[5] == '-' && t[6..8] == se
  {
    var t := h + ("-" + (mi + ("-" + se)));
    assert t[3..] == mi + ("-" + se);
    assert t[6..] == se;
  }

  /** Where the parts of `YYYY-MM-DD_` sit in front of the time `t`. */
  lemma DateFields(y: string, mo: string, dd: string, t: string)
    requires |y| == 4 && |mo| == 2 && |dd| == 2
    ensures var s := y + ("-" + (mo + ("-" + (dd + ("_" + t)))));
      && |s| == 11 + |t| && s[0..4] == y && s[4] == '-' && s[5..7] == mo && s[7] == '-'
      && s[8..10] == dd && s[10] == '_' && s[11..] == t
  {
    var s := y + ("-" + (mo + ("-" + (dd + ("_" + t)))));
    assert s[5..] == mo + ("-" + (dd + ("_" + t)));
    assert s[8..] == dd + ("_" + t);
  }

  lemma YearDigits(year: nat)
    requires 1000 <= year <= 9999
    ensures |Decimal(year)| == 4 && Value(Decimal(year)) == year
  {
    DecimalLength(year, 4);
    ValueDecimal(year);
    var y := Decimal(year);
    if |y| < 4 {
      ValueBound(y);
      Pow10Monotone(|y|, 3);
    }
  }

  lemma TwoDigits(n: nat)
    requires n < 100
    ensures |ZeroPad(n, 2)| == 2 && Value(ZeroPad(n, 2)) == n
  {
    DecimalLength(n, 2);
    ValueZeroPad(n, 2);
  }

  lemma {:induction false} Pow10Monotone(a: nat, b: nat)
    requires a <= b
    ensures Pow10(a) <= Pow10(b)
  {
    if a < b { Pow10Monotone(a, b - 1); }
  }

  /** `format_now()` with its defaults gives `<time stamp>.mp4`. */
  lemma FormatNowDefault(d: DateTime)
    ensures FormatNow("{}.mp4", DEFAULT_LAYOUT, d) == Ok(Strftime(DEFAULT_LAYOUT, d) + ".mp4")
  {
    var stamp := Strftime(DEFAULT_LAYOUT, d);
    Mp4Templates();
    ArgFieldsPlain();
    FormatSubstitutes("", "{}", ".mp4", stamp);
    assert "" + stamp + ".mp4" == stamp + ".mp4";
  }
}
