/** screenio/triggers.py: three reporters that tell a listener, profile by
    profile, whether recording should be on. A report `self.action(name, b)`
    is an entry appended to the reporter's `log`; the reporters' polling
    threads, waits and OS listeners are replaced by explicit calls that take
    the clock reading (integer seconds) or the process check as arguments. */
module Triggers {
  import opened Wrappers
  import opened Config

  /** `self.action(name, active)` */
  datatype Report = Report(name: string, active: bool)

  // ---------------------------------------------------------------------
  // Process reporter

  /** The four constraint lists handed to the process check, in its argument
      order. */
  datatype ProcessQuery = ProcessQuery(
    requiredProc: seq<string>,
    requiredProcFiles: seq<string>,
    bannedProc: seq<string>,
    bannedProcFiles: seq<string>)

  /** The constraints of a profile; a missing key reads as the empty list. */
  function QueryOf(p: Profile): (q: ProcessQuery)
    ensures p.requiredProc.None? ==> q.requiredProc == []
    ensures p.requiredProc.Some? ==> q.requiredProc == p.requiredProc.value
    ensures p.requiredProcFiles.None? ==> q.requiredProcFiles == []
    ensures p.requiredProcFiles.Some? ==> q.requiredProcFiles == p.requiredProcFiles.value
    ensures p.bannedProc.None? ==> q.bannedProc == []
    ensures p.bannedProc.Some? ==> q.bannedProc == p.bannedProc.value
    ensures p.bannedProcFiles.None? ==> q.bannedProcFiles == []
    ensures p.bannedProcFiles.Some? ==> q.bannedProcFiles == p.bannedProcFiles.value
  {
    ProcessQuery(p.requiredProc.GetOr([]), p.requiredProcFiles.GetOr([]),
                 p.bannedProc.GetOr([]), p.bannedProcFiles.GetOr([]))
  }

  /** The process check of one cycle: `check(i, q)` is what `check_processes`
      answers on constraints `q` when it is called for the `i`-th profile, so
      the process table may change between two calls of the same cycle. */
  type ProcessCheck = (nat, ProcessQuery) -> bool

  /** The reports of one polling cycle: one per profile, in table order,
      carrying the verdict of the check made for that profile on its own
      constraints. */
  function ProcessReports(cfg: Settings, check: ProcessCheck): (log: seq<Report>)
    ensures |log| == |cfg|
    ensures forall i :: 0 <= i < |cfg| ==> log[i] == Report(cfg[i].0, check(i, QueryOf(cfg[i].1)))
  {
    if cfg == [] then []
    else
      var n := |cfg| - 1;
      ProcessReports(cfg[..n], check) + [Report(cfg[n].0, check(n, QueryOf(cfg[n].1)))]
  }

  /** With distinct profile names, a cycle reports each profile exactly once. */
  lemma ProcessReportsOncePerProfile(cfg: Settings, check: ProcessCheck, i: nat)
    requires DistinctNames(cfg) && i < |cfg|
    ensures forall j :: 0 <= j < |cfg| && ProcessReports(cfg, check)[j].name == cfg[i].0 ==> j == i
  {
  }

  /** The reports of consecutive cycles, one process check per cycle. */
  function CyclesReports(cfg: Settings, checks: seq<ProcessCheck>): (log: seq<Report>)
    ensures |log| == |checks| * |cfg|
  {
    if checks == [] then []
    else CyclesReports(cfg, checks[..|checks| - 1]) + ProcessReports(cfg, checks[|checks| - 1])
  }

  /** The log of a run starts with the cycles before `c` followed by cycle
      `c`'s own reports: each cycle's block comes after the earlier ones. */
  lemma {:induction false} CyclesReportsPrefix(cfg: Settings, checks: seq<ProcessCheck>, c: nat)
    requires c < |checks|
    ensures CyclesReports(cfg, checks[..c]) + ProcessReports(cfg, checks[c]) <= CyclesReports(cfg, checks)
    decreases |checks|
  {
    var n := |checks|;
    var prefix := checks[..n - 1];
    assert CyclesReports(cfg, checks) == CyclesReports(cfg, prefix) + ProcessReports(cfg, checks[n - 1]);
    if c < n - 1 {
      CyclesReportsPrefix(cfg, prefix, c);
      assert prefix[..c] == checks[..c];
      assert prefix[c] == checks[c];
    }
  }

  class ProcessesTrigger {
    const config: Settings
    var log: seq<Report>

    constructor (cfg: Settings)
      ensures config == cfg && log == []
    {
      config := cfg;
      log := [];
    }

    /** One pass of `for name, conf in self.config.items()`. */
    method Cycle(check: ProcessCheck)
      modifies this
      ensures log == old(log) + ProcessReports(config, check)
    {
      for i := 0 to |config|
        invariant log == old(log) + ProcessReports(config[..i], check)
      {
        var name, conf := config[i].0, config[i].1;
        log := log + [Report(name, check(i, QueryOf(conf)))];
        assert config[..i + 1][..i] == config[..i];
      }
      assert config[..|config|] == config;
    }

    /** The `while not self.running.is_set()` loop, for as many cycles as
        there are checks before the stop flag is seen. */
    method Run(checks: seq<ProcessCheck>)
      modifies this
      ensures log == old(log) + CyclesReports(config, checks)
    {
      for c := 0 to |checks|
        invariant log == old(log) + CyclesReports(config, checks[..c])
      {
        Cycle(checks[c]);
        assert checks[..c + 1][..c] == checks[..c];
      }
      assert checks[..|checks|] == checks;
    }
  }

  // ---------------------------------------------------------------------
  // File-system reporter

  const DEFAULT_FILE_SYSTEM_DT := 300
  const DEFAULT_PATTERNS := ["*.py"]

  /** `conf.get('file_system_dt', 300)` */
  function FileSystemDt(p: Profile): int { p.fileSystemDt.GetOr(DEFAULT_FILE_SYSTEM_DT) }

  /** A directory watch scheduled for a profile. */
  datatype Watch = Watch(name: string, dir: string, patterns: seq<string>)

  /** `if dirname:` holds for a present, non-empty directory. */
  predicate Watched(p: Profile)
  {
    p.fileSystemDir.Some? && p.fileSystemDir.value != ""
  }

  /** The watches `run` schedules, in table order: one per profile with a
      non-empty `file_system_dir`, with its patterns or `['*.py']`. */
  function Watches(cfg: Settings): (ws: seq<Watch>)
    ensures forall w :: w in ws ==> w.dir != ""
    ensures forall w :: w in ws ==> w.name in Names(cfg)
  {
    if cfg == [] then []
    else
      var rest := Watches(cfg[..|cfg| - 1]);
      var (name, p) := cfg[|cfg| - 1];
      if Watched(p) then rest + [Watch(name, p.fileSystemDir.value, p.fileSystemPatterns.GetOr(DEFAULT_PATTERNS))]
      else rest
  }

  /** A profile gets a watch exactly when its directory is non-empty, and the
      watch carries its directory and its patterns or the default ones. */
  lemma {:induction false} WatchesExactly(cfg: Settings, i: nat)
    requires i < |cfg|
    ensures Watched(cfg[i].1) ==>
      Watch(cfg[i].0, cfg[i].1.fileSystemDir.value, cfg[i].1.fileSystemPatterns.GetOr(DEFAULT_PATTERNS)) in Watches(cfg)
    ensures forall w :: w in Watches(cfg) ==> exists j :: 0 <= j < |cfg| && w.name == cfg[j].0 && Watched(cfg[j].1)
  {
    WatchesSound(cfg);
    var n := |cfg|;
    if i < n - 1 {
      WatchesExactly(cfg[..n - 1], i);
    }
  }

  lemma {:induction false} WatchesSound(cfg: Settings)
    ensures forall w :: w in Watches(cfg) ==> exists j :: 0 <= j < |cfg| && w.name == cfg[j].0 && Watched(cfg[j].1)
  {
    if cfg != [] {
      var n := |cfg|;
      WatchesSound(cfg[..n - 1]);
      forall w | w in Watches(cfg)
        ensures exists j :: 0 <= j < n && w.name == cfg[j].0 && Watched(cfg[j].1)
      {
        if w in Watches(cfg[..n - 1]) {
          var j :| 0 <= j < n - 1 && w.name == cfg[..n - 1][j].0 && Watched(cfg[..n - 1][j].1);
          assert cfg[..n - 1][j] == cfg[j];
        } else {
          assert w.name == cfg[n - 1].0 && Watched(cfg[n - 1].1);
        }
      }
    }
  }

  /** The False reports of one check: every profile with recorded activity,
      in the order it was first recorded, whose last activity is more than
      its `file_system_dt` seconds before `now`. */
  function TimedOut(order: seq<string>, last: map<string, int>, cfg: Settings, now: int): (log: seq<Report>)
    requires forall n :: n in order ==> n in last && n in Names(cfg)
    ensures forall r :: r in log ==> !r.active && r.name in order
  {
    if order == [] then []
    else
      var n := order[|order| - 1];
      var rest := TimedOut(order[..|order| - 1], last, cfg, now);
      if now - last[n] > FileSystemDt(Lookup(cfg, n)) then rest + [Report(n, false)] else rest
  }

  /** A profile is reported False exactly when it has recorded activity and
      its timeout is strictly exceeded. */
  lemma {:induction false} TimedOutExactly(order: seq<string>, last: map<string, int>, cfg: Settings, now: int, n: string)
    requires forall m :: m in order ==> m in last && m in Names(cfg)
    ensures Report(n, false) in TimedOut(order, last, cfg, now) <==>
      n in order && now - last[n] > FileSystemDt(Lookup(cfg, n))
  {
    if order != [] {
      var k := |order| - 1;
      TimedOutExactly(order[..k], last, cfg, now, n);
      assert order == order[..k] + [order[k]];
    }
  }

  class FileSystemTrigger {
    const config: Settings
    /** Whether `run` has set `self.last` and scheduled the watches. */
    var started: bool
    /** `self.last`: the time of each profile's latest event. */
    var last: map<string, int>
    /** The keys of `self.last` in insertion order (the dict's order). */
    var order: seq<string>
    var watches: seq<Watch>
    var log: seq<Report>

    /** `order` lists the keys of `last`, each once; only watched profiles
        have events. */
    ghost predicate Valid()
      reads this
    {
      && (forall n :: n in order <==> n in last)
      && (forall i, j :: 0 <= i < j < |order| ==> order[i] != order[j])
      && (forall n :: n in last ==> n in Names(config))
      && (started ==> watches == Watches(config))
      && (!started ==> last == map[])
    }

    constructor (cfg: Settings)
      ensures config == cfg && !started && last == map[] && order == [] && watches == [] && log == []
      ensures Valid()
    {
      config := cfg;
      started := false;
      last := map[];
      order := [];
      watches := [];
      log := [];
    }

    /** The start of `run`: `self.last = {}` and one watch per profile with a
        directory. */
    method Start()
      modifies this
      ensures Valid() && started && last == map[] && order == []
      ensures watches == Watches(config) && log == old(log)
    {
      started := true;
      last := map[];
      order := [];
      watches := Watches(config);
    }

    /** `on_action`: an event in a watched directory of profile `name` at
        time `now`. */
    method OnAction(name: string, now: int)
      requires Valid() && started
      requires exists w :: w in watches && w.name == name
      modifies this
      ensures Valid() && started && watches == old(watches)
      ensures last == old(last)[name := now]
      ensures order == if name in old(last) then old(order) else old(order) + [name]
      ensures log == old(log) + [Report(name, true)]
    {
      if name !in last {
        order := order + [name];
      }
      last := last[name := now];
      log := log + [Report(name, true)];
    }

    /** One pass of `for name, last in self.last.items()` at time `now`. */
    method Check(now: int)
      requires Valid() && started
      modifies this
      ensures Valid() && started
      ensures last == old(last) && order == old(order) && watches == old(watches)
      ensures log == old(log) + TimedOut(order, last, config, now)
    {
      for i := 0 to |order|
        invariant started == old(started) && last == old(last) && order == old(order) && watches == old(watches)
        invariant log == old(log) + TimedOut(order[..i], last, config, now)
      {
        var name := order[i];
        assert name in order;
        assert order[..i + 1][..i] == order[..i];
        if now - last[name] > FileSystemDt(Lookup(config, name)) {
          log := log + [Report(name, false)];
        }
      }
      assert order[..|order|] == order;
    }
  }

  /** A profile that timed out keeps being reported False by every later
      check until its next event: events for other profiles may add names to
      the order and move their own times, but leave `last[n]` as it was. */
  lemma TimedOutPersists(order: seq<string>, last: map<string, int>, order2: seq<string>, last2: map<string, int>,
                         cfg: Settings, now: int, later: int, n: string)
    requires forall m :: m in order ==> m in last && m in Names(cfg)
    requires forall m :: m in order2 ==> m in last2 && m in Names(cfg)
    requires Report(n, false) in TimedOut(order, last, cfg, now) && now <= later
    requires n in order2 && n in last2 && n in last && last2[n] == last[n]
    ensures Report(n, false) in TimedOut(order2, last2, cfg, later)
  {
    TimedOutExactly(order, last, cfg, now, n);
    TimedOutExactly(order2, last2, cfg, later, n);
  }

  // ---------------------------------------------------------------------
  // Mouse and keyboard reporter

  const DEFAULT_MOUSE_KEYBOARD_DT := 60

  /** `conf.get('mouse_keyboard_dt', 60)` */
  function MouseKeyboardDt(p: Profile): int { p.mouseKeyboardDt.GetOr(DEFAULT_MOUSE_KEYBOARD_DT) }

  /** The reports of an event: True for every profile, in table order. */
  function AllActive(cfg: Settings): (log: seq<Report>)
    ensures |log| == |cfg|
    ensures forall i :: 0 <= i < |cfg| ==> log[i] == Report(cfg[i].0, true)
  {
    if cfg == [] then [] else AllActive(cfg[..|cfg| - 1]) + [Report(cfg[|cfg| - 1].0, true)]
  }

  /** The reports of one check `elapsed` seconds after the latest event:
      False for each profile whose threshold is strictly exceeded. */
  function IdleReports(cfg: Settings, elapsed: int): (log: seq<Report>)
    ensures forall r :: r in log ==> !r.active
  {
    if cfg == [] then []
    else
      var rest := IdleReports(cfg[..|cfg| - 1], elapsed);
      var (name, p) := cfg[|cfg| - 1];
      if elapsed > MouseKeyboardDt(p) then rest + [Report(name, false)] else rest
  }

  /** With distinct names, a profile is reported idle exactly when the
      elapsed time strictly exceeds its threshold. */
  lemma {:induction false} IdleExactly(cfg: Settings, elapsed: int, i: nat)
    requires DistinctNames(cfg) && i < |cfg|
    ensures Report(cfg[i].0, false) in IdleReports(cfg, elapsed) <==> elapsed > MouseKeyboardDt(cfg[i].1)
  {
    var n := |cfg|;
    var prefix := cfg[..n - 1];
    IdleNamesIn(prefix, elapsed);
    if i < n - 1 {
      assert prefix[i] == cfg[i];
      IdleExactly(prefix, elapsed, i);
      assert cfg[n - 1].0 != cfg[i].0;
    } else {
      forall j | 0 <= j < n - 1
        ensures prefix[j].0 != cfg[i].0
      {
        assert prefix[j] == cfg[j];
      }
      NameAbsent(prefix, cfg[i].0);
    }
  }

  lemma {:induction false} IdleNamesIn(cfg: Settings, elapsed: int)
    ensures forall r :: r in IdleReports(cfg, elapsed) ==> r.name in Names(cfg)
  {
    if cfg != [] {
      IdleNamesIn(cfg[..|cfg| - 1], elapsed);
    }
  }

  /** Within one check, a profile reported idle drags along every profile
      with a threshold no larger. */
  lemma IdleMonotone(cfg: Settings, elapsed: int, i: nat, j: nat)
    requires DistinctNames(cfg) && i < |cfg| && j < |cfg|
    requires Report(cfg[i].0, false) in IdleReports(cfg, elapsed)
    requires MouseKeyboardDt(cfg[j].1) <= MouseKeyboardDt(cfg[i].1)
    ensures Report(cfg[j].0, false) in IdleReports(cfg, elapsed)
  {
    IdleExactly(cfg, elapsed, i);
    IdleExactly(cfg, elapsed, j);
  }

  /** A check at the instant of the latest event reports nothing when every
      threshold is non-negative. */
  lemma {:induction false} IdleAtZero(cfg: Settings)
    requires forall i :: 0 <= i < |cfg| ==> MouseKeyboardDt(cfg[i].1) >= 0
    ensures IdleReports(cfg, 0) == []
  {
    if cfg != [] {
      IdleAtZero(cfg[..|cfg| - 1]);
    }
  }

  class MouseKeyboardTrigger {
    const config: Settings
    /** `self.last`, absent until `run` or the first event sets it. */
    var last: Option<int>
    var log: seq<Report>

    constructor (cfg: Settings)
      ensures config == cfg && last == None && log == []
    {
      config := cfg;
      last := None;
      log := [];
    }

    /** The start of `run`: `self.last = datetime.now()`. */
    method Start(now: int)
      modifies this
      ensures last == Some(now) && log == old(log)
    {
      last := Some(now);
    }

    /** `on_action`: any mouse or keyboard event at time `now`. */
    method OnAction(now: int)
      modifies this
      ensures last == Some(now)
      ensures log == old(log) + AllActive(config)
    {
      last := Some(now);
      for i := 0 to |config|
        invariant last == Some(now)
        invariant log == old(log) + AllActive(config[..i])
      {
        log := log + [Report(config[i].0, true)];
        assert config[..i + 1][..i] == config[..i];
      }
      assert config[..|config|] == config;
    }

    /** One pass of the polling loop at time `now`. */
    method Check(now: int)
      requires last.Some?
      modifies this
      ensures last == old(last)
      ensures log == old(log) + IdleReports(config, now - last.value)
    {
      var dt := now - last.value;
      for i := 0 to |config|
        invariant last == old(last)
        invariant log == old(log) + IdleReports(config[..i], dt)
      {
        var name, conf := config[i].0, config[i].1;
        assert config[..i + 1][..i] == config[..i];
        if dt > MouseKeyboardDt(conf) {
          log := log + [Report(name, false)];
        }
      }
      assert config[..|config|] == config;
    }
  }
}
