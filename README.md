# screenio: a Dafny model of the trigger-driven recorder core

screenio starts and stops background screen-recording jobs, one per named
profile, depending on trigger conditions. This project models in Dafny the
decision logic that sits between the capture libraries, threads and OS
listeners, and proves properties about it.

- **Orchestrator** (`octopus.dfy`, module `Octopus`). This models screenio/octopus.py.
  - `WorkerPool` holds the `worker` dict from profile name to `FuncRunner`.
  - One `Pass` walks the configuration in order:
    - a triggered profile without a runner gets a new one;
    - an untriggered profile with a runner has it popped and stopped;
    - every other case changes nothing.
  - `Serve` runs the passes. `RunMain` adds the shutdown after the interrupt, which stops every remaining runner.
  - `FuncRunner` resolves its function through `load_func` when given a name, and writes the output path into `kwargs['output']`.
  - A file-name template that makes `format_now` raise (a lone brace, an unclosed field, a second `{}`, `{}` mixed with `{0}`, a named field) makes the runner's construction raise. The model follows that path too: the pass ends at that profile and `main` ends.
- **Reporters** (`triggers.dfy`, module `Triggers`). This models screenio/triggers.py. Each reporter appends `self.action(name, b)` reports to a `log`.
  - The process reporter sends one report per profile per cycle.
  - The file-system reporter records the time of each profile's latest event. It reports `False` for every profile whose timeout is strictly exceeded.
  - The mouse/keyboard reporter keeps one shared time stamp. It reports `True` for every profile on any event, and `False` for every profile whose threshold is strictly exceeded.
- **Helpers** (`utils.dfy`, module `Utils`). This models screenio/utils.py:
  - the log level `setup_logger` installs, using Python's list indexing;
  - the settings-file list;
  - `FUNCS_MAP` and `load_func`, which splits at the last `.`;
  - `format_now`: `strftime` for the directives screenio uses, then `str.format` with one argument: `{}` and `{0}` fields with their numbering rules, escaped braces, named fields, and the errors Python raises for each.
- **Recorders** (`frames.dfy`, `record.dfy`, `funcs.dfy`; modules `Frames`, `Record`, `Funcs`).
  - A grab is kept when difference checking is off or when it differs from the grab before it.
  - Kept grabs are either written to a video writer or saved as `{counter:06d}.png`, counting from the directory's entry count.
  - `frames_to_video_moviepy` sorts the directory's paths with an in-place insertion sort.
  - Below a million frames, the sorted order is the counter order. From a million frames on, it no longer is (`Frames.FrameNameOrderBreaks`).
- **Shared pieces** (`config.dfy`, `text.dfy`, `wrappers.dfy`).
  - `config.dfy` holds the profile table: the configuration in its iteration order.
  - `text.dfy` holds decimal digits, zero padding, Python's string order, the last-separator split and path joining.
  - `wrappers.dfy` holds `Option`/`Result`.

Inputs the code reads from the outside world become parameters:
- a trigger verdict per profile and pass: `Octopus.Observation`;
- the clock: a `DateTime` for `format_now`, integer seconds for the reporters;
- the process check: a function from a profile's position in the cycle and its constraint lists to `bool`, so that each call of `check_processes` may see a different process table;
- the grabs: a sequence of abstract images compared with `!=`;
- `Path.resolve`: a function on strings;
- what `import_module`/`getattr` can reach: a set of `FuncRef`;
- the number of loop tests before a runner's stop flag is seen set: `Option<nat>`, where `None` means no flag.

What the code does, and the model with it:
- No report is edge-triggered or de-duplicated, and there is no aggregation of tags. A runner exists exactly while the profile's `check_trigger` verdict is true in the latest pass.
- The configuration keys are the ones the code reads: `required_proc`, `required_proc_files`, `banned_proc`, `banned_proc_files`, and so on.
- The mouse/keyboard reporter reports `True` for every profile.
- Stopped runners are not joined.
- A template that makes `format_now` raise is not caught. It ends `main` instead of skipping the profile.

## Model

| member | source | states |
|---|---|---|
| Config.Names | screenio/octopus.py:49 | every profile's name is among the names of the table |
| Config.NameAbsent | screenio/octopus.py:49 | a name no profile carries is not among the names (converse of `Names`) |
| Config.IndexOf | screenio/triggers.py:49 | `self.config[name]` finds the profile holding the name; with distinct names it is the only one |
| Config.Lookup | screenio/triggers.py:49 | `self.config[name]`: the settings at the position `IndexOf` finds; `LookupFinds` states what it gives |
| Config.LookupFinds | screenio/triggers.py:49 | `config[name]` is the settings of a profile with that name, and of the only one when names are distinct |
| Octopus.ResolveFunc | screenio/octopus.py:18-21 | a missing `func` stays `None`, a callable is kept unchanged, a string gives exactly what `load_func` gives for it over `FUNCS_MAP`, which is an importable function or `None` |
| Octopus.ResolveFuncByName | screenio/octopus.py:18-19 | a job kind of `FUNCS_MAP` resolves to its function in screenio/funcs.py whenever that module can be imported; any other string gives `None`, and so does every dotted path, the full path of a funcs.py function included |
| Octopus.DirectoryOf | screenio/octopus.py:54 | `data.get('directory', '.')`; `RunnerFor`, which `Pass` ensures of every new runner, states its use |
| Octopus.FilenameOf | screenio/octopus.py:55 | `data.get('filename', '{}.mp4')`; its default is the template of `OutputPathDefault` |
| Octopus.KwargsOf | screenio/octopus.py:56 | `data.get('kwargs', {})`; `RunnerFor` states that a new runner holds it with only `output` set |
| Octopus.OutputPath | screenio/octopus.py:27 | `format_now(filename)` joined onto the resolved directory, or the error that makes `__init__` raise; a brace-free file name is joined on as written; `OutputPathDefault`, `OutputPathTemplate` and `OutputPathPositional` state what it gives |
| Octopus.OutputPathDefault | screenio/octopus.py:27 | with the default template the output path is the resolved directory, one `/` and `<time stamp>.mp4`, so it lies inside that directory |
| Octopus.OutputPathTemplate | screenio/octopus.py:27 | a template with one field standing for the time stamp (`{}`, `{0}`, `{:s}`, `{0!s}`, ...) and no other brace keeps its text around the stamp, joined onto the resolved directory |
| Octopus.OutputPathPositional | screenio/octopus.py:27 | `{0}.mp4` is accepted and names the same file as the default `{}.mp4` |
| Octopus.FuncRunner.constructor | screenio/octopus.py:15-28 | the runner holds the resolved function; its kwargs are the given ones with only `output` set to the directory joined with `format_now(filename)`; its stop flag is clear |
| Octopus.RunnerFor | screenio/octopus.py:52-57 | a new runner holds the profile's resolved func, and its kwargs with only `output` set to the joined output path; `Pass` ensures it of every runner it starts |
| Octopus.FuncRunner.Stop | screenio/octopus.py:30-32 | only the stop flag is set, so a repeated call leaves the same state |
| Octopus.WorkerPool.constructor | screenio/octopus.py:44-45 | the `worker` dict starts empty |
| Octopus.WorkerPool.Add | screenio/octopus.py:52-57 | the dict gains exactly that key, and the pool invariant (keys are profile names, runners running and unshared) is kept |
| Octopus.WorkerPool.Drop | screenio/octopus.py:58-60 | the key is removed, its runner is stopped, and the invariant is kept |
| Octopus.WorkerPool.Visit | screenio/octopus.py:50-60 | one loop body: after it, the profile holds a runner exactly when triggered, and kept runners are the same objects; when construction raises, nothing changed |
| Octopus.WorkerPool.Start | screenio/octopus.py:50-57 | a triggered profile without a runner gets a fresh one built from its settings, unless its template raises |
| Octopus.WorkerPool.Stop | screenio/octopus.py:58-60 | an untriggered profile's runner is popped and stopped |
| Octopus.WorkerPool.Pass | screenio/octopus.py:49-61 | after a pass, a profile holds a runner exactly when its check was true; an existing runner is kept and not rebuilt; a dropped runner is stopped; a new one matches its profile's func, directory, filename and kwargs; a raise at profile `j` leaves profiles from `j` on as before |
| Octopus.WorkerPool.Shutdown | screenio/octopus.py:67-68 | every runner still in the dict is stopped, none removed |
| Octopus.Serve | screenio/octopus.py:43-65 | after the passes, the worker dict reflects the last pass and only holds runners it created |
| Octopus.RunMain | screenio/octopus.py:43-68 | after an interrupt, every remaining runner is stopped and the dict reflects the last pass; after a raise, the pool invariant still holds |
| Utils.LevelFor | screenio/utils.py:21-22 | WARNING for no or zero verbosity, INFO for 1, DEBUG from 2 on; negative counts index from the end and below -3 raise |
| Utils.LevelForMonotone | screenio/utils.py:21-22 | more verbosity never gives a higher (quieter) level |
| Utils.SetupLogger | screenio/utils.py:18-26 | the logger gets the selected level and one more stream handler with the fixed format; an index Python rejects changes nothing |
| Utils.LoadSettings | screenio/utils.py:29-33 | the two default files come first; the path is appended exactly when it is given and non-empty |
| Utils.LoadFunc | screenio/utils.py:41-49 | a result is a mapped name whose path splits at the last `.` into an importable module and attribute; a missing name or a path without `.` gives `None` |
| Utils.LoadFuncFinds | screenio/utils.py:44-46 | conversely, a mapped path `m.a` with an importable `(m, a)` loads that function |
| Utils.FuncsMapResolves | screenio/utils.py:10-15 | every `FUNCS_MAP` entry resolves to a non-empty function name in `screenio.funcs` |
| Utils.FuncsMapKeysDotFree | screenio/utils.py:10-15 | no key of `FUNCS_MAP` holds a `.`, so no dotted path is a key |
| Utils.DefaultFuncUnresolved | screenio/octopus.py:15 | the default `func` path is not a key of `FUNCS_MAP`, so `load_func` gives `None` for it |
| Utils.Strftime | screenio/utils.py:53 | `datetime.strftime` for `%Y %m %d %H %M %S %%`; `DefaultLayoutExpands` and `DefaultStampRoundTrip` state what the default layout gives |
| Utils.StrftimePlain | screenio/utils.py:53 | a layout without `%` directives is copied as written |
| Utils.RenderField | screenio/utils.py:53 | the text of one replacement field and the numbering it leaves: an empty name takes the next automatic index, a decimal name is an explicit index, any other name is a missing keyword; a field that renders renders the one argument and fixes the numbering, no field renders after an automatic one, and explicit numbering stays explicit |
| Utils.Format | screenio/utils.py:53 | `template.format(arg)`; the `Format...` lemmas below state what it gives |
| Utils.FormatNow | screenio/utils.py:52-53 | `format_now(format_str, format_datetime)` at a given clock reading; `FormatNowDefault` and `FormatIndexMp4` state what it gives |
| Utils.FormatSubstitutes | screenio/utils.py:52-53 | a template with one field standing for the argument (`{}`, `{0}`, `{:s}`, `{0!s}`, ...) and no other brace gets the time stamp in its place and keeps the rest |
| Utils.FormatTwoFields | screenio/utils.py:53 | a second `{}` has no argument and raises `IndexError` |
| Utils.FormatRepeatedIndex | screenio/utils.py:53 | `{0}` may repeat, and every occurrence gives the time stamp |
| Utils.FormatMixedNumbering | screenio/utils.py:53 | `{0}` after `{}` raises `ValueError` |
| Utils.FormatNamedField | screenio/utils.py:53 | a named field such as `{date}` raises `KeyError`: `format_now` passes no keyword arguments |
| Utils.FormatIndexMp4 | screenio/utils.py:53 | `'{0}.mp4'` gives the time stamp followed by `.mp4` |
| Utils.DefaultLayoutExpands | screenio/utils.py:52 | the default layout expands to year, month, day, hour, minute and second with their separators |
| Utils.DefaultStampRoundTrip | screenio/utils.py:52 | for a four-digit year the default stamp has the 19-character `YYYY-MM-DD_HH-MM-SS` shape, holds no brace and reads back to the same clock reading |
| Utils.StampFields | screenio/utils.py:52 | the positions of each zero-padded field in the default stamp |
| Utils.FormatNowDefault | screenio/utils.py:52-53 | `format_now()` with its defaults gives `<time stamp>.mp4` |
| Text.RSplitOnce | screenio/utils.py:44 | `rsplit('.', 1)` gives two parts exactly when `.` occurs; they rejoin to the input and the right one holds no `.` |
| Text.RSplitJoin | screenio/utils.py:44 | splitting `left.right` with a dot-free `right` gives the two parts back |
| Text.JoinPath | screenio/octopus.py:27 | a relative name follows the directory after exactly one `/`, so it lies inside the directory and ends the path; an absolute name replaces the directory |
| Text.JoinPathOrder | screenio/funcs.py:116-117 | joining relative names onto one directory keeps their string order |
| Triggers.QueryOf | screenio/triggers.py:21-25 | a missing constraint key reads as the empty list, a present one as given |
| Triggers.ProcessReports | screenio/triggers.py:20-26 | a cycle reports exactly one verdict per profile, in table order: the answer of the check made for that profile, on that profile's constraints |
| Triggers.ProcessReportsOncePerProfile | screenio/triggers.py:20-26 | with distinct names, no profile is reported twice in one cycle |
| Triggers.CyclesReports | screenio/triggers.py:19-27 | a run of `c` cycles reports `c` times the number of profiles |
| Triggers.CyclesReportsPrefix | screenio/triggers.py:19-27 | each cycle's block follows the blocks of the cycles before it |
| Triggers.ProcessesTrigger.constructor | screenio/triggers.py:14 | the reporter holds the configuration and has reported nothing |
| Triggers.ProcessesTrigger.Cycle | screenio/triggers.py:20-26 | the loop appends exactly that cycle's reports |
| Triggers.ProcessesTrigger.Run | screenio/triggers.py:17-27 | the polling loop appends one block per cycle |
| Triggers.Watched | screenio/triggers.py:42-43 | `if dirname:` holds exactly for a present, non-empty `file_system_dir`; `WatchesExactly` states its use |
| Triggers.Watches | screenio/triggers.py:41-44 | every scheduled watch has a non-empty directory and belongs to a profile |
| Triggers.WatchesExactly | screenio/triggers.py:41-44 | a profile with a non-empty directory gets a watch with its patterns or `['*.py']`, and every watch comes from such a profile |
| Triggers.WatchesSound | screenio/triggers.py:41-44 | every watch comes from a profile with a non-empty directory |
| Triggers.FileSystemDt | screenio/triggers.py:49 | `file_system_dt` or 300; `TimedOutExactly` states its use |
| Triggers.TimedOut | screenio/triggers.py:48-50 | a check reports only `False`, and only for profiles with recorded activity |
| Triggers.TimedOutExactly | screenio/triggers.py:48-50 | `(n, False)` is reported exactly when `n` has recorded activity and `now - last[n]` strictly exceeds its `file_system_dt` (default 300) |
| Triggers.TimedOutPersists | screenio/triggers.py:33-51 | a profile that timed out keeps being reported `False` by every later check until its next event: between the two checks, events for other profiles may add names to the dict and change their own times |
| Triggers.FileSystemTrigger.constructor | screenio/triggers.py:30 | the reporter holds the configuration, is not started, has no activity and has reported nothing |
| Triggers.FileSystemTrigger.Start | screenio/triggers.py:39-44 | `last` is emptied and one watch per profile with a directory is scheduled |
| Triggers.FileSystemTrigger.OnAction | screenio/triggers.py:33-35 | `last[name]` becomes the event time, a first event adds the name at the end of the dict order, and `(name, True)` is reported |
| Triggers.FileSystemTrigger.Check | screenio/triggers.py:48-50 | the loop appends exactly the timed-out reports in dict order and changes nothing else |
| Triggers.AllActive | screenio/triggers.py:63-64 | an event reports `True` once for every profile, in table order |
| Triggers.MouseKeyboardDt | screenio/triggers.py:74 | `mouse_keyboard_dt` or 60; `IdleExactly` states its use |
| Triggers.IdleReports | screenio/triggers.py:73-75 | a mouse/keyboard check reports only `False` |
| Triggers.IdleExactly | screenio/triggers.py:72-75 | with distinct names, `(n, False)` is reported exactly when the elapsed time strictly exceeds `n`'s `mouse_keyboard_dt` (default 60) |
| Triggers.IdleNamesIn | screenio/triggers.py:73-75 | only configured profiles are reported |
| Triggers.IdleMonotone | screenio/triggers.py:72-75 | a profile reported idle drags along every profile with a threshold no larger |
| Triggers.IdleAtZero | screenio/triggers.py:68-75 | at the instant `last` is set, nothing with a non-negative threshold is reported |
| Triggers.MouseKeyboardTrigger.constructor | screenio/triggers.py:58 | the reporter holds the configuration, `last` is not set and nothing is reported |
| Triggers.MouseKeyboardTrigger.Start | screenio/triggers.py:68 | `last` is set to the start time before any check |
| Triggers.MouseKeyboardTrigger.OnAction | screenio/triggers.py:61-64 | `last` becomes the event time and every profile is reported `True` |
| Triggers.MouseKeyboardTrigger.Check | screenio/triggers.py:72-75 | the loop appends exactly the idle reports for the time elapsed since `last`, which it leaves unchanged |
| Frames.Keeps | screenio/record.py:27 | `not difference or current_img != last_img`; `KeptExactly` states its use |
| Frames.Previous | screenio/record.py:18-34 | `last_img` when grab `i` is tested: the pre-loop grab, then the grab before; `PreviousIsLastKept` relates it to the kept frames |
| Frames.Kept | screenio/record.py:24-34 | the frames the loop keeps, in grab order; `KeptAtIndices`, `KeptExactly`, `KeptAll` and `PreviousIsLastKept` state what it holds |
| Frames.KeptIndices | screenio/record.py:26-34 | kept positions are positions of the grabs |
| Frames.KeptAtIndices | screenio/record.py:26-34 | the kept frames are the grabs at the kept positions |
| Frames.KeptExactly | screenio/record.py:27 | grab `i` is kept exactly when difference checking is off or it differs from the grab before it (the pre-loop grab for the first) |
| Frames.KeptIndicesIncreasing | screenio/record.py:24-35 | kept frames keep their grab order |
| Frames.KeptAll | screenio/record.py:27-31 | without difference checking every grab is kept, in order |
| Frames.FirstRepeatSkipped | screenio/record.py:18-27 | a first grab equal to the pre-loop grab is skipped |
| Frames.PreviousIsLastKept | screenio/record.py:27-34 | `last_img` moves on with every grab, yet equals the last kept frame (or the pre-loop grab) under difference checking |
| Frames.FrameName | screenio/record.py:80 | the name is at least six digits reading back to the counter, followed by `.png` |
| Frames.FrameNameInjective | screenio/record.py:80-81 | different counters give different names |
| Frames.FrameNameOrder | screenio/record.py:80 | below a million, names are ten characters and sort as their counters |
| Frames.FrameNameOrderBreaks | screenio/funcs.py:117 | from a million on they do not: `1000000.png` sorts before `999999.png` |
| Frames.FrameNameRelative | screenio/record.py:80 | a frame name is relative, so it lands inside the output directory |
| Frames.Saves | screenio/record.py:78-81 | the directory after the kept frames are saved under consecutive counters; `SavesAt`, `SavesElsewhere`, `SavesContinue` and `SavesKeepsOld` state what it holds |
| Frames.SavesAt | screenio/record.py:78-81 | the `j`-th kept frame is stored under counter `start + j` in the chosen format |
| Frames.SavesElsewhere | screenio/record.py:78-81 | entries that are not new names are untouched |
| Frames.SavesContinue | screenio/record.py:71-81 | a directory holding frames `0..n-1` loses no file and holds frames `0..n+m-1` afterwards |
| Frames.SavesKeepsOld | screenio/record.py:71-81 | in a directory holding exactly frames 0..n-1, no existing frame is overwritten |
| Frames.SavesOverwritesGap | screenio/record.py:71-81 | numbering from the entry count overwrites otherwise: in a directory holding only frame 1, the next kept grab is saved as frame 1 and replaces it |
| Frames.SaveFrames | screenio/record.py:71-87 | the counter starts at the entry count and ends at it plus the number of kept grabs; the directory gains exactly the kept grabs under consecutive names |
| Frames.VideoWriter.constructor | screenio/record.py:21 | the writer is opened on the given path with no frames and is not released |
| Frames.VideoWriter.Write | screenio/record.py:31 | the frame is appended to the video |
| Frames.VideoWriter.Release | screenio/record.py:39 | the writer is released and keeps its frames |
| Record.Iterations | screenio/record.py:24 | the loop body runs once per grab until the stop flag is first seen set, or for every grab when `running` is `None` |
| Record.RecordVideoPil | screenio/record.py:17-39 | the writer is opened on the resolved path, receives exactly the kept grabs among those taken before the stop flag or interrupt, and is released |
| Record.RecordFramesPil | screenio/record.py:68-88 | the kept grabs are saved as PNG under consecutive names from the entry count |
| Funcs.RecordFramesPil | screenio/funcs.py:26-46 | the same numbering, with every frame encoded as JPEG |
| Funcs.RecordVideoPil | screenio/funcs.py:69-88 | without a stop flag, every grab taken is tested and the kept ones are written in order |
| Funcs.Paths | screenio/funcs.py:116 | one path per directory entry, in listing order |
| Funcs.SortPaths | screenio/funcs.py:117 | the list ends ascending and is a permutation of the input |
| Funcs.Insert | screenio/funcs.py:117 | one insertion step extends the sorted prefix and permutes the array |
| Funcs.FramesToVideoMoviepy | screenio/funcs.py:113-118 | the clip gets the directory's paths in ascending order and the given fps |
| Funcs.SortedUnique | screenio/funcs.py:117 | two ascending arrangements of the same paths are equal, so the sorted list is determined |
| Funcs.PathsMultiset | screenio/funcs.py:116 | the listing order of `iterdir` does not change the multiset of paths |
| Funcs.FramePathsSorted | screenio/funcs.py:116-117 | below a million frames, frame paths in counter order are ascending |
| Funcs.FramesToVideoInCounterOrder | screenio/funcs.py:113-118 | a directory of frames `0..n-1`, listed in any order, yields the clip's frames in counter order |

## Left out

- Threads, `Event` waits, `sleep`, the pynput listeners and the watchdog `Observer` are not modelled. Their effects appear as explicit calls: a pass, a check, an event. An interrupt is seen only between passes or loop iterations.
- `check_trigger`/`check_processes`, `BasicTrigger` and `FileSystemHandler` are not part of this model. screenio/utils.py does not define them. Trigger verdicts and process-check results are inputs.
- `record_video_ffmpeg`, `record_frames_ffmpeg`, `frames_to_video_ffmpeg`, screenio/convert.py and the command-line entry points are not modelled. They hand work to ffmpeg or parse arguments.
- `FuncRunner.run` is not modelled. It calls the job function in the thread. A runner built without a `func` key holds `None`, which that call would fail on. A resolved runner fails there too: `run` passes `running=`, and none of the functions `FUNCS_MAP` names (screenio/funcs.py:26, 49, 69, 91) takes that argument.
- `FuncRunner.__init__` makes the output directory (`mkdir`), and `record_frames_pil` does too. File creation is not modelled apart from the frame files.
- `clip.write_videofile`, the colour conversion before `out.write` and the writer's fourcc, frame rate and size are not modelled. Neither are the float values of `dt`, `framerate` and `fps`: the clip's fps is carried as given.
- Logging messages are not modelled. Nor is `toml.load`: the configuration arrives as an ordered table.
- `Path.resolve` and the import machinery are parameters.
- Utils.FormatNow: `str.format` is evaluated for escaped braces, for fields named by nothing, by ASCII digits or by another ASCII name, with no conversion or `!s` and an empty or `s` format spec. Nested fields, `.` and `[` access, `!r` and `!a`, other format specs and non-ASCII names give `FieldNotModelled` and are not evaluated. An index too wide to parse raises `ValueError` in Python; the model reports it as the same out-of-range error as any other index above 0.
- Octopus.WorkerPool.Start: a template that gives `FieldNotModelled` is treated like one that raises: no runner is built. Python may format such a template (`{:>30}`, for instance) and store a runner.
- Octopus.WorkerPool.Visit: for the same reason, a triggered profile whose template gives `FieldNotModelled` is reported as a construction that raised.
- Octopus.WorkerPool.Pass: a template that gives `FieldNotModelled` ends the pass at that profile, as a raising template does. Python may format it and go on with the pass.
- Octopus.Serve: a pass that stops at a `FieldNotModelled` template ends the loop. Python may keep serving.
- Octopus.RunMain: the branch after a raise is also taken for a `FieldNotModelled` template. Python may carry on and stop the runners at the interrupt instead.
- Text.JoinPath: joins as strings. pathlib drops `.` components and collapses repeated and trailing `/`, and the model does not. It is exact for names without such parts and for absolute names.
- Utils.Strftime: only `%Y %m %d %H %M %S %%` are modelled. Other directives are kept as written. The calendar is not checked.
- Octopus.FuncRunner.constructor: `kwargs` is copied, not shared. The caller's mapping, and the mutable default `{}` that the source shares between runners, are not updated in place.
- Triggers.FileSystemTrigger.Check: uses one clock reading per check. The source reads the clock anew for every profile.
- Triggers.FileSystemTrigger.OnAction: requires a scheduled watch for the profile. Events only come from those watches.
- Triggers.MouseKeyboardTrigger.Check: requires `last` to be set. `run` sets it before its first check.
- Funcs.SortPaths: sorts with an insertion sort. Python's sort algorithm is not modelled, only its result: ascending and a permutation.
