/** screenio/octopus.py: one background runner per triggered profile. `main`
    walks the configuration on every pass, starts a `FuncRunner` for a
    triggered profile that has none and stops and drops the runner of a profile
    that is no longer triggered. */
module Octopus {
  import opened Wrappers
  import opened Text
  import opened Config
  import Utils

  const DEFAULT_DIRECTORY := "."
  const DEFAULT_FILENAME := "{}.mp4"
  const OUTPUT_KEY := "output"

  /** `data.get('directory', '.')` */
  function DirectoryOf(p: Profile): string { p.directory.GetOr(DEFAULT_DIRECTORY) }

  /** `data.get('filename', '{}.mp4')` */
  function FilenameOf(p: Profile): string { p.filename.GetOr(DEFAULT_FILENAME) }

  /** `data.get('kwargs', {})` */
  function KwargsOf(p: Profile): map<string, Arg> { p.kwargs.GetOr(map[]) }

  /** The callable a runner is built with: a string goes through `load_func`,
      anything else (a callable, or `None` when the key is missing) is kept. */
  function ResolveFunc(f: Option<FuncArg>, importable: set<Utils.FuncRef>): (r: Option<Utils.FuncRef>)
    ensures f.None? ==> r.None?
    ensures f.Some? && f.value.ByRef? ==> r == Some(f.value.ref)
    ensures f.Some? && f.value.ByName? ==> r == Utils.LoadFunc(f.value.name, Utils.FUNCS_MAP, importable)
    ensures r.Some? && f.Some? && f.value.ByName? ==> r.value in importable
  {
    match f
    case None => None
    case Some(ByRef(ref)) => Some(ref)
    case Some(ByName(name)) => Utils.LoadFunc(name, Utils.FUNCS_MAP, importable)
  }

  /** A job kind of `FUNCS_MAP` names its function in screenio/funcs.py and
      resolves to it whenever that module can be imported; any other string
      resolves to `None`, and so does every dotted path, the full path of a
      funcs.py function included. */
  lemma ResolveFuncByName(name: string, importable: set<Utils.FuncRef>)
    ensures name in Utils.FUNCS_MAP && Utils.FUNCS_DEFINED <= importable ==>
      var r := ResolveFunc(Some(ByName(name)), importable);
      r.Some? && r.value in Utils.FUNCS_DEFINED && Utils.FUNCS_MAP[name] == Utils.InFuncs(r.value.attr)
    ensures name !in Utils.FUNCS_MAP ==> ResolveFunc(Some(ByName(name)), importable).None?
    ensures '.' in name ==> ResolveFunc(Some(ByName(name)), importable).None?
  {
    if name in Utils.FUNCS_MAP && Utils.FUNCS_DEFINED <= importable {
      Utils.FuncsMapResolves(name);
      var x := Utils.LoadFunc(name, Utils.FUNCS_MAP, Utils.FUNCS_DEFINED).value;
      Utils.LoadFuncFinds(name, Utils.FUNCS_MAP, importable, x.moduleName, x.attr);
    }
    if '.' in name {
      Utils.FuncsMapKeysDotFree(name);
    }
  }

  /** `str(Path(directory).resolve() / format_now(filename))`, given the
      resolved directory; a malformed template raises. */
  function OutputPath(resolvedDir: string, filename: string, now: Utils.DateTime): (r: Result<string, Utils.FormatError>)
    ensures Utils.NoBraces(filename) ==> r == Ok(JoinPath(resolvedDir, filename))
  {
    assert Utils.NoBraces(filename) ==> Utils.FormatNow(filename, Utils.DEFAULT_LAYOUT, now) == Ok(filename) by {
      if Utils.NoBraces(filename) {
        Utils.FormatBraceFree(filename, Utils.Strftime(Utils.DEFAULT_LAYOUT, now), Utils.Unnumbered);
      }
    }
    match Utils.FormatNow(filename, Utils.DEFAULT_LAYOUT, now)
    case Ok(name) => Ok(JoinPath(resolvedDir, name))
    case Err(e) => Err(e)
  }

  /** With the default template the output is `<time stamp>.mp4` inside the
      resolved directory. */
  lemma OutputPathDefault(resolvedDir: string, now: Utils.DateTime)
    ensures OutputPath(resolvedDir, DEFAULT_FILENAME, now).Ok?
    ensures var p := OutputPath(resolvedDir, DEFAULT_FILENAME, now).value;
            var name := Utils.Strftime(Utils.DEFAULT_LAYOUT, now) + ".mp4";
            && |p| > |resolvedDir| && p[..|resolvedDir|] == resolvedDir
            && |p| > |name| && p[|p| - |name|..] == name && p[|p| - |name| - 1] == '/'
            && (p == resolvedDir + name || p == resolvedDir + "/" + name)
  {
    Utils.FormatNowDefault(now);
    var stamp := Utils.Strftime(Utils.DEFAULT_LAYOUT, now);
    Utils.DefaultLayoutExpands(now);
    assert stamp[0] == Decimal(now.year)[0];
    assert (stamp + ".mp4")[0] == stamp[0];
  }

  /** A template with one field standing for the time stamp (`{}`, `{0}`,
      `{:s}`, ...) keeps its text around the stamp. */
  lemma OutputPathTemplate(resolvedDir: string, pre: string, field: string, post: string, now: Utils.DateTime)
    requires Utils.NoBraces(pre) && Utils.ArgField(field) && Utils.NoBraces(post)
    ensures OutputPath(resolvedDir, pre + field + post, now)
         == Ok(JoinPath(resolvedDir, pre + Utils.Strftime(Utils.DEFAULT_LAYOUT, now) + post))
  {
    Utils.FormatSubstitutes(pre, field, post, Utils.Strftime(Utils.DEFAULT_LAYOUT, now));
  }

  /** `{0}.mp4` names the same output as the default `{}.mp4`. */
  lemma OutputPathPositional(resolvedDir: string, now: Utils.DateTime)
    ensures OutputPath(resolvedDir, "{0}.mp4", now).Ok?
    ensures OutputPath(resolvedDir, "{0}.mp4", now) == OutputPath(resolvedDir, DEFAULT_FILENAME, now)
  {
    Utils.FormatNowDefault(now);
    Utils.FormatIndexMp4(Utils.Strftime(Utils.DEFAULT_LAYOUT, now));
  }

  /** A background job. `func` and `kwargs` are fixed once `__init__` has
      run; `running` is the `Event` handed to the job function: once set, the
      job is asked to stop. */
  class FuncRunner {
    const func: Option<Utils.FuncRef>
    const kwargs: map<string, Arg>
    var running: bool

    /** `FuncRunner(func, directory, filename, kwargs)`: resolve the function,
        write the output path into `kwargs['output']` and start the thread.
        The raising case (a template `format_now` rejects) is taken by the
        caller before construction; `resolve` stands for `Path.resolve`. */
    constructor (f: Option<FuncArg>, directory: string, filename: string, args: map<string, Arg>,
                 now: Utils.DateTime, resolve: string -> string, importable: set<Utils.FuncRef>)
      requires OutputPath(resolve(directory), filename, now).Ok?
      ensures func == ResolveFunc(f, importable)
      ensures kwargs == args[OUTPUT_KEY := Text(OutputPath(resolve(directory), filename, now).value)]
      ensures !running
    {
      func := ResolveFunc(f, importable);
      var output := OutputPath(resolve(directory), filename, now).value;
      kwargs := args[OUTPUT_KEY := Text(output)];
      running := false;
    }

    /** `stop()`: set the event; nothing else changes, so a second call
        leaves the same state. */
    method Stop()
      modifies this
      ensures running
    {
      running := true;
    }
  }

  /** What the profile's settings say a newly started runner holds. */
  predicate RunnerFor(r: FuncRunner, p: Profile, now: Utils.DateTime,
                      resolve: string -> string, importable: set<Utils.FuncRef>)
  {
    && OutputPath(resolve(DirectoryOf(p)), FilenameOf(p), now).Ok?
    && r.func == ResolveFunc(p.func, importable)
    && r.kwargs == KwargsOf(p)[OUTPUT_KEY := Text(OutputPath(resolve(DirectoryOf(p)), FilenameOf(p), now).value)]
  }

  /** What one pass learns about a profile: the `check_trigger` verdict and the
      clock reading a runner started for it would take. */
  datatype Observation = Observation(triggered: bool, now: Utils.DateTime)

  /** The state of `main`: the loaded configuration and the `worker` dict. */
  class WorkerPool {
    const config: Settings
    var worker: map<string, FuncRunner>

    /** Workers belong to configured profiles, are still running, and no two
        profiles share one. */
    ghost predicate Valid()
      reads this, worker.Values
    {
      && DistinctNames(config)
      && worker.Keys <= Names(config)
      && (forall k :: k in worker ==> !worker[k].running)
      && (forall k, k' :: k in worker && k' in worker && k != k' ==> worker[k] != worker[k'])
    }

    /** Each of the first `n` profiles holds a worker exactly when its
        observation triggered. */
    predicate ReflectsUpTo(obs: seq<Observation>, n: nat)
      reads this
      requires n <= |obs| == |config|
    {
      forall i :: 0 <= i < n ==> (config[i].0 in worker <==> obs[i].triggered)
    }

    /** Each profile holds a worker exactly when its observation triggered. */
    predicate Reflects(obs: seq<Observation>)
      reads this
      requires |obs| == |config|
    {
      ReflectsUpTo(obs, |config|)
    }

    /** Profiles from position `n` on hold a worker exactly when they did in
        `before`. */
    predicate SameFrom(before: map<string, FuncRunner>, n: nat)
      reads this
    {
      forall i :: n <= i < |config| ==> (config[i].0 in worker <==> config[i].0 in before)
    }

    constructor (cfg: Settings)
      requires DistinctNames(cfg)
      ensures config == cfg && worker == map[] && Valid()
    {
      config := cfg;
      worker := map[];
    }

    /** `worker[key] = FuncRunner(...)` for a runner just built. */
    method Add(key: string, r: FuncRunner)
      requires Valid() && key in Names(config) && key !in worker
      requires !r.running && r !in worker.Values
      modifies this
      ensures worker == old(worker)[key := r] && Valid()
    {
      worker := worker[key := r];
    }

    /** `thread = worker.pop(key); thread.stop()`. */
    method Drop(key: string)
      requires Valid() && key in worker
      modifies this, worker[key]
      ensures worker == old(worker) - {key} && Valid()
      ensures old(worker)[key].running
    {
      var r := worker[key];
      worker := worker - {key};
      r.Stop();
    }

    /** Where a pass that started from `before` stands once the profiles
        before position `i` are visited: those are reconciled with `obs`, the
        rest are untouched, a kept worker is the same object, a dropped one
        is stopped, and a new one matches its profile and was not there
        before. */
    ghost predicate Progress(before: map<string, FuncRunner>, obs: seq<Observation>, i: nat,
                             resolve: string -> string, importable: set<Utils.FuncRef>)
      reads this, worker.Values, before.Values
      requires i <= |obs| == |config|
    {
      && Valid()
      && (forall k, k' :: k in before && k' in before && k != k' ==> before[k] != before[k'])
      && ReflectsUpTo(obs, i) && SameFrom(before, i)
      && (forall k :: k in worker && k in before ==> worker[k] == before[k])
      && (forall k :: k in worker && k !in before ==> worker[k] !in before.Values)
      && (forall k :: k in before && k !in worker ==> before[k].running)
      && (forall j :: 0 <= j < |config| && config[j].0 in worker && config[j].0 !in before ==>
            RunnerFor(worker[config[j].0], config[j].1, obs[j].now, resolve, importable))
    }

    /** The body of the loop for the profile at position `i`: start a runner
        when triggered and absent, stop and drop it when untriggered and
        present, otherwise do nothing. `raised` reports that building the
        runner raised, in which case nothing has changed. */
    method Visit(ghost before: map<string, FuncRunner>, obs: seq<Observation>, i: nat,
                 resolve: string -> string, importable: set<Utils.FuncRef>)
      returns (raised: bool)
      requires i < |obs| == |config| && Progress(before, obs, i, resolve, importable)
      modifies this, if config[i].0 in worker then {worker[config[i].0]} else {}
      ensures raised ==> && obs[i].triggered && config[i].0 !in before && worker == old(worker)
                         && OutputPath(resolve(DirectoryOf(config[i].1)), FilenameOf(config[i].1), obs[i].now).Err?
                         && Progress(before, obs, i, resolve, importable)
      ensures !raised ==> Progress(before, obs, i + 1, resolve, importable)
      ensures forall k :: k in worker && k in old(worker) ==> worker[k] == old(worker)[k]
      ensures forall k :: k in worker && k !in old(worker) ==> fresh(worker[k])
    {
      var key := config[i].0;
      raised := false;
      if obs[i].triggered {
        if key !in worker {
          raised := Start(before, obs, i, resolve, importable);
        }
      } else if key in worker {
        Stop(before, obs, i, resolve, importable);
      }
    }

    /** Visiting a triggered profile that holds no worker: build the runner,
        unless the output template raises, and store it. */
    method Start(ghost before: map<string, FuncRunner>, obs: seq<Observation>, i: nat,
                 resolve: string -> string, importable: set<Utils.FuncRef>)
      returns (raised: bool)
      requires i < |obs| == |config| && Progress(before, obs, i, resolve, importable)
      requires obs[i].triggered && config[i].0 !in worker
      modifies this
      ensures raised ==> && config[i].0 !in before && worker == old(worker)
                         && OutputPath(resolve(DirectoryOf(config[i].1)), FilenameOf(config[i].1), obs[i].now).Err?
      ensures !raised ==> Progress(before, obs, i + 1, resolve, importable)
      ensures !raised ==> && config[i].0 in worker && fresh(worker[config[i].0])
                          && worker == old(worker)[config[i].0 := worker[config[i].0]]
    {
      var key, data := config[i].0, config[i].1;
      var out := OutputPath(resolve(DirectoryOf(data)), FilenameOf(data), obs[i].now);
      if out.Err? {
        return true;
      }
      var r := new FuncRunner(data.func, DirectoryOf(data), FilenameOf(data), KwargsOf(data),
                              obs[i].now, resolve, importable);
      ghost var w0 := worker;
      Add(key, r);
      DistinctAt(config, i);
      assert ReflectsUpTo(obs, i + 1);
      assert SameFrom(before, i + 1);
      assert forall k :: k in worker && k in before ==> worker[k] == before[k];
      assert forall k :: k in worker && k !in before ==> worker[k] !in before.Values;
      assert forall j :: 0 <= j < |config| && config[j].0 in worker && config[j].0 !in before ==>
               RunnerFor(worker[config[j].0], config[j].1, obs[j].now, resolve, importable);
      raised := false;
    }

    /** Visiting an untriggered profile that holds a worker: stop it and drop
        it from the dict. */
    method Stop(ghost before: map<string, FuncRunner>, obs: seq<Observation>, i: nat,
                resolve: string -> string, importable: set<Utils.FuncRef>)
      requires i < |obs| == |config| && Progress(before, obs, i, resolve, importable)
      requires !obs[i].triggered && config[i].0 in worker
      modifies this, worker[config[i].0]
      ensures Progress(before, obs, i + 1, resolve, importable)
      ensures worker == old(worker) - {config[i].0}
    {
      var key := config[i].0;
      Drop(key);
      DistinctAt(config, i);
      assert ReflectsUpTo(obs, i + 1);
      assert SameFrom(before, i + 1);
    }

    /** One pass of the `for key, data in config.items()` loop. On success
        (`None`) a profile holds a worker exactly when it was triggered; an
        existing worker is kept, a dropped one is stopped. When building a
        runner raises at position `j`, the pass ends there: profiles before
        `j` are reconciled, `j` and later ones are as before. */
    method Pass(obs: seq<Observation>, resolve: string -> string, importable: set<Utils.FuncRef>)
      returns (failed: Option<nat>)
      requires Valid() && |obs| == |config|
      modifies this, worker.Values
      ensures Valid()
      ensures failed.Some? ==> var j := failed.value;
        && j < |config| && obs[j].triggered && config[j].0 !in old(worker)
        && OutputPath(resolve(DirectoryOf(config[j].1)), FilenameOf(config[j].1), obs[j].now).Err?
      ensures failed.None? ==> Reflects(obs)
      ensures failed.Some? ==> ReflectsUpTo(obs, failed.value) && SameFrom(old(worker), failed.value)
      ensures forall k :: k in worker && k in old(worker) ==> worker[k] == old(worker)[k]
      ensures forall k :: k in old(worker) && k !in worker ==> old(worker)[k].running
      ensures forall k :: k in worker && k !in old(worker) ==> fresh(worker[k])
      ensures forall i :: 0 <= i < |config| && config[i].0 in worker && config[i].0 !in old(worker) ==>
        RunnerFor(worker[config[i].0], config[i].1, obs[i].now, resolve, importable)
    {
      ghost var before := worker;
      var i := 0;
      while i < |config|
        invariant 0 <= i <= |config|
        invariant Progress(before, obs, i, resolve, importable)
        invariant forall k :: k in worker && k !in before ==> fresh(worker[k])
      {
        var raised := Visit(before, obs, i, resolve, importable);
        if raised {
          return Some(i);
        }
        i := i + 1;
      }
      return None;
    }

    /** The loop after `KeyboardInterrupt`: every worker still in the dict is
        stopped; none is removed or joined. */
    method Shutdown()
      modifies worker.Values
      ensures forall k :: k in worker ==> worker[k].running
    {
      var pending := worker.Keys;
      while pending != {}
        invariant pending <= worker.Keys
        invariant forall k :: k in worker && k !in pending ==> worker[k].running
        decreases pending
      {
        var k :| k in pending;
        worker[k].Stop();
        pending := pending - {k};
      }
    }
  }

  /** With distinct names, position `i` is the only one holding its name. */
  lemma DistinctAt(cfg: Settings, i: nat)
    requires DistinctNames(cfg) && i < |cfg|
    ensures forall j :: 0 <= j < |cfg| && j != i ==> cfg[j].0 != cfg[i].0
  {
    forall j | 0 <= j < |cfg| && j != i
      ensures cfg[j].0 != cfg[i].0
    {
      if j < i {} else {}
    }
  }

  /** The `while True` loop of `main` up to the interrupt: one pass per
      element of `passes`. A pass that raises ends the loop at once. */
  method Serve(config: Settings, passes: seq<seq<Observation>>, resolve: string -> string,
               importable: set<Utils.FuncRef>)
    returns (pool: WorkerPool, failed: Option<nat>)
    requires DistinctNames(config)
    requires forall n :: 0 <= n < |passes| ==> |passes[n]| == |config|
    ensures fresh(pool) && pool.config == config && pool.Valid()
    ensures forall k :: k in pool.worker ==> fresh(pool.worker[k])
    ensures failed.None? && passes == [] ==> pool.worker == map[]
    ensures failed.None? && passes != [] ==> pool.Reflects(passes[|passes| - 1])
    ensures failed.Some? ==> failed.value < |passes|
  {
    pool := new WorkerPool(config);
    var n := 0;
    while n < |passes|
      invariant 0 <= n <= |passes|
      invariant fresh(pool) && pool.config == config && pool.Valid()
      invariant forall k :: k in pool.worker ==> fresh(pool.worker[k])
      invariant n == 0 ==> pool.worker == map[]
      invariant n > 0 ==> pool.Reflects(passes[n - 1])
    {
      var err := pool.Pass(passes[n], resolve, importable);
      if err.Some? {
        return pool, Some(n);
      }
      n := n + 1;
    }
    failed := None;
  }

  /** `main` once the configuration is loaded: the passes of `Serve`, then
      the interrupt arrives during the sleep that follows the last one and
      every remaining worker is stopped. When a pass raised, `main` ends at
      once and the workers it leaves keep running. */
  method RunMain(config: Settings, passes: seq<seq<Observation>>, resolve: string -> string,
                 importable: set<Utils.FuncRef>)
    returns (pool: WorkerPool, failed: Option<nat>)
    requires DistinctNames(config)
    requires forall n :: 0 <= n < |passes| ==> |passes[n]| == |config|
    ensures fresh(pool) && pool.config == config
    ensures failed.None? && passes == [] ==> pool.worker == map[]
    ensures failed.None? && passes != [] ==> pool.Reflects(passes[|passes| - 1])
    ensures failed.None? ==> forall k :: k in pool.worker ==> pool.worker[k].running
    ensures failed.Some? ==> failed.value < |passes| && pool.Valid()
  {
    pool, failed := Serve(config, passes, resolve, importable);
    if failed.None? {
      pool.Shutdown();
    }
  }
}
