/** The parsed configuration the orchestrator and the trigger reporters read:
    a TOML table of profiles, each a table of optional keys. */
module Config {
  import opened Wrappers
  import Utils

  /** A value of the `kwargs` table handed to a job function. */
  datatype Arg = Text(s: string) | Number(n: int) | Flag(b: bool)

  /** What a profile's `func` key holds: a job-kind name, or a callable given
      directly. */
  datatype FuncArg = ByName(name: string) | ByRef(ref: Utils.FuncRef)

  /** One profile; a key missing from its table is `None`. */
  datatype Profile = Profile(
    requiredProc: Option<seq<string>>,
    requiredProcFiles: Option<seq<string>>,
    bannedProc: Option<seq<string>>,
    bannedProcFiles: Option<seq<string>>,
    fileSystemDir: Option<string>,
    fileSystemPatterns: Option<seq<string>>,
    fileSystemDt: Option<int>,
    mouseKeyboardDt: Option<int>,
    func: Option<FuncArg>,
    directory: Option<string>,
    filename: Option<string>,
    kwargs: Option<map<string, Arg>>)

  /** The configuration table in its iteration order (Python dicts keep
      insertion order). */
  type Settings = seq<(string, Profile)>

  predicate DistinctNames(cfg: Settings)
  {
    forall i, j :: 0 <= i < j < |cfg| ==> cfg[i].0 != cfg[j].0
  }

  /** The profile names, `config.keys()`. */
  function Names(cfg: Settings): (names: set<string>)
    ensures forall i :: 0 <= i < |cfg| ==> cfg[i].0 in names
  {
    if cfg == [] then {}
    else
      var n := |cfg| - 1;
      assert forall i :: 0 <= i < n ==> cfg[..n][i] == cfg[i];
      Names(cfg[..n]) + {cfg[n].0}
  }

  /** The converse of `Names`' postcondition: a name no profile carries is
      not among the names. */
  lemma {:induction false} NameAbsent(cfg: Settings, name: string)
    requires forall i :: 0 <= i < |cfg| ==> cfg[i].0 != name
    ensures name !in Names(cfg)
  {
    if cfg != [] {
      var n := |cfg| - 1;
      assert forall i :: 0 <= i < n ==> cfg[..n][i] == cfg[i];
      NameAbsent(cfg[..n], name);
    }
  }

  /** Position of a profile name in the table. */
  function IndexOf(cfg: Settings, name: string): (i: nat)
    requires name in Names(cfg)
    ensures i < |cfg| && cfg[i].0 == name
    ensures DistinctNames(cfg) ==> forall j :: 0 <= j < |cfg| && cfg[j].0 == name ==> j == i
  {
    var n := |cfg| - 1;
    if cfg[n].0 == name then n
    else
      var i := IndexOf(cfg[..n], name);
      assert cfg[..n][i] == cfg[i];
      assert forall j :: 0 <= j < n ==> cfg[..n][j] == cfg[j];
      i
  }

  /** `config[name]`. */
  function Lookup(cfg: Settings, name: string): Profile
    requires name in Names(cfg)
  {
    cfg[IndexOf(cfg, name)].1
  }

  /** `config[name]` is the settings of a profile with that name, and of the
      only one when names are distinct. */
  lemma LookupFinds(cfg: Settings, name: string)
    requires name in Names(cfg)
    ensures exists i :: 0 <= i < |cfg| && cfg[i] == (name, Lookup(cfg, name))
    ensures DistinctNames(cfg) ==> forall i :: 0 <= i < |cfg| && cfg[i].0 == name ==> cfg[i].1 == Lookup(cfg, name)
  {
    var k := IndexOf(cfg, name);
    assert cfg[k] == (name, Lookup(cfg, name));
  }
}
