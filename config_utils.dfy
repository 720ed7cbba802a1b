/**
  Selection rules of bev/config/utils.py: which config entry is the local
  one, and where the repository and git roots are.
 */
module ConfigUtils {
  import opened Errors
  import opened Paths
  import opened Oracles

  /** The name of a repository's config file. */
  const Config: string := ".bev.yml"
  /** The directory that marks a git work tree. */
  const GitDir: string := ".git"

  /** A `StorageCluster`: one named entry of a config with its fields. */
  datatype Cluster = Cluster(name: string, fields: seq<(string, string)>)

  /** A `HostName` pattern: an exact name or a regular expression. */
  datatype HostName = StrHostName(value: string) | RegexHostName(pattern: string)

  predicate HasName(metas: seq<Cluster>, name: string) {
    exists i :: 0 <= i < |metas| && metas[i].name == name
  }

  /** Index of the first entry, from `k` on, that `func` accepts. */
  function FirstMatch(metas: seq<Cluster>, func: Cluster -> bool, k: nat): (r: Option<nat>)
    ensures r.Some? ==> k <= r.value < |metas| && func(metas[r.value])
                        && forall j :: k <= j < r.value ==> !func(metas[j])
    ensures r.None? ==> forall j :: k <= j < |metas| ==> !func(metas[j])
    decreases |metas| - k
  {
    if k >= |metas| then None
    else if func(metas[k]) then Some(k)
    else FirstMatch(metas, func, k + 1)
  }

  /** `choose_local`: the first entry, in config order, that `func` accepts;
      failing that the fallback, which must be one of the entries when given. */
  function ChooseLocal(metas: seq<Cluster>, func: Cluster -> bool, default: Option<string>): (r: Result<Option<string>>)
    ensures forall i :: 0 <= i < |metas| && func(metas[i]) && (forall j :: 0 <= j < i ==> !func(metas[j])) ==>
              r == Ok(Some(metas[i].name))
    ensures (forall i :: 0 <= i < |metas| ==> !func(metas[i])) ==>
              if default.Some? && !HasName(metas, default.value) then r == Err(ConfigError(UnknownFallback))
              else r == Ok(default)
    ensures r.Ok? && r.value.Some? ==> HasName(metas, r.value.value)
  {
    match FirstMatch(metas, func, 0)
    case Some(i) => Ok(Some(metas[i].name))
    case None =>
      if default.Some? && !HasName(metas, default.value) then Err(ConfigError(UnknownFallback))
      else Ok(default)
  }

  /** `HostName.match`; regular expressions are decided by `regexMatch(pattern, node)`. */
  predicate HostMatches(h: HostName, node: string, regexMatch: (string, string) -> bool) {
    match h
    case StrHostName(value) => node == value
    case RegexHostName(pattern) => regexMatch(pattern, node)
  }

  /** The hosts a cluster is meant for: its `hostname` list, or its own name. */
  function Hosts(name: string, hostname: seq<HostName>): (r: seq<HostName>)
    ensures hostname != [] ==> r == hostname
    ensures hostname == [] ==> r == [StrHostName(name)]
  {
    if hostname == [] then [StrHostName(name)] else hostname
  }

  /** `default_choose` for a cluster called `name` with the given hostname list,
      under the environment `env` on the machine called `node`. */
  predicate DefaultChoose(name: string, hostname: seq<HostName>, env: map<string, string>, node: string,
                          regexMatch: (string, string) -> bool)
  {
    if "BEV__REPOSITORY" in env then name == env["BEV__REPOSITORY"]
    else exists i :: 0 <= i < |Hosts(name, hostname)| && HostMatches(Hosts(name, hostname)[i], node, regexMatch)
  }

  /** With `BEV__REPOSITORY` unset and no hostname list, a cluster is chosen
      exactly on the machine that carries its name. */
  lemma DefaultChooseByName(name: string, env: map<string, string>, node: string,
                            regexMatch: (string, string) -> bool)
    requires "BEV__REPOSITORY" !in env
    ensures DefaultChoose(name, [], env, node, regexMatch) <==> node == name
  {
    assert Hosts(name, []) == [StrHostName(name)];
    assert HostMatches(Hosts(name, [])[0], node, regexMatch) <==> node == name;
  }

  /** The environment variable overrides the host list altogether. */
  lemma DefaultChooseByEnv(name: string, hostname: seq<HostName>, env: map<string, string>, node: string,
                           regexMatch: (string, string) -> bool)
    requires "BEV__REPOSITORY" in env
    ensures DefaultChoose(name, hostname, env, node, regexMatch) <==> name == env["BEV__REPOSITORY"]
  {
  }

  /** Searches `path[..k]`, then its parents, for a directory holding `marker`. */
  function FindRootFrom(disk: Disk, path: Path, marker: string, k: nat): (r: Option<Path>)
    requires k <= |path|
    ensures r.Some? ==> |r.value| <= k && r.value == path[..|r.value|] && Exists(disk, r.value + [marker])
    ensures r.Some? ==> forall j :: |r.value| < j <= k ==> !Exists(disk, path[..j] + [marker])
    ensures r.None? ==> forall j :: 0 <= j <= k ==> !Exists(disk, path[..j] + [marker])
  {
    if Exists(disk, path[..k] + [marker]) then Some(path[..k])
    else if k == 0 then None
    else FindRootFrom(disk, path, marker, k - 1)
  }

  /** `_find_root`: the nearest of `path` and its ancestors that contains `marker`. */
  function FindRoot(disk: Disk, path: Path, marker: string): (r: Option<Path>)
    ensures r.Some? ==> |r.value| <= |path| && r.value == path[..|r.value|] && Exists(disk, r.value + [marker])
    ensures r.Some? ==> forall j :: |r.value| < j <= |path| ==> !Exists(disk, path[..j] + [marker])
    ensures r.None? ==> forall j :: 0 <= j <= |path| ==> !Exists(disk, path[..j] + [marker])
  {
    FindRootFrom(disk, path, marker, |path|)
  }

  /** A root that was found is its own root. */
  lemma FindRootIdempotent(disk: Disk, path: Path, marker: string)
    requires FindRoot(disk, path, marker).Some?
    ensures FindRoot(disk, FindRoot(disk, path, marker).value, marker) == FindRoot(disk, path, marker)
  {
    var q := FindRoot(disk, path, marker).value;
    assert q[..|q|] == q;
  }

  /** Every path between a found root and the start finds the same root. */
  lemma {:induction false} FindRootBetween(disk: Disk, path: Path, marker: string, k: nat)
    requires FindRoot(disk, path, marker).Some?
    requires |FindRoot(disk, path, marker).value| <= k <= |path|
    ensures FindRoot(disk, path[..k], marker) == FindRoot(disk, path, marker)
  {
    var q := FindRoot(disk, path, marker).value;
    forall j | 0 <= j <= k ensures path[..k][..j] == path[..j] {
    }
  }

  /** `find_repo_root`: the nearest directory holding `.bev.yml`. */
  function FindRepoRoot(disk: Disk, path: Path): (r: Option<Path>)
    ensures r.Some? ==> |r.value| <= |path| && r.value == path[..|r.value|] && Exists(disk, r.value + [Config])
    ensures r.Some? ==> forall j :: |r.value| < j <= |path| ==> !Exists(disk, path[..j] + [Config])
    ensures r.None? ==> forall j :: 0 <= j <= |path| ==> !Exists(disk, path[..j] + [Config])
  {
    FindRoot(disk, path, Config)
  }

  /** `find_vcs_root`: the nearest directory holding `.git`. */
  function FindVcsRoot(disk: Disk, path: Path): (r: Option<Path>)
    ensures r.Some? ==> |r.value| <= |path| && r.value == path[..|r.value|] && Exists(disk, r.value + [GitDir])
    ensures r.Some? ==> forall j :: |r.value| < j <= |path| ==> !Exists(disk, path[..j] + [GitDir])
    ensures r.None? ==> forall j :: 0 <= j <= |path| ==> !Exists(disk, path[..j] + [GitDir])
  {
    FindRoot(disk, path, GitDir)
  }
}
