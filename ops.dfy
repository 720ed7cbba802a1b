/**
  Hashing a source into the repository (bev/ops.py): the conflict policies,
  `gather` (a file, a folder or a marker becomes a key or a flat tree),
  `load_hash` (a marker read back) and `save_hash` (a key or a tree written
  to a marker).

  Files written by bev are recorded in a `Journal` rather than on the `Disk`
  oracle, which stays as it was when the operation began.
 */
module Ops {
  import opened Errors
  import opened Paths
  import opened Hash
  import opened Oracles
  import opened Dicts

  /** `Conflict`: what to do when the destination marker already exists.
      `Raise` is the policy called `error`. */
  datatype Conflict = Update | Override | Replace | Raise

  /** The policy's value as given on the command line. */
  function ConflictName(c: Conflict): (r: string)
    ensures r in {"update", "override", "replace", "error"}
  {
    match c
    case Update => "update"
    case Override => "override"
    case Replace => "replace"
    case Raise => "error"
  }

  /** `Conflict(value)`: exactly four values name a policy. */
  function ConflictOf(s: string): (r: Option<Conflict>)
    ensures r.Some? <==> s in {"update", "override", "replace", "error"}
    ensures r.Some? ==> ConflictName(r.value) == s
  {
    if s == "update" then Some(Update)
    else if s == "override" then Some(Override)
    else if s == "replace" then Some(Replace)
    else if s == "error" then Some(Raise)
    else None
  }

  /** Naming a policy and parsing the name back gives the policy. */
  lemma ConflictRoundTrip(c: Conflict)
    ensures ConflictOf(ConflictName(c)) == Some(c)
  {
  }

  /** `HashType`: a file key, or a flat tree from relative path to key. */
  datatype HashType = KeyValue(key: Key) | TreeValue(tree: map<string, Key>)

  /** A marker's key read back: a tree key becomes its normalised stored tree. */
  function LoadedHash(key: Key, store: Store, fetch: bool): (r: Result<HashType>)
    ensures !IsTree(key) ==> r == Ok(KeyValue(key))
    ensures IsTree(key) && store.readTree(StripTree(key), fetch).None? ==> r == Err(StorageError)
    ensures IsTree(key) && r.Ok? ==> r.value.TreeValue? && CanonicalTree(r.value.tree, store.digestSize)
  {
    if IsTree(key) then
      match store.readTree(StripTree(key), fetch)
      case None => Err(StorageError)
      case Some(l) =>
        var t :- Normalized(AsRaw(l), store.digestSize);
        NormalizedIsCanonical(AsRaw(l), store.digestSize);
        Ok(TreeValue(t))
    else Ok(KeyValue(key))
  }

  /** `load_hash`. */
  method LoadHash(disk: Disk, path: Path, store: Store, fetch: bool) returns (r: Result<HashType>)
    ensures LoadKey(disk, path).Err? ==> r == Err(LoadKey(disk, path).error)
    ensures LoadKey(disk, path).Ok? ==> r == LoadedHash(LoadKey(disk, path).value, store, fetch)
  {
    var key :- LoadKey(disk, path);
    if IsTree(key) {
      var stored := store.readTree(StripTree(key), fetch);
      if stored.None? {
        return Err(StorageError);
      }
      var t :- NormalizeTree(AsRaw(stored.value), store.digestSize);
      return Ok(TreeValue(t));
    }
    return Ok(KeyValue(key));
  }

  // ---------------------------------------------------------------------------
  // Writing a marker

  /** What bev does to the file system. */
  datatype Action =
    | WroteMarker(path: Path, text: string)
    | Removed(path: Path, wasDir: bool)   // `shutil.rmtree` for a folder, `os.remove` otherwise

  class Journal {
    var actions: seq<Action>

    constructor ()
      ensures actions == []
    {
      actions := [];
    }
  }

  /** The text `save_hash` writes: the key itself, or `tree_to_hash` of the tree. */
  ghost function SavedKey(value: HashType, store: Store): (r: Result<Key>)
    ensures value.KeyValue? ==> r == Ok(value.key)
    ensures value.TreeValue? && r.Ok? ==> IsTree(r.value)
  {
    match value
    case KeyValue(k) => Ok(k)
    case TreeValue(t) =>
      var n :- Normalized(AsRaw(Canonical(t)), store.digestSize);
      StripTreePrefix(store.writeTree(Canonical(n)));
      Ok(TreePrefix + store.writeTree(Canonical(n)))
  }

  /** `save_hash`: writes the marker and returns exactly what it wrote. */
  method SaveHash(value: HashType, path: Path, store: Store, journal: Journal) returns (r: Result<Key>)
    modifies journal
    ensures r == SavedKey(value, store)
    ensures r.Ok? ==> journal.actions == old(journal.actions) + [WroteMarker(path, r.value)]
    ensures r.Err? ==> journal.actions == old(journal.actions)
  {
    var text: Key;
    match value {
      case KeyValue(k) =>
        text := k;
      case TreeValue(t) =>
        var l := SortedItems(t);
        text :- TreeToHash(AsRaw(l), store.digestSize, store.writeTree);
    }
    journal.actions := journal.actions + [WroteMarker(path, text)];
    return Ok(text);
  }

  /** Round trip: a key saved by `save_hash` reads back with `load_hash` as the
      same value, provided the store hands back what was written to it. */
  lemma SaveLoad(value: HashType, store: Store, fetch: bool)
    requires value.KeyValue? ==> !IsTree(value.key)
    requires value.TreeValue? ==>
               && CanonicalTree(value.tree, store.digestSize)
               && store.readTree(store.writeTree(Canonical(value.tree)), fetch) == Some(Canonical(value.tree))
    ensures SavedKey(value, store).Ok?
    ensures LoadedHash(SavedKey(value, store).value, store, fetch) == Ok(value)
  {
    if value.TreeValue? {
      var t := value.tree;
      NormalizeSerialised(t, store.digestSize);
      StripTreePrefix(store.writeTree(Canonical(t)));
    }
  }

  // ---------------------------------------------------------------------------
  // gather

  /** What one walk entry adds to the `gathered` dict of a folder: nothing for a
      sub-folder, the marker's key (or its decoded tree) under the un-suffixed
      path for a marker, and the stored key for any other file. */
  function Contribution(disk: Disk, store: Store, fetch: bool, source: Path, relative: Path)
    : (r: Result<Option<(Path, Raw)>>)
    ensures disk.kind(source + relative) == Directory ==> r == Ok(None)
    ensures disk.kind(source + relative) != Directory && !IsHash(source + relative) ==>
              r == Ok(Some((relative, Str(store.writeFile(source + relative)))))
    ensures disk.kind(source + relative) != Directory && IsHash(source + relative) && LoadKey(disk, source + relative).Err? ==>
              r == Err(LoadKey(disk, source + relative).error)
    ensures disk.kind(source + relative) != Directory && IsHash(source + relative) && LoadKey(disk, source + relative).Ok? ==>
              var key := disk.readKey(source + relative);
              && (IsTree(key) && store.readTree(StripTree(key), fetch).None? ==> r == Err(StorageError))
              && (r.Ok? ==> r.value.Some? && FromHash(relative) == Ok(r.value.value.0))
              && (r.Ok? && !IsTree(key) ==> r.value.value.1 == Str(key))
              && (r.Ok? && IsTree(key) ==> r.value.value.1 == Dict(AsRaw(store.readTree(StripTree(key), fetch).value)))
  {
    var child := source + relative;
    if disk.kind(child) == Directory then Ok(None)
    else if IsHash(child) then
      var key :- LoadKey(disk, child);
      var value :-
        if IsTree(key) then
          match store.readTree(StripTree(key), fetch)
          case None => Err(StorageError)
          case Some(l) => Ok(Dict(AsRaw(l)))
        else Ok(Str(key));
      var plain :- FromHash(relative);
      Ok(Some((plain, value)))
    else Ok(Some((relative, Str(store.writeFile(child)))))
  }

  function Contribute(disk: Disk, store: Store, fetch: bool, source: Path): Path -> Result<Option<(Path, Raw)>> {
    relative => Contribution(disk, store, fetch, source, relative)
  }

  /** The `gathered` dict after the walk entries in `walk`, or the first error. */
  function Collect(step: Path -> Result<Option<(Path, Raw)>>, walk: seq<Path>): Result<seq<(Path, Raw)>> {
    if walk == [] then Ok([])
    else
      var gathered :- Collect(step, walk[..|walk| - 1]);
      var c :- step(walk[|walk| - 1]);
      if c.None? then Ok(gathered) else Ok(Set(gathered, c.value.0, c.value.1))
  }

  /** The walk succeeds iff every entry does. */
  lemma {:induction false} CollectOk(step: Path -> Result<Option<(Path, Raw)>>, walk: seq<Path>)
    ensures Collect(step, walk).Ok? <==> forall i :: 0 <= i < |walk| ==> step(walk[i]).Ok?
  {
    if walk != [] {
      var init := walk[..|walk| - 1];
      CollectOk(step, init);
      assert forall i :: 0 <= i < |init| ==> init[i] == walk[i];
    }
  }

  lemma CollectNext(step: Path -> Result<Option<(Path, Raw)>>, walk: seq<Path>, i: nat, gathered: seq<(Path, Raw)>)
    requires i < |walk| && Collect(step, walk[..i]) == Ok(gathered)
    ensures step(walk[i]).Err? ==> Collect(step, walk[..i + 1]) == Err(step(walk[i]).error)
    ensures step(walk[i]) == Ok(None) ==> Collect(step, walk[..i + 1]) == Ok(gathered)
    ensures step(walk[i]).Ok? && step(walk[i]).value.Some? ==>
              Collect(step, walk[..i + 1]) == Ok(Set(gathered, step(walk[i]).value.value.0, step(walk[i]).value.value.1))
  {
    assert walk[..i + 1][..i] == walk[..i];
  }

  /** Once an entry fails, the rest of the walk does not matter. */
  lemma {:induction false} CollectErrorPersists(step: Path -> Result<Option<(Path, Raw)>>, walk: seq<Path>, i: nat)
    requires i <= |walk| && Collect(step, walk[..i]).Err?
    ensures Collect(step, walk) == Collect(step, walk[..i])
    decreases |walk| - i
  {
    if i < |walk| {
      assert walk[..i + 1][..i] == walk[..i];
      CollectErrorPersists(step, walk, i + 1);
    } else {
      assert walk[..i] == walk;
    }
  }

  /** An entry contributes at `p` after position `i`. */
  ghost predicate ContributesLater(step: Path -> Result<Option<(Path, Raw)>>, walk: seq<Path>, i: nat, p: Path) {
    exists j :: i < j < |walk| && step(walk[j]).Ok? && step(walk[j]).value.Some? && step(walk[j]).value.value.0 == p
  }

  /** The last contribution at a path is the one the dict holds. */
  lemma {:induction false} CollectLast(step: Path -> Result<Option<(Path, Raw)>>, walk: seq<Path>, i: nat)
    requires i < |walk| && Collect(step, walk).Ok?
    requires step(walk[i]).Ok? && step(walk[i]).value.Some?
    requires !ContributesLater(step, walk, i, step(walk[i]).value.value.0)
    ensures Get(Collect(step, walk).value, step(walk[i]).value.value.0) == Some(step(walk[i]).value.value.1)
  {
    var n := |walk|;
    var init := walk[..n - 1];
    var p := step(walk[i]).value.value.0;
    if i < n - 1 {
      assert init[i] == walk[i];
      CollectLast(step, init, i);
      assert !(step(walk[n - 1]).value.Some? && step(walk[n - 1]).value.value.0 == p);
    }
  }

  /** Every path of the dict comes from some entry contributing at it. */
  lemma {:induction false} CollectFrom(step: Path -> Result<Option<(Path, Raw)>>, walk: seq<Path>, p: Path)
    requires Collect(step, walk).Ok? && Get(Collect(step, walk).value, p).Some?
    ensures exists i :: 0 <= i < |walk| && step(walk[i]).Ok? && step(walk[i]).value.Some? && step(walk[i]).value.value.0 == p
  {
    var n := |walk|;
    var init := walk[..n - 1];
    var c := step(walk[n - 1]).value;
    if c.None? || c.value.0 != p {
      CollectFrom(step, init, p);
      var i :| 0 <= i < |init| && step(init[i]).Ok? && step(init[i]).value.Some? && step(init[i]).value.value.0 == p;
      assert init[i] == walk[i];
    }
  }

  /** The dict with its paths rendered, as `normalize_tree` sees them. */
  function RawItems(gathered: seq<(Path, Raw)>): (r: seq<(string, Raw)>)
    ensures |r| == |gathered| && forall k :: 0 <= k < |r| ==> r[k] == (Render(gathered[k].0), gathered[k].1)
  {
    if gathered == [] then [] else [(Render(gathered[0].0), gathered[0].1)] + RawItems(gathered[1..])
  }

  /** `gather(source, storage, fetch=fetch)`. */
  function GatherSpec(disk: Disk, store: Store, source: Path, fetch: bool): (r: Result<HashType>)
    ensures !Exists(disk, source) ==> r == Err(FileNotFound)
    ensures Exists(disk, source) && IsHash(source) && LoadKey(disk, source).Err? ==> r == Err(LoadKey(disk, source).error)
    ensures Exists(disk, source) && IsHash(source) && LoadKey(disk, source).Ok? ==>
              r == LoadedHash(LoadKey(disk, source).value, store, fetch)
    ensures Exists(disk, source) && !IsHash(source) && disk.kind(source) == Directory && r.Ok? ==>
              r.value.TreeValue? && CanonicalTree(r.value.tree, store.digestSize)
    ensures !IsHash(source) && disk.kind(source) == RegularFile ==> r == Ok(KeyValue(store.writeFile(source)))
    ensures !IsHash(source) && disk.kind(source) == Special ==> r == Err(AssertionFailed)
  {
    if !Exists(disk, source) then Err(FileNotFound)
    else if IsHash(source) then
      var key :- LoadKey(disk, source);
      LoadedHash(key, store, fetch)
    else if disk.kind(source) == Directory then
      var gathered :- Collect(Contribute(disk, store, fetch, source), disk.walk(source));
      var t :- Normalized(RawItems(gathered), store.digestSize);
      NormalizedIsCanonical(RawItems(gathered), store.digestSize);
      Ok(TreeValue(t))
    else if disk.kind(source) == RegularFile then Ok(KeyValue(store.writeFile(source)))
    else Err(AssertionFailed)
  }

  /** `gather`: a marker is loaded, a file is stored, a folder is walked and
      the result normalised. */
  method Gather(disk: Disk, store: Store, source: Path, fetch: bool) returns (r: Result<HashType>)
    ensures r == GatherSpec(disk, store, source, fetch)
  {
    if !Exists(disk, source) {
      return Err(FileNotFound);
    }
    if IsHash(source) {
      r := LoadHash(disk, source, store, fetch);
      return;
    }
    if disk.kind(source) != Directory {
      if disk.kind(source) != RegularFile {
        return Err(AssertionFailed);
      }
      return Ok(KeyValue(store.writeFile(source)));
    }
    var gathered :- GatherFolder(disk, store, source, fetch);
    var t :- NormalizeTree(RawItems(gathered), store.digestSize);
    return Ok(TreeValue(t));
  }

  /** One entry of the walk of `gather`: skipped when it is a folder, read
      (and decoded when it names a tree) when it is a marker, stored otherwise. */
  method ContributeEntry(disk: Disk, store: Store, fetch: bool, source: Path, relative: Path)
    returns (r: Result<Option<(Path, Raw)>>)
    ensures r == Contribution(disk, store, fetch, source, relative)
  {
    var child := source + relative;
    if disk.kind(child) == Directory {
      return Ok(None);
    }
    if !IsHash(child) {
      return Ok(Some((relative, Str(store.writeFile(child)))));
    }
    var key :- LoadKey(disk, child);
    var value := Str(key);
    if IsTree(key) {
      var stored := store.readTree(StripTree(key), fetch);
      if stored.None? {
        return Err(StorageError);
      }
      value := Dict(AsRaw(stored.value));
    }
    var plain :- FromHash(relative);
    return Ok(Some((plain, value)));
  }

  /** The walk of `gather` over a folder, filling the `gathered` dict entry by entry. */
  method GatherFolder(disk: Disk, store: Store, source: Path, fetch: bool) returns (r: Result<seq<(Path, Raw)>>)
    ensures r == Collect(Contribute(disk, store, fetch, source), disk.walk(source))
  {
    var walk := disk.walk(source);
    ghost var step := Contribute(disk, store, fetch, source);
    var gathered: seq<(Path, Raw)> := [];
    var i := 0;
    while i < |walk|
      invariant 0 <= i <= |walk|
      invariant Collect(step, walk[..i]) == Ok(gathered)
    {
      var c := ContributeEntry(disk, store, fetch, source, walk[i]);
      assert c == step(walk[i]);
      CollectNext(step, walk, i, gathered);
      if c.Err? {
        CollectErrorPersists(step, walk, i + 1);
        return Err(c.error);
      }
      if c.value.Some? {
        gathered := Set(gathered, c.value.value.0, c.value.value.1);
      }
      i := i + 1;
    }
    assert walk[..i] == walk;
    return Ok(gathered);
  }

  /** The gathered tree of a folder, when there is one. */
  ghost predicate GatheredFolder(disk: Disk, store: Store, source: Path, fetch: bool) {
    Exists(disk, source) && !IsHash(source) && disk.kind(source) == Directory && GatherSpec(disk, store, source, fetch).Ok?
  }

  /** A leaf contributed by walk entry `i` and not overridden later ends up in
      the gathered tree under its path. */
  lemma GatherLeaf(disk: Disk, store: Store, source: Path, fetch: bool, i: nat)
    requires GatheredFolder(disk, store, source, fetch)
    requires var walk := disk.walk(source); var step := Contribute(disk, store, fetch, source);
      && i < |walk| && step(walk[i]).Ok? && step(walk[i]).value.Some?
      && step(walk[i]).value.value.1.Str? && ValidPath(step(walk[i]).value.value.0)
      && !ContributesLater(step, walk, i, step(walk[i]).value.value.0)
    ensures var c := Contribution(disk, store, fetch, source, disk.walk(source)[i]).value.value;
      var t := GatherSpec(disk, store, source, fetch).value.tree;
      Render(c.0) in t && t[Render(c.0)] == c.1.s
  {
    var walk := disk.walk(source);
    var step := Contribute(disk, store, fetch, source);
    var c := step(walk[i]).value.value;
    var gathered := Collect(step, walk).value;
    CollectLast(step, walk, i);
    var k :| 0 <= k < |gathered| && gathered[k] == c;
    var raw := RawItems(gathered);
    NormalizedSpec(raw, store.digestSize);
    FlattenYieldsLeaf(Dict(raw), 0, k, store.digestSize);
    ParseRender(c.0);
  }

  /** Each entry of a tree marker contributed by walk entry `i` and not
      overridden later ends up in the gathered tree below the marker's path. */
  lemma GatherNested(disk: Disk, store: Store, source: Path, fetch: bool, i: nat, l: Listing, m: nat)
    requires GatheredFolder(disk, store, source, fetch)
    requires var walk := disk.walk(source); var step := Contribute(disk, store, fetch, source);
      && i < |walk| && step(walk[i]).Ok? && step(walk[i]).value.Some?
      && step(walk[i]).value.value.1 == Dict(AsRaw(l)) && ValidPath(step(walk[i]).value.value.0)
      && !ContributesLater(step, walk, i, step(walk[i]).value.value.0)
    requires m < |l|
    ensures var p := Contribution(disk, store, fetch, source, disk.walk(source)[i]).value.value.0;
      var t := GatherSpec(disk, store, source, fetch).value.tree;
      Render(p + ParsePath(l[m].0)) in t && t[Render(p + ParsePath(l[m].0))] == l[m].1
  {
    var walk := disk.walk(source);
    var step := Contribute(disk, store, fetch, source);
    var c := step(walk[i]).value.value;
    var gathered := Collect(step, walk).value;
    CollectLast(step, walk, i);
    var k :| 0 <= k < |gathered| && gathered[k] == c;
    var raw := RawItems(gathered);
    NormalizedSpec(raw, store.digestSize);
    LeavesValidBelow(Dict(raw), 0, k, store.digestSize);
    var inner := Dict(AsRaw(l));
    FlattenYieldsLeaf(inner, 0, m, store.digestSize);
    FlattenYieldsNested(Dict(raw), 0, k, ParsePath(l[m].0), l[m].1, store.digestSize);
    ParseRender(c.0);
  }

  /** A plain file of the folder maps to its stored key (unless a later marker
      takes its path). */
  lemma GatherPlainFile(disk: Disk, store: Store, source: Path, fetch: bool, i: nat)
    requires GatheredFolder(disk, store, source, fetch)
    requires var walk := disk.walk(source);
      && i < |walk| && ValidPath(walk[i])
      && disk.kind(source + walk[i]) != Directory && !IsHash(source + walk[i])
      && !ContributesLater(Contribute(disk, store, fetch, source), walk, i, walk[i])
    ensures var t := GatherSpec(disk, store, source, fetch).value.tree;
      var relative := disk.walk(source)[i];
      Render(relative) in t && t[Render(relative)] == store.writeFile(source + relative)
  {
    GatherLeaf(disk, store, source, fetch, i);
  }

  /** Only files and markers contribute: every path of the `gathered` dict is
      a non-folder walk entry, or a marker entry without its suffix. */
  lemma GatherOnlyFiles(disk: Disk, store: Store, source: Path, fetch: bool, p: Path)
    requires var step := Contribute(disk, store, fetch, source); var walk := disk.walk(source);
      Collect(step, walk).Ok? && Get(Collect(step, walk).value, p).Some?
    ensures var walk := disk.walk(source);
      exists i :: 0 <= i < |walk| && disk.kind(source + walk[i]) != Directory &&
        (if IsHash(source + walk[i]) then FromHash(walk[i]) == Ok(p) else p == walk[i])
  {
    CollectFrom(Contribute(disk, store, fetch, source), disk.walk(source), p);
  }
}
