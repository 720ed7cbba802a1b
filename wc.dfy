/**
  The virtual directory enumerator of bev/wc.py. A `BevGlob` lists the
  folders of a repository as if every marker were the file or folder it
  stands for: a marker `name.hash` is reported as `name`, and a tree marker
  is decoded into a nested tree that is then listed from memory. Decoded
  trees and file keys are kept in a cache shared by the globs of one
  repository and keyed by `(version, path)`.

  Wildcard matching (the `wcmatch` base class) is not part of this model:
  only the enumeration it is fed is.
 */
module Wc {
  import opened Errors
  import opened Paths
  import opened Hash
  import opened Oracles
  import opened Vc
  import opened Dicts
  import opened WcTrees

  /** `DirEntry`: one name reported to the matcher. */
  datatype DirEntry = DirEntry(name: string, isDir: bool, isHidden: bool, isSymlink: bool)

  /** Where a glob reads listings and markers: the working copy below the
      absolute `repoRoot` (`BevLocalGlob`), or git at a committed version
      (`BevVCGlob`). */
  datatype Backend =
    | WorkingCopy(disk: Disk, repoRoot: Path)
    | History(git: Git, handle: string)

  /** Everything a glob consults besides its cache; `isHidden` is the
      matcher's own rule for hidden names. */
  datatype Source = Source(backend: Backend, store: Store, fetch: bool, isHidden: string -> bool)

  type CacheMap = map<(Option<string>, Path), Node>

  /** The version a glob files its cache entries under: None for the working copy. */
  function CacheVersion(b: Backend): Option<string> {
    match b
    case WorkingCopy(_, _) => None
    case History(_, handle) => Some(handle)
  }

  function Names(l: seq<TreeEntry>): (r: seq<string>)
    ensures |r| == |l| && forall i :: 0 <= i < |l| ==> r[i] == l[i].name
  {
    seq(|l|, i requires 0 <= i < |l| => l[i].name)
  }

  /** `_list_dir(relative)`. */
  function ListDirOf(b: Backend, rel: Path): Result<seq<TreeEntry>> {
    match b
    case WorkingCopy(disk, root) =>
      if Exists(disk, root + rel) then Ok(disk.iterdir(root + rel)) else Err(FileNotFound)
    case History(git, handle) => ListDirSpec(git, Render(rel), handle)
  }

  /** `_exists(relative)`: on disk, or among the names git lists in the parent. */
  function ExistsIn(b: Backend, rel: Path): Result<bool> {
    match b
    case WorkingCopy(disk, root) => Ok(Exists(disk, root + rel))
    case History(git, handle) =>
      var listing :- ListDirSpec(git, Render(if rel == [] then [] else Parent(rel)), handle);
      Ok(Name(rel) in Names(listing))
  }

  /** `_read_tree_key(relative)`: the marker's contents, None when there is
      none; a working-copy marker that is not a regular file cannot be read. */
  function ReadTreeKey(b: Backend, rel: Path): Result<Option<Key>> {
    match b
    case WorkingCopy(disk, root) =>
      if Exists(disk, root + rel) then
        var k :- LoadKey(disk, root + rel);
        Ok(Some(k))
      else Ok(None)
    case History(git, handle) => Ok(Read(git, Render(rel), handle))
  }

  /** The stored tree of a tree key, nested as `_normalize_tree` nests it. */
  function DecodeTree(src: Source, key: Key): Result<Node> {
    match src.store.readTree(StripTree(key), src.fetch)
    case None => Err(StorageError)
    case Some(l) =>
      var es :- Nest(l);
      Ok(Dir(es))
  }

  // ---------------------------------------------------------------------------
  // The decode cache

  /** `_get_cached`, looking at the parents `rel[..i - 1]`, ..., `rel[..0]`
      nearest first, then at `rel` itself. */
  function CachedFrom(entries: CacheMap, v: Option<string>, rel: Path, i: nat): Result<Option<Node>>
    requires i <= |rel|
    decreases i
  {
    if i == 0 then Ok(if (v, rel) in entries then Some(entries[(v, rel)]) else None)
    else if (v, rel[..i - 1]) in entries then
      var n :- Descend(entries[(v, rel[..i - 1])], rel[i - 1..]);
      Ok(Some(n))
    else CachedFrom(entries, v, rel, i - 1)
  }

  function Cached(entries: CacheMap, v: Option<string>, rel: Path): Result<Option<Node>> {
    CachedFrom(entries, v, rel, |rel|)
  }

  lemma {:induction false} CachedFromNearest(entries: CacheMap, v: Option<string>, rel: Path, i: nat, j: nat)
    requires j < i <= |rel| && (v, rel[..j]) in entries
    requires forall m :: j < m < i ==> (v, rel[..m]) !in entries
    ensures CachedFrom(entries, v, rel, i) ==
              var d := Descend(entries[(v, rel[..j])], rel[j..]);
              if d.Ok? then Ok(Some(d.value)) else Err(d.error)
    decreases i
  {
    if i - 1 > j {
      CachedFromNearest(entries, v, rel, i - 1, j);
    }
  }

  /** The nearest cached parent decides: the walk down from it finds the
      value at `rel`, and fails exactly where that value does not exist. */
  lemma CachedNearest(entries: CacheMap, v: Option<string>, rel: Path, j: nat)
    requires j < |rel| && (v, rel[..j]) in entries
    requires forall m :: j < m < |rel| ==> (v, rel[..m]) !in entries
    ensures Cached(entries, v, rel).Ok? <==> Lookup(entries[(v, rel[..j])], rel[j..]).Some?
    ensures Cached(entries, v, rel).Ok? ==> Cached(entries, v, rel) == Ok(Lookup(entries[(v, rel[..j])], rel[j..]))
  {
    CachedFromNearest(entries, v, rel, |rel|, j);
    DescendLookup(entries[(v, rel[..j])], rel[j..]);
  }

  lemma {:induction false} CachedFromNone(entries: CacheMap, v: Option<string>, rel: Path, i: nat)
    requires i <= |rel| && forall m :: 0 <= m < i ==> (v, rel[..m]) !in entries
    ensures CachedFrom(entries, v, rel, i) == Ok(if (v, rel) in entries then Some(entries[(v, rel)]) else None)
    decreases i
  {
    if i > 0 {
      CachedFromNone(entries, v, rel, i - 1);
    }
  }

  /** With no cached parent, only the exact entry counts, and otherwise there is none. */
  lemma CachedExact(entries: CacheMap, v: Option<string>, rel: Path)
    requires forall m :: 0 <= m < |rel| ==> (v, rel[..m]) !in entries
    ensures (v, rel) in entries ==> Cached(entries, v, rel) == Ok(Some(entries[(v, rel)]))
    ensures (v, rel) !in entries ==> Cached(entries, v, rel) == Ok(None)
  {
    CachedFromNone(entries, v, rel, |rel|);
  }

  // ---------------------------------------------------------------------------
  // Scanning a folder

  /** The entries reported for a decoded folder. */
  function SubtreeEntries(es: seq<(string, Node)>, isHidden: string -> bool): (r: seq<DirEntry>)
    ensures |r| == |es|
    ensures forall i :: 0 <= i < |es| ==>
              r[i] == DirEntry(es[i].0, es[i].1.Dir?, isHidden(es[i].0), false)
  {
    seq(|es|, i requires 0 <= i < |es| => DirEntry(es[i].0, es[i].1.Dir?, isHidden(es[i].0), false))
  }

  /** What one entry of a real listing turns into: the entry reported, and
      the value cached for it, if any. */
  datatype Outcome = Outcome(entry: DirEntry, stored: Option<(Path, Node)>)

  /** A marker entry for the plain path `plain` holding `key`: reported under
      the plain name, as a folder iff the key is a tree key, and cached under
      the plain path as the decoded tree or the bare key. */
  predicate MarkerOutcome(src: Source, plain: Path, key: Key, o: Outcome) {
    && o.entry == DirEntry(Name(plain), IsTree(key), src.isHidden(Name(plain)), false)
    && (IsTree(key) ==> DecodeTree(src, key).Ok? && o.stored == Some((plain, DecodeTree(src, key).value)))
    && (!IsTree(key) ==> o.stored == Some((plain, File(key))))
  }

  /** One entry of a real listing of `rel`. */
  function EntryOutcome(src: Source, rel: Path, e: TreeEntry): (r: Result<Outcome>)
    ensures !IsHash(rel + [e.name]) ==>
              r == Ok(Outcome(DirEntry(e.name, e.isDir, src.isHidden(e.name), e.isSymlink), None))
    ensures (IsHash(rel + [e.name]) && FromHash(rel + [e.name]).Ok?
             && ExistsIn(src.backend, FromHash(rel + [e.name]).value) == Ok(true)) ==> r == Err(NameConflict)
    ensures (IsHash(rel + [e.name]) && FromHash(rel + [e.name]).Ok?
             && ExistsIn(src.backend, FromHash(rel + [e.name]).value) == Ok(false)
             && ReadTreeKey(src.backend, rel + [e.name]).Err?) ==> r == Err(ReadTreeKey(src.backend, rel + [e.name]).error)
    ensures r.Ok? && IsHash(rel + [e.name]) ==>
              && FromHash(rel + [e.name]).Ok?
              && ReadTreeKey(src.backend, rel + [e.name]).Ok? && ReadTreeKey(src.backend, rel + [e.name]).value.Some?
              && ExistsIn(src.backend, FromHash(rel + [e.name]).value) == Ok(false)
              && MarkerOutcome(src, FromHash(rel + [e.name]).value, ReadTreeKey(src.backend, rel + [e.name]).value.value, r.value)
  {
    var path := rel + [e.name];
    if !IsHash(path) then
      Ok(Outcome(DirEntry(e.name, e.isDir, src.isHidden(e.name), e.isSymlink), None))
    else
      var plain :- FromHash(path);
      var clash :- ExistsIn(src.backend, plain);
      if clash then Err(NameConflict)
      else
        var read :- ReadTreeKey(src.backend, path);
        match read
        case None => Err(AssertionFailed)
        case Some(key) =>
          var value :- if IsTree(key) then DecodeTree(src, key) else Ok(File(key));
          Ok(Outcome(DirEntry(Name(plain), IsTree(key), src.isHidden(Name(plain)), false), Some((plain, value))))
  }

  function Step(src: Source, rel: Path): TreeEntry -> Result<Outcome> {
    e => EntryOutcome(src, rel, e)
  }

  /** The result of scanning, and the cache afterwards. */
  datatype Scan = Scan(result: Result<seq<DirEntry>>, cache: CacheMap)

  function Remember(entries: CacheMap, v: Option<string>, stored: Option<(Path, Node)>): CacheMap {
    match stored
    case None => entries
    case Some((p, n)) => entries[(v, p) := n]
  }

  /** The loop over a real listing: entries are reported in order, and the
      values of the markers met before a failing entry stay cached. */
  function ScanFold(step: TreeEntry -> Result<Outcome>, v: Option<string>, entries: CacheMap, listing: seq<TreeEntry>): Scan
    decreases |listing|
  {
    if listing == [] then Scan(Ok([]), entries)
    else
      var s := ScanFold(step, v, entries, listing[..|listing| - 1]);
      if s.result.Err? then s
      else match step(listing[|listing| - 1])
        case Err(e) => Scan(Err(e), s.cache)
        case Ok(o) => Scan(Ok(s.result.value + [o.entry]), Remember(s.cache, v, o.stored))
  }

  /** A scan of a real listing succeeds iff every entry does; it then reports
      one entry per listed name, in order, and otherwise fails with the error
      of the first entry that fails. */
  lemma {:induction false} ScanFoldResult(step: TreeEntry -> Result<Outcome>, v: Option<string>, entries: CacheMap,
                                          listing: seq<TreeEntry>)
    ensures ScanFold(step, v, entries, listing).result.Ok? <==>
              forall i :: 0 <= i < |listing| ==> step(listing[i]).Ok?
    ensures ScanFold(step, v, entries, listing).result.Ok? ==>
              var ds := ScanFold(step, v, entries, listing).result.value;
              |ds| == |listing| && forall i :: 0 <= i < |listing| ==> ds[i] == step(listing[i]).value.entry
    ensures forall i :: 0 <= i < |listing| && step(listing[i]).Err?
                        && (forall j :: 0 <= j < i ==> step(listing[j]).Ok?) ==>
              ScanFold(step, v, entries, listing).result == Err(step(listing[i]).error)
    decreases |listing|
  {
    if listing != [] {
      var init := listing[..|listing| - 1];
      ScanFoldResult(step, v, entries, init);
      assert forall i :: 0 <= i < |init| ==> init[i] == listing[i];
    }
  }

  /** Entry `i` caches a value under `p`. */
  predicate StoresAt(step: TreeEntry -> Result<Outcome>, listing: seq<TreeEntry>, i: nat, p: Path)
    requires i < |listing|
  {
    step(listing[i]).Ok? && step(listing[i]).value.stored.Some? && step(listing[i]).value.stored.value.0 == p
  }

  /** After a successful scan of a real listing, each marker's plain path
      holds the value cached by the last entry for it. */
  lemma {:induction false} ScanFoldCacheStored(step: TreeEntry -> Result<Outcome>, v: Option<string>, entries: CacheMap,
                                               listing: seq<TreeEntry>)
    requires forall i :: 0 <= i < |listing| ==> step(listing[i]).Ok?
    ensures forall i :: 0 <= i < |listing| && step(listing[i]).value.stored.Some?
                        && (forall j :: i < j < |listing| ==> !StoresAt(step, listing, j, step(listing[i]).value.stored.value.0)) ==>
              var st := step(listing[i]).value.stored.value;
              (v, st.0) in ScanFold(step, v, entries, listing).cache
              && ScanFold(step, v, entries, listing).cache[(v, st.0)] == st.1
    decreases |listing|
  {
    if listing != [] {
      var init := listing[..|listing| - 1];
      assert forall i :: 0 <= i < |init| ==> init[i] == listing[i];
      ScanFoldResult(step, v, entries, init);
      ScanFoldCacheStored(step, v, entries, init);
      var s := ScanFold(step, v, entries, init);
      var last := step(listing[|init|]).value;
      assert ScanFold(step, v, entries, listing).cache == Remember(s.cache, v, last.stored);
      forall i | 0 <= i < |init| && step(listing[i]).value.stored.Some?
                 && (forall j :: i < j < |listing| ==> !StoresAt(step, listing, j, step(listing[i]).value.stored.value.0))
        ensures var st := step(listing[i]).value.stored.value;
                (v, st.0) in Remember(s.cache, v, last.stored) && Remember(s.cache, v, last.stored)[(v, st.0)] == st.1
      {
        var p := step(listing[i]).value.stored.value.0;
        assert forall j :: i < j < |init| ==> StoresAt(step, init, j, p) == StoresAt(step, listing, j, p);
        assert !StoresAt(step, listing, |init|, p);
      }
    }
  }

  /** A scan of a real listing leaves alone every path no entry caches a value under. */
  lemma {:induction false} ScanFoldCacheUntouched(step: TreeEntry -> Result<Outcome>, v: Option<string>, entries: CacheMap,
                                                  listing: seq<TreeEntry>, p: Path)
    requires forall i :: 0 <= i < |listing| ==> step(listing[i]).Ok?
    requires forall i :: 0 <= i < |listing| ==> !StoresAt(step, listing, i, p)
    ensures (v, p) in ScanFold(step, v, entries, listing).cache <==> (v, p) in entries
    ensures (v, p) in entries ==> ScanFold(step, v, entries, listing).cache[(v, p)] == entries[(v, p)]
    decreases |listing|
  {
    if listing != [] {
      var init := listing[..|listing| - 1];
      assert forall i :: 0 <= i < |init| ==> init[i] == listing[i];
      assert forall i :: 0 <= i < |init| ==> StoresAt(step, init, i, p) == StoresAt(step, listing, i, p);
      assert !StoresAt(step, listing, |init|, p);
      ScanFoldResult(step, v, entries, init);
      ScanFoldCacheUntouched(step, v, entries, init, p);
    }
  }

  /** A scan files its cache entries under its own version only. */
  lemma {:induction false} ScanFoldCacheOwnVersion(step: TreeEntry -> Result<Outcome>, v: Option<string>, entries: CacheMap,
                                                   listing: seq<TreeEntry>, k: (Option<string>, Path))
    requires k.0 != v
    ensures k in ScanFold(step, v, entries, listing).cache <==> k in entries
    ensures k in entries ==> ScanFold(step, v, entries, listing).cache[k] == entries[k]
    decreases |listing|
  {
    if listing != [] {
      ScanFoldCacheOwnVersion(step, v, entries, listing[..|listing| - 1], k);
    }
  }

  lemma ScanFoldStep(step: TreeEntry -> Result<Outcome>, v: Option<string>, entries: CacheMap,
                     listing: seq<TreeEntry>, i: nat)
    requires i < |listing| && ScanFold(step, v, entries, listing[..i]).result.Ok?
    ensures var s := ScanFold(step, v, entries, listing[..i]);
            ScanFold(step, v, entries, listing[..i + 1]) ==
              match step(listing[i])
              case Err(e) => Scan(Err(e), s.cache)
              case Ok(o) => Scan(Ok(s.result.value + [o.entry]), Remember(s.cache, v, o.stored))
  {
    assert listing[..i + 1][..i] == listing[..i];
  }

  lemma {:induction false} ScanFoldErrorPersists(step: TreeEntry -> Result<Outcome>, v: Option<string>, entries: CacheMap,
                                                 listing: seq<TreeEntry>, k: nat)
    requires k <= |listing| && ScanFold(step, v, entries, listing[..k]).result.Err?
    ensures ScanFold(step, v, entries, listing) == ScanFold(step, v, entries, listing[..k])
    decreases |listing| - k
  {
    if k < |listing| {
      assert listing[..k + 1][..k] == listing[..k];
      ScanFoldErrorPersists(step, v, entries, listing, k + 1);
    } else {
      assert listing[..k] == listing;
    }
  }

  /** The part of `_scandir` after the cache has been consulted: a non-empty
      decoded folder is listed from memory, anything else from `_list_dir`. */
  function Overlay(src: Source, v: Option<string>, entries: CacheMap, rel: Path, cached: Option<Node>): Scan {
    if cached.Some? && Truthy(cached.value) then
      match cached.value
      case Dir(es) => Scan(Ok(SubtreeEntries(es, src.isHidden)), entries)
      case File(_) => Scan(Err(AssertionFailed), entries)
    else
      match ListDirOf(src.backend, rel)
      case Err(e) => Scan(Err(e), entries)
      case Ok(listing) => ScanFold(Step(src, rel), v, entries, listing)
  }

  /** `_scandir` of the folder `rel`, run to completion. */
  function ScanSpec(src: Source, v: Option<string>, entries: CacheMap, rel: Path): Scan {
    match Cached(entries, v, rel)
    case Err(e) => Scan(Err(e), entries)
    case Ok(cached) =>
      if cached.None? && rel != [] then
        match ToHash(rel)
        case Err(e) => Scan(Err(e), entries)
        case Ok(marker) =>
          match ReadTreeKey(src.backend, marker)
          case Err(e) => Scan(Err(e), entries)
          case Ok(None) => Overlay(src, v, entries, rel, None)
          case Ok(Some(key)) =>
            match ExistsIn(src.backend, rel)
            case Err(e) => Scan(Err(e), entries)
            case Ok(clash) =>
              if clash || !IsTree(key) then Scan(Err(AssertionFailed), entries)
              else match DecodeTree(src, key)
                case Err(e) => Scan(Err(e), entries)
                case Ok(n) => Overlay(src, v, entries[(v, rel) := n], rel, Some(n))
      else Overlay(src, v, entries, rel, cached)
  }

  /** A folder found non-empty in the cache is listed from it: its names, a
      folder flag for each nested mapping, no symlinks; the cache is left as
      it was, and the backend is never asked. */
  lemma ScanCachedSubtree(src: Source, v: Option<string>, entries: CacheMap, rel: Path,
                          es: seq<(string, Node)>, other: Backend)
    requires Cached(entries, v, rel) == Ok(Some(Dir(es))) && es != []
    ensures ScanSpec(src, v, entries, rel) == Scan(Ok(SubtreeEntries(es, src.isHidden)), entries)
    ensures ScanSpec(src.(backend := other), v, entries, rel) == ScanSpec(src, v, entries, rel)
    ensures var ds := ScanSpec(src, v, entries, rel).result.value;
            |ds| == |es| && forall i :: 0 <= i < |es| ==>
              ds[i].name == es[i].0 && (ds[i].isDir <==> es[i].1.Dir?) && !ds[i].isSymlink
  {
  }

  /** A folder that is not cached but has a tree marker is decoded, cached
      under its own path, and listed from the decoded tree when non-empty. */
  lemma ScanDecodesMarker(src: Source, v: Option<string>, entries: CacheMap, rel: Path, es: seq<(string, Node)>)
    requires Cached(entries, v, rel) == Ok(None) && rel != [] && ToHash(rel).Ok?
    requires ReadTreeKey(src.backend, ToHash(rel).value).Ok? && ReadTreeKey(src.backend, ToHash(rel).value).value.Some?
    requires ExistsIn(src.backend, rel) == Ok(false)
    requires IsTree(ReadTreeKey(src.backend, ToHash(rel).value).value.value)
    requires DecodeTree(src, ReadTreeKey(src.backend, ToHash(rel).value).value.value) == Ok(Dir(es)) && es != []
    ensures ScanSpec(src, v, entries, rel) == Scan(Ok(SubtreeEntries(es, src.isHidden)), entries[(v, rel) := Dir(es)])
  {
  }

  /** A folder that is neither cached nor a tree marker is listed for real,
      with markers overlaid entry by entry. */
  lemma ScanRealListing(src: Source, v: Option<string>, entries: CacheMap, rel: Path)
    requires Cached(entries, v, rel) == Ok(None)
    requires rel == [] || (ToHash(rel).Ok? && ReadTreeKey(src.backend, ToHash(rel).value) == Ok(None))
    ensures ListDirOf(src.backend, rel).Err? ==>
              ScanSpec(src, v, entries, rel) == Scan(Err(ListDirOf(src.backend, rel).error), entries)
    ensures ListDirOf(src.backend, rel).Ok? ==>
              ScanSpec(src, v, entries, rel) == ScanFold(Step(src, rel), v, entries, ListDirOf(src.backend, rel).value)
  {
  }

  /** `dir_only` keeps the folders and nothing else, in order. */
  function Filter(ds: seq<DirEntry>, dirOnly: bool): (r: seq<DirEntry>)
    ensures !dirOnly ==> r == ds
    ensures forall d :: d in r <==> d in ds && (!dirOnly || d.isDir)
    ensures |r| <= |ds|
  {
    if ds == [] then []
    else
      var rest := Filter(ds[..|ds| - 1], dirOnly);
      assert ds == ds[..|ds| - 1] + [ds[|ds| - 1]];
      if !dirOnly || ds[|ds| - 1].isDir then rest + [ds[|ds| - 1]] else rest
  }

  /** The specials reported before the listing, as folders that are hidden. */
  function SpecialEntries(specials: seq<string>): (r: seq<DirEntry>)
    ensures |r| == |specials|
    ensures forall i :: 0 <= i < |specials| ==> r[i] == DirEntry(specials[i], true, true, false)
  {
    seq(|specials|, i requires 0 <= i < |specials| => DirEntry(specials[i], true, true, false))
  }

  /** `_lexists` of `rel`: it is cached, it exists, or its marker exists. */
  function LexistsSpec(b: Backend, entries: CacheMap, v: Option<string>, rel: Path): (r: Result<bool>)
    ensures Cached(entries, v, rel).Ok? && Cached(entries, v, rel).value.Some? ==> r == Ok(true)
    ensures Cached(entries, v, rel).Err? ==> r == Err(Cached(entries, v, rel).error)
    ensures Cached(entries, v, rel).Ok? && ExistsIn(b, rel).Ok? && (ToHash(rel).Ok? ==> ExistsIn(b, ToHash(rel).value).Ok?)
            && (ToHash(rel).Err? ==> ExistsIn(b, rel) == Ok(true) || Cached(entries, v, rel).value.Some?) ==>
              r.Ok? && (r.value <==> Cached(entries, v, rel).value.Some? || ExistsIn(b, rel).value
                                     || (ToHash(rel).Ok? && ExistsIn(b, ToHash(rel).value).value))
  {
    var cached :- Cached(entries, v, rel);
    if cached.Some? then Ok(true)
    else
      var plain :- ExistsIn(b, rel);
      if plain then Ok(true)
      else
        var marker :- ToHash(rel);
        ExistsIn(b, marker)
  }

  /** The `_cache` dict a repository shares among its committed-version globs. */
  class GlobCache {
    var entries: CacheMap

    constructor ()
      ensures entries == map[]
    {
      entries := map[];
    }
  }

  /** A `BevGlob` rooted at the folder `prefix` of the repository. */
  class BevGlob {
    const prefix: Path
    const version: Option<string>
    const source: Source
    const specials: seq<string>
    const cache: GlobCache

    /** `BevLocalGlob`: the working copy, with a cache of its own. */
    constructor Local(disk: Disk, repoRoot: Path, prefix: Path, store: Store, fetch: bool,
                      isHidden: string -> bool, specials: seq<string>)
      ensures this.prefix == prefix && version == None && this.specials == specials
      ensures source == Source(WorkingCopy(disk, repoRoot), store, fetch, isHidden)
      ensures fresh(cache) && cache.entries == map[]
    {
      this.prefix := prefix;
      version := None;
      source := Source(WorkingCopy(disk, repoRoot), store, fetch, isHidden);
      this.specials := specials;
      cache := new GlobCache();
    }

    /** `BevVCGlob`: a committed version, with the repository's shared cache. */
    constructor Committed(git: Git, handle: string, prefix: Path, cache: GlobCache, store: Store, fetch: bool,
                          isHidden: string -> bool, specials: seq<string>)
      ensures this.prefix == prefix && version == Some(handle) && this.specials == specials
      ensures source == Source(History(git, handle), store, fetch, isHidden)
      ensures this.cache == cache
    {
      this.prefix := prefix;
      version := Some(handle);
      source := Source(History(git, handle), store, fetch, isHidden);
      this.specials := specials;
      this.cache := cache;
    }

    /** `_get_cached`: the nearest cached parent, walked down with a cursor. */
    method GetCached(rel: Path) returns (r: Result<Option<Node>>)
      ensures r == Cached(cache.entries, version, rel)
    {
      var i := |rel|;
      while i > 0
        invariant 0 <= i <= |rel|
        invariant Cached(cache.entries, version, rel) == CachedFrom(cache.entries, version, rel, i)
      {
        var parent := rel[..i - 1];
        if (version, parent) in cache.entries {
          var cursor := cache.entries[(version, parent)];
          var j := i - 1;
          while j < |rel|
            invariant i - 1 <= j <= |rel|
            invariant Descend(cache.entries[(version, parent)], rel[i - 1..]) == Descend(cursor, rel[j..])
          {
            var part := rel[j];
            if cursor.File? {
              if Occurs(part, cursor.key) {
                return Err(TypeError(NotADict));
              }
              return Err(AssertionFailed);
            }
            var child := Get(cursor.entries, part);
            if child.None? {
              return Err(AssertionFailed);
            }
            assert rel[j..][1..] == rel[j + 1..];
            cursor := child.value;
            j := j + 1;
          }
          assert rel[j..] == [];
          return Ok(Some(cursor));
        }
        i := i - 1;
      }
      if (version, rel) in cache.entries {
        return Ok(Some(cache.entries[(version, rel)]));
      }
      return Ok(None);
    }

    /** `_set_cached`. */
    method SetCached(rel: Path, value: Node)
      modifies cache
      ensures cache.entries == old(cache.entries)[(version, rel) := value]
    {
      cache.entries := cache.entries[(version, rel) := value];
    }

    /** Reads and nests the stored tree of a tree key. */
    method Decode(key: Key) returns (r: Result<Node>)
      ensures r == DecodeTree(source, key)
    {
      var raw := source.store.readTree(StripTree(key), source.fetch);
      if raw.None? {
        return Err(StorageError);
      }
      var es :- NormalizeNested(raw.value);
      return Ok(Dir(es));
    }

    /** The body of the loop over a real listing, up to the cache update. */
    method Entry(rel: Path, e: TreeEntry) returns (r: Result<Outcome>)
      ensures r == EntryOutcome(source, rel, e)
    {
      var path := rel + [e.name];
      if !IsHash(path) {
        return Ok(Outcome(DirEntry(e.name, e.isDir, source.isHidden(e.name), e.isSymlink), None));
      }
      var plain :- FromHash(path);
      var clash :- ExistsIn(source.backend, plain);
      if clash {
        return Err(NameConflict);
      }
      var key :- ReadTreeKey(source.backend, path);
      if key.None? {
        return Err(AssertionFailed);
      }
      var value: Node;
      if IsTree(key.value) {
        value :- Decode(key.value);
      } else {
        value := File(key.value);
      }
      var name := Name(plain);
      return Ok(Outcome(DirEntry(name, IsTree(key.value), source.isHidden(name), false), Some((plain, value))));
    }

    /** The loop of `_scandir` over a real listing of `rel`. */
    method ScanListing(rel: Path, listing: seq<TreeEntry>) returns (r: Result<seq<DirEntry>>)
      modifies cache
      ensures Scan(r, cache.entries) == ScanFold(Step(source, rel), version, old(cache.entries), listing)
    {
      var result: seq<DirEntry> := [];
      var i := 0;
      while i < |listing|
        invariant 0 <= i <= |listing|
        invariant ScanFold(Step(source, rel), version, old(cache.entries), listing[..i]) == Scan(Ok(result), cache.entries)
      {
        var outcome := Entry(rel, listing[i]);
        assert Step(source, rel)(listing[i]) == outcome;
        ScanFoldStep(Step(source, rel), version, old(cache.entries), listing, i);
        if outcome.Err? {
          ScanFoldErrorPersists(Step(source, rel), version, old(cache.entries), listing, i + 1);
          return Err(outcome.error);
        }
        if outcome.value.stored.Some? {
          SetCached(outcome.value.stored.value.0, outcome.value.stored.value.1);
        }
        result := result + [outcome.value.entry];
        i := i + 1;
      }
      assert listing[..i] == listing;
      return Ok(result);
    }

    /** `_scandir(curdir)`, consumed to the end: the entries of the folder
        `curdir` below the glob's root, with decoded trees overlaid. */
    method Scandir(curdir: string) returns (r: Result<seq<DirEntry>>)
      modifies cache
      ensures Scan(r, cache.entries) == ScanSpec(source, version, old(cache.entries), prefix + ParsePath(curdir))
    {
      var rel := prefix + ParsePath(curdir);
      var cached :- GetCached(rel);
      if cached.None? && rel != [] {
        var marker :- ToHash(rel);
        var key :- ReadTreeKey(source.backend, marker);
        if key.Some? {
          var clash :- ExistsIn(source.backend, rel);
          if clash || !IsTree(key.value) {
            return Err(AssertionFailed);
          }
          var n :- Decode(key.value);
          SetCached(rel, n);
          cached := Some(n);
        }
      }
      if cached.Some? && Truthy(cached.value) {
        if cached.value.File? {
          return Err(AssertionFailed);
        }
        return Ok(SubtreeEntries(cached.value.entries, source.isHidden));
      }
      var listing :- ListDirOf(source.backend, rel);
      r := ScanListing(rel, listing);
    }

    /** `_iter`: the specials first, then the scanned entries, only folders
        when `dirOnly` is set. */
    method Iter(curdir: string, dirOnly: bool) returns (r: Result<seq<DirEntry>>)
      modifies cache
      ensures var s := ScanSpec(source, version, old(cache.entries), prefix + ParsePath(curdir));
              cache.entries == s.cache
              && r == if s.result.Ok? then Ok(SpecialEntries(specials) + Filter(s.result.value, dirOnly))
                      else Err(s.result.error)
    {
      var scanned :- Scandir(curdir);
      var kept: seq<DirEntry> := [];
      var i := 0;
      while i < |scanned|
        invariant 0 <= i <= |scanned|
        invariant kept == Filter(scanned[..i], dirOnly)
      {
        assert scanned[..i + 1][..i] == scanned[..i];
        if !dirOnly || scanned[i].isDir {
          kept := kept + [scanned[i]];
        }
        i := i + 1;
      }
      assert scanned[..i] == scanned;
      return Ok(SpecialEntries(specials) + kept);
    }

    /** `_lexists(path)` for a path below the glob's root. */
    method Lexists(path: string) returns (r: Result<bool>)
      ensures r == LexistsSpec(source.backend, cache.entries, version, prefix + ParsePath(path))
    {
      var rel := prefix + ParsePath(path);
      var cached :- GetCached(rel);
      if cached.Some? {
        return Ok(true);
      }
      var plain :- ExistsIn(source.backend, rel);
      if plain {
        return Ok(true);
      }
      var marker :- ToHash(rel);
      r := ExistsIn(source.backend, marker);
    }
  }
}
