/**
  The resolver of bev/interface.py: a `Repository` turns a relative path
  and a version into the key that stands for it, looking for the marker of
  the path itself or of the outermost ancestor folder that was hashed as a
  whole, and from there into a file of the content store.
 */
module Interface {
  import opened Errors
  import opened Paths
  import opened Hash
  import opened Oracles
  import opened Vc
  import opened WcTrees
  import opened Wc

  /** An argument of `copy` that may be left out (`_NoArg`). */
  datatype Arg<T> = NoArg | Given(value: T)

  /** `_resolve_arg`. */
  function ResolveArg<T>(x: T, y: Arg<T>): T {
    match y
    case NoArg => x
    case Given(v) => v
  }

  /** What `_split` found: a bare file key, or the key of a tree together
      with the path inside it ("." for the tree itself). */
  datatype Located = FileKey(key: Key) | InTree(tree: Key, relative: string)

  /** The keys of a decoded tree, in order. */
  function TreeKeys(t: Listing): (r: seq<string>)
    ensures |r| == |t| && forall i :: 0 <= i < |t| ==> r[i] == t[i].0
  {
    seq(|t|, i requires 0 <= i < |t| => t[i].0)
  }

  /** `tree[relative]` for a name the tree holds. */
  function TreeValue(t: Listing, name: string): (k: Key)
    requires name in TreeKeys(t)
    ensures (name, k) in t
  {
    if t[0].0 == name then t[0].1 else TreeValue(t[1..], name)
  }

  /** The folders strictly above a file of a tree, other than ".": `Path(file).parents[:-1]`. */
  function Ancestors(file: string): set<string> {
    set j | 0 < j < |ParsePath(file)| :: Render(ParsePath(file)[..j])
  }

  /** What `_expand_folders` returns for a tree with these keys. */
  function Expanded(keys: seq<string>): set<string> {
    if keys == [] then {}
    else Expanded(keys[..|keys| - 1]) + {keys[|keys| - 1]} + Ancestors(keys[|keys| - 1])
  }

  /** The expansion holds exactly the keys and the folders above them. */
  lemma {:induction false} ExpandedSpec(keys: seq<string>, s: string)
    ensures s in Expanded(keys) <==> s in keys || exists i :: 0 <= i < |keys| && s in Ancestors(keys[i])
    decreases |keys|
  {
    if keys != [] {
      var init := keys[..|keys| - 1];
      ExpandedSpec(init, s);
      assert keys == init + [keys[|keys| - 1]];
      if exists i :: 0 <= i < |keys| && s in Ancestors(keys[i]) {
        var i :| 0 <= i < |keys| && s in Ancestors(keys[i]);
        if i < |init| {
          assert init[i] == keys[i];
        }
      }
    }
  }

  /** `_expand_folders`: the set grown key by key. */
  method ExpandFolders(t: Listing) returns (r: set<string>)
    ensures forall s :: s in r <==> s in TreeKeys(t) || exists i :: 0 <= i < |t| && s in Ancestors(t[i].0)
  {
    var keys := TreeKeys(t);
    r := set i | 0 <= i < |keys| :: keys[i];
    var i := 0;
    while i < |keys|
      invariant 0 <= i <= |keys|
      invariant r == Expanded(keys[..i]) + set j | 0 <= j < |keys| :: keys[j]
    {
      assert keys[..i + 1][..i] == keys[..i];
      r := r + Ancestors(keys[i]);
      i := i + 1;
    }
    assert keys[..i] == keys;
    forall s ensures s in r <==> s in TreeKeys(t) || exists i :: 0 <= i < |t| && s in Ancestors(t[i].0) {
      ExpandedSpec(keys, s);
    }
  }

  class Repository {
    const root: Path
    const disk: Disk
    const git: Git
    const store: Store
    const fetch: bool
    const version: Option<Version>
    const check: bool
    const prefix: Path
    /** `_cache`: the decode cache handed to the committed-version globs. */
    const cache: GlobCache
    /** The memo of `_load_cached_tree`, keyed by the key and the `fetch` as passed. */
    var trees: map<(Key, Option<bool>), Listing>

    /** Every memoised tree is what the store holds for its key. */
    ghost predicate Valid()
      reads this
    {
      forall k :: k in trees ==> store.readTree(k.0, ResolveFetch(k.1)) == Some(trees[k])
    }

    /** `Repository(root, fetch=..., version=..., check=...)`; git runs through `call`. */
    constructor (root: Path, disk: Disk, call: (string, Path) -> GitOutcome, store: Store,
                 fetch: bool, version: Option<Version>, check: bool)
      ensures this.root == root && this.disk == disk && git == Git(root, disk, call) && this.store == store
      ensures this.fetch == fetch && this.version == version && this.check == check
      ensures prefix == [] && fresh(cache) && cache.entries == map[] && trees == map[]
      ensures Valid()
    {
      this.root := root;
      this.disk := disk;
      git := Git(root, disk, call);
      this.store := store;
      this.fetch := fetch;
      this.version := version;
      this.check := check;
      prefix := [];
      cache := new GlobCache();
      trees := map[];
    }

    /** The object `copy` builds: a fresh repository given its prefix and cache. */
    constructor Copied(root: Path, disk: Disk, git: Git, store: Store, fetch: bool, version: Option<Version>,
                       check: bool, prefix: Path, cache: GlobCache)
      ensures this.root == root && this.disk == disk && this.git == git && this.store == store
      ensures this.fetch == fetch && this.version == version && this.check == check
      ensures this.prefix == prefix && this.cache == cache && trees == map[]
      ensures Valid()
    {
      this.root := root;
      this.disk := disk;
      this.git := git;
      this.store := store;
      this.fetch := fetch;
      this.version := version;
      this.check := check;
      this.prefix := prefix;
      this.cache := cache;
      trees := map[];
    }

    /** `copy`: the settings given replace this repository's own. */
    method Copy(fetch': Arg<bool>, version': Arg<Option<Version>>, check': Arg<bool>,
                prefix': Arg<Path>, cache': Arg<GlobCache>) returns (r: Repository)
      ensures fresh(r) && r.Valid()
      ensures r.root == root && r.disk == disk && r.git == git && r.store == store
      ensures r.fetch == ResolveArg(fetch, fetch') && r.version == ResolveArg(version, version')
      ensures r.check == ResolveArg(check, check')
      ensures r.prefix == ResolveArg(prefix, prefix') && r.cache == ResolveArg(cache, cache')
    {
      r := new Repository.Copied(root, disk, git, store, ResolveArg(fetch, fetch'), ResolveArg(version, version'),
                                 ResolveArg(check, check'), ResolveArg(prefix, prefix'), ResolveArg(cache, cache'));
    }

    /** `repo / other`: a relative step of the prefix; everything else is shared. */
    method Div(other: string) returns (r: Result<Repository>)
      ensures StartsWith(other, "/") <==> r == Err(ValueError(AbsolutePath))
      ensures r.Ok? ==> fresh(r.value) && r.value.Valid()
      ensures r.Ok? ==> r.value.prefix == prefix + ParsePath(other) && r.value.cache == cache
      ensures r.Ok? ==> r.value.root == root && r.value.disk == disk && r.value.git == git && r.value.store == store
                        && r.value.fetch == fetch && r.value.version == version && r.value.check == check
    {
      if StartsWith(other, "/") {
        return Err(ValueError(AbsolutePath));
      }
      var copy := Copy(NoArg, NoArg, NoArg, Given(prefix + ParsePath(other)), NoArg);
      return Ok(copy);
    }

    // -------------------------------------------------------------------------
    // Argument defaulting

    /** `_resolve_version`: the argument, else the default, else an error. */
    function ResolveVersion(v: Option<Version>): (r: Result<Version>)
      ensures v.Some? ==> r == Ok(v.value)
      ensures v.None? && version.Some? ==> r == Ok(version.value)
      ensures r.Err? <==> v.None? && version.None?
      ensures r.Err? ==> r.error == ValueError(NoVersion)
    {
      if v.Some? then Ok(v.value)
      else if version.Some? then Ok(version.value)
      else Err(ValueError(NoVersion))
    }

    /** `_resolve_fetch`. */
    function ResolveFetch(f: Option<bool>): bool {
      if f.None? then fetch else f.value
    }

    /** `_resolve_check`. */
    function ResolveCheck(c: Option<bool>): bool {
      if c.None? then check else c.value
    }

    /** `_resolve_relative(*parts)`: the prefix, followed by the parts. */
    function ResolveRelative(parts: seq<string>): (r: Path)
      ensures |prefix| <= |r| && r[..|prefix|] == prefix
      ensures parts == [] ==> r == prefix
    {
      if parts == [] then prefix
      else ResolveRelative(parts[..|parts| - 1]) + ParsePath(parts[|parts| - 1])
    }

    // -------------------------------------------------------------------------
    // Markers and trees

    /** `_get_hash`: the marker's contents at `rel`, None when there is none;
        a working-copy marker that is not a regular file cannot be read. */
    function GetHash(rel: Path, v: Version): Result<Option<Key>> {
      match v
      case Local =>
        if Exists(disk, root + rel) then
          var k :- LoadKey(disk, root + rel);
          Ok(Some(k))
        else Ok(None)
      case Committed(handle) => Ok(Read(git, Render(rel), handle))
    }

    /** The tree stored under `key`, as `_load(load_tree, key, fetch)` reads it. */
    function StoredTree(key: Key, f: Option<bool>): Result<Listing> {
      match store.readTree(key, ResolveFetch(f))
      case None => Err(StorageError)
      case Some(t) => Ok(t)
    }

    /** `_split`, past the ancestors before `p[..i]`: the path's own marker. */
    function OwnMarker(p: Path, v: Version): (r: Result<Located>)
      ensures ToHash(p).Err? ==> r == Err(ToHash(p).error)
      ensures ToHash(p).Ok? && GetHash(ToHash(p).value, v).Err? ==> r == Err(GetHash(ToHash(p).value, v).error)
      ensures ToHash(p).Ok? && GetHash(ToHash(p).value, v) == Ok(None) ==> r == Err(HashNotFound(NoMarker))
      ensures ToHash(p).Ok? && GetHash(ToHash(p).value, v).Ok? && GetHash(ToHash(p).value, v).value.Some? ==>
                var k := GetHash(ToHash(p).value, v).value.value;
                r == Ok(if IsTree(k) then InTree(k, ".") else FileKey(k))
    {
      var marker :- ToHash(p);
      var h :- GetHash(marker, v);
      match h
      case None => Err(HashNotFound(NoMarker))
      case Some(k) => if IsTree(k) then Ok(InTree(k, ".")) else Ok(FileKey(k))
    }

    /** `_split` from the ancestor `p[..i]` on, outermost first. */
    function SplitFrom(p: Path, v: Version, i: nat): Result<Located>
      requires 1 <= i <= |p|
      decreases |p| - i
    {
      if i == |p| then OwnMarker(p, v)
      else
        var marker :- ToHash(p[..i]);
        var h :- GetHash(marker, v);
        match h
        case Some(k) => Ok(InTree(StripTree(k), Render(p[i..])))
        case None => SplitFrom(p, v, i + 1)
    }

    /** `_split`: the outermost ancestor (other than '.') with a marker, or the path's own marker. */
    function Split(p: Path, v: Version): Result<Located> {
      if p == [] then OwnMarker(p, v) else SplitFrom(p, v, 1)
    }

    /** The ancestors `p[..1]`, ..., `p[..j - 1]` have no marker (and `to_hash` accepts them). */
    predicate NoMarkerBefore(p: Path, v: Version, j: nat)
      requires j <= |p|
    {
      forall m :: 1 <= m < j ==> ToHash(p[..m]).Ok? && GetHash(ToHash(p[..m]).value, v) == Ok(None)
    }

    lemma {:induction false} SplitFromSkips(p: Path, v: Version, i: nat, j: nat)
      requires 1 <= i <= j <= |p| && NoMarkerBefore(p, v, j)
      ensures SplitFrom(p, v, i) == SplitFrom(p, v, j)
      decreases j - i
    {
      if i < j {
        SplitFromSkips(p, v, i + 1, j);
      }
    }

    /** The outermost ancestor with a marker wins: its key, stripped of any
        tree prefix, and the rest of the path below it. */
    lemma SplitOutermost(p: Path, v: Version, j: nat)
      requires 1 <= j < |p| && NoMarkerBefore(p, v, j)
      requires ToHash(p[..j]).Ok? && GetHash(ToHash(p[..j]).value, v).Ok? && GetHash(ToHash(p[..j]).value, v).value.Some?
      ensures Split(p, v) == Ok(InTree(StripTree(GetHash(ToHash(p[..j]).value, v).value.value), Render(p[j..])))
    {
      SplitFromSkips(p, v, 1, j);
    }

    /** An outermost ancestor marker that cannot be read raises its error. */
    lemma SplitUnreadable(p: Path, v: Version, j: nat)
      requires 1 <= j < |p| && NoMarkerBefore(p, v, j)
      requires ToHash(p[..j]).Ok? && GetHash(ToHash(p[..j]).value, v).Err?
      ensures Split(p, v) == Err(GetHash(ToHash(p[..j]).value, v).error)
    {
      SplitFromSkips(p, v, 1, j);
    }

    /** With no ancestor marker, the path's own marker decides. */
    lemma SplitOwn(p: Path, v: Version)
      requires p != [] && NoMarkerBefore(p, v, |p|)
      ensures Split(p, v) == OwnMarker(p, v)
    {
      SplitFromSkips(p, v, 1, |p|);
    }

    /** What `get_key` returns or raises, for a resolved version and path. */
    function KeyOf(rel: Path, v: Version, f: Option<bool>, error: bool): (r: Result<Option<Key>>)
      ensures Split(rel, v).Ok? && Split(rel, v).value.InTree? && Split(rel, v).value.relative == "." ==>
                r == Err(HashNotFound(HashedFolder))
      ensures Split(rel, v).Err? && Split(rel, v).error.HashNotFound? ==>
                r == if error then Err(Split(rel, v).error) else Ok(None)
      ensures Split(rel, v).Ok? && Split(rel, v).value.FileKey? ==> r == Ok(Some(Split(rel, v).value.key))
      ensures r == Ok(None) ==> !error
      ensures r.Ok? && r.value.Some? && Split(rel, v).Ok? && Split(rel, v).value.InTree? ==>
                var t := StoredTree(Split(rel, v).value.tree, f);
                t.Ok? && (Split(rel, v).value.relative, r.value.value) in t.value
    {
      match Split(rel, v)
      case Err(e) => if e.HashNotFound? && !error then Ok(None) else Err(e)
      case Ok(FileKey(k)) => Ok(Some(k))
      case Ok(InTree(k, relative)) =>
        if relative == "." then Err(HashNotFound(HashedFolder))
        else
          var t :- StoredTree(k, f);
          if relative in TreeKeys(t) then Ok(Some(TreeValue(t, relative)))
          else if relative in Expanded(TreeKeys(t)) then Err(HashNotFound(FolderInsideTree))
          else if error then Err(HashNotFound(NotInTree))
          else Ok(None)
    }

    /** Inside a tree found through an ancestor: an entry gives its key, a
        folder of the tree always raises, any other miss raises only when
        `error` is set. */
    lemma KeyInTree(rel: Path, v: Version, f: Option<bool>, error: bool, j: nat)
      requires 1 <= j < |rel| && ValidPath(rel) && NoMarkerBefore(rel, v, j)
      requires ToHash(rel[..j]).Ok? && GetHash(ToHash(rel[..j]).value, v).Ok? && GetHash(ToHash(rel[..j]).value, v).value.Some?
      requires StoredTree(StripTree(GetHash(ToHash(rel[..j]).value, v).value.value), f).Ok?
      ensures var t := StoredTree(StripTree(GetHash(ToHash(rel[..j]).value, v).value.value), f).value;
              var name := Render(rel[j..]);
              && (name in TreeKeys(t) ==> KeyOf(rel, v, f, error) == Ok(Some(TreeValue(t, name))))
              && (name !in TreeKeys(t) && (exists i :: 0 <= i < |t| && name in Ancestors(t[i].0)) ==>
                    KeyOf(rel, v, f, error) == Err(HashNotFound(FolderInsideTree)))
              && (name !in TreeKeys(t) && (forall i :: 0 <= i < |t| ==> name !in Ancestors(t[i].0)) ==>
                    KeyOf(rel, v, f, error) == if error then Err(HashNotFound(NotInTree)) else Ok(None))
    {
      SplitOutermost(rel, v, j);
      var t := StoredTree(StripTree(GetHash(ToHash(rel[..j]).value, v).value.value), f).value;
      var name := Render(rel[j..]);
      assert name != "." by {
        assert ValidPart(rel[j]);
        if |rel[j..]| > 1 {
          assert Render(rel[j..]) == rel[j..][0] + "/" + Join(rel[j..][1..]);
          assert name[..|rel[j]|] == rel[j];
        }
      }
      ExpandedSpec(TreeKeys(t), name);
    }

    /** A path whose own marker holds a tree key is a hashed folder, and
        asking for its key raises even when `error` is not set. */
    lemma KeyOfHashedFolder(rel: Path, v: Version, f: Option<bool>, error: bool)
      requires rel != [] && NoMarkerBefore(rel, v, |rel|)
      requires ToHash(rel).Ok? && GetHash(ToHash(rel).value, v).Ok? && GetHash(ToHash(rel).value, v).value.Some?
      requires IsTree(GetHash(ToHash(rel).value, v).value.value)
      ensures KeyOf(rel, v, f, error) == Err(HashNotFound(HashedFolder))
    {
      SplitOwn(rel, v);
    }

    /** A path with no marker at all: no key, raised only when `error` is set. */
    lemma KeyOfUnmarked(rel: Path, v: Version, f: Option<bool>, error: bool)
      requires rel != [] && NoMarkerBefore(rel, v, |rel|)
      requires ToHash(rel).Ok? && GetHash(ToHash(rel).value, v) == Ok(None)
      ensures KeyOf(rel, v, f, error) == if error then Err(HashNotFound(NoMarker)) else Ok(None)
    {
      SplitOwn(rel, v);
    }

    /** `_get_tree`: committed trees go through the memo, working-copy trees never do. */
    method GetTree(key: Key, v: Version, f: Option<bool>) returns (r: Result<Listing>)
      requires Valid()
      modifies this
      ensures Valid()
      ensures r == StoredTree(key, f)
      ensures v.Local? || r.Err? ==> trees == old(trees)
      ensures !v.Local? && r.Ok? ==> trees == old(trees)[(key, f) := r.value]
    {
      if v.Local? {
        return StoredTree(key, f);
      }
      if (key, f) in trees {
        return Ok(trees[(key, f)]);
      }
      r := StoredTree(key, f);
      if r.Ok? {
        trees := trees[(key, f) := r.value];
      }
    }

    /** `get_key(*parts, version=..., fetch=..., error=...)`. */
    method GetKey(parts: seq<string>, v: Option<Version>, f: Option<bool>, error: bool) returns (r: Result<Option<Key>>)
      requires Valid()
      modifies this
      ensures Valid()
      ensures ResolveVersion(v).Err? ==> r == Err(ResolveVersion(v).error)
      ensures ResolveVersion(v).Ok? ==> r == KeyOf(ResolveRelative(parts), ResolveVersion(v).value, f, error)
      ensures ResolveVersion(v).Err? || ResolveVersion(v).value.Local? ==> trees == old(trees)
    {
      var version :- ResolveVersion(v);
      var path := ResolveRelative(parts);
      var h := Split(path, version);
      if h.Err? {
        if h.error.HashNotFound? && !error {
          return Ok(None);
        }
        return Err(h.error);
      }
      if h.value.FileKey? {
        return Ok(Some(h.value.key));
      }
      var relative := h.value.relative;
      if relative == "." {
        return Err(HashNotFound(HashedFolder));
      }
      var t :- GetTree(h.value.tree, version, f);
      if relative !in TreeKeys(t) {
        var folders := ExpandFolders(t);
        ExpandedSpec(TreeKeys(t), relative);
        if relative in folders {
          return Err(HashNotFound(FolderInsideTree));
        }
        if error {
          return Err(HashNotFound(NotInTree));
        }
        return Ok(None);
      }
      return Ok(Some(TreeValue(t, relative)));
    }

    /** `load_tree(path)`: the tree whose key is written in the file at `path`
        itself (not at its marker), prefix or not. */
    method LoadTree(path: string, v: Option<Version>, f: Option<bool>) returns (r: Result<Listing>)
      requires Valid()
      modifies this
      ensures Valid()
      ensures ResolveVersion(v).Err? ==> r == Err(ResolveVersion(v).error)
      ensures ResolveVersion(v).Ok? && GetHash(ResolveRelative([path]), ResolveVersion(v).value).Err? ==>
                r == Err(GetHash(ResolveRelative([path]), ResolveVersion(v).value).error)
      ensures ResolveVersion(v).Ok? && GetHash(ResolveRelative([path]), ResolveVersion(v).value) == Ok(None) ==>
                r == Err(HashNotFound(NoMarker))
      ensures ResolveVersion(v).Ok? && GetHash(ResolveRelative([path]), ResolveVersion(v).value).Ok? &&
              GetHash(ResolveRelative([path]), ResolveVersion(v).value).value.Some? ==>
                r == StoredTree(StripTree(GetHash(ResolveRelative([path]), ResolveVersion(v).value).value.value), f)
    {
      var rel := ResolveRelative([path]);
      var version :- ResolveVersion(v);
      var key :- GetHash(rel, version);
      if key.None? {
        return Err(HashNotFound(NoMarker));
      }
      r := GetTree(StripTree(key.value), version, f);
    }

    /** `resolve(*parts)`: the working-copy file itself when it exists (and
        has no marker beside it), otherwise the stored file of its key. */
    method Resolve(parts: seq<string>, v: Option<Version>, f: Option<bool>) returns (r: Result<Path>)
      requires Valid()
      modifies this
      ensures Valid()
      ensures ResolveVersion(v).Err? ==> r == Err(ResolveVersion(v).error)
      ensures ResolveVersion(v) == Ok(Local) && Exists(disk, root + ResolveRelative(parts)) ==>
                && (ToHash(root + ResolveRelative(parts)).Err? ==> r == Err(ToHash(root + ResolveRelative(parts)).error))
                && (ToHash(root + ResolveRelative(parts)).Ok? && Exists(disk, ToHash(root + ResolveRelative(parts)).value) ==>
                      r == Err(NameConflict))
                && (ToHash(root + ResolveRelative(parts)).Ok? && !Exists(disk, ToHash(root + ResolveRelative(parts)).value) ==>
                      r == Ok(root + ResolveRelative(parts)))
                && trees == old(trees)
      ensures ResolveVersion(v).Ok? && !(ResolveVersion(v) == Ok(Local) && Exists(disk, root + ResolveRelative(parts))) ==>
                var k := KeyOf(ResolveRelative(parts), ResolveVersion(v).value, f, true);
                && (k.Err? ==> r == Err(k.error))
                && (k.Ok? ==> k.value.Some? && r == (if store.locate(k.value.value, ResolveFetch(f)).None? then Err(StorageError)
                                                    else Ok(store.locate(k.value.value, ResolveFetch(f)).value)))
    {
      var relative := ResolveRelative(parts);
      var version :- ResolveVersion(v);
      var absolute := root + relative;
      if version == Local && Exists(disk, absolute) {
        var marker :- ToHash(absolute);
        if Exists(disk, marker) {
          return Err(NameConflict);
        }
        return Ok(absolute);
      }
      var key :- GetKey(parts, v, f, true);
      assert key.Some?;
      var located := store.locate(key.value, ResolveFetch(f));
      if located.None? {
        return Err(StorageError);
      }
      return Ok(located.value);
    }

    /** The path whose key `resolve` looks up as written: it hands the already
        prefixed `relative` to `get_key`, which prefixes it once more. */
    function ResolveLookupAsWritten(parts: seq<string>): Path {
      ResolveRelative([Render(ResolveRelative(parts))])
    }

    /** As written, the key lookup carries the prefix twice, while the
        working-copy branch checks the singly prefixed path. */
    lemma ResolveLookupDoubles(parts: seq<string>)
      requires ValidPath(prefix)
      ensures ResolveLookupAsWritten(parts) == prefix + ResolveRelative(parts)
      ensures prefix != [] ==> ResolveLookupAsWritten(parts) != ResolveRelative(parts)
    {
      ResolveRelativeValid(parts);
      ParseRender(ResolveRelative(parts));
    }

    lemma {:induction false} ResolveRelativeValid(parts: seq<string>)
      requires ValidPath(prefix)
      ensures ValidPath(ResolveRelative(parts))
    {
      if parts != [] {
        ResolveRelativeValid(parts[..|parts| - 1]);
      }
    }

    /** `(repo / "a").resolve("b")` as written looks up the key of `a/a/b`;
        the model's `Resolve` looks up `a/b`. */
    lemma ResolveLookupExample()
      requires prefix == ["a"]
      ensures ResolveLookupAsWritten(["b"]) == ["a", "a", "b"]
      ensures ResolveRelative(["b"]) == ["a", "b"]
    {
      ResolveLookupDoubles(["b"]);
      assert ParsePath("b") == ["b"] by { ParseRender(["b"]); }
    }

    /** `glob`: the enumerator for a version; committed versions share this
        repository's decode cache, the working copy gets a fresh one. */
    method MakeGlob(v: Option<Version>, f: Option<bool>, isHidden: string -> bool, specials: seq<string>)
      returns (r: Result<BevGlob>)
      ensures ResolveVersion(v).Err? ==> r == Err(ResolveVersion(v).error)
      ensures ResolveVersion(v).Ok? ==> r.Ok? && r.value.prefix == prefix && r.value.specials == specials
      ensures ResolveVersion(v) == Ok(Local) ==>
                && r.Ok? && fresh(r.value.cache) && r.value.cache.entries == map[]
                && r.value.source == Source(WorkingCopy(disk, root), store, ResolveFetch(f), isHidden)
      ensures ResolveVersion(v).Ok? && ResolveVersion(v).value.Committed? ==>
                && r.Ok? && r.value.cache == cache
                && r.value.source == Source(History(git, ResolveVersion(v).value.handle), store, ResolveFetch(f), isHidden)
    {
      var version :- ResolveVersion(v);
      var fetch := ResolveFetch(f);
      if version == Local {
        var g := new BevGlob.Local(disk, root, prefix, store, fetch, isHidden, specials);
        return Ok(g);
      }
      var g := new BevGlob.Committed(git, version.handle, prefix, cache, store, fetch, isHidden, specials);
      return Ok(g);
    }
  }
}
