/**
  The marker and tree vocabulary of bev/hash.py.

  A large file `name` is replaced by a marker file `name.hash` whose content
  is a key: a bare hex digest (a file key) or `T:` followed by a hex digest
  (a tree key). A tree key names a stored JSON object mapping relative paths
  to file keys; `normalize_tree` builds such a flat tree from a possibly
  nested mapping, and `tree_to_hash` stores it in sorted path order.
 */
module Hash {
  import opened Errors
  import opened Paths

  type Key = string

  const HashSuffix: string := ".hash"
  const TreePrefix: string := "T:"

  /** `is_hash`: the final name ends with `.hash`. */
  predicate IsHash(p: Path) {
    EndsWith(Name(p), HashSuffix)
  }

  /** `to_hash`: `name` becomes `name.hash`. */
  function ToHash(p: Path): (r: Result<Path>)
    ensures IsHash(p) ==> r == Err(HashError(AlreadyHash))
    ensures !IsHash(p) && p == [] ==> r == Err(ValueError(EmptyName))
    ensures r.Ok? <==> !IsHash(p) && p != []
    ensures r.Ok? ==> IsHash(r.value) && |r.value| == |p|
                      && Parent(r.value) == Parent(p) && Name(r.value) == Name(p) + HashSuffix
  {
    if IsHash(p) then Err(HashError(AlreadyHash))
    else if p == [] then Err(ValueError(EmptyName))
    else Ok(Parent(p) + [Name(p) + HashSuffix])
  }

  /** `PurePath.stem`: the name without its last suffix (pathlib's rule). */
  function Stem(name: string): (r: string)
    ensures EndsWith(name, HashSuffix) && |name| > |HashSuffix| ==> name == r + HashSuffix
    ensures !(EndsWith(name, HashSuffix) && |name| > |HashSuffix|) ==> r == name
  {
    if EndsWith(name, HashSuffix) && |name| > |HashSuffix| then
      var n := |name| - |HashSuffix|;
      assert name == name[..n] + name[n..];
      name[..n]
    else name
  }

  /** `from_hash`: `name.hash` becomes `name`. */
  function FromHash(p: Path): (r: Result<Path>)
    ensures !IsHash(p) ==> r == Err(HashError(NotAHash))
    ensures r.Ok? ==> p != [] && |r.value| == |p| && Parent(r.value) == Parent(p)
                      && (Name(p) == Name(r.value) + HashSuffix || r.value == p)
  {
    if !IsHash(p) then Err(HashError(NotAHash))
    else
      var stem := Stem(Name(p));
      if stem == "." then Err(ValueError(InvalidName))
      else
        var q := Parent(p) + [stem];
        assert Parent(q) == Parent(p) && Name(q) == stem;
        Ok(q)
  }

  /** `from_hash(to_hash(p)) == p` for every path with a proper name that is not a marker. */
  lemma FromToHash(p: Path)
    requires ValidPath(p) && p != [] && !IsHash(p)
    ensures ToHash(p).Ok? && FromHash(ToHash(p).value) == Ok(p)
  {
    var h := ToHash(p).value;
    var n := Name(h);
    assert n == Name(p) + HashSuffix;
    assert EndsWith(n, HashSuffix) by {
      assert n[|n| - |HashSuffix|..] == HashSuffix;
    }
    var st := Stem(n);
    assert st == (st + HashSuffix)[..|st|] == (Name(p) + HashSuffix)[..|Name(p)|] == Name(p);
    assert Parent(h) + [Name(p)] == p;
  }

  /** `is_tree`. */
  predicate IsTree(key: Key) {
    StartsWith(key, TreePrefix)
  }

  /** `strip_tree`: removes `T:` when present, otherwise returns the key unchanged. */
  function StripTree(key: Key): (r: Key)
    ensures IsTree(key) ==> TreePrefix + r == key
    ensures !IsTree(key) ==> r == key
  {
    if IsTree(key) then key[|TreePrefix|..] else key
  }

  lemma StripTreePrefix(k: Key)
    ensures IsTree(TreePrefix + k) && StripTree(TreePrefix + k) == k
  {
    assert (TreePrefix + k)[..|TreePrefix|] == TreePrefix;
  }

  // ---------------------------------------------------------------------------
  // normalize_tree

  /** A (possibly nested) mapping handed to `normalize_tree`. `Other` is any
      value that is neither a string nor a dict. */
  datatype Raw = Str(s: string) | Dict(items: seq<(string, Raw)>) | Other

  /** What the `flatten` generator does: the pairs it yields, in order, and the
      exception it raises after them, if any. */
  datatype Stream = Stream(out: seq<(Path, Key)>, err: Option<Error>)

  /** Every leaf of `x.items[i..]` is a string of `2 * digestSize` characters. */
  predicate LeavesValid(x: Raw, i: nat, digestSize: nat)
    requires x.Dict?
    decreases x, |x.items| - i
  {
    i >= |x.items| ||
    (var v := x.items[i].1;
     assert x.items[i] in x.items;
     match v
     case Str(s) => |s| == 2 * digestSize && LeavesValid(x, i + 1, digestSize)
     case Dict(_) => LeavesValid(v, 0, digestSize) && LeavesValid(x, i + 1, digestSize)
     case Other => false)
  }

  /** `key / k` for every yielded pair. */
  function Under(key: Path, out: seq<(Path, Key)>): (r: seq<(Path, Key)>)
    ensures |r| == |out|
    ensures forall j :: 0 <= j < |out| ==> r[j] == (key + out[j].0, out[j].1)
  {
    if out == [] then [] else [(key + out[0].0, out[0].1)] + Under(key, out[1..])
  }

  /** The `flatten` generator over `x.items[i..]`. */
  function Flatten(x: Raw, i: nat, digestSize: nat): (r: Stream)
    requires x.Dict?
    ensures r.err.None? <==> LeavesValid(x, i, digestSize)
    ensures r.err.Some? ==> r.err.value in {ValueError(DigestLength), TypeError(NotATreeValue)}
    ensures forall j :: 0 <= j < |r.out| ==> |r.out[j].1| == 2 * digestSize && ValidPath(r.out[j].0)
    decreases x, |x.items| - i
  {
    if i >= |x.items| then Stream([], None)
    else
      var key := ParsePath(x.items[i].0);
      var v := x.items[i].1;
      assert x.items[i] in x.items;
      var head :=
        match v
        case Str(s) =>
          if |s| != 2 * digestSize then Stream([], Some(ValueError(DigestLength)))
          else Stream([(key, s)], None)
        case Dict(_) =>
          var inner := Flatten(v, 0, digestSize);
          Stream(Under(key, inner.out), inner.err)
        case Other => Stream([], Some(TypeError(NotATreeValue)));
      if head.err.Some? then head
      else
        var rest := Flatten(x, i + 1, digestSize);
        Stream(head.out + rest.out, rest.err)
  }

  /** A folder below a tree whose leaves are all valid has valid leaves too. */
  lemma {:induction false} LeavesValidBelow(x: Raw, i: nat, k: nat, digestSize: nat)
    requires x.Dict? && i <= k < |x.items| && x.items[k].1.Dict? && LeavesValid(x, i, digestSize)
    ensures LeavesValid(x.items[k].1, 0, digestSize)
    decreases k - i
  {
    if i < k {
      LeavesValidBelow(x, i + 1, k, digestSize);
    }
  }

  /** Every string leaf of a tree whose leaves are all valid is yielded under its parsed path. */
  lemma {:induction false} FlattenYieldsLeaf(x: Raw, i: nat, k: nat, digestSize: nat)
    requires x.Dict? && i <= k < |x.items| && x.items[k].1.Str? && LeavesValid(x, i, digestSize)
    ensures (ParsePath(x.items[k].0), x.items[k].1.s) in Flatten(x, i, digestSize).out
    decreases k - i
  {
    assert x.items[i] in x.items;
    if i < k {
      FlattenYieldsLeaf(x, i + 1, k, digestSize);
    }
  }

  /** What a nested folder yields is yielded by the enclosing tree, below the folder's name. */
  lemma {:induction false} FlattenYieldsNested(x: Raw, i: nat, k: nat, q: Path, s: Key, digestSize: nat)
    requires x.Dict? && i <= k < |x.items| && x.items[k].1.Dict? && LeavesValid(x, i, digestSize)
    requires (q, s) in Flatten(x.items[k].1, 0, digestSize).out
    ensures (ParsePath(x.items[k].0) + q, s) in Flatten(x, i, digestSize).out
    decreases k - i
  {
    assert x.items[i] in x.items;
    var key := ParsePath(x.items[i].0);
    if i < k {
      FlattenYieldsNested(x, i + 1, k, q, s, digestSize);
    } else {
      var inner := Flatten(x.items[k].1, 0, digestSize);
      assert inner.err.None?;
      var j :| 0 <= j < |inner.out| && inner.out[j] == (q, s);
      var head := Under(key, inner.out);
      assert head[j] == (key + q, s);
      assert Flatten(x, i, digestSize).out == head + Flatten(x, i + 1, digestSize).out;
    }
  }

  /** No two yielded pairs give the same path (as a string) different keys. */
  predicate Consistent(out: seq<(Path, Key)>) {
    forall i, j :: 0 <= i < |out| && 0 <= j < |out| && Render(out[i].0) == Render(out[j].0) ==>
      out[i].1 == out[j].1
  }

  /** The `result` dict after storing the pairs in order (a later pair overwrites). */
  function Collected(out: seq<(Path, Key)>): map<string, Key> {
    if out == [] then map[]
    else Collected(out[..|out| - 1])[Render(out[|out| - 1].0) := out[|out| - 1].1]
  }

  /** What `normalize_tree(tree, digest_size)` returns or raises. A conflicting
      pair is met before the generator's own exception, which comes last. */
  function Normalized(items: seq<(string, Raw)>, digestSize: nat): Result<map<string, Key>> {
    var s := Flatten(Dict(items), 0, digestSize);
    if !Consistent(s.out) then Err(ValueError(DuplicatePath))
    else if s.err.Some? then Err(s.err.value)
    else Ok(Collected(s.out))
  }

  lemma {:induction false} CollectedKeys(out: seq<(Path, Key)>)
    ensures Collected(out).Keys == set j | 0 <= j < |out| :: Render(out[j].0)
  {
    if out != [] {
      var init := out[..|out| - 1];
      CollectedKeys(init);
      assert forall j :: 0 <= j < |init| ==> init[j] == out[j];
    }
  }

  /** Every stored key comes from some pair, whose value it holds unless a later
      pair with the same path overwrote it. */
  lemma {:induction false} CollectedFrom(out: seq<(Path, Key)>, k: string)
    requires k in Collected(out)
    ensures exists j :: 0 <= j < |out| && Render(out[j].0) == k && out[j].1 == Collected(out)[k]
  {
    var n := |out|;
    if Render(out[n - 1].0) != k {
      var init := out[..n - 1];
      CollectedFrom(init, k);
      var j :| 0 <= j < |init| && Render(init[j].0) == k && init[j].1 == Collected(init)[k];
      assert out[j] == init[j];
    }
  }

  lemma {:induction false} CollectedConsistent(out: seq<(Path, Key)>)
    requires Consistent(out)
    ensures forall j :: 0 <= j < |out| ==> Render(out[j].0) in Collected(out) && Collected(out)[Render(out[j].0)] == out[j].1
  {
    CollectedKeys(out);
    forall j | 0 <= j < |out|
      ensures Collected(out)[Render(out[j].0)] == out[j].1
    {
      CollectedFrom(out, Render(out[j].0));
    }
  }

  lemma CollectedStep(out: seq<(Path, Key)>, i: nat)
    requires i < |out|
    ensures Collected(out[..i + 1]) == Collected(out[..i])[Render(out[i].0) := out[i].1]
  {
    assert out[..i + 1][..i] == out[..i];
  }

  /** Storing one more pair keeps the pairs seen so far consistent when it
      agrees with what is stored under its path. */
  lemma {:induction false} ConsistentStep(out: seq<(Path, Key)>, i: nat)
    requires i < |out| && Consistent(out[..i])
    requires Render(out[i].0) in Collected(out[..i]) ==> Collected(out[..i])[Render(out[i].0)] == out[i].1
    ensures Consistent(out[..i + 1])
  {
    var pre, ext := out[..i], out[..i + 1];
    CollectedConsistent(pre);
    CollectedKeys(pre);
    forall a, b | 0 <= a < |ext| && 0 <= b < |ext| && Render(ext[a].0) == Render(ext[b].0)
      ensures ext[a].1 == ext[b].1
    {
      if a < i && b < i {
        assert ext[a] == pre[a] && ext[b] == pre[b];
      } else if a < i {
        assert ext[a] == pre[a];
      } else if b < i {
        assert ext[b] == pre[b];
      }
    }
  }

  /** A pair that disagrees with what is stored under its path makes the whole
      stream inconsistent. */
  lemma {:induction false} InconsistentStep(out: seq<(Path, Key)>, i: nat)
    requires i < |out|
    requires Render(out[i].0) in Collected(out[..i]) && Collected(out[..i])[Render(out[i].0)] != out[i].1
    ensures !Consistent(out)
  {
    CollectedFrom(out[..i], Render(out[i].0));
    var j :| 0 <= j < i && Render(out[..i][j].0) == Render(out[i].0)
             && out[..i][j].1 == Collected(out[..i])[Render(out[i].0)];
    assert out[..i][j] == out[j];
  }

  /** The loop of `normalize_tree`: fills `result` from the yielded pairs,
      raising on the first path that arrives again with a different key. */
  method Fill(out: seq<(Path, Key)>) returns (r: Result<map<string, Key>>)
    ensures Consistent(out) ==> r == Ok(Collected(out))
    ensures !Consistent(out) ==> r == Err(ValueError(DuplicatePath))
  {
    var result: map<string, Key> := map[];
    var i := 0;
    while i < |out|
      invariant 0 <= i <= |out|
      invariant Consistent(out[..i])
      invariant result == Collected(out[..i])
    {
      var path := Render(out[i].0);
      var hash := out[i].1;
      if path in result && result[path] != hash {
        InconsistentStep(out, i);
        return Err(ValueError(DuplicatePath));
      }
      ConsistentStep(out, i);
      CollectedStep(out, i);
      result := result[path := hash];
      i := i + 1;
    }
    assert out[..i] == out;
    return Ok(result);
  }

  /** `normalize_tree`: the generator's pairs are stored first; its own
      exception, if any, comes after them. */
  method NormalizeTree(items: seq<(string, Raw)>, digestSize: nat) returns (r: Result<map<string, Key>>)
    ensures r == Normalized(items, digestSize)
  {
    var s := Flatten(Dict(items), 0, digestSize);
    var result :- Fill(s.out);
    if s.err.Some? {
      return Err(s.err.value);
    }
    return Ok(result);
  }

  /** `normalize_tree` succeeds exactly when every leaf is a key of the right
      length and no path is given two different keys; it then maps each
      flattened path (joined with '/') to its key and holds nothing else. */
  lemma NormalizedSpec(items: seq<(string, Raw)>, digestSize: nat)
    ensures var s := Flatten(Dict(items), 0, digestSize);
      && (Normalized(items, digestSize).Ok? <==> LeavesValid(Dict(items), 0, digestSize) && Consistent(s.out))
      && (Normalized(items, digestSize).Ok? ==>
            var t := Normalized(items, digestSize).value;
            && t.Keys == (set j | 0 <= j < |s.out| :: Render(s.out[j].0))
            && forall j :: 0 <= j < |s.out| ==> t[Render(s.out[j].0)] == s.out[j].1)
  {
    var s := Flatten(Dict(items), 0, digestSize);
    CollectedKeys(s.out);
    if Consistent(s.out) {
      CollectedConsistent(s.out);
    }
  }

  /** A normalised tree holds only keys of `2 * digest_size` characters under
      paths written the way pathlib writes them. */
  ghost predicate CanonicalTree(t: map<string, Key>, digestSize: nat) {
    forall k :: k in t ==> |t[k]| == 2 * digestSize && exists p :: ValidPath(p) && Render(p) == k
  }

  lemma NormalizedIsCanonical(items: seq<(string, Raw)>, digestSize: nat)
    requires Normalized(items, digestSize).Ok?
    ensures CanonicalTree(Normalized(items, digestSize).value, digestSize)
  {
    var s := Flatten(Dict(items), 0, digestSize);
    var t := Normalized(items, digestSize).value;
    NormalizedSpec(items, digestSize);
    forall k | k in t
      ensures |t[k]| == 2 * digestSize && exists p :: ValidPath(p) && Render(p) == k
    {
      var j :| 0 <= j < |s.out| && Render(s.out[j].0) == k;
      assert t[k] == s.out[j].1;
    }
  }

  // ---------------------------------------------------------------------------
  // tree_to_hash: sorted serialisation

  /** Python's `<` on str: lexicographic on code points. */
  predicate Less(a: string, b: string)
    decreases |a|
  {
    if a == [] then b != []
    else if b == [] then false
    else if a[0] == b[0] then Less(a[1..], b[1..])
    else a[0] < b[0]
  }

  lemma {:induction false} LessIrreflexive(a: string)
    ensures !Less(a, a)
    decreases |a|
  {
    if a != [] {
      LessIrreflexive(a[1..]);
    }
  }

  lemma {:induction false} LessAsymmetric(a: string, b: string)
    requires Less(a, b)
    ensures !Less(b, a)
    decreases |a|
  {
    if a != [] && b != [] && a[0] == b[0] {
      LessAsymmetric(a[1..], b[1..]);
    }
  }

  lemma {:induction false} LessTransitive(a: string, b: string, c: string)
    requires Less(a, b) && Less(b, c)
    ensures Less(a, c)
    decreases |a|
  {
    if a != [] && a[0] == b[0] && b[0] == c[0] {
      LessTransitive(a[1..], b[1..], c[1..]);
    }
  }

  lemma {:induction false} LessTotal(a: string, b: string)
    requires a != b
    ensures Less(a, b) || Less(b, a)
    decreases |a|
  {
    if a != [] && b != [] && a[0] == b[0] {
      assert a == [a[0]] + a[1..] && b == [b[0]] + b[1..];
      LessTotal(a[1..], b[1..]);
    }
  }

  predicate IsLeast(k: string, s: set<string>) {
    k in s && forall k' :: k' in s ==> k' == k || Less(k, k')
  }

  /** Every non-empty set of strings has a least element. */
  lemma {:induction false} LeastExists(s: set<string>)
    requires s != {}
    ensures exists k :: IsLeast(k, s)
    decreases s
  {
    var x :| x in s;
    if s == {x} {
      assert IsLeast(x, s);
    } else {
      var s' := s - {x};
      LeastExists(s');
      var m :| IsLeast(m, s');
      if Less(x, m) {
        forall k' | k' in s ensures k' == x || Less(x, k') {
          if k' != x && k' != m {
            LessTransitive(x, m, k');
          }
        }
        assert IsLeast(x, s);
      } else {
        LessTotal(x, m);
        assert IsLeast(m, s);
      }
    }
  }

  lemma LeastUnique(a: string, b: string, s: set<string>)
    requires IsLeast(a, s) && IsLeast(b, s)
    ensures a == b
  {
    if a != b {
      LessAsymmetric(a, b);
    }
  }

  ghost function Least(s: set<string>): (k: string)
    requires s != {}
    ensures IsLeast(k, s)
  {
    LeastExists(s);
    var k :| IsLeast(k, s);
    k
  }

  /** `sorted(s)`. */
  ghost function SortedKeys(s: set<string>): seq<string>
    decreases s
  {
    if s == {} then []
    else
      var m := Least(s);
      [m] + SortedKeys(s - {m})
  }

  predicate StrictlySorted(ks: seq<string>) {
    forall i, j :: 0 <= i < j < |ks| ==> Less(ks[i], ks[j])
  }

  /** `sorted(s)` lists every element of `s` exactly once, in increasing order. */
  lemma {:induction false} SortedKeysSpec(s: set<string>)
    ensures forall k :: k in SortedKeys(s) <==> k in s
    ensures StrictlySorted(SortedKeys(s))
    decreases s
  {
    if s != {} {
      var m := Least(s);
      var rest := s - {m};
      SortedKeysSpec(rest);
      var ks := SortedKeys(s);
      assert ks == [m] + SortedKeys(rest);
      forall i, j | 0 <= i < j < |ks| ensures Less(ks[i], ks[j]) {
        if i == 0 {
          assert ks[j] in SortedKeys(rest);
        } else {
          assert ks[i] == SortedKeys(rest)[i - 1] && ks[j] == SortedKeys(rest)[j - 1];
        }
      }
    }
  }

  /** `(k, tree[k]) for k in ks`. */
  function ItemsOf(t: map<string, Key>, ks: seq<string>): (l: seq<(string, Key)>)
    requires forall k :: k in ks ==> k in t
    ensures |l| == |ks| && forall i :: 0 <= i < |ks| ==> l[i] == (ks[i], t[ks[i]])
  {
    if ks == [] then [] else [(ks[0], t[ks[0]])] + ItemsOf(t, ks[1..])
  }

  /** The sorted serialisation that `tree_to_hash` writes. */
  ghost function Canonical(t: map<string, Key>): seq<(string, Key)> {
    SortedKeysSpec(t.Keys);
    ItemsOf(t, SortedKeys(t.Keys))
  }

  lemma SortedKeysUnfold(s: set<string>, k: string)
    requires IsLeast(k, s)
    ensures SortedKeys(s) == [k] + SortedKeys(s - {k})
  {
    LeastUnique(k, Least(s), s);
  }

  lemma ItemsOfAppend(t: map<string, Key>, ks: seq<string>, k: string)
    requires forall x :: x in ks ==> x in t
    requires k in t
    ensures ItemsOf(t, ks + [k]) == ItemsOf(t, ks) + [(k, t[k])]
  {
  }

  /** The serialisation lists exactly the entries of the tree, in strictly
      increasing path order. */
  lemma CanonicalSpec(t: map<string, Key>)
    ensures forall i, j :: 0 <= i < j < |Canonical(t)| ==> Less(Canonical(t)[i].0, Canonical(t)[j].0)
    ensures forall k, v :: (k, v) in Canonical(t) <==> k in t && t[k] == v
  {
    var ks := SortedKeys(t.Keys);
    SortedKeysSpec(t.Keys);
    assert Canonical(t) == ItemsOf(t, ks);
    forall k, v | k in t && t[k] == v ensures (k, v) in Canonical(t) {
      var i :| 0 <= i < |ks| && ks[i] == k;
      assert Canonical(t)[i] == (k, v);
    }
  }

  /** `OrderedDict((k, tree[k]) for k in sorted(tree))`: takes the least
      remaining path each time. */
  method SortedItems(t: map<string, Key>) returns (l: seq<(string, Key)>)
    ensures l == Canonical(t)
  {
    l := [];
    var rest := t.Keys;
    ghost var done: seq<string> := [];
    while rest != {}
      invariant rest <= t.Keys
      invariant forall k :: k in done ==> k in t
      invariant SortedKeys(t.Keys) == done + SortedKeys(rest)
      invariant l == ItemsOf(t, done)
      decreases rest
    {
      LeastExists(rest);
      var k :| IsLeast(k, rest);
      SortedKeysUnfold(rest, k);
      ItemsOfAppend(t, done, k);
      l := l + [(k, t[k])];
      done := done + [k];
      rest := rest - {k};
    }
    assert done == SortedKeys(t.Keys);
  }

  /** `tree_to_hash`: normalises, serialises in sorted order, stores the
      serialisation (`write` stands for the content store and returns the hex
      digest) and returns `T:` + digest. */
  method TreeToHash(items: seq<(string, Raw)>, digestSize: nat, write: seq<(string, Key)> -> Key)
    returns (r: Result<Key>)
    ensures Normalized(items, digestSize).Err? ==> r == Err(Normalized(items, digestSize).error)
    ensures Normalized(items, digestSize).Ok? ==>
              r == Ok(TreePrefix + write(Canonical(Normalized(items, digestSize).value)))
    ensures r.Ok? ==> IsTree(r.value)
  {
    var tree :- NormalizeTree(items, digestSize);
    var listing := SortedItems(tree);
    StripTreePrefix(write(listing));
    return Ok(TreePrefix + write(listing));
  }

  // ---------------------------------------------------------------------------
  // Reading a stored tree back

  /** A decoded JSON object, as `json.load` returns it: distinct keys in file order. */
  predicate DistinctKeys(l: seq<(string, Key)>) {
    forall i, j :: 0 <= i < j < |l| ==> l[i].0 != l[j].0
  }

  type Listing = l: seq<(string, Key)> | DistinctKeys(l) witness []

  /** The decoded JSON object as a mapping handed back to `normalize_tree`. */
  function AsRaw(l: seq<(string, Key)>): (r: seq<(string, Raw)>)
    ensures |r| == |l| && forall i :: 0 <= i < |l| ==> r[i] == (l[i].0, Str(l[i].1))
  {
    if l == [] then [] else [(l[0].0, Str(l[0].1))] + AsRaw(l[1..])
  }

  /** One string leaf of the right length is yielded under its parsed path. */
  lemma FlattenLeaf(x: Raw, i: nat, digestSize: nat)
    requires x.Dict? && i < |x.items| && x.items[i].1.Str? && |x.items[i].1.s| == 2 * digestSize
    ensures Flatten(x, i, digestSize) ==
            Stream([(ParsePath(x.items[i].0), x.items[i].1.s)] + Flatten(x, i + 1, digestSize).out,
                   Flatten(x, i + 1, digestSize).err)
  {
  }

  lemma {:induction false} FlattenFlat(l: seq<(string, Key)>, i: nat, digestSize: nat)
    requires i <= |l|
    requires forall j :: i <= j < |l| ==> |l[j].1| == 2 * digestSize
    ensures Flatten(Dict(AsRaw(l)), i, digestSize).err == None
    ensures |Flatten(Dict(AsRaw(l)), i, digestSize).out| == |l| - i
    ensures forall j :: 0 <= j < |l| - i ==>
              Flatten(Dict(AsRaw(l)), i, digestSize).out[j] == (ParsePath(l[i + j].0), l[i + j].1)
    decreases |l| - i
  {
    if i < |l| {
      var x := Dict(AsRaw(l));
      FlattenFlat(l, i + 1, digestSize);
      FlattenLeaf(x, i, digestSize);
      var rest := Flatten(x, i + 1, digestSize).out;
      var out := Flatten(x, i, digestSize).out;
      assert out == [(ParsePath(l[i].0), l[i].1)] + rest;
      forall j | 0 < j < |l| - i ensures out[j] == (ParsePath(l[i + j].0), l[i + j].1) {
        assert out[j] == rest[j - 1];
      }
    }
  }

  /** Pairs that all agree with `t` and cover it collect to exactly `t`. */
  lemma CollectedAgreeing(out: seq<(Path, Key)>, t: map<string, Key>)
    requires forall j :: 0 <= j < |out| ==> Render(out[j].0) in t && t[Render(out[j].0)] == out[j].1
    requires forall k :: k in t ==> exists j :: 0 <= j < |out| && Render(out[j].0) == k
    ensures Consistent(out) && Collected(out) == t
  {
    CollectedKeys(out);
    forall k | k in Collected(out) ensures Collected(out)[k] == t[k] {
      CollectedFrom(out, k);
    }
  }

  /** Round trip: reading back the serialisation of a normalised tree and
      normalising it again gives the same tree (`decode(encode(t)) == t`). */
  lemma {:induction false} NormalizeSerialised(t: map<string, Key>, digestSize: nat)
    requires CanonicalTree(t, digestSize)
    ensures Normalized(AsRaw(Canonical(t)), digestSize) == Ok(t)
  {
    var l := Canonical(t);
    CanonicalSpec(t);
    forall j | 0 <= j < |l| ensures |l[j].1| == 2 * digestSize {
      assert l[j] in l;
    }
    FlattenFlat(l, 0, digestSize);
    var out := Flatten(Dict(AsRaw(l)), 0, digestSize).out;
    forall j | 0 <= j < |out| ensures Render(out[j].0) in t && t[Render(out[j].0)] == out[j].1 {
      assert l[j] in l;
      var p :| ValidPath(p) && Render(p) == l[j].0;
      ParseRender(p);
    }
    forall k | k in t ensures exists j :: 0 <= j < |out| && Render(out[j].0) == k {
      assert (k, t[k]) in l;
      var j :| 0 <= j < |l| && l[j] == (k, t[k]);
      var p :| ValidPath(p) && Render(p) == k;
      ParseRender(p);
      assert Render(out[j].0) == k;
    }
    CollectedAgreeing(out, t);
  }
}
