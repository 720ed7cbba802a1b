/**
  The nested trees of bev/wc.py: a decoded flat tree rebuilt as nested
  dicts (`_normalize_tree`) and the walk down such a tree that
  `_get_cached` performs. A dict keeps its insertion order, so a folder is
  an ordered list of distinct names with their values.
 */
module WcTrees {
  import opened Errors
  import opened Paths
  import opened Hash
  import opened Dicts

  /** A value of a nested tree: a file key, or a folder mapping names to values. */
  datatype Node = File(key: Key) | Dir(entries: seq<(string, Node)>)

  /** Following `q` down from `n`: the value there, if any. */
  function Lookup(n: Node, q: Path): Option<Node>
    decreases |q|
  {
    if q == [] then Some(n)
    else match n
      case File(_) => None
      case Dir(es) =>
        match Get(es, q[0])
        case None => None
        case Some(c) => Lookup(c, q[1..])
  }

  predicate IsPrefix(a: Path, b: Path) {
    |a| <= |b| && b[..|a|] == a
  }

  predicate FileAt(n: Node, q: Path) {
    Lookup(n, q).Some? && Lookup(n, q).value.File?
  }

  /** `subtree.setdefault(name, {})` followed by a step into the result. */
  function Below(es: seq<(string, Node)>, name: string): Result<seq<(string, Node)>> {
    match Get<string, Node>(es, name)
    case None => Ok([])
    case Some(Dir(c)) => Ok(c)
    case Some(File(_)) => Err(TypeError(NotADict))
  }

  /** Stores `v` at `parts` below the folder `es`, creating folders on the way. */
  function Put(es: seq<(string, Node)>, parts: Path, v: Node): Result<seq<(string, Node)>>
    requires parts != []
    decreases |parts|
  {
    if |parts| == 1 then Ok(Set(es, parts[0], v))
    else
      var below :- Below(es, parts[0]);
      var sub :- Put(below, parts[1..], v);
      Ok(Set(es, parts[0], Dir(sub)))
  }

  lemma {:induction false} PutFinds(es: seq<(string, Node)>, p: Path, v: Node)
    requires p != [] && Put(es, p, v).Ok?
    ensures Lookup(Dir(Put(es, p, v).value), p) == Some(v)
    decreases |p|
  {
    if |p| > 1 {
      var below := Below(es, p[0]).value;
      PutFinds(below, p[1..], v);
    }
  }

  lemma {:induction false} PutElsewhere(es: seq<(string, Node)>, p: Path, v: Node, q: Path)
    requires p != [] && Put(es, p, v).Ok?
    requires !IsPrefix(p, q) && !IsPrefix(q, p)
    ensures Lookup(Dir(Put(es, p, v).value), q) == Lookup(Dir(es), q)
    decreases |p|
  {
    if q[0] == p[0] {
      assert |p| > 1 && |q| > 1;
      assert Below(es, p[0]).Ok?;
      var below := Below(es, p[0]).value;
      assert !IsPrefix(p[1..], q[1..]) && !IsPrefix(q[1..], p[1..]);
      PutElsewhere(below, p[1..], v, q[1..]);
    }
  }

  /** Storing succeeds when no folder on the way is a file. */
  lemma {:induction false} PutOk(es: seq<(string, Node)>, p: Path, v: Node)
    requires p != []
    requires forall k :: 1 <= k < |p| ==> !FileAt(Dir(es), p[..k])
    ensures Put(es, p, v).Ok?
    decreases |p|
  {
    if |p| > 1 {
      assert p[..1] == [p[0]] && !FileAt(Dir(es), [p[0]]);
      if Get(es, p[0]).Some? {
        assert [p[0]][1..] == [];
        assert Lookup(Dir(es), [p[0]]) == Some(Get(es, p[0]).value);
      }
      var below := Below(es, p[0]).value;
      forall k | 1 <= k < |p| - 1 ensures !FileAt(Dir(below), p[1..][..k]) {
        assert p[..k + 1] == [p[0]] + p[1..][..k];
        assert p[..k + 1][1..] == p[1..][..k];
      }
      PutOk(below, p[1..], v);
    }
  }

  /** Storing a file adds no file anywhere but at its own path. */
  lemma {:induction false} PutOnlyAdds(es: seq<(string, Node)>, p: Path, v: Node, q: Path, x: Key)
    requires p != [] && v.File? && Put(es, p, v).Ok?
    requires Lookup(Dir(Put(es, p, v).value), q) == Some(File(x))
    ensures (q == p && v == File(x)) || Lookup(Dir(es), q) == Some(File(x))
    decreases |p|
  {
    if q != [] && q[0] == p[0] {
      if |p| > 1 {
        var below := Below(es, p[0]).value;
        if q[1..] != [] {
          PutOnlyAdds(below, p[1..], v, q[1..], x);
          if q[1..] == p[1..] {
            assert q == [q[0]] + q[1..] && p == [p[0]] + p[1..];
          }
        }
      }
    }
  }

  /** One pair of the flat tree stored into the nested one. */
  function Insert(t: seq<(string, Node)>, item: (string, Key)): Result<seq<(string, Node)>> {
    var parts := ParsePath(item.0);
    if parts == [] then Err(ValueError(EmptyPath))
    else Put(t, parts, File(item.1))
  }

  /** The nested tree `_normalize_tree` builds from the pairs, in order. */
  function Nest(raw: seq<(string, Key)>): Result<seq<(string, Node)>> {
    if raw == [] then Ok([])
    else
      var t :- Nest(raw[..|raw| - 1]);
      Insert(t, raw[|raw| - 1])
  }

  /** Once a prefix of the pairs fails to nest, so do all the pairs. */
  lemma {:induction false} NestErrorPersists(raw: seq<(string, Key)>, k: nat)
    requires k <= |raw| && Nest(raw[..k]).Err?
    ensures Nest(raw) == Nest(raw[..k])
    decreases |raw| - k
  {
    if k < |raw| {
      assert raw[..k + 1][..k] == raw[..k];
      NestErrorPersists(raw, k + 1);
    } else {
      assert raw[..k] == raw;
    }
  }

  /** One more pair nests into the tree the earlier pairs built. */
  lemma NestNext(raw: seq<(string, Key)>, i: nat, tree: seq<(string, Node)>)
    requires i < |raw| && Nest(raw[..i]) == Ok(tree)
    ensures Nest(raw[..i + 1]) == Insert(tree, raw[i])
  {
    assert raw[..i + 1][..i] == raw[..i];
  }

  /** The loop of `_normalize_tree`: each pair stored into the growing tree. */
  method NormalizeNested(raw: seq<(string, Key)>) returns (r: Result<seq<(string, Node)>>)
    ensures r == Nest(raw)
  {
    var tree: seq<(string, Node)> := [];
    var i := 0;
    while i < |raw|
      invariant 0 <= i <= |raw|
      invariant Nest(raw[..i]) == Ok(tree)
    {
      NestNext(raw, i, tree);
      var next := Insert(tree, raw[i]);
      if next.Err? {
        NestErrorPersists(raw, i + 1);
        return next;
      }
      tree := next.value;
      i := i + 1;
    }
    assert raw[..i] == raw;
    return Ok(tree);
  }

  /** No path of the flat tree is '.' and none is an ancestor of (or equal to) another. */
  predicate PrefixFree(raw: seq<(string, Key)>) {
    && (forall j :: 0 <= j < |raw| ==> ParsePath(raw[j].0) != [])
    && forall i, j :: 0 <= i < |raw| && 0 <= j < |raw| && i != j ==>
         !IsPrefix(ParsePath(raw[i].0), ParsePath(raw[j].0))
  }

  /** Each path of `raw` leads to its key in `t`. */
  ghost predicate FilesOf(t: seq<(string, Node)>, raw: seq<(string, Key)>) {
    forall j :: 0 <= j < |raw| ==> Lookup(Dir(t), ParsePath(raw[j].0)) == Some(File(raw[j].1))
  }

  /** Every file in `t` sits at a path of `raw` and holds that path's key. */
  ghost predicate OnlyFilesOf(t: seq<(string, Node)>, raw: seq<(string, Key)>) {
    forall q, x :: Lookup(Dir(t), q) == Some(File(x)) ==>
      exists j :: 0 <= j < |raw| && q == ParsePath(raw[j].0) && x == raw[j].1
  }

  lemma NestStepOk(t: seq<(string, Node)>, raw: seq<(string, Key)>)
    requires raw != [] && PrefixFree(raw) && OnlyFilesOf(t, raw[..|raw| - 1])
    ensures Insert(t, raw[|raw| - 1]).Ok?
  {
    var n := |raw| - 1;
    var p := ParsePath(raw[n].0);
    forall k | 1 <= k < |p| ensures !FileAt(Dir(t), p[..k]) {
    }
    PutOk(t, p, File(raw[n].1));
  }

  lemma NestStepFiles(t: seq<(string, Node)>, raw: seq<(string, Key)>)
    requires raw != [] && PrefixFree(raw) && FilesOf(t, raw[..|raw| - 1])
    requires Insert(t, raw[|raw| - 1]).Ok?
    ensures FilesOf(Insert(t, raw[|raw| - 1]).value, raw)
  {
    var n := |raw| - 1;
    var p := ParsePath(raw[n].0);
    var v := File(raw[n].1);
    PutFinds(t, p, v);
    forall j | 0 <= j < n ensures Lookup(Dir(Put(t, p, v).value), ParsePath(raw[j].0)) == Some(File(raw[j].1)) {
      assert raw[..n][j] == raw[j];
      PutElsewhere(t, p, v, ParsePath(raw[j].0));
    }
  }

  lemma NestStepOnly(t: seq<(string, Node)>, raw: seq<(string, Key)>)
    requires raw != [] && PrefixFree(raw) && OnlyFilesOf(t, raw[..|raw| - 1])
    requires Insert(t, raw[|raw| - 1]).Ok?
    ensures OnlyFilesOf(Insert(t, raw[|raw| - 1]).value, raw)
  {
    var n := |raw| - 1;
    var p := ParsePath(raw[n].0);
    var v := File(raw[n].1);
    forall q, x | Lookup(Dir(Put(t, p, v).value), q) == Some(File(x))
      ensures exists j :: 0 <= j < |raw| && q == ParsePath(raw[j].0) && x == raw[j].1
    {
      PutOnlyAdds(t, p, v, q, x);
      if q != p {
        var j :| 0 <= j < n && q == ParsePath(raw[..n][j].0) && x == raw[..n][j].1;
        assert raw[..n][j] == raw[j];
      }
    }
  }

  /** Following each path of the flat tree through the nested tree reaches that
      path's key, and every file in the nested tree comes from such a path. */
  lemma {:induction false} NestSpec(raw: seq<(string, Key)>)
    requires PrefixFree(raw)
    ensures Nest(raw).Ok?
    ensures forall j :: 0 <= j < |raw| ==>
              Lookup(Dir(Nest(raw).value), ParsePath(raw[j].0)) == Some(File(raw[j].1))
    ensures forall q, x :: Lookup(Dir(Nest(raw).value), q) == Some(File(x)) ==>
              exists j :: 0 <= j < |raw| && q == ParsePath(raw[j].0) && x == raw[j].1
  {
    if raw != [] {
      var init := raw[..|raw| - 1];
      assert PrefixFree(init) by {
        assert forall j :: 0 <= j < |init| ==> init[j] == raw[j];
      }
      NestSpec(init);
      var t := Nest(init).value;
      NestStepOk(t, raw);
      NestStepFiles(t, raw);
      NestStepOnly(t, raw);
    }
  }

  /** `part in s` for strings: `part` occurs in `s`. */
  predicate Occurs(part: string, s: string) {
    StartsWith(s, part) || (s != [] && Occurs(part, s[1..]))
  }

  /** The walk of `_get_cached` down a cached value: each part must be present
      (`assert part in cache`) before stepping into it. A file key answers
      `in` by substring, and then cannot be indexed by a string. */
  function Descend(n: Node, parts: Path): Result<Node>
    decreases |parts|
  {
    if parts == [] then Ok(n)
    else match n
      case Dir(es) =>
        (match Get(es, parts[0])
         case None => Err(AssertionFailed)
         case Some(c) => Descend(c, parts[1..]))
      case File(k) => if Occurs(parts[0], k) then Err(TypeError(NotADict)) else Err(AssertionFailed)
  }

  /** The walk succeeds exactly where the path leads somewhere, and then finds it. */
  lemma {:induction false} DescendLookup(n: Node, parts: Path)
    ensures Descend(n, parts).Ok? <==> Lookup(n, parts).Some?
    ensures Descend(n, parts).Ok? ==> Descend(n, parts).value == Lookup(n, parts).value
    decreases |parts|
  {
    if parts != [] && n.Dir? && Get(n.entries, parts[0]).Some? {
      DescendLookup(Get(n.entries, parts[0]).value, parts[1..]);
    }
  }

  /** A value is false in `if cached:` when it is empty. */
  predicate Truthy(n: Node) {
    match n
    case File(k) => k != ""
    case Dir(es) => es != []
  }
}
