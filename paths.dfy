/**
  Relative POSIX paths as bev manipulates them through pathlib.

  A path is the sequence of its parts (`PurePosixPath.parts`); the empty
  sequence is `Path('.')`. `Render` is `str(path)` and `ParsePath` is
  `Path(s).parts`: split at '/', dropping empty and '.' segments.
 */
module Paths {

  type Path = seq<string>

  /** A part pathlib can produce: never empty, never '.', never containing '/'. */
  predicate ValidPart(s: string) {
    s != "" && s != "." && '/' !in s
  }

  predicate ValidPath(p: Path) {
    forall i :: 0 <= i < |p| ==> ValidPart(p[i])
  }

  predicate StartsWith(s: string, prefix: string) {
    |prefix| <= |s| && s[..|prefix|] == prefix
  }

  predicate EndsWith(s: string, suffix: string) {
    |suffix| <= |s| && s[|s| - |suffix|..] == suffix
  }

  /** `path.name`: the last part, or "" for the empty path. */
  function Name(p: Path): string {
    if p == [] then "" else p[|p| - 1]
  }

  /** `path.parent` of a non-empty path. */
  function Parent(p: Path): Path
    requires p != []
  {
    p[..|p| - 1]
  }

  /** `q` is a strict ancestor of `p` other than '.' (`p.parents[:-1]`). */
  predicate IsProperAncestor(q: Path, p: Path) {
    0 < |q| < |p| && p[..|q|] == q
  }

  /** The parts joined with '/'. */
  function Join(p: Path): string
    requires p != []
  {
    if |p| == 1 then p[0] else p[0] + "/" + Join(p[1..])
  }

  /** `str(path)`: "." for the empty path. */
  function Render(p: Path): string {
    if p == [] then "." else Join(p)
  }

  /** Position of the first `c` in `s` (`s.index(c)`). */
  function IndexOf(s: string, c: char): (i: nat)
    requires c in s
    ensures i < |s| && s[i] == c && c !in s[..i]
  {
    if s[0] == c then 0 else 1 + IndexOf(s[1..], c)
  }

  /** `s.split(c)`: the pieces between the occurrences of `c`. */
  function Split(s: string, c: char): (r: seq<string>)
    ensures |r| >= 1
    ensures forall i :: 0 <= i < |r| ==> c !in r[i]
    decreases |s|
  {
    if c !in s then [s]
    else
      var i := IndexOf(s, c);
      [s[..i]] + Split(s[i + 1..], c)
  }

  /** `s.split('/')`. */
  function Segments(s: string): (r: seq<string>)
    ensures |r| >= 1
    ensures forall i :: 0 <= i < |r| ==> '/' !in r[i]
  {
    Split(s, '/')
  }

  /** Drops the segments pathlib ignores: empty ones and '.'. */
  function KeepParts(segs: seq<string>): (p: Path)
    requires forall i :: 0 <= i < |segs| ==> '/' !in segs[i]
    ensures ValidPath(p)
  {
    if segs == [] then []
    else if segs[0] == "" || segs[0] == "." then KeepParts(segs[1..])
    else [segs[0]] + KeepParts(segs[1..])
  }

  /** `Path(s).parts` for a relative `s`. */
  function ParsePath(s: string): (p: Path)
    ensures ValidPath(p)
  {
    KeepParts(Segments(s))
  }

  lemma {:induction false} IndexOfAfter(a: string, c: char, b: string)
    requires c !in a
    ensures c in a + [c] + b && IndexOf(a + [c] + b, c) == |a|
    decreases |a|
  {
    var s := a + [c] + b;
    assert s[|a|] == c;
    if a != [] {
      assert s[0] == a[0];
      assert s[1..] == a[1..] + [c] + b;
      IndexOfAfter(a[1..], c, b);
    }
  }

  lemma {:induction false} SegmentsOfJoin(p: Path)
    requires p != [] && forall i :: 0 <= i < |p| ==> '/' !in p[i]
    ensures Segments(Join(p)) == p
  {
    if |p| > 1 {
      var s := Join(p);
      assert s == p[0] + "/" + Join(p[1..]);
      IndexOfAfter(p[0], '/', Join(p[1..]));
      var i := IndexOf(s, '/');
      assert s[..i] == p[0];
      assert s[i + 1..] == Join(p[1..]);
      SegmentsOfJoin(p[1..]);
    }
  }

  lemma {:induction false} KeepValidParts(p: Path)
    requires ValidPath(p)
    ensures KeepParts(p) == p
  {
    if p != [] {
      KeepValidParts(p[1..]);
    }
  }

  /** `Path(str(p)) == p` for every path pathlib can produce. */
  lemma ParseRender(p: Path)
    requires ValidPath(p)
    ensures ParsePath(Render(p)) == p
  {
    if p == [] {
      assert Segments(".") == ["."];
    } else {
      SegmentsOfJoin(p);
      KeepValidParts(p);
    }
  }

  /** `str` is injective on the paths pathlib produces. */
  lemma RenderInjective(p: Path, q: Path)
    requires ValidPath(p) && ValidPath(q) && Render(p) == Render(q)
    ensures p == q
  {
    ParseRender(p);
    ParseRender(q);
  }
}
