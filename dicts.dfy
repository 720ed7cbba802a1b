/**
  Python dicts as bev uses them: an ordered list of distinct keys with their
  values. Assigning to a key that is present keeps its place; a new key goes
  last.
 */
module Dicts {
  import opened Errors

  /** Index of the first entry, from `k` on, called `name`. */
  function FindFrom<K(==,!new), V>(es: seq<(K, V)>, name: K, k: nat): (r: Option<nat>)
    ensures r.Some? ==> k <= r.value < |es| && es[r.value].0 == name
                        && forall j :: k <= j < r.value ==> es[j].0 != name
    ensures r.None? ==> forall j :: k <= j < |es| ==> es[j].0 != name
    decreases |es| - k
  {
    if k >= |es| then None
    else if es[k].0 == name then Some(k)
    else FindFrom(es, name, k + 1)
  }

  /** `name in d` and `d[name]`. */
  function Get<K(==,!new), V>(es: seq<(K, V)>, name: K): (r: Option<V>)
    ensures r.None? <==> forall j :: 0 <= j < |es| ==> es[j].0 != name
    ensures r.Some? ==> (name, r.value) in es
  {
    match FindFrom(es, name, 0)
    case None => None
    case Some(i) => Some(es[i].1)
  }

  lemma {:induction false} FindSameNames<K(!new), V>(a: seq<(K, V)>, b: seq<(K, V)>, name: K, k: nat)
    requires |a| == |b| && forall j :: 0 <= j < |a| ==> a[j].0 == b[j].0
    ensures FindFrom(a, name, k) == FindFrom(b, name, k)
    decreases |a| - k
  {
    if k < |a| {
      FindSameNames(a, b, name, k + 1);
    }
  }

  lemma {:induction false} FindAppended<K(!new), V>(es: seq<(K, V)>, e: (K, V), name: K, k: nat)
    requires e.0 != name
    ensures FindFrom(es + [e], name, k) == FindFrom(es, name, k)
    decreases |es| - k
  {
    if k < |es| {
      assert (es + [e])[k] == es[k];
      FindAppended(es, e, name, k + 1);
    }
  }

  lemma {:induction false} FindLast<K(!new), V>(es: seq<(K, V)>, e: (K, V), k: nat)
    requires k <= |es| && forall j :: k <= j < |es| ==> es[j].0 != e.0
    ensures FindFrom(es + [e], e.0, k) == Some(|es|)
    decreases |es| - k
  {
    if k < |es| {
      assert (es + [e])[k] == es[k];
      FindLast(es, e, k + 1);
    }
  }

  /** No name occurs twice. */
  predicate Distinct<K(==), V>(es: seq<(K, V)>) {
    forall i, j :: 0 <= i < j < |es| ==> es[i].0 != es[j].0
  }

  /** `d[name] = v`: an existing entry keeps its place, a new one goes last. */
  function Set<K(==,!new), V>(es: seq<(K, V)>, name: K, v: V): (r: seq<(K, V)>)
    ensures Get(r, name) == Some(v)
    ensures forall n :: n != name ==> Get(r, n) == Get(es, n)
    ensures |es| <= |r| <= |es| + 1
    ensures forall j :: 0 <= j < |r| ==> r[j] == (name, v) || (j < |es| && r[j] == es[j])
    ensures Distinct(es) ==> Distinct(r)
  {
    match FindFrom(es, name, 0)
    case None =>
      var r := es + [(name, v)];
      assert forall n :: n != name ==> FindFrom(r, n, 0) == FindFrom(es, n, 0) by {
        forall n | n != name ensures FindFrom(r, n, 0) == FindFrom(es, n, 0) {
          FindAppended(es, (name, v), n, 0);
        }
      }
      FindLast(es, (name, v), 0);
      r
    case Some(i) =>
      var r := es[i := (name, v)];
      assert forall n :: FindFrom(r, n, 0) == FindFrom(es, n, 0) by {
        forall n ensures FindFrom(r, n, 0) == FindFrom(es, n, 0) {
          FindSameNames(r, es, n, 0);
        }
      }
      r
  }
}
