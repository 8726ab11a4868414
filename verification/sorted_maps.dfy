/** Rust's `BTreeMap` with integer keys, as the list of its entries in
    ascending key order: iterating it visits the keys from smallest to
    largest, and building one from a list of pairs keeps the last value given
    for each key. */
module SortedMaps {
  import opened Wrappers

  type Entries<V> = seq<(int, V)>

  /** Strictly ascending keys: the shape of a `BTreeMap`'s iteration. */
  predicate Ascending<V>(m: Entries<V>) {
    forall i, j :: 0 <= i < j < |m| ==> m[i].0 < m[j].0
  }

  /** `get`: the value stored under `k`. */
  function Get<V>(m: Entries<V>, k: int): (r: Option<V>)
    ensures r.Some? <==> exists i :: 0 <= i < |m| && m[i].0 == k
    ensures r.Some? ==> exists i :: 0 <= i < |m| && m[i] == (k, r.value)
  {
    if |m| == 0 then None
    else if m[0].0 == k then Some(m[0].1)
    else
      var r := Get(m[1..], k);
      assert forall i :: 1 <= i < |m| ==> m[i] == m[1..][i - 1];
      r
  }

  /** `insert`: `k` now maps to `v`, every other key is unchanged. */
  function Insert<V>(m: Entries<V>, k: int, v: V): (r: Entries<V>)
    requires Ascending(m)
    ensures Ascending(r)
    ensures |r| > 0 && r[0].0 == (if |m| == 0 || k < m[0].0 then k else m[0].0)
    ensures forall j :: Get(r, j) == if j == k then Some(v) else Get(m, j)
  {
    if |m| == 0 then [(k, v)]
    else if k < m[0].0 then [(k, v)] + m
    else if k == m[0].0 then [(k, v)] + m[1..]
    else
      var t := Insert(m[1..], k, v);
      assert forall i :: 0 <= i < |t| ==> t[0].0 <= t[i].0;
      [m[0]] + t
  }

  /** The value of the last pair with key `k`. */
  function LastValue<V>(pairs: Entries<V>, k: int): Option<V> {
    if |pairs| == 0 then None
    else if pairs[|pairs| - 1].0 == k then Some(pairs[|pairs| - 1].1)
    else LastValue(pairs[..|pairs| - 1], k)
  }

  /** `collect::<BTreeMap<_, _>>()`: a later pair overwrites an earlier one with
      the same key. */
  function FromList<V>(pairs: Entries<V>): (r: Entries<V>)
    ensures Ascending(r)
    ensures forall k :: Get(r, k) == LastValue(pairs, k)
  {
    if |pairs| == 0 then []
    else
      var last := pairs[|pairs| - 1];
      Insert(FromList(pairs[..|pairs| - 1]), last.0, last.1)
  }

  /** A key is present after the build exactly when some pair carried it, and
      its value is the value of some pair with that key. */
  lemma {:induction false} LastValueFound<V>(pairs: Entries<V>, k: int)
    ensures LastValue(pairs, k).Some? <==> exists i :: 0 <= i < |pairs| && pairs[i].0 == k
    ensures LastValue(pairs, k).Some? ==> exists i :: 0 <= i < |pairs| && pairs[i] == (k, LastValue(pairs, k).value)
    decreases |pairs|
  {
    if |pairs| > 0 {
      var front := pairs[..|pairs| - 1];
      LastValueFound(front, k);
      assert forall i :: 0 <= i < |front| ==> front[i] == pairs[i];
    }
  }

  /** With distinct keys nothing is overwritten: every pair is found again. */
  lemma {:induction false} FromListDistinct<V>(pairs: Entries<V>, i: nat)
    requires forall a, b :: 0 <= a < b < |pairs| ==> pairs[a].0 != pairs[b].0
    requires i < |pairs|
    ensures Get(FromList(pairs), pairs[i].0) == Some(pairs[i].1)
    decreases |pairs|
  {
    var front := pairs[..|pairs| - 1];
    if i < |pairs| - 1 {
      assert front[i] == pairs[i];
      FromListDistinct(front, i);
      LastValueFound(front, pairs[i].0);
    }
  }
}
