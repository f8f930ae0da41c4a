/**
 * Grouping into a JavaScript `Map`, as `computeMealBreakdown` and `computeDailyTrends`
 * in src/lib/domain/analytics.ts do it: for the i-th item, with key `ks[i]` and value
 * `vs[i]`, `get(key) || []`, push the value, `set(key, list)`. The map's keys are in
 * order of first `set` (`Distinct(ks)`), and each key's list holds its values in
 * input order.
 */
module Grouping {
  import opened Domain

  /** The values whose key is `k`, in input order. */
  function GroupOf<K(==), V>(ks: seq<K>, vs: seq<V>, k: K): (g: seq<V>)
    requires |ks| == |vs|
    ensures |g| <= |vs|
  {
    if ks == [] then []
    else
      var n := |ks| - 1;
      GroupOf(ks[..n], vs[..n], k) + (if ks[n] == k then [vs[n]] else [])
  }

  /** The filled map: every key with its list. */
  function Groups<K(==), V>(ks: seq<K>, vs: seq<V>): map<K, seq<V>>
    requires |ks| == |vs|
  {
    map k | k in ks :: GroupOf(ks, vs, k)
  }

  lemma GroupOfSnoc<K, V>(ks: seq<K>, vs: seq<V>, k: K, v: V, x: K)
    requires |ks| == |vs|
    ensures GroupOf(ks + [k], vs + [v], x) == GroupOf(ks, vs, x) + (if k == x then [v] else [])
  {
    assert (ks + [k])[..|ks|] == ks && (vs + [v])[..|vs|] == vs;
  }

  /** A key that never occurs has no values. */
  lemma {:induction false} GroupOfAbsent<K, V>(ks: seq<K>, vs: seq<V>, x: K)
    requires |ks| == |vs| && x !in ks
    ensures GroupOf(ks, vs, x) == []
  {
    if ks != [] {
      var n := |ks| - 1;
      assert x !in ks[..n];
      GroupOfAbsent(ks[..n], vs[..n], x);
    }
  }

  /** A key that occurs has at least one value. */
  lemma {:induction false} GroupOfPresent<K, V>(ks: seq<K>, vs: seq<V>, x: K)
    requires |ks| == |vs| && x in ks
    ensures |GroupOf(ks, vs, x)| > 0
  {
    var n := |ks| - 1;
    if ks[n] != x {
      assert x in ks[..n] by {
        assert ks == ks[..n] + [ks[n]];
      }
      GroupOfPresent(ks[..n], vs[..n], x);
    }
  }

  /** Every value in a group came in under that group's key. */
  lemma {:induction false} GroupOfMembers<K, V>(ks: seq<K>, vs: seq<V>, x: K, j: nat)
    requires |ks| == |vs| && j < |GroupOf(ks, vs, x)|
    ensures exists i :: 0 <= i < |ks| && ks[i] == x && vs[i] == GroupOf(ks, vs, x)[j]
  {
    var n := |ks| - 1;
    var init := GroupOf(ks[..n], vs[..n], x);
    if j < |init| {
      GroupOfMembers(ks[..n], vs[..n], x, j);
      var i :| 0 <= i < n && ks[..n][i] == x && vs[..n][i] == init[j];
      assert ks[i] == x && vs[i] == GroupOf(ks, vs, x)[j];
    } else {
      assert ks[n] == x && vs[n] == GroupOf(ks, vs, x)[j];
    }
  }

  /** With keys that never repeat, the group of the i-th key is the i-th value alone. */
  lemma {:induction false} GroupOfSingle<K, V>(ks: seq<K>, vs: seq<V>, i: nat)
    requires |ks| == |vs| && i < |ks| && NoDuplicates(ks)
    ensures GroupOf(ks, vs, ks[i]) == [vs[i]]
  {
    var n := |ks| - 1;
    var init := ks[..n];
    assert NoDuplicates(init);
    if i == n {
      assert ks[n] !in init;
      GroupOfAbsent(init, vs[..n], ks[n]);
    } else {
      assert ks[i] != ks[n];
      GroupOfSingle(init, vs[..n], i);
    }
  }

  /**
   * One step of the fill: the key joins the key order if it is new, and the value is
   * appended to that key's list.
   */
  lemma GroupsSnoc<K, V>(ks: seq<K>, vs: seq<V>, k: K, v: V)
    requires |ks| == |vs|
    ensures var g := Groups(ks, vs);
      Groups(ks + [k], vs + [v]) == g[k := (if k in g then g[k] else []) + [v]]
    ensures Distinct(ks + [k]) == if k in Groups(ks, vs) then Distinct(ks) else Distinct(ks) + [k]
  {
    var g := Groups(ks, vs);
    var g' := g[k := (if k in g then g[k] else []) + [v]];
    if k !in g {
      GroupOfAbsent(ks, vs, k);
    }
    forall x | x in g' ensures g'[x] == GroupOf(ks + [k], vs + [v], x) {
      GroupOfSnoc(ks, vs, k, v, x);
    }
    assert g'.Keys == Groups(ks + [k], vs + [v]).Keys;
    DistinctMembers(ks, k);
    assert (ks + [k])[..|ks|] == ks;
  }

  /** Every key in the key order has a non-empty list in the map. */
  lemma GroupsCoverOrder<K, V>(ks: seq<K>, vs: seq<V>)
    requires |ks| == |vs|
    ensures forall x :: x in Distinct(ks) ==> x in Groups(ks, vs) && |Groups(ks, vs)[x]| > 0
  {
    forall x | x in Distinct(ks) ensures x in Groups(ks, vs) && |Groups(ks, vs)[x]| > 0 {
      DistinctMembers(ks, x);
      GroupOfPresent(ks, vs, x);
    }
  }
}
