/**
 * `Array.prototype.sort` with a comparator `(a, b) => key(a) - key(b)`, as
 * `computeMealBreakdown` in src/lib/domain/analytics.ts calls it. The sort is stable,
 * so an insertion sort that places each element after every earlier element of no
 * greater key produces the same list.
 */
module StableSort {
  import opened Domain

  /** `x` placed after every element of `s` whose key is not greater, scanning from the end. */
  function Insert<T>(s: seq<T>, x: T, key: T -> nat): (r: seq<T>)
    ensures multiset(r) == multiset(s) + multiset{x}
    ensures |r| == |s| + 1
  {
    if s == [] then [x]
    else
      var n := |s| - 1;
      assert s == s[..n] + [s[n]];
      if key(s[n]) <= key(x) then s + [x]
      else Insert(s[..n], x, key) + [s[n]]
  }

  function Sort<T>(s: seq<T>, key: T -> nat): (r: seq<T>)
    ensures multiset(r) == multiset(s)
    ensures |r| == |s|
  {
    if s == [] then []
    else
      var n := |s| - 1;
      assert s == s[..n] + [s[n]];
      Insert(Sort(s[..n], key), s[n], key)
  }

  /** Keys never decrease along the list. */
  predicate Sorted<T>(s: seq<T>, key: T -> nat) {
    forall i, j :: 0 <= i < j < |s| ==> key(s[i]) <= key(s[j])
  }

  /** The elements of key `k`, in their order in `s`. */
  function Class<T>(s: seq<T>, key: T -> nat, k: nat): (c: seq<T>)
    ensures forall i :: 0 <= i < |c| ==> key(c[i]) == k && c[i] in s
  {
    if s == [] then []
    else
      var n := |s| - 1;
      Class(s[..n], key, k) + (if key(s[n]) == k then [s[n]] else [])
  }

  lemma ClassSnoc<T>(s: seq<T>, x: T, key: T -> nat, k: nat)
    ensures Class(s + [x], key, k) == Class(s, key, k) + (if key(x) == k then [x] else [])
  {
    assert (s + [x])[..|s|] == s;
  }

  /** Every element of an insertion is `x` or an element of `s`. */
  lemma InsertMember<T>(s: seq<T>, x: T, key: T -> nat, y: T)
    requires y in Insert(s, x, key)
    ensures y == x || y in s
  {
    assert y in multiset(Insert(s, x, key));
  }

  /** Every element of `Sort(s)` is one of `s`, and conversely. */
  lemma SortMember<T>(s: seq<T>, key: T -> nat, y: T)
    ensures y in Sort(s, key) <==> y in s
  {
    assert y in Sort(s, key) <==> y in multiset(Sort(s, key));
  }

  lemma {:induction false} InsertSorted<T>(s: seq<T>, x: T, key: T -> nat)
    requires Sorted(s, key)
    ensures Sorted(Insert(s, x, key), key)
  {
    if s != [] {
      var n := |s| - 1;
      if key(s[n]) <= key(x) {
        var r := s + [x];
        forall i, j | 0 <= i < j < |r| ensures key(r[i]) <= key(r[j]) {
          if j == |s| && i < n {
            assert key(s[i]) <= key(s[n]);
          }
        }
      } else {
        var init := s[..n];
        assert Sorted(init, key) by {
          assert forall i :: 0 <= i < n ==> init[i] == s[i];
        }
        InsertSorted(init, x, key);
        var m := Insert(init, x, key);
        forall j | 0 <= j < |m| ensures key(m[j]) <= key(s[n]) {
          InsertMember(init, x, key, m[j]);
          if m[j] != x {
            var k :| 0 <= k < n && init[k] == m[j];
            assert s[k] == m[j];
          }
        }
        var r := m + [s[n]];
        forall i, j | 0 <= i < j < |r| ensures key(r[i]) <= key(r[j]) {
          if j < |m| {
            assert r[i] == m[i] && r[j] == m[j];
          }
        }
      }
    }
  }

  /** The result is ordered by key. */
  lemma {:induction false} SortSorted<T>(s: seq<T>, key: T -> nat)
    ensures Sorted(Sort(s, key), key)
  {
    if s != [] {
      var n := |s| - 1;
      SortSorted(s[..n], key);
      InsertSorted(Sort(s[..n], key), s[n], key);
    }
  }

  /** Inserting `x` appends it to its key class and leaves the other classes alone. */
  lemma {:induction false} InsertClass<T>(s: seq<T>, x: T, key: T -> nat, k: nat)
    ensures Class(Insert(s, x, key), key, k) == Class(s, key, k) + (if key(x) == k then [x] else [])
  {
    if s == [] {
      ClassSnoc([], x, key, k);
      assert [] + [x] == [x];
    } else {
      var n := |s| - 1;
      var init := s[..n];
      assert s == init + [s[n]];
      ClassSnoc(init, s[n], key, k);
      if key(s[n]) <= key(x) {
        ClassSnoc(s, x, key, k);
      } else {
        InsertClass(init, x, key, k);
        ClassSnoc(Insert(init, x, key), s[n], key, k);
      }
    }
  }

  /** The sort is stable: the elements of each key keep their order. */
  lemma {:induction false} SortClass<T>(s: seq<T>, key: T -> nat, k: nat)
    ensures Class(Sort(s, key), key, k) == Class(s, key, k)
  {
    if s != [] {
      var n := |s| - 1;
      var init, x := s[..n], s[n];
      var e := if key(x) == k then [x] else [];
      assert Sort(s, key) == Insert(Sort(init, key), x, key);
      assert Class(s, key, k) == Class(init, key, k) + e;
      SortClass(init, key, k);
      InsertClass(Sort(init, key), x, key, k);
    }
  }

  lemma {:induction false} InsertNoDuplicates<T>(s: seq<T>, x: T, key: T -> nat)
    requires NoDuplicates(s) && x !in s
    ensures NoDuplicates(Insert(s, x, key))
  {
    if s != [] {
      var n := |s| - 1;
      if key(s[n]) > key(x) {
        var init := s[..n];
        assert NoDuplicates(init);
        assert x !in init;
        InsertNoDuplicates(init, x, key);
        var m := Insert(init, x, key);
        assert s[n] !in m by {
          if s[n] in m {
            InsertMember(init, x, key, s[n]);
          }
        }
        var r := m + [s[n]];
        forall i, j | 0 <= i < j < |r| ensures r[i] != r[j] {
          if j < |m| {
            assert r[i] == m[i] && r[j] == m[j];
          } else {
            assert r[i] in m;
          }
        }
      }
    }
  }

  /** A list without repeats is sorted into one without repeats. */
  lemma {:induction false} SortNoDuplicates<T>(s: seq<T>, key: T -> nat)
    requires NoDuplicates(s)
    ensures NoDuplicates(Sort(s, key))
  {
    if s != [] {
      var n := |s| - 1;
      var init := s[..n];
      assert NoDuplicates(init);
      SortNoDuplicates(init, key);
      SortMember(init, key, s[n]);
      InsertNoDuplicates(Sort(init, key), s[n], key);
    }
  }
}
