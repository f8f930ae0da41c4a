/**
 * JavaScript's ordering of strings (`a < b`, and the default `Array.prototype.sort`):
 * compare element by element; at the first difference the smaller element wins; a
 * proper prefix comes first.
 */
module Lex {

  predicate Less(a: string, b: string) {
    if a == [] then b != []
    else if b == [] then false
    else if a[0] != b[0] then a[0] < b[0]
    else Less(a[1..], b[1..])
  }

  lemma {:induction false} Irreflexive(a: string)
    ensures !Less(a, a)
  {
    if a != [] {
      Irreflexive(a[1..]);
    }
  }

  lemma {:induction false} Asymmetric(a: string, b: string)
    requires Less(a, b)
    ensures !Less(b, a)
  {
    if a != [] && b != [] && a[0] == b[0] {
      Asymmetric(a[1..], b[1..]);
    }
  }

  lemma {:induction false} Transitive(a: string, b: string, c: string)
    requires Less(a, b) && Less(b, c)
    ensures Less(a, c)
  {
    if a != [] && a[0] == b[0] && b[0] == c[0] {
      Transitive(a[1..], b[1..], c[1..]);
    }
  }

  lemma {:induction false} Total(a: string, b: string)
    ensures a == b || Less(a, b) || Less(b, a)
  {
    if a != [] && b != [] && a[0] == b[0] {
      Total(a[1..], b[1..]);
      if a[1..] == b[1..] {
        assert a == [a[0]] + a[1..] && b == [b[0]] + b[1..];
      }
    }
  }

  /** Comparing two concatenations whose first parts have equal length. */
  lemma {:induction false} LessConcat(p: string, q: string, p': string, q': string)
    requires |p| == |p'|
    ensures Less(p + q, p' + q') <==> Less(p, p') || (p == p' && Less(q, q'))
  {
    if p != [] {
      assert (p + q)[1..] == p[1..] + q && (p' + q')[1..] == p'[1..] + q';
      LessConcat(p[1..], q, p'[1..], q');
      if p[0] == p'[0] && p[1..] == p'[1..] {
        assert p == [p[0]] + p[1..] && p' == [p'[0]] + p'[1..];
      }
      if p == p' {
        assert p[1..] == p'[1..];
      }
    } else {
      assert p + q == q && p' + q' == q';
    }
  }

  /** Strictly ascending. */
  predicate StrictlyAscending(s: seq<string>) {
    forall i, j :: 0 <= i < j < |s| ==> Less(s[i], s[j])
  }

  /** `x` inserted into the ascending list `s` before the first element it is less than. */
  function Insert(s: seq<string>, x: string): (r: seq<string>)
    ensures multiset(r) == multiset(s) + multiset{x}
    ensures |r| == |s| + 1
  {
    if s == [] then [x]
    else if Less(x, s[0]) then [x] + s
    else
      assert s == [s[0]] + s[1..];
      [s[0]] + Insert(s[1..], x)
  }

  /** The default `sort()` of a list of strings. */
  function Sort(s: seq<string>): (r: seq<string>)
    ensures multiset(r) == multiset(s)
    ensures |r| == |s|
  {
    if s == [] then []
    else
      assert s == s[..|s| - 1] + [s[|s| - 1]];
      Insert(Sort(s[..|s| - 1]), s[|s| - 1])
  }

  /** A head below every element of an ascending list keeps it ascending. */
  lemma ConsAscending(h: string, r: seq<string>)
    requires StrictlyAscending(r) && forall j :: 0 <= j < |r| ==> Less(h, r[j])
    ensures StrictlyAscending([h] + r)
  {
    var r' := [h] + r;
    forall i, j | 0 <= i < j < |r'| ensures Less(r'[i], r'[j]) {
      if i > 0 {
        assert r'[i] == r[i - 1] && r'[j] == r[j - 1];
      } else {
        assert r'[j] == r[j - 1];
      }
    }
  }

  /** The elements of `Insert(t, x)` come from `t` or are `x`. */
  lemma InsertFrom(t: seq<string>, x: string, j: int)
    requires 0 <= j < |Insert(t, x)|
    ensures Insert(t, x)[j] == x || Insert(t, x)[j] in t
  {
    var r := Insert(t, x);
    assert r[j] in multiset(r);
  }

  lemma {:induction false} InsertAscending(s: seq<string>, x: string)
    requires StrictlyAscending(s) && x !in s
    ensures StrictlyAscending(Insert(s, x))
  {
    if s != [] && !Less(x, s[0]) {
      var t := s[1..];
      assert StrictlyAscending(t) by {
        forall i, j | 0 <= i < j < |t| ensures Less(t[i], t[j]) {
          assert t[i] == s[i + 1] && t[j] == s[j + 1];
        }
      }
      InsertAscending(t, x);
      var r := Insert(t, x);
      Total(x, s[0]);
      forall j | 0 <= j < |r| ensures Less(s[0], r[j]) {
        InsertFrom(t, x, j);
        if r[j] != x {
          var k :| 0 <= k < |t| && t[k] == r[j];
          assert s[k + 1] == r[j];
        }
      }
      ConsAscending(s[0], r);
    } else if s != [] {
      forall j | 0 <= j < |s| ensures Less(x, s[j]) {
        if j > 0 {
          Transitive(x, s[0], s[j]);
        }
      }
      ConsAscending(x, s);
    }
  }

  /** Sorting distinct strings yields them in strictly ascending order. */
  lemma {:induction false} SortAscending(s: seq<string>)
    requires forall i, j :: 0 <= i < j < |s| ==> s[i] != s[j]
    ensures StrictlyAscending(Sort(s))
  {
    if s != [] {
      var init := s[..|s| - 1];
      SortAscending(init);
      var x := s[|s| - 1];
      assert x !in init;
      assert multiset(Sort(init)) == multiset(init);
      assert x !in multiset(Sort(init));
      InsertAscending(Sort(init), x);
    }
  }

  /** An element greater than every element of `s` is inserted at the end. */
  lemma {:induction false} InsertGreatest(s: seq<string>, x: string)
    requires forall i :: 0 <= i < |s| ==> Less(s[i], x)
    ensures Insert(s, x) == s + [x]
  {
    if s != [] {
      Asymmetric(s[0], x);
      InsertGreatest(s[1..], x);
      assert s == [s[0]] + s[1..];
    }
  }

  /** Dropping the last element keeps a list ascending, and that element is above the rest. */
  lemma AscendingInit(s: seq<string>, init: seq<string>, x: string)
    requires s == init + [x] && StrictlyAscending(s)
    ensures StrictlyAscending(init)
    ensures forall i :: 0 <= i < |init| ==> Less(init[i], x)
  {
    assert forall i :: 0 <= i < |init| ==> init[i] == s[i];
    assert x == s[|init|];
  }

  /** Sorting a list that is already strictly ascending leaves it as it is. */
  lemma {:induction false} SortSorted(s: seq<string>)
    requires StrictlyAscending(s)
    ensures Sort(s) == s
  {
    if s != [] {
      var init, x := s[..|s| - 1], s[|s| - 1];
      assert s == init + [x];
      AscendingInit(s, init, x);
      SortSorted(init);
      InsertGreatest(init, x);
    }
  }

  /** Strictly ascending strings are pairwise different. */
  lemma AscendingDistinct(s: seq<string>)
    requires StrictlyAscending(s)
    ensures forall i, j :: 0 <= i < j < |s| ==> s[i] != s[j]
  {
    forall i, j | 0 <= i < j < |s| ensures s[i] != s[j] {
      Irreflexive(s[i]);
    }
  }
}
