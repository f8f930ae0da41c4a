/**
 * The glucose reading record (src/lib/db/schema.ts, src/lib/domain/types.ts) and the
 * sequence helpers the aggregations are written with.
 *
 * A value is stored in integer tenths of mmol/L: the column is numeric(4,1), so
 * "5.3" is 53. Means are exact `real`s in the same unit.
 */
module Domain {
  import opened Wrappers

  datatype Reading = Reading(
    id: string,
    measuredAt: int,       // instant (milliseconds since the epoch in the source); only the order of instants is used
    dayKey: string,        // Europe/Oslo civil date "YYYY-MM-DD", given
    value: int,            // tenths of mmol/L
    isFasting: bool,
    isPostMeal: bool,
    mealType: Option<string>)

  /** The two reading categories every statistic is split by. */
  datatype Kind = Fasting | PostMeal

  predicate HasKind(r: Reading, k: Kind) {
    match k
    case Fasting => r.isFasting
    case PostMeal => r.isPostMeal
  }

  /** The readings that satisfy `p`, in their original order (Array.prototype.filter). */
  function Filter(rs: seq<Reading>, p: Reading -> bool): (sel: seq<Reading>)
    ensures |sel| <= |rs|
    ensures forall i :: 0 <= i < |sel| ==> p(sel[i]) && sel[i] in rs
  {
    if rs == [] then []
    else Filter(rs[..|rs| - 1], p) + (if p(rs[|rs| - 1]) then [rs[|rs| - 1]] else [])
  }

  /** The test `r => r.isFasting` or `r => r.isPostMeal`, as a value. */
  function KindTest(k: Kind): Reading -> bool {
    r => HasKind(r, k)
  }

  function OfKind(rs: seq<Reading>, k: Kind): seq<Reading> {
    Filter(rs, KindTest(k))
  }

  function Values(rs: seq<Reading>): (vs: seq<int>)
    ensures |vs| == |rs|
    ensures forall i :: 0 <= i < |rs| ==> vs[i] == rs[i].value
  {
    seq(|rs|, i requires 0 <= i < |rs| => rs[i].value)
  }

  /** The day keys of `rs`, in order (`rs.map(r => r.dayKey)`). */
  function DayKeySeq(rs: seq<Reading>): (ks: seq<string>)
    ensures |ks| == |rs|
    ensures forall i :: 0 <= i < |rs| ==> ks[i] == rs[i].dayKey
  {
    if rs == [] then [] else DayKeySeq(rs[..|rs| - 1]) + [rs[|rs| - 1].dayKey]
  }

  lemma DayKeySeqSnoc(rs: seq<Reading>, r: Reading)
    ensures DayKeySeq(rs + [r]) == DayKeySeq(rs) + [r.dayKey]
  {
    assert (rs + [r])[..|rs|] == rs;
  }

  lemma ValuesSnoc(rs: seq<Reading>, r: Reading)
    ensures Values(rs + [r]) == Values(rs) + [r.value]
  {
    assert (rs + [r])[..|rs|] == rs;
  }

  function Sum(vs: seq<int>): int {
    if vs == [] then 0 else Sum(vs[..|vs| - 1]) + vs[|vs| - 1]
  }

  /** The arithmetic mean, `reduce((s, v) => s + v, 0) / length`. */
  function Mean(vs: seq<int>): real
    requires |vs| > 0
  {
    Sum(vs) as real / (|vs| as real)
  }

  /** The mean times the count is the sum, and no other number has that property. */
  lemma MeanTimesCount(vs: seq<int>, m: real)
    requires |vs| > 0
    ensures Mean(vs) * (|vs| as real) == Sum(vs) as real
    ensures m * (|vs| as real) == Sum(vs) as real <==> m == Mean(vs)
  {
  }

  /** The set of day keys carried by `rs` (`new Set(rs.map(r => r.dayKey))`). */
  function DayKeys(rs: seq<Reading>): set<string> {
    set r | r in rs :: r.dayKey
  }

  lemma DayKeySeqKeys(rs: seq<Reading>, d: string)
    ensures d in DayKeySeq(rs) <==> d in DayKeys(rs)
  {
    if d in DayKeys(rs) {
      var i :| 0 <= i < |rs| && rs[i].dayKey == d;
      assert DayKeySeq(rs)[i] == d;
    }
  }

  predicate NoDuplicates<T(==)>(s: seq<T>) {
    forall i, j :: 0 <= i < j < |s| ==> s[i] != s[j]
  }

  /**
   * The distinct elements of `xs` in order of first appearance: the key order of a
   * JavaScript `Map` filled by `set(x, ...)` for each `x` of `xs`.
   */
  function Distinct<T(==)>(xs: seq<T>): seq<T> {
    if xs == [] then []
    else
      var d' := Distinct(xs[..|xs| - 1]);
      var x := xs[|xs| - 1];
      if x in d' then d' else d' + [x]
  }

  /** `Distinct` keeps exactly the elements of its input. */
  lemma {:induction false} DistinctMembers<T>(xs: seq<T>, x: T)
    ensures x in Distinct(xs) <==> x in xs
  {
    if xs != [] {
      var init := xs[..|xs| - 1];
      DistinctMembers(init, x);
      assert xs == init + [xs[|xs| - 1]];
    }
  }

  /** `Distinct` repeats no element. */
  lemma {:induction false} DistinctNoDuplicates<T>(xs: seq<T>)
    ensures NoDuplicates(Distinct(xs))
  {
    if xs != [] {
      var init := xs[..|xs| - 1];
      DistinctNoDuplicates(init);
    }
  }

  /** A list without duplicates is its own `Distinct`. */
  lemma {:induction false} DistinctOfDistinct<T>(xs: seq<T>)
    requires NoDuplicates(xs)
    ensures Distinct(xs) == xs
  {
    if xs != [] {
      var init := xs[..|xs| - 1];
      DistinctOfDistinct(init);
      DistinctMembers(init, xs[|xs| - 1]);
      assert xs == init + [xs[|xs| - 1]];
    }
  }

  /** A list without duplicates has as many elements as its set. */
  lemma {:induction false} NoDuplicatesCard<T>(s: seq<T>)
    requires NoDuplicates(s)
    ensures |set x | x in s| == |s|
  {
    if s != [] {
      var init := s[..|s| - 1];
      NoDuplicatesCard(init);
      assert s == init + [s[|s| - 1]];
      assert (set x | x in s) == (set x | x in init) + {s[|s| - 1]};
    }
  }

  lemma FilterSingle(a: Reading, p: Reading -> bool)
    ensures Filter([a], p) == if p(a) then [a] else []
  {
    assert [a][..0] == [];
  }

  lemma FilterSnoc(rs: seq<Reading>, r: Reading, p: Reading -> bool)
    ensures Filter(rs + [r], p) == Filter(rs, p) + (if p(r) then [r] else [])
  {
    assert (rs + [r])[..|rs|] == rs;
  }

  /** A filter over four readings, one at a time. */
  lemma FilterFour(a: Reading, b: Reading, c: Reading, d: Reading, p: Reading -> bool)
    ensures Filter([a, b, c, d], p) ==
      (if p(a) then [a] else []) + (if p(b) then [b] else []) + (if p(c) then [c] else []) + (if p(d) then [d] else [])
  {
    var s4 := [a, b, c, d];
    var ka, kb := (if p(a) then [a] else []), (if p(b) then [b] else []);
    var kc, kd := (if p(c) then [c] else []), (if p(d) then [d] else []);
    assert s4[..3] == [a, b, c] && s4[..3][..2] == [a, b] && s4[..3][..2][..1] == [a];
    FilterSingle(a, p);
    assert Filter([a, b], p) == ka + kb;
    assert Filter([a, b, c], p) == ka + kb + kc;
    assert Filter(s4, p) == ka + kb + kc + kd;
  }

  lemma {:induction false} FilterAppend(a: seq<Reading>, b: seq<Reading>, p: Reading -> bool)
    ensures Filter(a + b, p) == Filter(a, p) + Filter(b, p)
    decreases |b|
  {
    if b == [] {
      assert a + b == a;
    } else {
      var b' := b[..|b| - 1];
      assert (a + b)[..|a + b| - 1] == a + b';
      FilterAppend(a, b', p);
    }
  }

  /** Every element of `rs` is kept by `p` or by its negation, never both. */
  lemma {:induction false} FilterComplement(rs: seq<Reading>, p: Reading -> bool)
    ensures |Filter(rs, p)| + |Filter(rs, r => !p(r))| == |rs|
  {
    if rs != [] {
      FilterComplement(rs[..|rs| - 1], p);
    }
  }

  /** A filter keeps every element that satisfies its predicate. */
  lemma {:induction false} FilterKeeps(rs: seq<Reading>, p: Reading -> bool, r: Reading)
    requires r in rs && p(r)
    ensures r in Filter(rs, p)
  {
    var n := |rs| - 1;
    if rs[n] != r {
      assert r in rs[..n];
      FilterKeeps(rs[..n], p, r);
    }
  }

  /** A filter keeps everything exactly when every element satisfies its predicate. */
  lemma {:induction false} FilterAll(rs: seq<Reading>, p: Reading -> bool)
    ensures |Filter(rs, p)| == |rs| <==> forall i :: 0 <= i < |rs| ==> p(rs[i])
  {
    if rs != [] {
      var n := |rs| - 1;
      FilterAll(rs[..n], p);
      assert forall i :: 0 <= i < n ==> rs[..n][i] == rs[i];
    }
  }

  /** A filter keeps nothing exactly when no element satisfies its predicate. */
  lemma {:induction false} FilterNone(rs: seq<Reading>, p: Reading -> bool)
    ensures |Filter(rs, p)| == 0 <==> forall i :: 0 <= i < |rs| ==> !p(rs[i])
  {
    if rs != [] {
      var n := |rs| - 1;
      FilterNone(rs[..n], p);
      assert forall i :: 0 <= i < n ==> rs[..n][i] == rs[i];
    }
  }

  lemma {:induction false} SumAppend(a: seq<int>, b: seq<int>)
    ensures Sum(a + b) == Sum(a) + Sum(b)
    decreases |b|
  {
    if b == [] {
      assert a + b == a;
    } else {
      var b' := b[..|b| - 1];
      assert (a + b)[..|a + b| - 1] == a + b';
      SumAppend(a, b');
    }
  }

  /** The sum of values each lying in [lo, hi] lies in [n * lo, n * hi]. */
  lemma {:induction false} SumBounds(vs: seq<int>, lo: int, hi: int)
    requires forall i :: 0 <= i < |vs| ==> lo <= vs[i] <= hi
    ensures |vs| * lo <= Sum(vs) <= |vs| * hi
  {
    if vs != [] {
      SumBounds(vs[..|vs| - 1], lo, hi);
    }
  }

  /** A mean lies between any lower and upper bound of the values it averages. */
  lemma MeanBetween(vs: seq<int>, lo: int, hi: int)
    requires |vs| > 0
    requires forall i :: 0 <= i < |vs| ==> lo <= vs[i] <= hi
    ensures lo as real <= Mean(vs) <= hi as real
  {
    SumBounds(vs, lo, hi);
    QuotientBetween(Sum(vs) as real, |vs| as real, lo as real, hi as real);
  }

  lemma QuotientBetween(s: real, n: real, lo: real, hi: real)
    requires n > 0.0 && n * lo <= s <= n * hi
    ensures lo <= s / n <= hi
  {
    assert s / n - lo == (s - n * lo) / n;
    assert hi - s / n == (n * hi - s) / n;
  }

  /** No more distinct day keys than readings. */
  lemma {:induction false} DayKeysAtMostCount(rs: seq<Reading>)
    ensures |DayKeys(rs)| <= |rs|
  {
    if rs != [] {
      var init := rs[..|rs| - 1];
      DayKeysAtMostCount(init);
      assert rs == init + [rs[|rs| - 1]];
      assert DayKeys(rs) == DayKeys(init) + {rs[|rs| - 1].dayKey};
    }
  }

  /** A sub-selection of readings covers no more days than the whole. */
  lemma FilterDayKeysSubset(rs: seq<Reading>, p: Reading -> bool)
    ensures DayKeys(Filter(rs, p)) <= DayKeys(rs)
    ensures |DayKeys(Filter(rs, p))| <= |DayKeys(rs)|
  {
    assert DayKeys(Filter(rs, p)) <= DayKeys(rs);
    SubsetCardinality(DayKeys(Filter(rs, p)), DayKeys(rs));
  }

  lemma SubsetCardinality<T>(a: set<T>, b: set<T>)
    requires a <= b
    ensures |a| <= |b|
  {
    assert b == a + (b - a);
  }
}
