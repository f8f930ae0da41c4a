/**
 * Dashboard statistics: `THRESHOLDS` and `computeDashboardStats` in
 * src/lib/domain/analytics.ts. A pure function of the 14-day list `readings`
 * and the 7-day list `readings7d`.
 */
module Dashboard {
  import opened Wrappers
  import opened Domain
  import Fixtures

  /** THRESHOLDS.FASTING = 5.3 and THRESHOLDS.POST_MEAL = 6.7, in tenths. */
  const FastingLimit: int := 53
  const PostMealLimit: int := 67

  function Limit(k: Kind): int {
    match k
    case Fasting => FastingLimit
    case PostMeal => PostMealLimit
  }

  /** The compliance filter: fasting is checked before post-meal; an untyped reading complies. */
  predicate IsCompliant(r: Reading) {
    if r.isFasting then r.value <= FastingLimit
    else if r.isPostMeal then r.value <= PostMealLimit
    else true
  }

  /** `isOverTarget`: same order of checks, strict comparison; an untyped reading is never over. */
  predicate IsOverTarget(r: Reading) {
    if r.isFasting then r.value > FastingLimit
    else if r.isPostMeal then r.value > PostMealLimit
    else false
  }

  predicate IsUntyped(r: Reading) {
    !r.isFasting && !r.isPostMeal
  }

  predicate IsDoublyFlagged(r: Reading) {
    r.isFasting && r.isPostMeal
  }

  /** The readings of `rs` at or under the limit of category `k` (used by `computeWithin`). */
  function AtOrUnder(rs: seq<Reading>, k: Kind): seq<Reading> {
    Filter(rs, (r: Reading) => r.value <= Limit(k))
  }

  datatype WithinTotal = WithinTotal(within: nat, total: nat)
  datatype HighLowPair = HighLowPair(high: int, low: int)

  datatype DashboardStats = DashboardStats(
    lastLoggedAt: Option<int>,
    weekCompleteness: real,
    averageFasting: Option<real>,
    averagePostMeal: Option<real>,
    compliancePercentage: real,
    overTargetCount7d: nat,
    overTargetCount14d: nat,
    coverageFasting: nat,
    coveragePostMeal: nat,
    qualityMissingTypeCount: nat,
    fastingWithin7d: Option<WithinTotal>,
    postMealWithin7d: Option<WithinTotal>,
    fastingWithin14d: Option<WithinTotal>,
    postMealWithin14d: Option<WithinTotal>,
    fastingHighLow7d: Option<HighLowPair>,
    postMealHighLow7d: Option<HighLowPair>)

  /** `Math.max(...values)` over a non-empty list. */
  function Max(vs: seq<int>): (m: int)
    requires |vs| > 0
    ensures m in vs
    ensures forall i :: 0 <= i < |vs| ==> vs[i] <= m
  {
    if |vs| == 1 then vs[0]
    else
      var m' := Max(vs[..|vs| - 1]);
      if vs[|vs| - 1] > m' then vs[|vs| - 1] else m'
  }

  /** `Math.min(...values)` over a non-empty list. */
  function Min(vs: seq<int>): (m: int)
    requires |vs| > 0
    ensures m in vs
    ensures forall i :: 0 <= i < |vs| ==> m <= vs[i]
  {
    if |vs| == 1 then vs[0]
    else
      var m' := Min(vs[..|vs| - 1]);
      if vs[|vs| - 1] < m' then vs[|vs| - 1] else m'
  }

  function Stamps(rs: seq<Reading>): (ts: seq<int>)
    ensures |ts| == |rs|
    ensures forall i :: 0 <= i < |rs| ==> ts[i] == rs[i].measuredAt
  {
    if rs == [] then [] else Stamps(rs[..|rs| - 1]) + [rs[|rs| - 1].measuredAt]
  }

  /** The latest `measuredAt`, or null for an empty list. */
  function LastLoggedAt(rs: seq<Reading>): (t: Option<int>)
    ensures t.None? <==> rs == []
    ensures t.Some? ==> (exists i :: 0 <= i < |rs| && rs[i].measuredAt == t.value)
    ensures t.Some? ==> forall i :: 0 <= i < |rs| ==> rs[i].measuredAt <= t.value
  {
    if rs == [] then None
    else Some(Max(Stamps(rs)))
  }

  /** Distinct days with a reading in the 7-day list, out of 7. */
  function WeekCompleteness(rs7: seq<Reading>): (w: real)
    ensures w * 7.0 == |DayKeys(rs7)| as real
    ensures 0.0 <= w * 7.0 <= |rs7| as real
  {
    DayKeysAtMostCount(rs7);
    |DayKeys(rs7)| as real / 7.0
  }

  /** Mean value of the readings of kind `k`; null when there are none. */
  function Average(rs: seq<Reading>, k: Kind): (a: Option<real>)
    ensures a.None? <==> forall i :: 0 <= i < |rs| ==> !HasKind(rs[i], k)
    ensures a.Some? ==> a.value * (|OfKind(rs, k)| as real) == Sum(Values(OfKind(rs, k))) as real
  {
    var sel := OfKind(rs, k);
    if |sel| > 0 then
      MeanTimesCount(Values(sel), 0.0);
      Some(Mean(Values(sel)))
    else
      assert forall i :: 0 <= i < |rs| ==> !HasKind(rs[i], k) by {
        forall i | 0 <= i < |rs| && HasKind(rs[i], k) ensures false {
          FilterKeeps(rs, KindTest(k), rs[i]);
        }
      }
      None
  }

  function CompliantCount(rs: seq<Reading>): nat {
    |Filter(rs, IsCompliant)|
  }

  function OverTargetCount(rs: seq<Reading>): nat {
    |Filter(rs, IsOverTarget)|
  }

  /** Percentage of compliant readings; 100 for an empty list. */
  function CompliancePercentage(rs: seq<Reading>): (p: real)
    ensures rs == [] ==> p == 100.0
    ensures 0.0 <= p <= 100.0
    ensures rs != [] ==> p * (|rs| as real) == 100.0 * (CompliantCount(rs) as real)
  {
    if |rs| > 0 then (CompliantCount(rs) as real / |rs| as real) * 100.0 else 100.0
  }

  /** Days of the 7-day list with at least one reading of kind `k`. */
  function Coverage(rs7: seq<Reading>, k: Kind): (c: nat)
    ensures c <= |DayKeys(rs7)|
    ensures c == |DayKeys(OfKind(rs7, k))|
  {
    FilterDayKeysSubset(rs7, KindTest(k));
    |DayKeys(OfKind(rs7, k))|
  }

  function MissingTypeCount(rs: seq<Reading>): nat {
    |Filter(rs, IsUntyped)|
  }

  /** `computeWithin`: how many readings of kind `k` are at or under its limit, out of how many. */
  function WithinTarget(rs: seq<Reading>, k: Kind): (w: Option<WithinTotal>)
    ensures w.None? <==> OfKind(rs, k) == []
    ensures w.Some? ==> w.value.total == |OfKind(rs, k)| > 0 && w.value.within <= w.value.total
    ensures w.Some? ==> w.value.within == |AtOrUnder(OfKind(rs, k), k)|
  {
    var sel := OfKind(rs, k);
    if |sel| == 0 then None
    else Some(WithinTotal(|AtOrUnder(sel, k)|, |sel|))
  }

  /** `computeHighLow`: the largest and smallest value among readings of kind `k`. */
  function HighLow(rs: seq<Reading>, k: Kind): (h: Option<HighLowPair>)
    ensures h.None? <==> OfKind(rs, k) == []
    ensures h.Some? ==> h.value.low <= h.value.high
    ensures h.Some? ==> h.value.high in Values(OfKind(rs, k)) && h.value.low in Values(OfKind(rs, k))
    ensures h.Some? ==> forall r :: r in OfKind(rs, k) ==> h.value.low <= r.value <= h.value.high
  {
    var sel := OfKind(rs, k);
    if |sel| == 0 then None
    else
      var vs := Values(sel);
      var h := HighLowPair(Max(vs), Min(vs));
      assert forall r :: r in sel ==> h.low <= r.value <= h.high by {
        forall r | r in sel ensures h.low <= r.value <= h.high {
          var i :| 0 <= i < |sel| && sel[i] == r;
          assert vs[i] == r.value;
        }
      }
      Some(h)
  }

  function ComputeDashboardStats(readings: seq<Reading>, readings7d: seq<Reading>): (s: DashboardStats)
    ensures s.averageFasting.None? <==> s.fastingWithin14d.None?
    ensures s.averagePostMeal.None? <==> s.postMealWithin14d.None?
    ensures s.fastingHighLow7d.None? <==> s.fastingWithin7d.None?
    ensures s.postMealHighLow7d.None? <==> s.postMealWithin7d.None?
    ensures s.overTargetCount14d + CompliantCount(readings) == |readings|
    ensures s.qualityMissingTypeCount <= CompliantCount(readings)
    ensures s.coverageFasting as real <= s.weekCompleteness * 7.0
    ensures s.coveragePostMeal as real <= s.weekCompleteness * 7.0
  {
    CompliantOverComplement(readings);
    UntypedAreCompliant(readings);
    AverageAgreesWithWithin(readings, Fasting);
    AverageAgreesWithWithin(readings, PostMeal);
    DashboardStats(
      LastLoggedAt(readings),
      WeekCompleteness(readings7d),
      Average(readings, Fasting),
      Average(readings, PostMeal),
      CompliancePercentage(readings),
      OverTargetCount(readings7d),
      OverTargetCount(readings),
      Coverage(readings7d, Fasting),
      Coverage(readings7d, PostMeal),
      MissingTypeCount(readings),
      WithinTarget(readings7d, Fasting),
      WithinTarget(readings7d, PostMeal),
      WithinTarget(readings, Fasting),
      WithinTarget(readings, PostMeal),
      HighLow(readings7d, Fasting),
      HighLow(readings7d, PostMeal))
  }

  // ---------------------------------------------------------------------------
  // Properties

  /** "Compliant" and "over target" are complements, so the two counts add up to the length. */
  lemma {:induction false} CompliantOverComplement(rs: seq<Reading>)
    ensures CompliantCount(rs) + OverTargetCount(rs) == |rs|
  {
    if rs != [] {
      CompliantOverComplement(rs[..|rs| - 1]);
    }
  }

  /** Every untyped reading counts as compliant. */
  lemma {:induction false} UntypedAreCompliant(rs: seq<Reading>)
    ensures forall i :: 0 <= i < |rs| && IsUntyped(rs[i]) ==> IsCompliant(rs[i])
    ensures MissingTypeCount(rs) <= CompliantCount(rs)
  {
    if rs != [] {
      UntypedAreCompliant(rs[..|rs| - 1]);
    }
  }

  /** The average of a kind is null exactly when its within-target entry is null. */
  lemma AverageAgreesWithWithin(rs: seq<Reading>, k: Kind)
    ensures Average(rs, k).None? <==> WithinTarget(rs, k).None?
  {
    if OfKind(rs, k) != [] {
      var r := OfKind(rs, k)[0];
      assert HasKind(r, k) && r in rs;
    }
  }

  /**
   * Untyped, fasting and post-meal counts: a reading with both flags is counted in
   * both categories, so the three add up to the length plus the doubly flagged ones.
   */
  lemma {:induction false} TypeCountIdentity(rs: seq<Reading>)
    ensures MissingTypeCount(rs) + |OfKind(rs, Fasting)| + |OfKind(rs, PostMeal)|
         == |rs| + |Filter(rs, IsDoublyFlagged)|
  {
    if rs != [] {
      TypeCountIdentity(rs[..|rs| - 1]);
    }
  }

  /** Within the fasting category, "within target" and "over target" split the total. */
  lemma {:induction false} FastingWithinComplementsOver(rs: seq<Reading>)
    ensures WithinTarget(rs, Fasting).Some? ==>
      WithinTarget(rs, Fasting).value.within + |Filter(OfKind(rs, Fasting), IsOverTarget)|
        == WithinTarget(rs, Fasting).value.total
  {
    FastingSplit(OfKind(rs, Fasting));
  }

  lemma {:induction false} FastingSplit(fs: seq<Reading>)
    requires forall i :: 0 <= i < |fs| ==> fs[i].isFasting
    ensures |AtOrUnder(fs, Fasting)| + |Filter(fs, IsOverTarget)| == |fs|
  {
    if fs != [] {
      FastingSplit(fs[..|fs| - 1]);
    }
  }

  /**
   * The within-target figures use only the category's own limit, while over-target
   * checks the fasting limit first: a post-meal reading that is also flagged fasting
   * can be both within the post-meal target and over target.
   */
  lemma DoublyFlaggedWithinAndOver()
    ensures var r := Reading("x", 0, "2024-01-10", 60, true, true, None);
      IsOverTarget(r) && WithinTarget([r], PostMeal) == Some(WithinTotal(1, 1))
  {
    var r := Reading("x", 0, "2024-01-10", 60, true, true, None);
    assert OfKind([r], PostMeal) == [r];
    assert AtOrUnder([r], PostMeal) == [r];
  }

  /* The analytics tests' `mockReadings`: two days, fasting 5.5 and 5.0, post-meal 7.0 and 6.5. */

  lemma FixtureFasting()
    ensures OfKind(Fixtures.Mock(), Fasting) == [Fixtures.Mock()[0], Fixtures.Mock()[2]]
  {
    var rs := Fixtures.Mock();
    FilterFour(rs[0], rs[1], rs[2], rs[3], KindTest(Fasting));
  }

  lemma FixturePostMeal()
    ensures OfKind(Fixtures.Mock(), PostMeal) == [Fixtures.Mock()[1], Fixtures.Mock()[3]]
  {
    var rs := Fixtures.Mock();
    FilterFour(rs[0], rs[1], rs[2], rs[3], KindTest(PostMeal));
  }

  lemma FixtureOver()
    ensures Filter(Fixtures.Mock(), IsOverTarget) == [Fixtures.Mock()[0], Fixtures.Mock()[1]]
  {
    var rs := Fixtures.Mock();
    FilterFour(rs[0], rs[1], rs[2], rs[3], IsOverTarget);
  }

  /** averageFasting 5.25 and averagePostMeal 6.75. */
  lemma FixtureAverages()
    ensures Average(Fixtures.Mock(), Fasting) == Some(52.5)
    ensures Average(Fixtures.Mock(), PostMeal) == Some(67.5)
  {
    var rs := Fixtures.Mock();
    FixtureFasting();
    FixturePostMeal();
    var fs, ps := OfKind(rs, Fasting), OfKind(rs, PostMeal);
    assert Values(fs) == [55, 50] && Values(ps) == [70, 65];
    assert Sum([55, 50]) == 105 && Sum([70, 65]) == 135;
    MeanTimesCount([55, 50], 52.5);
    MeanTimesCount([70, 65], 67.5);
  }

  /** Two readings over target (5.5 and 7.0); fasting and post-meal readings on both days. */
  lemma FixtureCounts()
    ensures OverTargetCount(Fixtures.Mock()) == 2
    ensures Coverage(Fixtures.Mock(), Fasting) == 2 && Coverage(Fixtures.Mock(), PostMeal) == 2
  {
    var rs := Fixtures.Mock();
    FixtureOver();
    var days := {"2024-01-10", "2024-01-11"};
    assert |days| == 2;
    assert DayKeys(OfKind(rs, Fasting)) == days by {
      FixtureFasting();
      DayKeysPair(rs[0], rs[2]);
    }
    assert DayKeys(OfKind(rs, PostMeal)) == days by {
      FixturePostMeal();
      DayKeysPair(rs[1], rs[3]);
    }
  }

  lemma DayKeysPair(a: Reading, b: Reading)
    ensures DayKeys([a, b]) == {a.dayKey, b.dayKey}
  {
  }

  /** Fasting 1 of 2 within target in both windows, post-meal 1 of 2; highs and lows. */
  lemma FixtureWithinAndHighLow()
    ensures WithinTarget(Fixtures.Mock(), Fasting) == Some(WithinTotal(1, 2))
    ensures WithinTarget(Fixtures.Mock(), PostMeal) == Some(WithinTotal(1, 2))
    ensures HighLow(Fixtures.Mock(), Fasting) == Some(HighLowPair(55, 50))
    ensures HighLow(Fixtures.Mock(), PostMeal) == Some(HighLowPair(70, 65))
  {
    var rs := Fixtures.Mock();
    FixtureFasting();
    FixturePostMeal();
    var fs, ps := OfKind(rs, Fasting), OfKind(rs, PostMeal);
    assert Values(fs) == [55, 50] && Values(ps) == [70, 65];
    assert AtOrUnder(fs, Fasting) == [rs[2]];
    assert AtOrUnder(ps, PostMeal) == [rs[3]];
  }

  /** The "computes data quality gaps" example: one reading without a flag. */
  lemma FixtureMissingType(now: int)
    ensures MissingTypeCount(Fixtures.BadReadings(now)) == 1
  {
    var rs, u := Fixtures.Mock(), Fixtures.Untyped(now);
    FilterAppend(rs, [u], IsUntyped);
    FilterSingle(u, IsUntyped);
    assert forall i :: 0 <= i < |rs| ==> !IsUntyped(rs[i]);
    FilterNone(rs, IsUntyped);
  }

  lemma EmptyStats()
    ensures Average([], Fasting).None? && Average([], PostMeal).None?
    ensures OverTargetCount([]) == 0 && Coverage([], Fasting) == 0
    ensures CompliancePercentage([]) == 100.0 && LastLoggedAt([]).None?
  {
    assert DayKeys([]) == {};
  }
}
