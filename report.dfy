/**
 * The statistics of the PDF report: `calculateStats` in src/lib/report/report-data.ts.
 * Its compliance rule is its own (fasting within 4.0..7.0, post-meal below 9.0) and
 * does not use the dashboard thresholds; its per-meal table has a fixed list of five
 * labels compared case-sensitively.
 */
module ReportStats {
  import opened Wrappers
  import opened Domain
  import Dashboard

  /** The labels of the per-meal table, in table order. */
  const ReportMeals: seq<string> := ["Frokost", "Lunsj", "Middag", "Kvelds", "Mellommåltid"]

  /** Bounds of the report rule, in tenths of mmol/L. */
  const FastingLow: int := 40
  const FastingHigh: int := 70
  const PostMealBelow: int := 90

  /** One row of the per-meal table; the source's field `type` is `mealType` here. */
  datatype MealTypeStat = MealTypeStat(mealType: string, avg: Option<real>, count: nat)

  datatype Report = Report(
    total: nat,
    avgFasting: Option<real>,
    mealTypeStats: seq<MealTypeStat>,
    compliancePercent: real)

  /** The report rule: fasting is checked first, then post-meal; anything else complies. */
  predicate ReportCompliant(r: Reading) {
    if r.isFasting then FastingLow <= r.value <= FastingHigh
    else if r.isPostMeal then r.value < PostMealBelow
    else true
  }

  /** The test `r => r.mealType === m`: a missing meal type never matches. */
  function MealTest(m: string): Reading -> bool {
    (r: Reading) => r.mealType == Some(m)
  }

  /** The mean value of `rs`, or null when `rs` is empty. */
  function MeanOrNull(rs: seq<Reading>): (a: Option<real>)
    ensures a.None? <==> rs == []
    ensures a.Some? ==> a.value * (|rs| as real) == Sum(Values(rs)) as real
  {
    if |rs| > 0 then
      MeanTimesCount(Values(rs), 0.0);
      Some(Mean(Values(rs)))
    else None
  }

  /** The row for label `m` over the post-meal readings `post`. */
  function MealTypeStatOf(post: seq<Reading>, m: string): (s: MealTypeStat)
    ensures s.mealType == m
    ensures s.count == |Filter(post, MealTest(m))|
    ensures s.avg.None? <==> s.count == 0
    ensures s.avg.Some? ==> s.avg.value * (s.count as real) == Sum(Values(Filter(post, MealTest(m)))) as real
  {
    var typed := Filter(post, MealTest(m));
    MealTypeStat(m, MeanOrNull(typed), |typed|)
  }

  /** `labels.map(m => ...)`. */
  function MealTypeStats(post: seq<Reading>, ms: seq<string>): (stats: seq<MealTypeStat>)
    ensures |stats| == |ms|
    ensures forall i :: 0 <= i < |ms| ==> stats[i] == MealTypeStatOf(post, ms[i])
  {
    if ms == [] then []
    else MealTypeStats(post, ms[..|ms| - 1]) + [MealTypeStatOf(post, ms[|ms| - 1])]
  }

  /** `(compliant / total) * 100`. */
  function Percent(compliant: nat, total: nat): (p: real)
    requires compliant <= total && total > 0
    ensures 0.0 <= p <= 100.0
    ensures p * (total as real) == 100.0 * (compliant as real)
  {
    QuotientBetween(compliant as real, total as real, 0.0, 1.0);
    (compliant as real / total as real) * 100.0
  }

  /** `calculateStats`: null for no readings. */
  function CalculateStats(rs: seq<Reading>): (s: Option<Report>)
    ensures s.None? <==> rs == []
    ensures s.Some? ==> s.value.total == |rs|
    ensures s.Some? ==> |s.value.mealTypeStats| == |ReportMeals|
    ensures s.Some? ==> forall i :: 0 <= i < |ReportMeals| ==>
      s.value.mealTypeStats[i].mealType == ReportMeals[i]
    ensures s.Some? ==> 0.0 <= s.value.compliancePercent <= 100.0
    ensures s.Some? ==>
      s.value.compliancePercent == Percent(|Filter(rs, ReportCompliant)|, |rs|)
  {
    if |rs| == 0 then None
    else
      var percent := Percent(|Filter(rs, ReportCompliant)|, |rs|);
      Some(Report(
        |rs|,
        MeanOrNull(OfKind(rs, Fasting)),
        MealTypeStats(OfKind(rs, PostMeal), ReportMeals),
        percent))
  }

  /** The sum of the counts of a table. */
  function Counts(stats: seq<MealTypeStat>): nat {
    if stats == [] then 0 else Counts(stats[..|stats| - 1]) + stats[|stats| - 1].count
  }

  /** How many labels of `ms` the reading's meal type equals. */
  function Hits(r: Reading, ms: seq<string>): nat {
    if ms == [] then 0
    else Hits(r, ms[..|ms| - 1]) + (if r.mealType == Some(ms[|ms| - 1]) then 1 else 0)
  }

  lemma {:induction false} HitsNone(r: Reading, ms: seq<string>)
    requires forall i :: 0 <= i < |ms| ==> r.mealType != Some(ms[i])
    ensures Hits(r, ms) == 0
  {
    if ms != [] {
      HitsNone(r, ms[..|ms| - 1]);
    }
  }

  /** A reading matches at most one of a list of different labels. */
  lemma {:induction false} HitsAtMostOne(r: Reading, ms: seq<string>)
    requires NoDuplicates(ms)
    ensures Hits(r, ms) <= 1
  {
    if ms != [] {
      var n := |ms| - 1;
      if r.mealType == Some(ms[n]) {
        HitsNone(r, ms[..n]);
      } else {
        HitsAtMostOne(r, ms[..n]);
      }
    }
  }

  /** One more post-meal reading raises the total count by the labels it matches. */
  lemma {:induction false} CountsSnoc(post: seq<Reading>, r: Reading, ms: seq<string>)
    ensures Counts(MealTypeStats(post + [r], ms)) == Counts(MealTypeStats(post, ms)) + Hits(r, ms)
  {
    if ms != [] {
      var n := |ms| - 1;
      CountsSnoc(post, r, ms[..n]);
      FilterSnoc(post, r, MealTest(ms[n]));
      var a, b := MealTypeStats(post + [r], ms), MealTypeStats(post, ms);
      assert a[..n] == MealTypeStats(post + [r], ms[..n]);
      assert b[..n] == MealTypeStats(post, ms[..n]);
    }
  }

  /** Over different labels, the rows together count no more readings than there are. */
  lemma {:induction false} CountsBound(post: seq<Reading>, ms: seq<string>)
    requires NoDuplicates(ms)
    ensures Counts(MealTypeStats(post, ms)) <= |post|
  {
    if post == [] {
      CountsEmpty(ms);
    } else {
      var n := |post| - 1;
      assert post == post[..n] + [post[n]];
      CountsBound(post[..n], ms);
      CountsSnoc(post[..n], post[n], ms);
      HitsAtMostOne(post[n], ms);
    }
  }

  lemma {:induction false} CountsEmpty(ms: seq<string>)
    ensures Counts(MealTypeStats([], ms)) == 0
  {
    if ms != [] {
      CountsEmpty(ms[..|ms| - 1]);
    }
  }

  lemma ReportMealsDifferent()
    ensures NoDuplicates(ReportMeals)
  {
    assert ReportMeals[4][0] == 'M' && ReportMeals[4][1] == 'e';
    assert ReportMeals[2][1] == 'i';
  }

  /** The five rows together count at most the post-meal readings. */
  lemma MealCountsBound(rs: seq<Reading>)
    requires rs != []
    ensures Counts(CalculateStats(rs).value.mealTypeStats) <= |OfKind(rs, PostMeal)|
  {
    ReportMealsDifferent();
    CountsBound(OfKind(rs, PostMeal), ReportMeals);
  }

  /** Each row counts the post-meal readings of exactly its label, and has an average iff it counts any. */
  lemma MealRow(rs: seq<Reading>, i: nat)
    requires rs != [] && i < |ReportMeals|
    ensures var row := CalculateStats(rs).value.mealTypeStats[i];
      && row.count == |Filter(OfKind(rs, PostMeal), MealTest(ReportMeals[i]))|
      && (row.avg.None? <==> forall j :: 0 <= j < |rs| ==>
            !(rs[j].isPostMeal && rs[j].mealType == Some(ReportMeals[i])))
  {
    var m := ReportMeals[i];
    var post := OfKind(rs, PostMeal);
    var both := (r: Reading) => r.isPostMeal && r.mealType == Some(m);
    FilterNone(post, MealTest(m));
    FilterNone(rs, both);
    FilterTwice(rs, KindTest(PostMeal), MealTest(m), both);
  }

  /** Filtering by `p` and then by `q` is filtering by their conjunction. */
  lemma {:induction false} FilterTwice(rs: seq<Reading>, p: Reading -> bool, q: Reading -> bool, pq: Reading -> bool)
    requires forall r :: pq(r) == (p(r) && q(r))
    ensures Filter(Filter(rs, p), q) == Filter(rs, pq)
  {
    if rs != [] {
      var n := |rs| - 1;
      FilterTwice(rs[..n], p, q, pq);
      FilterAppend(Filter(rs[..n], p), if p(rs[n]) then [rs[n]] else [], q);
      if p(rs[n]) {
        FilterSingle(rs[n], q);
      }
    }
  }

  /** The fasting average is the dashboard's fasting average: null iff no fasting reading, else the mean. */
  lemma AvgFastingAgrees(rs: seq<Reading>)
    requires rs != []
    ensures CalculateStats(rs).value.avgFasting == Dashboard.Average(rs, Fasting)
    ensures CalculateStats(rs).value.avgFasting.None? <==> forall i :: 0 <= i < |rs| ==> !rs[i].isFasting
  {
  }

  /**
   * The two rules differ: a fasting 6.0 complies with the report rule and is over the
   * dashboard's fasting target; a post-meal 8.0 likewise. So one fasting 6.0 gives the
   * report 100 % and the dashboard 0 %.
   */
  lemma RulesDiverge()
    ensures var r := Reading("1", 0, "2024-01-10", 60, true, false, None);
      && ReportCompliant(r) && Dashboard.IsOverTarget(r)
      && CalculateStats([r]).value.compliancePercent == 100.0
      && Dashboard.CompliancePercentage([r]) == 0.0
    ensures var r := Reading("2", 0, "2024-01-10", 80, false, true, None);
      ReportCompliant(r) && Dashboard.IsOverTarget(r)
  {
    var r := Reading("1", 0, "2024-01-10", 60, true, false, None);
    FilterSingle(r, ReportCompliant);
    FilterSingle(r, Dashboard.IsCompliant);
  }

  /**
   * The labels are compared case-sensitively: a post-meal "frokost" is not counted
   * under "Frokost" (while the dashboard's meal breakdown would group it as breakfast).
   */
  lemma LabelsCaseSensitive()
    ensures var r := Reading("1", 0, "2024-01-10", 70, false, true, Some("frokost"));
      CalculateStats([r]).value.mealTypeStats[0] == MealTypeStat("Frokost", None, 0)
  {
    var r := Reading("1", 0, "2024-01-10", 70, false, true, Some("frokost"));
    FilterSingle(r, KindTest(PostMeal));
    assert "frokost" != "Frokost" by { assert "frokost"[0] != "Frokost"[0]; }
    FilterSingle(r, MealTest("Frokost"));
  }
}
