/**
 * `computeMealBreakdown` in src/lib/domain/analytics.ts: group the post-meal readings
 * by meal label, keep the groups of at least three readings, and order them by the
 * position of the lower-cased label in a fixed list of meal names.
 */
module MealBreakdown {
  import opened Wrappers
  import opened Domain
  import opened Grouping
  import StableSort
  import Dashboard
  import Fixtures

  datatype MealStat = MealStat(mealType: string, count: nat, average: real, overTargetCount: nat)

  /** Groups with fewer readings than this are dropped. */
  const MinGroup: nat := 3
  /** The label of a reading without a meal type. */
  const Other: string := "Annet"
  /** The rank of a label that is not in `MealOrder`. */
  const Unranked: nat := 99

  /** The `order` list the result is sorted by. */
  const MealOrder: seq<string> :=
    ["frokost", "breakfast", "lunsj", "lunch", "middag", "dinner",
     "kveldsmat", "evening_meal", "snack", "Annet"]

  /** `r.mealType || "Annet"`: a missing or empty meal type is "Annet". */
  function MealLabel(r: Reading): (l: string)
    ensures l != ""
    ensures l == Other <==> r.mealType == None || r.mealType == Some("") || r.mealType == Some(Other)
    ensures l != Other ==> r.mealType == Some(l)
  {
    match r.mealType
    case None => Other
    case Some(t) => if t == "" then Other else t
  }

  /** The label of every reading, in order. */
  function Labels(rs: seq<Reading>): (ls: seq<string>)
    ensures |ls| == |rs|
    ensures forall i :: 0 <= i < |rs| ==> ls[i] == MealLabel(rs[i])
  {
    if rs == [] then [] else Labels(rs[..|rs| - 1]) + [MealLabel(rs[|rs| - 1])]
  }

  lemma LabelsSnoc(rs: seq<Reading>, r: Reading)
    ensures Labels(rs + [r]) == Labels(rs) + [MealLabel(r)]
  {
    assert (rs + [r])[..|rs|] == rs;
  }

  /** The readings grouped under label `l`, as a filter. */
  function LabelTest(l: string): Reading -> bool {
    r => MealLabel(r) == l
  }

  /** `parseFloat(r.valueMmolL) > THRESHOLDS.POST_MEAL`, whatever the reading's flags. */
  predicate AboveMealLimit(r: Reading) {
    r.value > Dashboard.PostMealLimit
  }

  /** JavaScript's `toLowerCase` on the ASCII letters. */
  function LowerChar(c: char): (d: char)
    ensures 'A' <= c <= 'Z' ==> d as int == c as int + 32
    ensures !('A' <= c <= 'Z') ==> d == c
    ensures !('A' <= d <= 'Z')
  {
    if 'A' <= c <= 'Z' then (c as int + 32) as char else c
  }

  function Lower(s: string): (t: string)
    ensures |t| == |s|
    ensures forall i :: 0 <= i < |s| ==> t[i] == LowerChar(s[i])
  {
    if s == [] then [] else [LowerChar(s[0])] + Lower(s[1..])
  }

  /** `Array.prototype.indexOf`: the first position of `x`, or -1. */
  function IndexOf(xs: seq<string>, x: string): (i: int)
    ensures -1 <= i < |xs|
    ensures i == -1 <==> x !in xs
    ensures 0 <= i ==> xs[i] == x && forall j :: 0 <= j < i ==> xs[j] != x
  {
    if xs == [] then -1
    else if xs[0] == x then 0
    else
      var i := IndexOf(xs[1..], x);
      if i == -1 then -1 else i + 1
  }

  /** `indexOf(meal.toLowerCase())`, with 99 for a label not in the list. */
  function Rank(meal: string): nat {
    var i := IndexOf(MealOrder, Lower(meal));
    if i == -1 then Unranked else i
  }

  function RankOf(s: MealStat): nat {
    Rank(s.mealType)
  }

  /** The statistics of one group (`count`, `average`, `overTargetCount`). */
  function StatOf(meal: string, group: seq<Reading>): (s: MealStat)
    requires |group| > 0
    ensures s.mealType == meal && s.count == |group|
    ensures s.overTargetCount <= s.count
  {
    MealStat(meal, |group|, Mean(Values(group)), |Filter(group, AboveMealLimit)|)
  }

  /** The `groups.forEach` pass: one statistic per group of at least three, in key order. */
  function CollectStats(groups: map<string, seq<Reading>>, order: seq<string>): (stats: seq<MealStat>)
    requires forall l :: l in order ==> l in groups && |groups[l]| > 0
    ensures |stats| <= |order|
  {
    if order == [] then []
    else
      var n := |order| - 1;
      var l := order[n];
      CollectStats(groups, order[..n])
        + (if |groups[l]| < MinGroup then [] else [StatOf(l, groups[l])])
  }

  /** The post-meal readings (`readings.filter(r => r.isPostMeal)`). */
  function PostMealReadings(rs: seq<Reading>): seq<Reading> {
    OfKind(rs, PostMeal)
  }

  /** The statistics in the `Map`'s key order, that is, before the sort. */
  function GroupedStats(rs: seq<Reading>): seq<MealStat> {
    var post := PostMealReadings(rs);
    GroupsCoverOrder(Labels(post), post);
    CollectStats(Groups(Labels(post), post), Distinct(Labels(post)))
  }

  /**
   * The specification of `computeMealBreakdown`: `stats.sort((a, b) => rank(a) - rank(b))`
   * over the statistics in key order.
   */
  function MealBreakdownOf(rs: seq<Reading>): seq<MealStat> {
    StableSort.Sort(GroupedStats(rs), RankOf)
  }

  /** One pass of the first `forEach`: reading `i` goes into its label's group. */
  lemma GroupStep(post: seq<Reading>, i: nat, groups: map<string, seq<Reading>>, order: seq<string>)
    requires i < |post|
    requires groups == Groups(Labels(post[..i]), post[..i]) && order == Distinct(Labels(post[..i]))
    ensures var l := MealLabel(post[i]);
      var group := if l in groups then groups[l] else [];
      groups[l := group + [post[i]]] == Groups(Labels(post[..i + 1]), post[..i + 1])
      && (if l in groups then order else order + [l]) == Distinct(Labels(post[..i + 1]))
  {
    var pre, r := post[..i], post[i];
    assert post[..i + 1] == pre + [r];
    LabelsSnoc(pre, r);
    GroupsSnoc(Labels(pre), pre, MealLabel(r), r);
  }

  /** One pass of the second `forEach`: group `order[j]` is kept if it is big enough. */
  lemma CollectStep(groups: map<string, seq<Reading>>, order: seq<string>, j: nat)
    requires j < |order|
    requires forall l :: l in order ==> l in groups && |groups[l]| > 0
    ensures forall l :: l in order[..j] ==> l in groups && |groups[l]| > 0
    ensures CollectStats(groups, order[..j + 1]) ==
      CollectStats(groups, order[..j])
        + (if |groups[order[j]]| < MinGroup then [] else [StatOf(order[j], groups[order[j]])])
  {
    assert order[..j + 1][..j] == order[..j];
  }

  /** The two `forEach` loops of `computeMealBreakdown`, then the sort. */
  method ComputeMealBreakdown(readings: seq<Reading>) returns (stats: seq<MealStat>)
    ensures stats == MealBreakdownOf(readings)
  {
    var post := PostMealReadings(readings);
    var groups: map<string, seq<Reading>> := map[];
    var order: seq<string> := [];
    var i := 0;
    while i < |post|
      invariant 0 <= i <= |post|
      invariant groups == Groups(Labels(post[..i]), post[..i])
      invariant order == Distinct(Labels(post[..i]))
    {
      var r := post[i];
      var meal := MealLabel(r);
      GroupStep(post, i, groups, order);
      var group := if meal in groups then groups[meal] else [];
      if meal !in groups {
        order := order + [meal];
      }
      groups := groups[meal := group + [r]];
      i := i + 1;
    }
    assert post[..i] == post;
    GroupsCoverOrder(Labels(post), post);
    stats := [];
    var j := 0;
    while j < |order|
      invariant 0 <= j <= |order|
      invariant forall l :: l in order[..j] ==> l in groups && |groups[l]| > 0
      invariant stats == CollectStats(groups, order[..j])
    {
      CollectStep(groups, order, j);
      var meal := order[j];
      var group := groups[meal];
      if |group| >= MinGroup {
        stats := stats + [StatOf(meal, group)];
      }
      j := j + 1;
    }
    assert order[..j] == order;
    stats := StableSort.Sort(stats, RankOf);
  }

  /* Properties of the statistic of one group. */

  /** The average is the exact mean of the group: times the count, it is the sum. */
  lemma StatAverage(meal: string, group: seq<Reading>)
    requires |group| > 0
    ensures var s := StatOf(meal, group);
      s.average * (s.count as real) == Sum(Values(group)) as real
  {
    var s := StatOf(meal, group);
    MeanTimesCount(Values(group), s.average);
  }

  /**
   * The over-target count is the whole group exactly when every reading is above 6.7,
   * and zero exactly when none is.
   */
  lemma StatOverTarget(meal: string, group: seq<Reading>)
    requires |group| > 0
    ensures StatOf(meal, group).overTargetCount == |group| <==>
      forall i :: 0 <= i < |group| ==> group[i].value > Dashboard.PostMealLimit
    ensures StatOf(meal, group).overTargetCount == 0 <==>
      forall i :: 0 <= i < |group| ==> group[i].value <= Dashboard.PostMealLimit
  {
    FilterAll(group, AboveMealLimit);
    FilterNone(group, AboveMealLimit);
  }

  /* Properties of the grouping pass. */

  /** The group of a label, as the `Map` holds it, is the post-meal readings with that label. */
  lemma {:induction false} GroupIsFilter(post: seq<Reading>, l: string)
    ensures GroupOf(Labels(post), post, l) == Filter(post, LabelTest(l))
  {
    if post != [] {
      var n := |post| - 1;
      assert Labels(post)[..n] == Labels(post[..n]);
      GroupIsFilter(post[..n], l);
    }
  }

  /** Every statistic the `forEach` pass emits is that of a kept group of the key order. */
  lemma {:induction false} CollectStatsMember(groups: map<string, seq<Reading>>, order: seq<string>, s: MealStat)
    requires forall l :: l in order ==> l in groups && |groups[l]| > 0
    requires s in CollectStats(groups, order)
    ensures s.mealType in order && |groups[s.mealType]| >= MinGroup
    ensures s == StatOf(s.mealType, groups[s.mealType])
  {
    var n := |order| - 1;
    var l := order[n];
    if s !in CollectStats(groups, order[..n]) {
      assert s == StatOf(l, groups[l]) && |groups[l]| >= MinGroup;
    } else {
      CollectStatsMember(groups, order[..n], s);
    }
  }

  /** Every group of the key order with at least three readings gets its statistic. */
  lemma {:induction false} CollectStatsComplete(groups: map<string, seq<Reading>>, order: seq<string>, l: string)
    requires forall l :: l in order ==> l in groups && |groups[l]| > 0
    requires l in order && |groups[l]| >= MinGroup
    ensures StatOf(l, groups[l]) in CollectStats(groups, order)
  {
    var n := |order| - 1;
    if order[n] != l {
      assert l in order[..n] by {
        assert order == order[..n] + [order[n]];
      }
      CollectStatsComplete(groups, order[..n], l);
    }
  }

  /** No two statistics share a meal type. */
  predicate DistinctTypes(s: seq<MealStat>) {
    forall i, j :: 0 <= i < j < |s| ==> s[i].mealType != s[j].mealType
  }

  /** A key order without repeats yields statistics without repeated meal types. */
  lemma {:induction false} CollectStatsTypes(groups: map<string, seq<Reading>>, order: seq<string>)
    requires forall l :: l in order ==> l in groups && |groups[l]| > 0
    requires NoDuplicates(order)
    ensures DistinctTypes(CollectStats(groups, order))
  {
    if order != [] {
      var n := |order| - 1;
      var init := order[..n];
      assert NoDuplicates(init);
      CollectStatsTypes(groups, init);
      var c := CollectStats(groups, init);
      forall i | 0 <= i < |c| ensures c[i].mealType != order[n] {
        CollectStatsMember(groups, init, c[i]);
      }
    }
  }

  /* Properties of `computeMealBreakdown` as a whole. */

  /**
   * Every statistic returned is that of the post-meal readings carrying its meal type as
   * label, and there are at least three of them.
   */
  lemma MealBreakdownSound(rs: seq<Reading>, s: MealStat)
    requires s in MealBreakdownOf(rs)
    ensures s.mealType in Labels(PostMealReadings(rs))
    ensures var g := Filter(PostMealReadings(rs), LabelTest(s.mealType));
      |g| >= MinGroup && s == StatOf(s.mealType, g)
  {
    var post := PostMealReadings(rs);
    var ls := Labels(post);
    GroupsCoverOrder(ls, post);
    assert s in multiset(GroupedStats(rs));
    CollectStatsMember(Groups(ls, post), Distinct(ls), s);
    DistinctMembers(ls, s.mealType);
    GroupIsFilter(post, s.mealType);
  }

  /** Every label carried by at least three post-meal readings gets its statistic. */
  lemma MealBreakdownComplete(rs: seq<Reading>, l: string)
    requires |Filter(PostMealReadings(rs), LabelTest(l))| >= MinGroup
    ensures StatOf(l, Filter(PostMealReadings(rs), LabelTest(l))) in MealBreakdownOf(rs)
  {
    var post := PostMealReadings(rs);
    var ls := Labels(post);
    var g := Filter(post, LabelTest(l));
    assert g[0] in post && MealLabel(g[0]) == l;
    var i :| 0 <= i < |post| && post[i] == g[0];
    assert ls[i] == l;
    DistinctMembers(ls, l);
    GroupsCoverOrder(ls, post);
    GroupIsFilter(post, l);
    CollectStatsComplete(Groups(ls, post), Distinct(ls), l);
    assert StatOf(l, g) in multiset(MealBreakdownOf(rs));
  }

  /** No meal type is reported twice. */
  lemma MealBreakdownDistinct(rs: seq<Reading>)
    ensures DistinctTypes(MealBreakdownOf(rs))
  {
    var post := PostMealReadings(rs);
    var ls := Labels(post);
    var c := GroupedStats(rs);
    GroupsCoverOrder(ls, post);
    DistinctNoDuplicates(ls);
    CollectStatsTypes(Groups(ls, post), Distinct(ls));
    assert NoDuplicates(c);
    StableSort.SortNoDuplicates(c, RankOf);
    var r := MealBreakdownOf(rs);
    forall i, j | 0 <= i < j < |r| ensures r[i].mealType != r[j].mealType {
      MealBreakdownSound(rs, r[i]);
      MealBreakdownSound(rs, r[j]);
    }
  }

  /** The result is ordered by rank in the meal list, unknown meal types last. */
  lemma MealBreakdownOrdered(rs: seq<Reading>)
    ensures StableSort.Sorted(MealBreakdownOf(rs), RankOf)
  {
    StableSort.SortSorted(GroupedStats(rs), RankOf);
  }

  /** Meal types of equal rank stay in the order their labels first appeared. */
  lemma MealBreakdownStable(rs: seq<Reading>, k: nat)
    ensures StableSort.Class(MealBreakdownOf(rs), RankOf, k) == StableSort.Class(GroupedStats(rs), RankOf, k)
  {
    StableSort.SortClass(GroupedStats(rs), RankOf, k);
  }

  /* Examples. */

  /** Case is ignored against the list: "Frokost" ranks first. */
  lemma RankIgnoresCase()
    ensures Rank("Frokost") == 0
  {
    var t := Lower("Frokost");
    assert t[0] == 'f' && t[1..] == "rokost";
    assert t == "frokost";
  }

  /** "LUNCH" ranks fourth. */
  lemma RankLunch()
    ensures Rank("LUNCH") == 3
  {
    var t := Lower("LUNCH");
    assert t[0] == 'l' && t[1] == 'u' && t[2] == 'n' && t[3] == 'c' && t[4] == 'h';
    assert t == "lunch";
  }

  /**
   * "Annet" ranks as an unknown meal type: the list holds it capitalised, while the key
   * is lower-cased before the lookup.
   */
  lemma RankOther()
    ensures Rank(Other) == Unranked
  {
    assert Lower(Other) == "annet";
    assert "annet" !in MealOrder;
  }

  /** The "gates by minimum count of 3" example: one breakfast and one lunch give nothing. */
  lemma MockBreakdownEmpty()
    ensures MealBreakdownOf(Fixtures.Mock()) == []
  {
    var rs := Fixtures.Mock();
    Dashboard.FixturePostMeal();
    if MealBreakdownOf(rs) != [] {
      MealBreakdownSound(rs, MealBreakdownOf(rs)[0]);
    }
  }

  /** The post-meal readings of `manyReadings`: the two of `mockReadings` and the two copies. */
  lemma ManyBreakfastsPost()
    ensures PostMealReadings(Fixtures.ManyBreakfasts()) ==
      [Fixtures.Breakfast(), Fixtures.Lunch(), Fixtures.BreakfastCopy("5", 34), Fixtures.BreakfastCopy("6", 58)]
  {
    var m, c5, c6 := Fixtures.Mock(), Fixtures.BreakfastCopy("5", 34), Fixtures.BreakfastCopy("6", 58);
    var p := KindTest(PostMeal);
    Dashboard.FixturePostMeal();
    FilterAppend(m, [c5, c6], p);
    FilterSnoc([], c5, p);
    assert [] + [c5] == [c5];
    FilterSnoc([c5], c6, p);
    assert [c5] + [c6] == [c5, c6];
  }

  /** The labels of the post-meal readings of `manyReadings`. */
  lemma ManyBreakfastsLabels()
    ensures Labels(PostMealReadings(Fixtures.ManyBreakfasts())) == ["frokost", "lunsj", "frokost", "frokost"]
  {
    ManyBreakfastsPost();
    var b, l := Fixtures.Breakfast(), Fixtures.Lunch();
    var c5, c6 := Fixtures.BreakfastCopy("5", 34), Fixtures.BreakfastCopy("6", 58);
    LabelsFour(b, l, c5, c6);
  }

  lemma LabelsFour(a: Reading, b: Reading, c: Reading, d: Reading)
    ensures Labels([a, b, c, d]) == [MealLabel(a), MealLabel(b), MealLabel(c), MealLabel(d)]
  {
  }

  /** Three of the post-meal readings of `manyReadings` are breakfasts. */
  lemma ManyBreakfastsGroup()
    ensures Filter(PostMealReadings(Fixtures.ManyBreakfasts()), LabelTest("frokost")) ==
      [Fixtures.Breakfast(), Fixtures.BreakfastCopy("5", 34), Fixtures.BreakfastCopy("6", 58)]
  {
    var b, l := Fixtures.Breakfast(), Fixtures.Lunch();
    var c5, c6 := Fixtures.BreakfastCopy("5", 34), Fixtures.BreakfastCopy("6", 58);
    ManyBreakfastsPost();
    var f := LabelTest("frokost");
    assert f(b) && f(c5) && f(c6) && !f(l);
    FilterFour(b, l, c5, c6, f);
  }

  /** One of the post-meal readings of `manyReadings` is a lunch. */
  lemma ManyBreakfastsLunch()
    ensures Filter(PostMealReadings(Fixtures.ManyBreakfasts()), LabelTest("lunsj")) == [Fixtures.Lunch()]
  {
    var b, l := Fixtures.Breakfast(), Fixtures.Lunch();
    var c5, c6 := Fixtures.BreakfastCopy("5", 34), Fixtures.BreakfastCopy("6", 58);
    ManyBreakfastsPost();
    var u := LabelTest("lunsj");
    assert u(l) && !u(b) && !u(c5) && !u(c6);
    FilterFour(b, l, c5, c6, u);
  }

  /** The breakfast group of `manyReadings`: three readings of 7.0, all over target. */
  lemma ManyBreakfastsStat()
    ensures var g := [Fixtures.Breakfast(), Fixtures.BreakfastCopy("5", 34), Fixtures.BreakfastCopy("6", 58)];
      StatOf("frokost", g) == MealStat("frokost", 3, 70.0, 3)
  {
    var g := [Fixtures.Breakfast(), Fixtures.BreakfastCopy("5", 34), Fixtures.BreakfastCopy("6", 58)];
    var vs := Values(g);
    assert vs == [70, 70, 70];
    assert [70, 70, 70][..2] == [70, 70] && [70, 70][..1] == [70];
    assert Sum([70]) == 70;
    assert Sum([70, 70]) == 140;
    assert Sum(vs) == 210;
    MeanTimesCount(vs, 70.0);
    FilterAll(g, AboveMealLimit);
  }

  /** Breakfast is the only meal type of `manyReadings` with three readings. */
  lemma ManyBreakfastsOnlyBreakfast(s: MealStat)
    requires s in MealBreakdownOf(Fixtures.ManyBreakfasts())
    ensures s.mealType == "frokost"
  {
    ManyBreakfastsLabels();
    ManyBreakfastsLunch();
    MealBreakdownSound(Fixtures.ManyBreakfasts(), s);
  }

  /** Exactly one statistic is reported for `manyReadings`. */
  lemma ManyBreakfastsOne()
    ensures |MealBreakdownOf(Fixtures.ManyBreakfasts())| == 1
  {
    var rs := Fixtures.ManyBreakfasts();
    var r := MealBreakdownOf(rs);
    ManyBreakfastsGroup();
    MealBreakdownComplete(rs, "frokost");
    MealBreakdownDistinct(rs);
    if |r| > 1 {
      ManyBreakfastsOnlyBreakfast(r[0]);
      ManyBreakfastsOnlyBreakfast(r[1]);
    }
  }

  /**
   * The "correctly averages specific meal types" example: with three breakfasts, only
   * breakfast is reported, with three readings averaging 7.0, all over target.
   */
  lemma ManyBreakfastsBreakdown()
    ensures MealBreakdownOf(Fixtures.ManyBreakfasts()) == [MealStat("frokost", 3, 70.0, 3)]
  {
    var rs := Fixtures.ManyBreakfasts();
    ManyBreakfastsOne();
    ManyBreakfastsGroup();
    ManyBreakfastsStat();
    MealBreakdownComplete(rs, "frokost");
  }
}
