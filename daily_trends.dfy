/**
 * `computeDailyTrends` in src/lib/domain/analytics.ts: bucket readings by day key,
 * keep the latest 7 days, smooth with a 3-day rolling mean that leaves the first two
 * points as they are, and label the direction from the first to the last point.
 */
module DailyTrends {
  import opened Wrappers
  import opened Domain
  import opened Grouping
  import Lex
  import Fixtures

  /** "Stabil", "Økende" (rising) and "Synkende" (falling). */
  datatype TrendLabel = Stabil | Okende | Synkende

  datatype DailyTrend = DailyTrend(date: string, avg: real)

  /** `label` in the source (a reserved word here). */
  datatype Trends = Trends(data: seq<DailyTrend>, trendLabel: Option<TrendLabel>)

  /** `slice(-7)`: at most this many days are kept. */
  const WindowDays: nat := 7
  /** Fewer distinct days than this gives no trend. */
  const MinDays: nat := 3
  /** 0.3 mmol/L, in tenths. */
  const LabelThreshold: real := 3.0

  /** The values of the readings of day `day`, in order (the list `daysMap` holds for it). */
  function DayValues(rs: seq<Reading>, day: string): seq<int> {
    GroupOf(DayKeySeq(rs), Values(rs), day)
  }

  /** The whole `daysMap`: every day key of `rs` with its values. */
  function DayGroups(rs: seq<Reading>): map<string, seq<int>> {
    Groups(DayKeySeq(rs), Values(rs))
  }

  /** The last `min(7, |days|)` entries. */
  function Latest(days: seq<string>): (r: seq<string>)
    ensures |r| == if |days| < WindowDays then |days| else WindowDays
  {
    if |days| < WindowDays then days else days[|days| - WindowDays..]
  }

  /** The raw daily means of `days`, looked up in `groups`. */
  function RawAverages(groups: map<string, seq<int>>, days: seq<string>): (raw: seq<DailyTrend>)
    requires forall d :: d in days ==> d in groups && |groups[d]| > 0
    ensures |raw| == |days|
    ensures forall i :: 0 <= i < |days| ==> raw[i] == DailyTrend(days[i], Mean(groups[days[i]]))
  {
    seq(|days|, i requires 0 <= i < |days| => DailyTrend(days[i], Mean(groups[days[i]])))
  }

  /** The mean of entry `i` and the two before it (`slice(i - 2, i + 1)`). */
  function Window(raw: seq<DailyTrend>, i: int): real
    requires 2 <= i < |raw|
  {
    (raw[i - 2].avg + raw[i - 1].avg + raw[i].avg) / 3.0
  }

  /** The 3-day rolling mean; entries 0 and 1 are passed through. */
  function Smooth(raw: seq<DailyTrend>): (sm: seq<DailyTrend>)
    ensures |sm| == |raw|
    ensures forall i :: 0 <= i < |raw| ==> sm[i].date == raw[i].date
    ensures forall i :: 0 <= i < |raw| && i < 2 ==> sm[i] == raw[i]
    ensures forall i :: 2 <= i < |raw| ==> sm[i].avg == Window(raw, i)
  {
    seq(|raw|, i requires 0 <= i < |raw| =>
      if i < 2 then raw[i] else DailyTrend(raw[i].date, Window(raw, i)))
  }

  /** The ±0.3 rule on the change from first to last point. */
  function Classify(diff: real): (l: TrendLabel)
    ensures l == Okende <==> diff > LabelThreshold
    ensures l == Synkende <==> diff < -LabelThreshold
    ensures l == Stabil <==> -LabelThreshold <= diff <= LabelThreshold
  {
    if diff > LabelThreshold then Okende
    else if diff < -LabelThreshold then Synkende
    else Stabil
  }

  /** `Array.from(daysMap.keys()).sort().slice(-7)`. */
  function SelectDays(order: seq<string>): (days: seq<string>)
    ensures |days| == if |order| < WindowDays then |order| else WindowDays
    ensures forall d :: d in days ==> d in order
  {
    var sorted := Lex.Sort(order);
    assert forall d :: d in sorted ==> d in order by {
      forall d | d in sorted ensures d in order {
        assert d in multiset(sorted);
      }
    }
    Latest(sorted)
  }

  /** What happens once `daysMap` is filled: `order` is its key order. */
  function TrendsOf(groups: map<string, seq<int>>, order: seq<string>): Trends
    requires forall d :: d in order ==> d in groups && |groups[d]| > 0
  {
    var days := SelectDays(order);
    if |days| < MinDays then Trends([], None)
    else
      var data := Smooth(RawAverages(groups, days));
      Trends(data, Some(Classify(data[|data| - 1].avg - data[0].avg)))
  }

  /** The specification of `computeDailyTrends`. */
  function DailyTrendsOf(rs: seq<Reading>): Trends {
    var order := Distinct(DayKeySeq(rs));
    assert forall d :: d in order ==> d in DayGroups(rs) && |DayGroups(rs)[d]| > 0 by {
      forall d | d in order ensures d in DayGroups(rs) && |DayGroups(rs)[d]| > 0 {
        DistinctMembers(DayKeySeq(rs), d);
        GroupOfPresent(DayKeySeq(rs), Values(rs), d);
      }
    }
    TrendsOf(DayGroups(rs), order)
  }

  /**
   * One pass of the `forEach` body, on reading `i`: its day joins the key order if
   * it is new, and its value is appended to that day's list.
   */
  lemma GroupsStep(rs: seq<Reading>, i: nat)
    requires i < |rs|
    ensures var g := DayGroups(rs[..i]);
      var k := rs[i].dayKey;
      DayGroups(rs[..i + 1]) == g[k := (if k in g then g[k] else []) + [rs[i].value]]
    ensures Distinct(DayKeySeq(rs[..i + 1])) ==
      var o := Distinct(DayKeySeq(rs[..i]));
      if rs[i].dayKey in DayGroups(rs[..i]) then o else o + [rs[i].dayKey]
  {
    var pre, r := rs[..i], rs[i];
    assert rs[..i + 1] == pre + [r];
    DayKeySeqSnoc(pre, r);
    ValuesSnoc(pre, r);
    GroupsSnoc(DayKeySeq(pre), Values(pre), r.dayKey, r.value);
  }

  /** The loop of `computeDailyTrends` fills `daysMap` reading by reading. */
  method ComputeDailyTrends(readings: seq<Reading>) returns (t: Trends)
    ensures t == DailyTrendsOf(readings)
  {
    var daysMap: map<string, seq<int>> := map[];
    var order: seq<string> := [];
    var i := 0;
    while i < |readings|
      invariant 0 <= i <= |readings|
      invariant daysMap == DayGroups(readings[..i])
      invariant order == Distinct(DayKeySeq(readings[..i]))
    {
      var r := readings[i];
      GroupsStep(readings, i);
      var vals := if r.dayKey in daysMap then daysMap[r.dayKey] else [];
      if r.dayKey !in daysMap {
        order := order + [r.dayKey];
      }
      daysMap := daysMap[r.dayKey := vals + [r.value]];
      i := i + 1;
    }
    assert readings[..i] == readings;
    GroupsCoverOrder(DayKeySeq(readings), Values(readings));
    t := TrendsOf(daysMap, order);
  }

  /** The days a trend is drawn over: the latest (at most seven) days that carry readings. */
  function TrendDays(rs: seq<Reading>): seq<string> {
    SelectDays(Distinct(DayKeySeq(rs)))
  }

  /** The mean of the values of day `d`, a day that carries readings. */
  function DayAverage(rs: seq<Reading>, d: string): real
    requires d in DayKeys(rs)
  {
    DayKeySeqKeys(rs, d);
    GroupOfPresent(DayKeySeq(rs), Values(rs), d);
    Mean(DayValues(rs, d))
  }

  /** There are as many distinct day keys in key order as there are days. */
  lemma DistinctDaysCount(rs: seq<Reading>)
    ensures |Distinct(DayKeySeq(rs))| == |DayKeys(rs)|
  {
    var order := Distinct(DayKeySeq(rs));
    DistinctNoDuplicates(DayKeySeq(rs));
    NoDuplicatesCard(order);
    forall d ensures d in order <==> d in DayKeys(rs) {
      DistinctMembers(DayKeySeq(rs), d);
      DayKeySeqKeys(rs, d);
    }
    assert (set x | x in order) == DayKeys(rs);
  }

  /** Sorting distinct keys and keeping the last seven gives strictly ascending days. */
  lemma SelectDaysAscending(order: seq<string>)
    requires NoDuplicates(order)
    ensures Lex.StrictlyAscending(SelectDays(order))
  {
    var sorted := Lex.Sort(order);
    Lex.SortAscending(order);
    var days := SelectDays(order);
    var start := |sorted| - |days|;
    assert days == sorted[start..];
    forall i, j | 0 <= i < j < |days| ensures Lex.Less(days[i], days[j]) {
      assert days[i] == sorted[start + i] && days[j] == sorted[start + j];
    }
  }

  /** A key left out of the selected days comes before all of them. */
  lemma SelectDaysLatest(order: seq<string>, d: string)
    requires NoDuplicates(order) && d in order && d !in SelectDays(order)
    ensures |SelectDays(order)| > 0 && Lex.Less(d, SelectDays(order)[0])
  {
    var sorted := Lex.Sort(order);
    Lex.SortAscending(order);
    var days := SelectDays(order);
    var start := |sorted| - |days|;
    assert days == sorted[start..];
    assert d in multiset(sorted) by {
      assert d in multiset(order);
    }
    var j :| 0 <= j < |sorted| && sorted[j] == d;
    assert j < start by {
      assert forall k :: start <= k < |sorted| ==> sorted[k] == days[k - start];
    }
    assert days[0] == sorted[start];
  }

  /**
   * Fewer than three days gives no data and no label; otherwise the trend has one
   * point per day of the latest seven, and a label.
   */
  lemma TrendsLength(rs: seq<Reading>)
    ensures var t := DailyTrendsOf(rs);
      && (|DayKeys(rs)| < MinDays <==> t.trendLabel == None)
      && (|DayKeys(rs)| < MinDays ==> t.data == [])
      && (|DayKeys(rs)| >= MinDays ==>
            |t.data| == (if |DayKeys(rs)| < WindowDays then |DayKeys(rs)| else WindowDays))
  {
    DistinctDaysCount(rs);
  }

  /** The points are the selected days, one each, in order. */
  lemma TrendsPoints(rs: seq<Reading>)
    requires |DayKeys(rs)| >= MinDays
    ensures |DailyTrendsOf(rs).data| == |TrendDays(rs)|
    ensures forall i :: 0 <= i < |TrendDays(rs)| ==> DailyTrendsOf(rs).data[i].date == TrendDays(rs)[i]
  {
    DistinctDaysCount(rs);
  }

  /** The points are in strictly ascending date order. */
  lemma TrendsAscending(rs: seq<Reading>)
    ensures var data := DailyTrendsOf(rs).data;
      forall i, j :: 0 <= i < j < |data| ==> Lex.Less(data[i].date, data[j].date)
  {
    TrendsLength(rs);
    if |DayKeys(rs)| >= MinDays {
      DistinctNoDuplicates(DayKeySeq(rs));
      SelectDaysAscending(Distinct(DayKeySeq(rs)));
      TrendsPoints(rs);
    }
  }

  /** Every point is a day that carries readings. */
  lemma TrendsOnDays(rs: seq<Reading>)
    ensures var data := DailyTrendsOf(rs).data;
      forall i :: 0 <= i < |data| ==> data[i].date in DayKeys(rs)
  {
    TrendsLength(rs);
    if |DayKeys(rs)| >= MinDays {
      TrendsPoints(rs);
      var days := TrendDays(rs);
      var data := DailyTrendsOf(rs).data;
      forall i | 0 <= i < |data| ensures data[i].date in DayKeys(rs) {
        var d := days[i];
        assert d in Distinct(DayKeySeq(rs));
        DistinctMembers(DayKeySeq(rs), d);
        DayKeySeqKeys(rs, d);
      }
    }
  }

  /** The points are the latest days: a day left without a point comes before the first. */
  lemma TrendsLatest(rs: seq<Reading>, d: string)
    requires |DayKeys(rs)| >= MinDays && d in DayKeys(rs)
    ensures var data := DailyTrendsOf(rs).data;
      (exists i :: 0 <= i < |data| && data[i].date == d) || (|data| > 0 && Lex.Less(d, data[0].date))
  {
    var order := Distinct(DayKeySeq(rs));
    var days := TrendDays(rs);
    DistinctNoDuplicates(DayKeySeq(rs));
    TrendsPoints(rs);
    DayKeySeqKeys(rs, d);
    DistinctMembers(DayKeySeq(rs), d);
    if d in days {
      var i :| 0 <= i < |days| && days[i] == d;
      assert DailyTrendsOf(rs).data[i].date == d;
    } else {
      SelectDaysLatest(order, d);
    }
  }

  /** The daily means of `days`, each a day that carries readings. */
  function DayMeans(rs: seq<Reading>, days: seq<string>): (m: seq<DailyTrend>)
    requires forall d :: d in days ==> d in DayKeys(rs)
    ensures |m| == |days|
    ensures forall i :: 0 <= i < |days| ==> m[i] == DailyTrend(days[i], DayAverage(rs, days[i]))
  {
    seq(|days|, i requires 0 <= i < |days| => DailyTrend(days[i], DayAverage(rs, days[i])))
  }

  /** Looking the days up in `daysMap` gives their daily means. */
  lemma RawIsDayMeans(rs: seq<Reading>, days: seq<string>)
    requires forall d :: d in days ==> d in Distinct(DayKeySeq(rs))
    ensures forall d :: d in days ==> d in DayKeys(rs) && d in DayGroups(rs) && |DayGroups(rs)[d]| > 0
    ensures RawAverages(DayGroups(rs), days) == DayMeans(rs, days)
  {
    var g := DayGroups(rs);
    forall d | d in days ensures d in DayKeys(rs) && d in g && |g[d]| > 0 && g[d] == DayValues(rs, d) {
      DistinctMembers(DayKeySeq(rs), d);
      DayKeySeqKeys(rs, d);
      GroupOfPresent(DayKeySeq(rs), Values(rs), d);
    }
    var raw, m := RawAverages(g, days), DayMeans(rs, days);
    assert forall i :: 0 <= i < |days| ==> raw[i] == m[i];
  }

  /** Before smoothing, the points are the daily means of the selected days. */
  lemma TrendsRaw(rs: seq<Reading>)
    requires |DayKeys(rs)| >= MinDays
    ensures forall d :: d in TrendDays(rs) ==> d in DayKeys(rs)
    ensures DailyTrendsOf(rs).data == Smooth(DayMeans(rs, TrendDays(rs)))
  {
    RawIsDayMeans(rs, TrendDays(rs));
    DistinctDaysCount(rs);
  }

  /**
   * The first two points are their day's mean; every later point is the mean of its
   * own day's mean and those of the two days before it.
   */
  lemma TrendsAverages(rs: seq<Reading>)
    requires |DayKeys(rs)| >= MinDays
    ensures var t := DailyTrendsOf(rs);
      forall i :: 0 <= i < |t.data| ==> t.data[i].date in DayKeys(rs)
    ensures var t := DailyTrendsOf(rs);
      forall i :: 0 <= i < |t.data| && i < 2 ==> t.data[i].avg == DayAverage(rs, t.data[i].date)
    ensures var t := DailyTrendsOf(rs);
      forall i :: 2 <= i < |t.data| ==>
        t.data[i].avg == (DayAverage(rs, t.data[i - 2].date) + DayAverage(rs, t.data[i - 1].date)
                          + DayAverage(rs, t.data[i].date)) / 3.0
  {
    TrendsRaw(rs);
    var days := TrendDays(rs);
    var m := DayMeans(rs, days);
    var data := Smooth(m);
    forall i | 0 <= i < |data| ensures data[i].date == days[i] && data[i].date in DayKeys(rs) {
      assert days[i] in days;
    }
    forall i | 2 <= i < |data|
      ensures data[i].avg == (DayAverage(rs, days[i - 2]) + DayAverage(rs, days[i - 1]) + DayAverage(rs, days[i])) / 3.0
    {
      assert data[i].avg == Window(m, i);
    }
  }

  /** The label follows the change from the first smoothed point to the last. */
  lemma TrendsLabel(rs: seq<Reading>)
    requires |DayKeys(rs)| >= MinDays
    ensures var t := DailyTrendsOf(rs);
      |t.data| >= MinDays &&
      var diff := t.data[|t.data| - 1].avg - t.data[0].avg;
      && (t.trendLabel == Some(Okende) <==> diff > LabelThreshold)
      && (t.trendLabel == Some(Synkende) <==> diff < -LabelThreshold)
      && (t.trendLabel == Some(Stabil) <==> -LabelThreshold <= diff <= LabelThreshold)
  {
    TrendsLength(rs);
  }

  /** The day keys of the five-day example, each the month prefix and one digit. */
  function FiveKeys(): seq<string> {
    ["2024-01-10", "2024-01-11", "2024-01-12", "2024-01-13", "2024-01-14"]
  }

  lemma FiveKeysAscending()
    ensures Lex.StrictlyAscending(FiveKeys())
  {
    var ks := FiveKeys();
    forall i, j | 0 <= i < j < 5 ensures Lex.Less(ks[i], ks[j]) {
      FiveKeyLess(i, j);
    }
  }

  /** Key `i` is the prefix "2024-01-1" and the digit `i`. */
  lemma FiveKeyLess(i: int, j: int)
    requires 0 <= i < j < 5
    ensures Lex.Less(FiveKeys()[i], FiveKeys()[j])
  {
    var prefix := "2024-01-1";
    var di, dj := ('0' as int + i) as char, ('0' as int + j) as char;
    assert FiveKeys()[i] == prefix + [di] && FiveKeys()[j] == prefix + [dj];
    Lex.LessConcat(prefix, [di], prefix, [dj]);
    assert Lex.Less([di], [dj]);
  }

  lemma FiveDaysKeys()
    ensures DayKeySeq(Fixtures.FiveDays()) == FiveKeys()
  {
  }

  /** The example keeps all five of its days. */
  lemma FiveTrendDays()
    ensures TrendDays(Fixtures.FiveDays()) == FiveKeys()
    ensures |DayKeys(Fixtures.FiveDays())| == 5
    ensures NoDuplicates(DayKeySeq(Fixtures.FiveDays()))
  {
    var rs := Fixtures.FiveDays();
    var ks := FiveKeys();
    FiveDaysKeys();
    FiveKeysAscending();
    assert NoDuplicates(ks) by {
      Lex.AscendingDistinct(ks);
    }
    assert Distinct(DayKeySeq(rs)) == ks by {
      DistinctOfDistinct(ks);
    }
    assert SelectDays(ks) == ks by {
      Lex.SortSorted(ks);
    }
    DistinctDaysCount(rs);
  }

  /** When every reading is on a day of its own, a day's mean is its one value. */
  lemma DayAverageSingle(rs: seq<Reading>, i: nat)
    requires i < |rs| && NoDuplicates(DayKeySeq(rs))
    ensures rs[i].dayKey in DayKeys(rs)
    ensures DayAverage(rs, rs[i].dayKey) == rs[i].value as real
  {
    assert rs[i].dayKey in DayKeys(rs) by {
      assert rs[i] in rs;
    }
    assert DayValues(rs, rs[i].dayKey) == [rs[i].value] by {
      GroupOfSingle(DayKeySeq(rs), Values(rs), i);
    }
    MeanOfOne(rs[i].value);
  }

  lemma MeanOfOne(v: int)
    ensures Mean([v]) == v as real
  {
    assert Sum([v]) == v by {
      assert [v][..0] == [];
    }
    MeanTimesCount([v], v as real);
  }

  /**
   * The "applies 3-day smoothing" example: five rising days give five points; the
   * last is (70 + 80 + 90) / 3 = 80 against a first of 50, so the label is rising.
   */
  lemma FiveDaysExample()
    ensures |DailyTrendsOf(Fixtures.FiveDays()).data| == 5
    ensures DailyTrendsOf(Fixtures.FiveDays()).data[0].avg == 50.0
    ensures DailyTrendsOf(Fixtures.FiveDays()).data[4].avg == 80.0
    ensures DailyTrendsOf(Fixtures.FiveDays()).trendLabel == Some(Okende)
  {
    var rs := Fixtures.FiveDays();
    FiveTrendDays();
    FiveDaysKeys();
    DayAverageSingle(rs, 0);
    DayAverageSingle(rs, 2);
    DayAverageSingle(rs, 3);
    DayAverageSingle(rs, 4);
    TrendsLength(rs);
    TrendsPoints(rs);
    TrendsAverages(rs);
    TrendsLabel(rs);
  }

  /** The "handles short data" example: two days give no points and no label. */
  lemma MockTrendsShort()
    ensures DailyTrendsOf(Fixtures.Mock()) == Trends([], None)
  {
    var rs := Fixtures.Mock();
    var a, b := "2024-01-10", "2024-01-11";
    assert DayKeySeq(rs) == [a, a, b, b];
    assert [a, a, b, b][..3] == [a, a, b] && [a, a, b][..2] == [a, a] && [a, a][..1] == [a];
    assert Distinct([a]) == [a];
    assert Distinct([a, a]) == [a];
    assert Distinct([a, a, b]) == [a, b];
    assert Distinct([a, a, b, b]) == [a, b];
    DistinctDaysCount(rs);
    TrendsLength(rs);
  }
}
