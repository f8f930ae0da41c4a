/**
 * `GET /api/readings` in src/app/api/readings/route.ts: which day-key range the
 * handler asks the database for, or which error it answers with.
 *
 * The handler's inputs besides the query are given: the Europe/Oslo civil date of
 * `parseISO(date)` (none when that is an invalid date) and of the current instant.
 */
module ReadingsRoute {
  import opened Wrappers
  import opened CivilDate
  import opened DayKey
  import Lex

  datatype Query = Query(
    startDayKey: Option<string>,
    endDayKey: Option<string>,
    weekStartDayKey: Option<string>,
    date: Option<string>)

  /** 400 with an error text, 500 from the `catch`, or a fetch of the readings from `start` to `end`. */
  datatype Outcome = BadRequest(message: string) | ServerError | Fetch(start: string, end: string)

  const InvalidDayKey: string := "Invalid dayKey format"
  const StartAfterEnd: string := "startDayKey must be <= endDayKey"
  const InvalidWeekStart: string := "Invalid weekStartDayKey format. Expected YYYY-MM-DD"
  const InvalidDate: string := "Invalid date format"

  /** A search parameter in a truthiness test: present and not empty. */
  predicate Given(p: Option<string>) {
    p.Some? && p.value != ""
  }

  /**
   * The years of the dates a JavaScript `Date` can hold: its time value spans 10^8 days
   * either side of 1970, from -271821-04-20 to +275760-09-13 (both end years taken whole).
   */
  predicate Representable(d: Date) {
    -271821 <= d.year <= 275760
  }

  /** Days to add to reach the Monday of the week; Sunday (0) goes back six. */
  function MondayOffset(dayOfWeek: int): int {
    if dayOfWeek == 0 then -6 else 1 - dayOfWeek
  }

  lemma ModShift(n: int, k: int)
    ensures (n + k) % 7 == (n % 7 + k) % 7
  {
    var q, r := n / 7, n % 7;
    assert n == 7 * q + r;
    assert n + k == 7 * q + (r + k);
  }

  /** Adding the offset to a day number lands on a Monday at most six days earlier. */
  lemma MondayOffsetLands(n: int)
    ensures -6 <= MondayOffset(Weekday(n)) <= 0
    ensures Weekday(n + MondayOffset(Weekday(n))) == 1
  {
    var w := Weekday(n);
    var off := MondayOffset(w);
    ModShift(n + 4, off);
    assert (n + off + 4) % 7 == (w + off) % 7;
  }

  /** The Monday of the week of `d`. */
  function WeekStart(d: Date): (m: Date)
    requires Valid(d)
    ensures Valid(m)
    ensures Weekday(DayNumber(m)) == 1
    ensures DayNumber(m) <= DayNumber(d) <= DayNumber(m) + 6
  {
    MondayOffsetLands(DayNumber(d));
    AddDays(d, MondayOffset(Weekday(DayNumber(d))))
  }

  /** No other Monday lies 0 to 6 days before `d`. */
  lemma WeekStartUnique(d: Date, m: Date)
    requires Valid(d) && Valid(m)
    requires Weekday(DayNumber(m)) == 1 && DayNumber(m) <= DayNumber(d) <= DayNumber(m) + 6
    ensures m == WeekStart(d)
  {
    var a, b := DayNumber(m), DayNumber(WeekStart(d));
    SameWeekday(a, b);
    DayNumberOrder(m, WeekStart(d));
  }

  /** Two Mondays less than a week apart are the same day. */
  lemma SameWeekday(a: int, b: int)
    requires Weekday(a) == 1 && Weekday(b) == 1 && -6 <= a - b <= 6
    ensures a == b
  {
    ModShift(b + 4, a - b);
  }

  /** A step back of at most six days leaves the year at most one lower. */
  lemma YearNearby(d: Date, m: Date)
    requires Valid(d) && Valid(m) && DayNumber(m) <= DayNumber(d) <= DayNumber(m) + 6
    ensures d.year - 1 <= m.year <= d.year
  {
    InYear(d);
    InYear(m);
    if m.year < d.year - 1 {
      DaysBeforeYearMonotone(m.year + 1, d.year - 1);
      YearStep(d.year - 1);
    }
    if m.year > d.year {
      DaysBeforeYearMonotone(d.year + 1, m.year);
    }
  }

  /** The derived Monday's key reads back as that Monday. */
  lemma DerivedWeek(date: Date)
    requires Valid(date) && -999998 <= date.year <= 999999
    ensures ParseNoon(Format(date)) == Some(date)
    ensures ParseNoon(Format(WeekStart(date))) == Some(WeekStart(date))
  {
    ParseFormat(date);
    YearNearby(date, WeekStart(date));
    ParseFormat(WeekStart(date));
  }

  /**
   * `GET`. Range mode (both `startDayKey` and `endDayKey` given) comes first; otherwise
   * the week starts at `weekStartDayKey`, or at the Monday of the date's week, and ends
   * six days later.
   */
  method Get(q: Query, dateLocal: Option<Date>, today: Date) returns (out: Outcome)
    requires dateLocal.Some? ==> Valid(dateLocal.value) && Representable(dateLocal.value)
    requires Valid(today) && Representable(today)
    // Range mode: a malformed key, then a start after the end, are refused; else the range as given.
    ensures Given(q.startDayKey) && Given(q.endDayKey) ==>
      var s, e := q.startDayKey.value, q.endDayKey.value;
      out == (if !DayKeyFormat(s) || !DayKeyFormat(e) then BadRequest(InvalidDayKey)
              else if Lex.Less(e, s) then BadRequest(StartAfterEnd)
              else Fetch(s, e))
    // Week mode with a start given: only its shape is checked; it need not be a Monday.
    ensures !(Given(q.startDayKey) && Given(q.endDayKey)) && Given(q.weekStartDayKey) ==>
      var w := q.weekStartDayKey.value;
      out == (if !DayKeyFormat(w) then BadRequest(InvalidWeekStart)
              else if ParseNoon(w).None? then ServerError
              else Fetch(w, Format(AddDays(ParseNoon(w).value, 6))))
    // Week mode from a date: an unreadable date is refused.
    ensures (!(Given(q.startDayKey) && Given(q.endDayKey)) && !Given(q.weekStartDayKey)
      && Given(q.date) && dateLocal.None?) ==> out == BadRequest(InvalidDate)
    // Week mode from a date or today: Monday to Sunday of that date's week.
    ensures (!(Given(q.startDayKey) && Given(q.endDayKey)) && !Given(q.weekStartDayKey)
      && !(Given(q.date) && dateLocal.None?)) ==>
      var d := if Given(q.date) then dateLocal.value else today;
      out == Fetch(Format(WeekStart(d)), Format(AddDays(WeekStart(d), 6)))
  {
    var startDayKeyParam, endDayKeyParam := q.startDayKey, q.endDayKey;
    if Given(startDayKeyParam) && Given(endDayKeyParam) {
      if !DayKeyFormat(startDayKeyParam.value) || !DayKeyFormat(endDayKeyParam.value) {
        return BadRequest(InvalidDayKey);
      }
      if Lex.Less(endDayKeyParam.value, startDayKeyParam.value) {
        return BadRequest(StartAfterEnd);
      }
      return Fetch(startDayKeyParam.value, endDayKeyParam.value);
    }

    var weekStartDayKey := q.weekStartDayKey;
    if Given(weekStartDayKey) && !DayKeyFormat(weekStartDayKey.value) {
      return BadRequest(InvalidWeekStart);
    }

    if !Given(weekStartDayKey) {
      var date: Date;
      if Given(q.date) {
        if dateLocal.None? {
          return BadRequest(InvalidDate);
        }
        date := dateLocal.value;
      } else {
        date := today;
      }
      // The Oslo day key read back as noon UTC: the key of a representable date always parses.
      DerivedWeek(date);
      var localDate := ParseNoon(Format(date)).value;
      var dayOfWeek := Weekday(DayNumber(localDate));
      var monday := AddDays(localDate, MondayOffset(dayOfWeek));
      weekStartDayKey := Some(Format(monday));
    }

    var startDate := ParseNoon(weekStartDayKey.value);
    if startDate.None? {
      return ServerError;
    }
    var endDate := AddDays(startDate.value, 6);
    return Fetch(weekStartDayKey.value, Format(endDate));
  }

  /** 2026-01-05 is day 20458 and a Monday. */
  lemma MondayJan5()
    ensures DayNumber(Date(2026, 1, 5)) == 20458 && Weekday(20458) == 1
  {
    assert Leaps(2025) == 491 && Leaps(1969) == 477;
  }

  /** Every day from Monday 2026-01-05 to Sunday 2026-01-11 belongs to the week of the 5th. */
  lemma WeekOfJan5(day: int)
    requires 5 <= day <= 11
    ensures WeekStart(Date(2026, 1, day)) == Date(2026, 1, 5)
  {
    MondayJan5();
    assert DayNumber(Date(2026, 1, day)) == 20458 + day - 5;
    WeekStartUnique(Date(2026, 1, day), Date(2026, 1, 5));
  }

  /** The next Monday, 2026-01-12, starts a new week. */
  lemma WeekOfJan12()
    ensures WeekStart(Date(2026, 1, 12)) == Date(2026, 1, 12)
  {
    MondayJan5();
    assert DayNumber(Date(2026, 1, 12)) == 20465 && Weekday(20465) == 1;
    WeekStartUnique(Date(2026, 1, 12), Date(2026, 1, 12));
  }

  /** The week of 2026-01-05 is fetched up to "2026-01-11". */
  lemma WeekEndExample()
    ensures Format(AddDays(Date(2026, 1, 5), 6)) == "2026-01-11"
  {
    var sun := Date(2026, 1, 11);
    assert AddDays(Date(2026, 1, 5), 6) == sun by {
      DayNumberOrder(AddDays(Date(2026, 1, 5), 6), sun);
    }
    SundayKey();
  }

  lemma SundayKey()
    ensures Format(Date(2026, 1, 11)) == "2026-01-11"
  {
    assert Digits(2026, 4) == "2026";
    assert Digits(1, 2) == "01" && Digits(11, 2) == "11";
  }

  /** "2026-01-08" lies between the week's keys as the strings compare. */
  lemma WeekIncludesJan8()
    ensures Lex.Less("2026-01-05", "2026-01-08") && Lex.Less("2026-01-08", "2026-01-11")
  {
    Jan5BeforeJan8();
    Jan8BeforeJan11();
  }

  lemma Jan5BeforeJan8()
    ensures Lex.Less("2026-01-05", "2026-01-08")
  {
    SamePrefixLess("2026-01-", "05", "08");
  }

  lemma Jan8BeforeJan11()
    ensures Lex.Less("2026-01-08", "2026-01-11")
  {
    SamePrefixLess("2026-01-", "08", "11");
  }

  /** Keys sharing a prefix compare as their tails do. */
  lemma SamePrefixLess(p: string, a: string, b: string)
    requires |a| == |b| == 2 && (a[0] < b[0] || (a[0] == b[0] && a[1] < b[1]))
    ensures Lex.Less(p + a, p + b)
  {
    Lex.LessConcat(p, a, p, b);
    assert a[1..] == [a[1]] && b[1..] == [b[1]];
  }
}
