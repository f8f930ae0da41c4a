/**
 * Proleptic Gregorian calendar dates, as JavaScript's `Date` reads them in UTC: the
 * day number counts days from 1970-01-01, and `getUTCDay` is that number's weekday
 * (0 = Sunday; 1970-01-01 was a Thursday).
 */
module CivilDate {

  datatype Date = Date(year: int, month: int, day: int)

  predicate Leap(y: int) {
    y % 4 == 0 && (y % 100 != 0 || y % 400 == 0)
  }

  function DaysInMonth(y: int, m: int): (n: int)
    requires 1 <= m <= 12
    ensures 28 <= n <= 31
  {
    if m == 2 then (if Leap(y) then 29 else 28)
    else if m == 4 || m == 6 || m == 9 || m == 11 then 30
    else 31
  }

  predicate Valid(dt: Date) {
    1 <= dt.month <= 12 && 1 <= dt.day <= DaysInMonth(dt.year, dt.month)
  }

  /** Days of the year before the first of month `m`. */
  function DaysBeforeMonth(y: int, m: int): int
    requires 1 <= m <= 12
  {
    var common :=
      if m == 1 then 0 else if m == 2 then 31 else if m == 3 then 59 else if m == 4 then 90
      else if m == 5 then 120 else if m == 6 then 151 else if m == 7 then 181
      else if m == 8 then 212 else if m == 9 then 243 else if m == 10 then 273
      else if m == 11 then 304 else 334;
    common + (if m > 2 && Leap(y) then 1 else 0)
  }

  /** Leap years among 1..n (counted the same way below 1). */
  function Leaps(n: int): int {
    n / 4 - n / 100 + n / 400
  }

  /** Day number of 1 January of year `y`. */
  function DaysBeforeYear(y: int): int {
    365 * (y - 1970) + Leaps(y - 1) - Leaps(1969)
  }

  /** Days from 1970-01-01 to `dt`. */
  function DayNumber(dt: Date): int
    requires 1 <= dt.month <= 12
  {
    DaysBeforeYear(dt.year) + DaysBeforeMonth(dt.year, dt.month) + dt.day - 1
  }

  /** `getUTCDay`: 0 for Sunday through 6 for Saturday. */
  function Weekday(n: int): (w: int)
    ensures 0 <= w < 7
  {
    (n + 4) % 7
  }

  lemma FloorStep(y: int, k: int)
    requires k == 4 || k == 100 || k == 400
    ensures y / k - (y - 1) / k == if y % k == 0 then 1 else 0
  {
    var q, r := y / k, y % k;
    assert y == k * q + r && 0 <= r < k;
    if r == 0 {
      assert y - 1 == k * (q - 1) + (k - 1);
    } else {
      assert y - 1 == k * q + (r - 1);
    }
  }

  /** Counting leap years goes up by one exactly at a leap year. */
  lemma LeapsStep(y: int)
    ensures Leaps(y) - Leaps(y - 1) == if Leap(y) then 1 else 0
  {
    FloorStep(y, 4);
    FloorStep(y, 100);
    FloorStep(y, 400);
    MultipleOf(y, 400, 100);
    MultipleOf(y, 100, 4);
  }

  /** A multiple of 400 is one of 100, and a multiple of 100 is one of 4. */
  lemma MultipleOf(y: int, n: int, j: int)
    requires (n == 400 && j == 100) || (n == 100 && j == 4)
    ensures y % n == 0 ==> y % j == 0
  {
    if y % n == 0 {
      var q := y / n;
      assert y == j * ((n / j) * q);
    }
  }

  lemma YearStep(y: int)
    ensures DaysBeforeYear(y + 1) == DaysBeforeYear(y) + (if Leap(y) then 366 else 365)
  {
    LeapsStep(y);
  }

  /** Years only move forward. */
  lemma {:induction false} DaysBeforeYearMonotone(y: int, y': int)
    requires y <= y'
    ensures DaysBeforeYear(y) + 365 * (y' - y) <= DaysBeforeYear(y')
    decreases y' - y
  {
    if y < y' {
      DaysBeforeYearMonotone(y, y' - 1);
      YearStep(y' - 1);
    }
  }

  /** The days before month `m`, plus that month, are the days before the next month. */
  lemma MonthStep(y: int, m: int)
    requires 1 <= m < 12
    ensures DaysBeforeMonth(y, m + 1) == DaysBeforeMonth(y, m) + DaysInMonth(y, m)
  {
  }

  /** A year has 365 days, 366 in a leap year. */
  lemma YearLength(y: int)
    ensures DaysBeforeMonth(y, 12) + DaysInMonth(y, 12) == if Leap(y) then 366 else 365
  {
  }

  /** A later month of the same year starts after an earlier month ends. */
  lemma {:induction false} MonthsAscend(y: int, m: int, m': int)
    requires 1 <= m < m' <= 12
    ensures DaysBeforeMonth(y, m) + DaysInMonth(y, m) <= DaysBeforeMonth(y, m')
    decreases m' - m
  {
    MonthStep(y, m' - 1);
    if m < m' - 1 {
      MonthsAscend(y, m, m' - 1);
    }
  }

  /** Every date of a year lies before 1 January of the next. */
  lemma InYear(dt: Date)
    requires Valid(dt)
    ensures DaysBeforeYear(dt.year) <= DayNumber(dt) < DaysBeforeYear(dt.year + 1)
  {
    YearStep(dt.year);
    YearLength(dt.year);
    if dt.month < 12 {
      MonthsAscend(dt.year, dt.month, 12);
    }
  }

  /** Year, then month, then day. */
  predicate Before(a: Date, b: Date) {
    a.year < b.year
    || (a.year == b.year && a.month < b.month)
    || (a.year == b.year && a.month == b.month && a.day < b.day)
  }

  /** Calendar order is day-number order, so different valid dates have different numbers. */
  lemma DayNumberOrder(a: Date, b: Date)
    requires Valid(a) && Valid(b)
    ensures Before(a, b) <==> DayNumber(a) < DayNumber(b)
    ensures a == b <==> DayNumber(a) == DayNumber(b)
  {
    if Before(a, b) {
      BeforeNumber(a, b);
    } else if Before(b, a) {
      BeforeNumber(b, a);
    }
  }

  lemma BeforeNumber(a: Date, b: Date)
    requires Valid(a) && Valid(b) && Before(a, b)
    ensures DayNumber(a) < DayNumber(b)
  {
    if a.year < b.year {
      InYear(a);
      InYear(b);
      DaysBeforeYearMonotone(a.year + 1, b.year);
    } else if a.month < b.month {
      MonthsAscend(a.year, a.month, b.month);
    }
  }

  /** The next calendar day. */
  function NextDay(dt: Date): (r: Date)
    requires Valid(dt)
    ensures Valid(r) && DayNumber(r) == DayNumber(dt) + 1
  {
    if dt.day < DaysInMonth(dt.year, dt.month) then dt.(day := dt.day + 1)
    else if dt.month < 12 then
      MonthStep(dt.year, dt.month);
      Date(dt.year, dt.month + 1, 1)
    else
      YearStep(dt.year);
      YearLength(dt.year);
      Date(dt.year + 1, 1, 1)
  }

  /** The previous calendar day. */
  function PrevDay(dt: Date): (r: Date)
    requires Valid(dt)
    ensures Valid(r) && DayNumber(r) == DayNumber(dt) - 1
  {
    if dt.day > 1 then dt.(day := dt.day - 1)
    else if dt.month > 1 then
      MonthStep(dt.year, dt.month - 1);
      Date(dt.year, dt.month - 1, DaysInMonth(dt.year, dt.month - 1))
    else
      YearStep(dt.year - 1);
      YearLength(dt.year - 1);
      Date(dt.year - 1, 12, 31)
  }

  /** date-fns `addDays` on a noon instant: `k` calendar days later (earlier when negative). */
  function AddDays(dt: Date, k: int): (r: Date)
    requires Valid(dt)
    ensures Valid(r) && DayNumber(r) == DayNumber(dt) + k
    decreases if k >= 0 then k else -k
  {
    if k == 0 then dt
    else if k > 0 then AddDays(NextDay(dt), k - 1)
    else AddDays(PrevDay(dt), k + 1)
  }
}
