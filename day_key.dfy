/**
 * Day keys "YYYY-MM-DD" as src/app/api/readings/route.ts handles them: the format test
 * `DAY_KEY_REGEX`, the parse `new Date(key + "T12:00:00Z")`, and the format
 * `toISOString().split("T")[0]`.
 */
module DayKey {
  import opened Wrappers
  import opened CivilDate
  import Lex

  predicate IsDigit(c: char) {
    '0' <= c <= '9'
  }

  function DigitValue(c: char): int {
    c as int - '0' as int
  }

  function DigitChar(d: int): (c: char)
    requires 0 <= d < 10
    ensures IsDigit(c) && DigitValue(c) == d
  {
    ('0' as int + d) as char
  }

  predicate AllDigits(s: string) {
    forall i :: 0 <= i < |s| ==> IsDigit(s[i])
  }

  /** The decimal value of a string of digits. */
  function Value(s: string): (v: int)
    requires AllDigits(s)
    ensures v >= 0
  {
    if s == [] then 0 else 10 * Value(s[..|s| - 1]) + DigitValue(s[|s| - 1])
  }

  /** `DAY_KEY_REGEX`, `/^\d{4}-\d{2}-\d{2}$/`: `\d` is an ASCII digit. */
  predicate DayKeyFormat(s: string) {
    && |s| == 10
    && AllDigits(s[..4]) && s[4] == '-' && AllDigits(s[5..7]) && s[7] == '-' && AllDigits(s[8..])
  }

  /** The three numbers written in a well-formed key, whatever their range. */
  function Fields(s: string): (dt: Date)
    requires DayKeyFormat(s)
    ensures 0 <= dt.year <= 9999 && 0 <= dt.month <= 99 && 0 <= dt.day <= 99
  {
    ValueBound(s[..4]);
    ValueBound(s[5..7]);
    ValueBound(s[8..]);
    Date(Value(s[..4]), Value(s[5..7]), Value(s[8..]))
  }

  function Pow10(n: nat): (p: nat)
    ensures p >= 1
  {
    if n == 0 then 1 else 10 * Pow10(n - 1)
  }

  lemma Pow10Values()
    ensures Pow10(2) == 100 && Pow10(4) == 10000 && Pow10(6) == 1000000
  {
    assert Pow10(2) == 100;
    assert Pow10(4) == 10000;
  }

  lemma {:induction false} ValueBound(s: string)
    requires AllDigits(s)
    ensures Value(s) < Pow10(|s|)
  {
    if s != [] {
      ValueBound(s[..|s| - 1]);
    }
  }

  /** "±YYYYYY-MM-DD": the extended-year form of `toISOString`. */
  predicate ExtendedFormat(s: string) {
    && |s| == 13 && (s[0] == '+' || s[0] == '-')
    && AllDigits(s[1..7]) && s[7] == '-' && AllDigits(s[8..10]) && s[10] == '-' && AllDigits(s[11..])
  }

  /**
   * The date `new Date(text + "T12:00:00Z")` denotes, for the texts this route builds:
   * "YYYY-MM-DD", or "±YYYYYY-MM-DD" ("-000000" is refused). A month outside 1..12 or a
   * day outside 1..31 gives an invalid date; a day past the end of its month runs on into
   * the next month, as V8 computes it.
   */
  function ParseNoon(s: string): (r: Option<Date>)
    ensures r.Some? ==> Valid(r.value)
  {
    if DayKeyFormat(s) then
      var f := Fields(s);
      MakeDate(f.year, f.month, f.day)
    else if ExtendedFormat(s) && !(s[0] == '-' && Value(s[1..7]) == 0) then
      var magnitude := Value(s[1..7]);
      MakeDate(if s[0] == '-' then -magnitude else magnitude, Value(s[8..10]), Value(s[11..]))
    else None
  }

  /** `MakeDay` of the year, month and day, rejecting fields out of their ranges. */
  function MakeDate(y: int, m: int, d: int): (r: Option<Date>)
    ensures r.Some? <==> 1 <= m <= 12 && 1 <= d <= 31
    ensures r.Some? ==> Valid(r.value) && DayNumber(r.value) == DayNumber(Date(y, m, 1)) + d - 1
    ensures r.Some? && Valid(Date(y, m, d)) ==> r.value == Date(y, m, d)
  {
    if 1 <= m <= 12 && 1 <= d <= 31 then
      var r := AddDays(Date(y, m, 1), d - 1);
      if Valid(Date(y, m, d)) then
        DayNumberOrder(r, Date(y, m, d));
        Some(r)
      else Some(r)
    else None
  }

  /** The last `w` digits of `n`, zero-padded. */
  function Digits(n: nat, w: nat): (s: string)
    ensures |s| == w && AllDigits(s)
  {
    if w == 0 then [] else Digits(n / 10, w - 1) + [DigitChar(n % 10)]
  }

  lemma {:induction false} DigitsValue(n: nat, w: nat)
    requires n < Pow10(w)
    ensures Value(Digits(n, w)) == n
  {
    if w > 0 {
      DigitsValue(n / 10, w - 1);
      var s := Digits(n, w);
      assert s[..w - 1] == Digits(n / 10, w - 1);
    }
  }

  /** The year as `toISOString` writes it: four digits in 0..9999, else a sign and six. */
  function YearText(y: int): (s: string)
    ensures 0 <= y <= 9999 ==> |s| == 4
    ensures !(0 <= y <= 9999) ==> |s| == 7
  {
    if 0 <= y <= 9999 then Digits(y, 4)
    else (if y < 0 then "-" else "+") + Digits(if y < 0 then -y else y, 6)
  }

  /** `toISOString().split("T")[0]` of a noon instant on `dt`. */
  function Format(dt: Date): (s: string)
    requires Valid(dt)
    ensures 0 <= dt.year <= 9999 ==> DayKeyFormat(s)
  {
    YearText(dt.year) + MonthDayText(dt)
  }

  /** "-MM-DD". */
  function MonthDayText(dt: Date): string
    requires Valid(dt)
  {
    "-" + Digits(dt.month, 2) + "-" + Digits(dt.day, 2)
  }

  /** The tail "-MM-DD" of a formatted key reads back as the month and day. */
  lemma FormatTail(dt: Date, s: string)
    requires Valid(dt)
    requires s == "-" + Digits(dt.month, 2) + "-" + Digits(dt.day, 2)
    ensures s[1..3] == Digits(dt.month, 2) && s[4..] == Digits(dt.day, 2)
    ensures AllDigits(s[1..3]) && AllDigits(s[4..])
    ensures Value(s[1..3]) == dt.month && Value(s[4..]) == dt.day
  {
    assert s[1..3] == Digits(dt.month, 2);
    assert s[4..] == Digits(dt.day, 2);
    DigitsValue(dt.month, 2);
    DigitsValue(dt.day, 2);
  }

  /** Reading a formatted key back gives the same date, for every year `Date` can hold. */
  lemma ParseFormat(dt: Date)
    requires Valid(dt) && -999999 <= dt.year <= 999999
    ensures ParseNoon(Format(dt)) == Some(dt)
  {
    var tail := MonthDayText(dt);
    FormatTail(dt, tail);
    if 0 <= dt.year <= 9999 {
      ParseFormatShort(dt, tail);
    } else {
      ParseFormatLong(dt, tail);
    }
  }

  lemma ParseFormatShort(dt: Date, tail: string)
    requires Valid(dt) && 0 <= dt.year <= 9999
    requires tail == "-" + Digits(dt.month, 2) + "-" + Digits(dt.day, 2)
    requires Value(tail[1..3]) == dt.month && Value(tail[4..]) == dt.day
    ensures ParseNoon(Format(dt)) == Some(dt)
  {
    var s := Format(dt);
    assert s == Digits(dt.year, 4) + tail;
    assert s[..4] == Digits(dt.year, 4);
    assert s[5..7] == tail[1..3] && s[8..] == tail[4..];
    Pow10Values();
    DigitsValue(dt.year, 4);
    assert Fields(s) == dt;
  }

  lemma ParseFormatLong(dt: Date, tail: string)
    requires Valid(dt) && -999999 <= dt.year <= 999999 && !(0 <= dt.year <= 9999)
    requires tail == "-" + Digits(dt.month, 2) + "-" + Digits(dt.day, 2)
    requires Value(tail[1..3]) == dt.month && Value(tail[4..]) == dt.day
    requires AllDigits(tail[1..3]) && AllDigits(tail[4..])
    ensures ParseNoon(Format(dt)) == Some(dt)
  {
    var s := Format(dt);
    var m := if dt.year < 0 then -dt.year else dt.year;
    assert YearText(dt.year) == [if dt.year < 0 then '-' else '+'] + Digits(m, 6);
    Pow10Values();
    DigitsValue(m, 6);
    ParseLong(s, m, tail, dt);
  }

  /** An extended-year text with the parts of `dt` reads back as `dt`. */
  lemma ParseLong(s: string, m: nat, tail: string, dt: Date)
    requires Valid(dt) && !(0 <= dt.year <= 9999) && m == (if dt.year < 0 then -dt.year else dt.year)
    requires |tail| == 6 && tail[0] == '-' && tail[3] == '-'
    requires AllDigits(tail[1..3]) && AllDigits(tail[4..])
    requires Value(tail[1..3]) == dt.month && Value(tail[4..]) == dt.day
    requires |Digits(m, 6)| == 6 && Value(Digits(m, 6)) == m
    requires s == ([if dt.year < 0 then '-' else '+'] + Digits(m, 6)) + tail
    ensures ParseNoon(s) == Some(dt)
  {
    assert s[1..7] == Digits(m, 6);
    assert s[8..10] == tail[1..3] && s[11..] == tail[4..];
    assert ExtendedFormat(s);
  }

  /** One character: the smaller character comes first. */
  lemma LessSingle(x: char, y: char)
    ensures Lex.Less([x], [y]) <==> x < y
  {
    assert [x][1..] == [] && [y][1..] == [];
  }

  /** For digit strings of one length, text order is numeric order. */
  lemma {:induction false} DigitsLess(p: string, q: string)
    requires AllDigits(p) && AllDigits(q) && |p| == |q|
    ensures Lex.Less(p, q) <==> Value(p) < Value(q)
    ensures p == q <==> Value(p) == Value(q)
  {
    if p != [] {
      var n := |p| - 1;
      var pi, qi := p[..n], q[..n];
      DigitsLess(pi, qi);
      assert p == pi + [p[n]] && q == qi + [q[n]];
      Lex.LessConcat(pi, [p[n]], qi, [q[n]]);
      LessSingle(p[n], q[n]);
    }
  }

  /** Comparing from position `i` on: first the part up to `j`, then the rest. */
  lemma SplitLess(a: string, b: string, i: nat, j: nat)
    requires |a| == |b| && i <= j <= |a|
    ensures Lex.Less(a[i..], b[i..]) <==>
      Lex.Less(a[i..j], b[i..j]) || (a[i..j] == b[i..j] && Lex.Less(a[j..], b[j..]))
  {
    assert a[i..] == a[i..j] + a[j..] && b[i..] == b[i..j] + b[j..];
    Lex.LessConcat(a[i..j], a[j..], b[i..j], b[j..]);
  }

  /** Two well-formed keys compare as text exactly as their (year, month, day) compare. */
  lemma KeyOrder(a: string, b: string)
    requires DayKeyFormat(a) && DayKeyFormat(b)
    ensures Lex.Less(a, b) <==> Before(Fields(a), Fields(b))
  {
    assert a[0..] == a && b[0..] == b;
    SplitLess(a, b, 0, 4);
    SplitLess(a, b, 4, 5);
    SplitLess(a, b, 5, 7);
    SplitLess(a, b, 7, 8);
    assert a[0..4] == a[..4] && b[0..4] == b[..4];
    assert a[4..5] == b[4..5] && a[7..8] == b[7..8];
    Lex.Irreflexive(a[4..5]);
    Lex.Irreflexive(a[7..8]);
    DigitsLess(a[..4], b[..4]);
    DigitsLess(a[5..7], b[5..7]);
    DigitsLess(a[8..], b[8..]);
  }

  /**
   * For keys naming real dates, the route's text comparison `start > end` is the
   * comparison of the dates: text order is chronological order.
   */
  lemma LexIsChronological(a: string, b: string)
    requires DayKeyFormat(a) && DayKeyFormat(b) && Valid(Fields(a)) && Valid(Fields(b))
    ensures ParseNoon(a) == Some(Fields(a)) && ParseNoon(b) == Some(Fields(b))
    ensures Lex.Less(a, b) <==> DayNumber(Fields(a)) < DayNumber(Fields(b))
  {
    KeyOrder(a, b);
    DayNumberOrder(Fields(a), Fields(b));
  }

  /** The accepted key of the tests, and the five refused ones. */
  lemma FormatExamples()
    ensures DayKeyFormat("2026-01-05")
    ensures !DayKeyFormat("2026-1-05") && !DayKeyFormat("2026/01/05") && !DayKeyFormat("05-01-2026")
    ensures !DayKeyFormat("2026-01-05T00") && !DayKeyFormat("")
  {
    assert "05-01-2026"[..4] == "05-0" && !IsDigit("05-01-2026"[..4][2]);
  }

  /** The test is only about shape: "2026-13-45" passes it, but names no date. */
  lemma ShapeOnly()
    ensures DayKeyFormat("2026-13-45") && ParseNoon("2026-13-45") == None
  {
    var s := "2026-13-45";
    assert s[5..7] == "13";
    assert "13"[..1] == "1" && "1"[..0] == [];
    assert Value("13") == 13;
  }
}
