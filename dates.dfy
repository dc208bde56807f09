/** Calendar dates and local date-times as `DateTime` holds them (Gregorian
    calendar, years 1 to 9999), the `yyyyMMdd` and `yyyy-MM-dd` formats, the
    strict `yyyyMMdd` parse, and `AddDays(1)`. */
module Dates {
  import opened Wrappers
  import opened Strings

  datatype Date = Date(year: int, month: int, day: int)

  predicate IsLeapYear(y: int) {
    y % 4 == 0 && (y % 100 != 0 || y % 400 == 0)
  }

  function DaysInMonth(y: int, m: int): int {
    if m == 2 then (if IsLeapYear(y) then 29 else 28)
    else if m == 4 || m == 6 || m == 9 || m == 11 then 30
    else 31
  }

  predicate ValidDate(d: Date) {
    1 <= d.year <= 9999 && 1 <= d.month <= 12 && 1 <= d.day <= DaysInMonth(d.year, d.month)
  }

  /** Calendar order on dates. */
  predicate DateBefore(a: Date, b: Date) {
    || a.year < b.year
    || (a.year == b.year && a.month < b.month)
    || (a.year == b.year && a.month == b.month && a.day < b.day)
  }

  predicate DateAtOrBefore(a: Date, b: Date) {
    a == b || DateBefore(a, b)
  }

  const TicksPerDay: int := 864_000_000_000

  /** A local date and time: the date and the 100-nanosecond ticks since midnight. */
  datatype DateTime = DateTime(date: Date, ticks: int)

  predicate ValidDateTime(t: DateTime) {
    ValidDate(t.date) && 0 <= t.ticks < TicksPerDay
  }

  /** `a <= b` on `DateTime`. */
  predicate AtOrBefore(a: DateTime, b: DateTime) {
    DateBefore(a.date, b.date) || (a.date == b.date && a.ticks <= b.ticks)
  }

  function Midnight(d: Date): DateTime {
    DateTime(d, 0)
  }

  const LastDate: Date := Date(9999, 12, 31)

  /** `AddDays(1)`: the next calendar day; beyond the last representable day
      `DateTime` throws (None). */
  function NextDay(d: Date): (r: Option<Date>)
    requires ValidDate(d)
    ensures r.None? <==> d == LastDate
    ensures r.Some? ==> ValidDate(r.value) && DateBefore(d, r.value)
  {
    if d.day < DaysInMonth(d.year, d.month) then Some(Date(d.year, d.month, d.day + 1))
    else if d.month < 12 then Some(Date(d.year, d.month + 1, 1))
    else if d.year < 9999 then Some(Date(d.year + 1, 1, 1))
    else None
  }

  /** No valid date lies strictly between a day and the next one. */
  lemma NextDayIsSuccessor(d: Date, e: Date)
    requires ValidDate(d) && ValidDate(e) && d != LastDate
    ensures DateBefore(e, NextDay(d).value) <==> DateAtOrBefore(e, d)
  {
  }

  /** The last `n` decimal digits of `v`, zero-padded (`yyyy`, `MM`, `dd`). */
  function PadDigits(v: nat, n: nat): (r: string)
    ensures |r| == n && AllDigits(r)
  {
    if n == 0 then "" else PadDigits(v / 10, n - 1) + [DigitChar(v % 10)]
  }

  function Pow10(n: nat): nat {
    if n == 0 then 1 else 10 * Pow10(n - 1)
  }

  lemma {:induction false} PadDigitsValue(v: nat, n: nat)
    requires v < Pow10(n)
    ensures DigitsValue(PadDigits(v, n)) == v
  {
    if n > 0 {
      PadDigitsValue(v / 10, n - 1);
      var r := PadDigits(v, n);
      assert r[..n - 1] == PadDigits(v / 10, n - 1);
    }
  }

  lemma {:induction false} DigitsPadValue(s: string)
    requires AllDigits(s)
    ensures PadDigits(DigitsValue(s), |s|) == s
  {
    if |s| > 0 {
      DigitsPadValue(s[..|s| - 1]);
      assert s == s[..|s| - 1] + [s[|s| - 1]];
    }
  }

  /** `ToString("yyyyMMdd")`. */
  function FormatCompact(d: Date): (r: string)
    requires ValidDate(d)
    ensures |r| == 8 && AllDigits(r)
  {
    PadDigits(d.year, 4) + PadDigits(d.month, 2) + PadDigits(d.day, 2)
  }

  /** `ToString("yyyy-MM-dd")`. */
  function FormatIso(d: Date): (r: string)
    requires ValidDate(d)
    ensures |r| == 10
  {
    PadDigits(d.year, 4) + "-" + PadDigits(d.month, 2) + "-" + PadDigits(d.day, 2)
  }

  /** `DateTime.TryParseExact(s, "yyyyMMdd", ...)`: exactly eight ASCII digits
      naming a valid date, nothing around them. */
  function ParseCompact(s: string): (r: Option<Date>)
    ensures r.Some? ==> ValidDate(r.value)
  {
    if |s| == 8 && AllDigits(s) then
      var d := Date(DigitsValue(s[..4]), DigitsValue(s[4..6]), DigitsValue(s[6..]));
      if ValidDate(d) then Some(d) else None
    else None
  }

  /** Parsing a formatted date gives the date back. */
  lemma FormatThenParse(d: Date)
    requires ValidDate(d)
    ensures ParseCompact(FormatCompact(d)) == Some(d)
  {
    var s := FormatCompact(d);
    assert s[..4] == PadDigits(d.year, 4);
    assert s[4..6] == PadDigits(d.month, 2);
    assert s[6..] == PadDigits(d.day, 2);
    PadDigitsValue(d.year, 4);
    PadDigitsValue(d.month, 2);
    PadDigitsValue(d.day, 2);
  }

  /** A string that parses is the formatted form of what it parses to. */
  lemma ParseThenFormat(s: string)
    requires ParseCompact(s).Some?
    ensures FormatCompact(ParseCompact(s).value) == s
  {
    DigitsPadValue(s[..4]);
    DigitsPadValue(s[4..6]);
    DigitsPadValue(s[6..]);
    assert s == s[..4] + s[4..6] + s[6..];
  }

  /** Two valid dates with the same `yyyy-MM-dd` key are the same date. */
  lemma FormatIsoInjective(a: Date, b: Date)
    requires ValidDate(a) && ValidDate(b)
    requires FormatIso(a) == FormatIso(b)
    ensures a == b
  {
    var s := FormatIso(a);
    assert s[..4] == PadDigits(a.year, 4) == PadDigits(b.year, 4);
    assert s[5..7] == PadDigits(a.month, 2) == PadDigits(b.month, 2);
    assert s[8..] == PadDigits(a.day, 2) == PadDigits(b.day, 2);
    PadDigitsValue(a.year, 4);
    PadDigitsValue(b.year, 4);
    PadDigitsValue(a.month, 2);
    PadDigitsValue(b.month, 2);
    PadDigitsValue(a.day, 2);
    PadDigitsValue(b.day, 2);
  }

  /** The window `start <= t <= end.AddDays(1)` holds for a date-time exactly
      when its day lies from `start` through `end`, or it is midnight of the
      day after `end`. */
  lemma WindowByDay(t: DateTime, start: Date, end: Date)
    requires ValidDateTime(t) && ValidDate(start) && ValidDate(end) && end != LastDate
    requires DateAtOrBefore(start, end)
    ensures AtOrBefore(Midnight(start), t) && AtOrBefore(t, Midnight(NextDay(end).value))
        <==> (DateAtOrBefore(start, t.date) && DateAtOrBefore(t.date, end))
             || t == Midnight(NextDay(end).value)
  {
    NextDayIsSuccessor(end, t.date);
    NextDayIsSuccessor(end, start);
  }
}
