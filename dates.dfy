/** Proleptic Gregorian dates as Python's datetime.date has them (years 1..9999),
    their order, day ordinals, the one-day step, and the strftime/strptime formats
    the core uses. */
module Dates {
  import opened Outcomes

  datatype Date = Date(year: int, month: int, day: int)

  const MinYear := 1
  const MaxYear := 9999

  /** date.max; adding a day to it overflows. */
  const LastDate := Date(9999, 12, 31)

  predicate IsLeapYear(y: int)
  {
    y % 4 == 0 && (y % 100 != 0 || y % 400 == 0)
  }

  function DaysInMonth(y: int, m: int): (n: int)
    ensures 28 <= n <= 31
  {
    if m == 2 then (if IsLeapYear(y) then 29 else 28)
    else if m == 4 || m == 6 || m == 9 || m == 11 then 30
    else 31
  }

  predicate Valid(d: Date)
  {
    MinYear <= d.year <= MaxYear && 1 <= d.month <= 12 && 1 <= d.day <= DaysInMonth(d.year, d.month)
  }

  /** Python's `a < b` on dates: lexicographic on (year, month, day). */
  predicate Before(a: Date, b: Date)
  {
    a.year < b.year || (a.year == b.year && (a.month < b.month || (a.month == b.month && a.day < b.day)))
  }

  /** Python's `a <= b` on dates. */
  predicate NotAfter(a: Date, b: Date)
  {
    !Before(b, a)
  }

  // ---------------------------------------------------------------------------
  // Ordinals (date.toordinal(): 0001-01-01 is day 1)

  function DaysBeforeMonth(y: int, m: int): nat
    requires 1 <= m <= 13
  {
    if m == 1 then 0 else DaysBeforeMonth(y, m - 1) + DaysInMonth(y, m - 1)
  }

  function DaysInYear(y: int): nat
  {
    if IsLeapYear(y) then 366 else 365
  }

  /** The months of a year add up to its length. */
  lemma MonthsMakeYear(y: int)
    ensures DaysBeforeMonth(y, 13) == DaysInYear(y)
  {
    assert DaysBeforeMonth(y, 2) == 31;
    assert DaysBeforeMonth(y, 4) == DaysBeforeMonth(y, 3) + 31 == 62 + DaysInMonth(y, 2);
    assert DaysBeforeMonth(y, 6) == DaysBeforeMonth(y, 5) + 31 == DaysBeforeMonth(y, 4) + 61;
    assert DaysBeforeMonth(y, 8) == DaysBeforeMonth(y, 7) + 31 == DaysBeforeMonth(y, 6) + 61;
    assert DaysBeforeMonth(y, 10) == DaysBeforeMonth(y, 9) + 30 == DaysBeforeMonth(y, 8) + 61;
    assert DaysBeforeMonth(y, 12) == DaysBeforeMonth(y, 11) + 30 == DaysBeforeMonth(y, 10) + 61;
  }

  function DaysBeforeYear(y: int): nat
  {
    if y <= 1 then 0 else DaysBeforeYear(y - 1) + DaysInYear(y - 1)
  }

  function Ordinal(d: Date): int
    requires Valid(d)
  {
    DaysBeforeYear(d.year) + DaysBeforeMonth(d.year, d.month) + d.day
  }

  lemma {:induction false} DaysBeforeMonthGrows(y: int, m1: int, m2: int)
    requires 1 <= m1 < m2 <= 13
    ensures DaysBeforeMonth(y, m1) + DaysInMonth(y, m1) <= DaysBeforeMonth(y, m2)
    decreases m2
  {
    if m2 > m1 + 1 {
      DaysBeforeMonthGrows(y, m1, m2 - 1);
    }
  }

  lemma {:induction false} DaysBeforeYearGrows(y1: int, y2: int)
    requires 1 <= y1 < y2
    ensures DaysBeforeYear(y1) + DaysInYear(y1) <= DaysBeforeYear(y2)
    decreases y2
  {
    if y2 > y1 + 1 {
      DaysBeforeYearGrows(y1, y2 - 1);
    }
  }

  /** A date's ordinal lies inside its own year. */
  lemma OrdinalInYear(d: Date)
    requires Valid(d)
    ensures DaysBeforeYear(d.year) < Ordinal(d) <= DaysBeforeYear(d.year) + DaysInYear(d.year)
  {
    MonthsMakeYear(d.year);
    if d.month < 12 {
      DaysBeforeMonthGrows(d.year, d.month, 13);
    }
  }

  /** The lexicographic order of dates is the order of their ordinals. */
  lemma BeforeIffOrdinal(a: Date, b: Date)
    requires Valid(a) && Valid(b)
    ensures Before(a, b) <==> Ordinal(a) < Ordinal(b)
  {
    if a.year < b.year {
      OrdinalInYear(a); OrdinalInYear(b);
      DaysBeforeYearGrows(a.year, b.year);
    } else if b.year < a.year {
      OrdinalInYear(a); OrdinalInYear(b);
      DaysBeforeYearGrows(b.year, a.year);
    } else if a.month < b.month {
      DaysBeforeMonthGrows(a.year, a.month, b.month);
    } else if b.month < a.month {
      DaysBeforeMonthGrows(a.year, b.month, a.month);
    }
  }

  /** Distinct valid dates have distinct ordinals. */
  lemma OrdinalInjective(a: Date, b: Date)
    requires Valid(a) && Valid(b) && Ordinal(a) == Ordinal(b)
    ensures a == b
  {
    BeforeIffOrdinal(a, b);
    BeforeIffOrdinal(b, a);
  }

  // ---------------------------------------------------------------------------
  // The one-day step

  /** The Gregorian successor of a date other than date.max. */
  function NextDay(d: Date): (r: Date)
    requires Valid(d) && d != LastDate
    ensures Valid(r) && Ordinal(r) == Ordinal(d) + 1
  {
    if d.day < DaysInMonth(d.year, d.month) then Date(d.year, d.month, d.day + 1)
    else if d.month < 12 then Date(d.year, d.month + 1, 1)
    else
      MonthsMakeYear(d.year);
      Date(d.year + 1, 1, 1)
  }

  /** `d + timedelta(days=1)`: OverflowError past date.max. */
  function AddOneDay(d: Date): (r: Result<Date, Error>)
    requires Valid(d)
    ensures r.Err? <==> d == LastDate
    ensures r.Err? ==> r.error == OtherError(OverflowError)
    ensures r.Ok? ==> Valid(r.value) && Ordinal(r.value) == Ordinal(d) + 1
  {
    if d == LastDate then Err(OtherError(OverflowError)) else Ok(NextDay(d))
  }

  /** The dates from `from` through `to` inclusive, one day apart. */
  function DateRange(from: Date, to: Date): seq<Date>
    requires Valid(from) && Valid(to)
    decreases Ordinal(to) - Ordinal(from)
  {
    if Before(to, from) then []
    else if from == to then [from]
    else
      BeforeIffOrdinal(from, to);
      [from] + DateRange(NextDay(from), to)
  }

  /** The walk is complete, strictly increasing by one day, and has to - from + 1 dates. */
  lemma {:induction false} DateRangeSpec(from: Date, to: Date)
    requires Valid(from) && Valid(to)
    ensures |DateRange(from, to)| == if Before(to, from) then 0 else Ordinal(to) - Ordinal(from) + 1
    ensures forall i :: 0 <= i < |DateRange(from, to)| ==>
              Valid(DateRange(from, to)[i]) && Ordinal(DateRange(from, to)[i]) == Ordinal(from) + i
    ensures DateRange(from, to) != [] ==>
              DateRange(from, to)[0] == from && DateRange(from, to)[|DateRange(from, to)| - 1] == to
    decreases Ordinal(to) - Ordinal(from)
  {
    BeforeIffOrdinal(to, from);
    if Before(to, from) {
    } else if from == to {
    } else {
      BeforeIffOrdinal(from, to);
      var next := NextDay(from);
      DateRangeSpec(next, to);
      var rest := DateRange(next, to);
      assert DateRange(from, to) == [from] + rest;
      if rest != [] {
        OrdinalInjective(rest[|rest| - 1], to);
      }
    }
  }

  /** Consecutive dates of the walk are one day apart. */
  lemma DateRangeSteps(from: Date, to: Date, i: int)
    requires Valid(from) && Valid(to)
    requires 0 < i < |DateRange(from, to)|
    ensures Valid(DateRange(from, to)[i - 1]) && DateRange(from, to)[i - 1] != LastDate
    ensures DateRange(from, to)[i] == NextDay(DateRange(from, to)[i - 1])
  {
    DateRangeSpec(from, to);
    var r := DateRange(from, to);
    BeforeIffOrdinal(r[i - 1], LastDate);
    BeforeIffOrdinal(r[i], LastDate);
    assert r[i - 1] != LastDate;
    OrdinalInjective(r[i], NextDay(r[i - 1]));
  }

  /** Unrolling the walk by one day: the step the aggregator's loop takes. */
  lemma DateRangeUnroll(from: Date, to: Date)
    requires Valid(from) && Valid(to) && NotAfter(from, to) && from != LastDate
    ensures DateRange(from, to) == [from] + DateRange(NextDay(from), to)
  {
    if from == to {
      assert Before(to, NextDay(from)) by { BeforeIffOrdinal(to, NextDay(from)); }
    }
  }

  // ---------------------------------------------------------------------------
  // strftime / strptime

  /** Python 2's datetime.strftime refuses years before 1900. */
  predicate StrftimeSupported(d: Date)
  {
    d.year >= 1900
  }

  predicate IsDigit(c: char)
  {
    '0' <= c <= '9'
  }

  predicate AllDigits(s: string)
  {
    forall i :: 0 <= i < |s| ==> IsDigit(s[i])
  }

  function Digit(n: int): (c: char)
    requires 0 <= n <= 9
    ensures IsDigit(c)
  {
    ('0' as int + n) as char
  }

  function DigitValue(c: char): (n: int)
    requires IsDigit(c)
    ensures 0 <= n <= 9
  {
    c as int - '0' as int
  }

  /** Zero-padded two-digit field (%d, %m, %y). */
  function Pad2(n: int): (s: string)
    requires 0 <= n < 100
    ensures |s| == 2 && AllDigits(s)
  {
    [Digit(n / 10), Digit(n % 10)]
  }

  /** Zero-padded four-digit field (%Y). */
  function Pad4(n: int): (s: string)
    requires 0 <= n < 10000
    ensures |s| == 4 && AllDigits(s)
  {
    Pad2(n / 100) + Pad2(n % 100)
  }

  function Value2(s: string): (n: int)
    requires |s| == 2 && AllDigits(s)
    ensures 0 <= n < 100
  {
    10 * DigitValue(s[0]) + DigitValue(s[1])
  }

  function Value4(s: string): (n: int)
    requires |s| == 4 && AllDigits(s)
    ensures 0 <= n < 10000
  {
    100 * Value2(s[0..2]) + Value2(s[2..4])
  }

  lemma Pad2RoundTrip(n: int)
    requires 0 <= n < 100
    ensures Value2(Pad2(n)) == n
  {
  }

  lemma Pad4RoundTrip(n: int)
    requires 0 <= n < 10000
    ensures Value4(Pad4(n)) == n
  {
    var s := Pad4(n);
    assert s[0..2] == Pad2(n / 100) && s[2..4] == Pad2(n % 100);
    Pad2RoundTrip(n / 100);
    Pad2RoundTrip(n % 100);
  }

  lemma Value2RoundTrip(s: string)
    requires |s| == 2 && AllDigits(s)
    ensures Pad2(Value2(s)) == s
  {
  }

  lemma Value4RoundTrip(s: string)
    requires |s| == 4 && AllDigits(s)
    ensures Pad4(Value4(s)) == s
  {
    var hi, lo := Value2(s[0..2]), Value2(s[2..4]);
    assert Value4(s) / 100 == hi && Value4(s) % 100 == lo;
    Value2RoundTrip(s[0..2]);
    Value2RoundTrip(s[2..4]);
    assert s == s[0..2] + s[2..4];
  }

  /** `%d%m%y`: two-digit day, month and year modulo 100. */
  function FormatDDMMYY(d: Date): string
    requires Valid(d)
  {
    Pad2(d.day) + Pad2(d.month) + Pad2(d.year % 100)
  }

  /** `%Y%m%d`. */
  function FormatYYYYMMDD(d: Date): string
    requires Valid(d)
  {
    Pad4(d.year) + Pad2(d.month) + Pad2(d.day)
  }

  /** `%Y-%m-%d`, which is also `str(date)`. */
  function FormatIso(d: Date): string
    requires Valid(d)
  {
    Pad4(d.year) + "-" + Pad2(d.month) + "-" + Pad2(d.day)
  }

  /** `%d%m%y` is six digits whose fields read back as day, month and year mod 100. */
  lemma FormatDDMMYYFields(d: Date)
    requires Valid(d)
    ensures |FormatDDMMYY(d)| == 6 && AllDigits(FormatDDMMYY(d))
    ensures Value2(FormatDDMMYY(d)[0..2]) == d.day
    ensures Value2(FormatDDMMYY(d)[2..4]) == d.month
    ensures Value2(FormatDDMMYY(d)[4..6]) == d.year % 100
  {
    var s := FormatDDMMYY(d);
    assert s[0..2] == Pad2(d.day) && s[2..4] == Pad2(d.month) && s[4..6] == Pad2(d.year % 100);
    Pad2RoundTrip(d.day); Pad2RoundTrip(d.month); Pad2RoundTrip(d.year % 100);
  }

  /** `%Y%m%d` is eight digits whose fields read back as year, month and day. */
  lemma FormatYYYYMMDDFields(d: Date)
    requires Valid(d)
    ensures |FormatYYYYMMDD(d)| == 8 && AllDigits(FormatYYYYMMDD(d))
    ensures Value4(FormatYYYYMMDD(d)[0..4]) == d.year
    ensures Value2(FormatYYYYMMDD(d)[4..6]) == d.month
    ensures Value2(FormatYYYYMMDD(d)[6..8]) == d.day
  {
    var s := FormatYYYYMMDD(d);
    assert s[0..4] == Pad4(d.year) && s[4..6] == Pad2(d.month) && s[6..8] == Pad2(d.day);
    Pad4RoundTrip(d.year); Pad2RoundTrip(d.month); Pad2RoundTrip(d.day);
  }

  /** Two dates less than a century apart have different `%d%m%y` strings. */
  lemma FormatDDMMYYInjective(a: Date, b: Date)
    requires Valid(a) && Valid(b)
    requires -100 < a.year - b.year < 100
    requires FormatDDMMYY(a) == FormatDDMMYY(b)
    ensures a == b
  {
    FormatDDMMYYFields(a);
    FormatDDMMYYFields(b);
  }

  predicate IsoShaped(s: string)
  {
    |s| == 10 && s[4] == '-' && s[7] == '-' && AllDigits(s[0..4]) && AllDigits(s[5..7]) && AllDigits(s[8..10])
  }

  /** `datetime.strptime(s, '%Y-%m-%d').date()` on zero-padded input; ValueError otherwise. */
  function ParseIso(s: string): (r: Result<Date, Error>)
    ensures r.Ok? ==> Valid(r.value)
    ensures r.Err? ==> r.error == OtherError(ValueError)
  {
    if !IsoShaped(s) then Err(OtherError(ValueError))
    else
      var d := Date(Value4(s[0..4]), Value2(s[5..7]), Value2(s[8..10]));
      if Valid(d) then Ok(d) else Err(OtherError(ValueError))
  }

  /** Parsing what `str(date)` prints gives the date back. */
  lemma ParseFormatIso(d: Date)
    requires Valid(d)
    ensures ParseIso(FormatIso(d)) == Ok(d)
  {
    var s := FormatIso(d);
    assert s[0..4] == Pad4(d.year) && s[5..7] == Pad2(d.month) && s[8..10] == Pad2(d.day);
    Pad4RoundTrip(d.year); Pad2RoundTrip(d.month); Pad2RoundTrip(d.day);
  }

  /** A string that parses is exactly the formatting of its date. */
  lemma FormatParseIso(s: string)
    requires ParseIso(s).Ok?
    ensures FormatIso(ParseIso(s).value) == s
  {
    var d := ParseIso(s).value;
    Value4RoundTrip(s[0..4]); Value2RoundTrip(s[5..7]); Value2RoundTrip(s[8..10]);
    assert s == s[0..4] + "-" + s[5..7] + "-" + s[8..10];
  }

  /** A three-day walk inside one month (e.g. 2024-01-01 through 2024-01-03) is those three days in order. */
  lemma ThreeDayWalk(y: int, m: int)
    requires Valid(Date(y, m, 1))
    ensures DateRange(Date(y, m, 1), Date(y, m, 3)) == [Date(y, m, 1), Date(y, m, 2), Date(y, m, 3)]
  {
    assert NextDay(Date(y, m, 1)) == Date(y, m, 2);
    assert NextDay(Date(y, m, 2)) == Date(y, m, 3);
    assert DateRange(Date(y, m, 3), Date(y, m, 3)) == [Date(y, m, 3)];
    assert DateRange(Date(y, m, 2), Date(y, m, 3)) == [Date(y, m, 2), Date(y, m, 3)];
  }
}
