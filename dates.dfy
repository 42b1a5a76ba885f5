/** Calendar days as the cache uses them: `DateTime.Today`, the "ddMMyy"
    directory names written with `ToString("ddMMyy")` and read back with
    `DateTime.ParseExact(name, "ddMMyy", null)`, and whole-day differences. */
module Dates {
  import opened Wrappers
  import opened Numbers

  datatype Date = Date(year: int, month: int, day: int)

  predicate IsLeapYear(year: int) {
    year % 4 == 0 && (year % 100 != 0 || year % 400 == 0)
  }

  function DaysInMonth(year: int, month: int): (n: int)
    requires 1 <= month <= 12
    ensures 28 <= n <= 31
  {
    if month == 2 then (if IsLeapYear(year) then 29 else 28)
    else if month == 4 || month == 6 || month == 9 || month == 11 then 30
    else 31
  }

  /** A day of the Gregorian calendar that `DateTime` can hold. */
  predicate IsValid(d: Date) {
    1 <= d.year <= 9999 && 1 <= d.month <= 12 && 1 <= d.day <= DaysInMonth(d.year, d.month)
  }

  /** The years a two-digit year can stand for: the calendar's default
      two-digit-year maximum is 2049. */
  predicate InTwoDigitWindow(d: Date) {
    1950 <= d.year <= 2049
  }

  function TwoDigits(n: int): (s: string)
    requires 0 <= n < 100
    ensures |s| == 2 && AllDigits(s)
  {
    [DigitChar(n / 10), DigitChar(n % 10)]
  }

  function TwoDigitValue(s: string): (n: int)
    requires |s| == 2 && AllDigits(s)
    ensures 0 <= n < 100
  {
    10 * DigitValue(s[0]) + DigitValue(s[1])
  }

  /** `ToString("ddMMyy")`: day, month and year modulo 100, two digits each. */
  function Format(d: Date): (s: string)
    requires IsValid(d)
    ensures |s| == 6 && AllDigits(s)
  {
    TwoDigits(d.day) + TwoDigits(d.month) + TwoDigits(d.year % 100)
  }

  /** `Calendar.ToFourDigitYear` with maximum 2049: 00..49 are 2000..2049, 50..99 are 1950..1999. */
  function FourDigitYear(yy: int): (year: int)
    requires 0 <= yy < 100
    ensures 1950 <= year <= 2049 && year % 100 == yy
  {
    if yy <= 49 then 2000 + yy else 1900 + yy
  }

  /** `DateTime.ParseExact(s, "ddMMyy", null)`: exactly six digits naming an
      existing day; anything else is a format error (`None`). */
  function Parse(s: string): (r: Option<Date>)
    ensures r.Some? ==> IsValid(r.value) && InTwoDigitWindow(r.value)
  {
    if |s| != 6 || !AllDigits(s) then None
    else
      var day := TwoDigitValue(s[0..2]);
      var month := TwoDigitValue(s[2..4]);
      var year := FourDigitYear(TwoDigitValue(s[4..6]));
      if 1 <= month <= 12 && 1 <= day <= DaysInMonth(year, month)
      then Some(Date(year, month, day))
      else None
  }

  lemma TwoDigitsRoundTrip(n: int)
    requires 0 <= n < 100
    ensures TwoDigitValue(TwoDigits(n)) == n
  {
  }

  lemma {:induction false} TwoDigitValueRoundTrip(s: string)
    requires |s| == 2 && AllDigits(s)
    ensures TwoDigits(TwoDigitValue(s)) == s
  {
    var n := TwoDigitValue(s);
    assert n / 10 == DigitValue(s[0]) && n % 10 == DigitValue(s[1]);
  }

  /** A directory named after a day in the two-digit window reads back as that day. */
  lemma ParseFormat(d: Date)
    requires IsValid(d) && InTwoDigitWindow(d)
    ensures Parse(Format(d)) == Some(d)
  {
    var s := Format(d);
    assert s[0..2] == TwoDigits(d.day) && s[2..4] == TwoDigits(d.month) && s[4..6] == TwoDigits(d.year % 100);
    TwoDigitsRoundTrip(d.day);
    TwoDigitsRoundTrip(d.month);
    TwoDigitsRoundTrip(d.year % 100);
  }

  /** Whatever parses is exactly the name of the day it parses to. */
  lemma FormatParse(s: string)
    requires Parse(s).Some?
    ensures Format(Parse(s).value) == s
  {
    var d := Parse(s).value;
    TwoDigitValueRoundTrip(s[0..2]);
    TwoDigitValueRoundTrip(s[2..4]);
    TwoDigitValueRoundTrip(s[4..6]);
    assert s == s[0..2] + s[2..4] + s[4..6];
  }

  /** Both directions together: a name parses to `d` exactly when it is `d`'s name. */
  lemma ParseIff(s: string, d: Date)
    ensures Parse(s) == Some(d) <==> IsValid(d) && InTwoDigitWindow(d) && Format(d) == s
  {
    if Parse(s) == Some(d) {
      FormatParse(s);
    }
    if IsValid(d) && InTwoDigitWindow(d) && Format(d) == s {
      ParseFormat(d);
    }
  }

  function DaysBeforeYear(year: int): int
    requires year >= 1
  {
    var p := year - 1;
    365 * p + p / 4 - p / 100 + p / 400
  }

  function DaysBeforeMonth(year: int, month: int): (n: int)
    requires 1 <= month <= 12
    ensures n >= 0
  {
    if month == 1 then 0 else DaysBeforeMonth(year, month - 1) + DaysInMonth(year, month - 1)
  }

  /** Days since 0001-01-01: `DateTime.Ticks` of midnight divided by a day's ticks. */
  function DayNumber(d: Date): int
    requires IsValid(d)
  {
    DaysBeforeYear(d.year) + DaysBeforeMonth(d.year, d.month) + d.day - 1
  }

  /** `(today - date).TotalDays` for two midnights. */
  function AgeInDays(today: Date, d: Date): int
    requires IsValid(today) && IsValid(d)
  {
    DayNumber(today) - DayNumber(d)
  }

  /** Calendar order of days. */
  predicate Before(a: Date, b: Date) {
    a.year < b.year || (a.year == b.year && (a.month < b.month || (a.month == b.month && a.day < b.day)))
  }

  lemma DaysBeforeDecember(year: int)
    ensures DaysBeforeMonth(year, 12) == if IsLeapYear(year) then 335 else 334
  {
    var feb := if IsLeapYear(year) then 29 else 28;
    assert DaysBeforeMonth(year, 2) == 31;
    assert DaysBeforeMonth(year, 3) == 31 + feb;
    assert DaysBeforeMonth(year, 4) == 62 + feb;
    assert DaysBeforeMonth(year, 5) == 92 + feb;
    assert DaysBeforeMonth(year, 6) == 123 + feb;
    assert DaysBeforeMonth(year, 7) == 153 + feb;
    assert DaysBeforeMonth(year, 8) == 184 + feb;
    assert DaysBeforeMonth(year, 9) == 215 + feb;
    assert DaysBeforeMonth(year, 10) == 245 + feb;
    assert DaysBeforeMonth(year, 11) == 276 + feb;
  }

  lemma YearLength(year: int)
    requires year >= 1
    ensures DaysBeforeYear(year + 1) == DaysBeforeYear(year) + DaysBeforeMonth(year, 12) + 31
  {
    var a, b, c := year / 4 - (year - 1) / 4, year / 100 - (year - 1) / 100, year / 400 - (year - 1) / 400;
    assert DaysBeforeYear(year + 1) - DaysBeforeYear(year) == 365 + a - b + c;
    DivStep(year, 4);
    DivStep(year, 100);
    DivStep(year, 400);
    DivisibleChain(year);
    assert a - b + c == if IsLeapYear(year) then 1 else 0;
    DaysBeforeDecember(year);
  }

  /** A multiple of 400 is one of 100, and a multiple of 100 is one of 4. */
  lemma DivisibleChain(year: int)
    ensures year % 400 == 0 ==> year % 100 == 0
    ensures year % 100 == 0 ==> year % 4 == 0
  {
    if year % 400 == 0 {
      var q := year / 400;
      assert year == 400 * q;
      assert year / 100 == 4 * q;
    }
    if year % 100 == 0 {
      var q := year / 100;
      assert year == 100 * q;
      assert year / 4 == 25 * q;
    }
  }

  /** Going from `year - 1` to `year` passes a multiple of `k` exactly when `year` is one. */
  lemma DivStep(year: int, k: int)
    requires year >= 1 && (k == 4 || k == 100 || k == 400)
    ensures year / k - (year - 1) / k == if year % k == 0 then 1 else 0
  {
    if k == 4 {
      assert year / 4 - (year - 1) / 4 == if year % 4 == 0 then 1 else 0;
    } else if k == 100 {
      assert year / 100 - (year - 1) / 100 == if year % 100 == 0 then 1 else 0;
    } else {
      assert year / 400 - (year - 1) / 400 == if year % 400 == 0 then 1 else 0;
    }
  }

  lemma {:induction false} MonthsIncrease(year: int, m1: int, m2: int)
    requires 1 <= m1 < m2 <= 12
    ensures DaysBeforeMonth(year, m1) + DaysInMonth(year, m1) <= DaysBeforeMonth(year, m2)
    decreases m2 - m1
  {
    if m1 + 1 < m2 {
      MonthsIncrease(year, m1 + 1, m2);
    }
  }

  lemma {:induction false} YearsIncrease(y1: int, y2: int)
    requires 1 <= y1 < y2
    ensures DaysBeforeYear(y1) + DaysBeforeMonth(y1, 12) + 31 <= DaysBeforeYear(y2)
    decreases y2 - y1
  {
    YearLength(y1);
    if y1 + 1 < y2 {
      YearsIncrease(y1 + 1, y2);
      YearLength(y1 + 1);
    }
  }

  /** Day numbers follow the calendar: an earlier day has a smaller number. */
  lemma DayNumberMonotone(a: Date, b: Date)
    requires IsValid(a) && IsValid(b) && Before(a, b)
    ensures DayNumber(a) < DayNumber(b)
  {
    if a.year < b.year {
      if a.month < 12 {
        MonthsIncrease(a.year, a.month, 12);
      }
      YearsIncrease(a.year, b.year);
    } else if a.month < b.month {
      MonthsIncrease(a.year, a.month, b.month);
    }
  }
}
