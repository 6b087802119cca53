/**
 * Proleptic Gregorian calendar dates as Python's datetime.date holds them
 * (years 1 to 9999), their order, the day after a date (date + timedelta(days=1)),
 * and the ISO 8601 calendar-date extended format YYYY-MM-DD that str(date),
 * strftime('%Y-%m-%d') and strptime(s, '%Y-%m-%d') use.
 */
module Dates {
  import opened Wrappers
  import opened Text

  const MinYear := 1
  const MaxYear := 9999

  predicate IsLeapYear(y: int) {
    y % 4 == 0 && (y % 100 != 0 || y % 400 == 0)
  }

  function DaysInMonth(y: int, m: int): (n: int)
    requires 1 <= m <= 12
    ensures 28 <= n <= 31
  {
    if m == 2 then (if IsLeapYear(y) then 29 else 28)
    else if m == 4 || m == 6 || m == 9 || m == 11 then 30
    else 31
  }

  datatype Date = Date(year: int, month: int, day: int) {
    predicate Valid() {
      MinYear <= year <= MaxYear && 1 <= month <= 12 && 1 <= day <= DaysInMonth(year, month)
    }
  }

  /** A date that Python's date type can hold. */
  type CalendarDate = d: Date | d.Valid() witness Date(1, 1, 1)

  /** date.max: the day after it is out of range. */
  const LastDate: CalendarDate := Date(MaxYear, 12, 31)

  /** a <= b on dates: chronological, that is lexicographic on (year, month, day). */
  predicate NotAfter(a: Date, b: Date) {
    a.year < b.year
    || (a.year == b.year && (a.month < b.month || (a.month == b.month && a.day <= b.day)))
  }

  // ---------------------------------------------------------------------------
  // Day numbers (date.toordinal: 0001-01-01 is day 1)

  function YearLength(y: int): int {
    if IsLeapYear(y) then 366 else 365
  }

  /** Days in the years before year y, in the closed form Python's datetime module uses. */
  function DaysBeforeYear(y: int): int
    requires y >= 1
  {
    var p := y - 1;
    p * 365 + p / 4 - p / 100 + p / 400
  }

  /** Days in the months of year y before month m. */
  function DaysBeforeMonth(y: int, m: int): (n: int)
    requires 1 <= m <= 12
    ensures 0 <= n <= 335
  {
    (if m == 1 then 0 else if m == 2 then 31 else if m == 3 then 59 else if m == 4 then 90
     else if m == 5 then 120 else if m == 6 then 151 else if m == 7 then 181
     else if m == 8 then 212 else if m == 9 then 243 else if m == 10 then 273
     else if m == 11 then 304 else 334)
    + (if m > 2 && IsLeapYear(y) then 1 else 0)
  }

  function Ordinal(d: CalendarDate): int {
    DaysBeforeYear(d.year) + DaysBeforeMonth(d.year, d.month) + d.day
  }

  /** Whether a year boundary counts for a Gregorian cycle of k years. */
  function Hit(y: int, k: int): int
    requires k > 0
  {
    if y % k == 0 then 1 else 0
  }

  lemma {:induction false} DivStep4(p: int)
    requires p >= 0
    ensures (p + 1) / 4 == p / 4 + Hit(p + 1, 4)
  {
  }

  lemma {:induction false} DivStep100(p: int)
    requires p >= 0
    ensures (p + 1) / 100 == p / 100 + Hit(p + 1, 100)
  {
  }

  lemma {:induction false} DivStep400(p: int)
    requires p >= 0
    ensures (p + 1) / 400 == p / 400 + Hit(p + 1, 400)
  {
  }

  lemma {:induction false} CenturyIsLeapCycle(y: int)
    requires y % 100 == 0
    ensures y % 4 == 0
  {
    var q := y / 100;
    assert y == 4 * (25 * q);
  }

  lemma {:induction false} QuadCenturyIsCentury(y: int)
    requires y % 400 == 0
    ensures y % 100 == 0
  {
    var q := y / 400;
    assert y == 100 * (4 * q);
  }

  /** Consecutive years are a year's length apart. */
  lemma {:induction false} DaysBeforeYearStep(y: int)
    requires y >= 1
    ensures DaysBeforeYear(y + 1) == DaysBeforeYear(y) + YearLength(y)
  {
    DivStep4(y - 1);
    DivStep100(y - 1);
    DivStep400(y - 1);
    if y % 400 == 0 {
      QuadCenturyIsCentury(y);
    }
    if y % 100 == 0 {
      CenturyIsLeapCycle(y);
    }
    assert YearLength(y) == 365 + Hit(y, 4) - Hit(y, 100) + Hit(y, 400);
  }

  lemma {:induction false} DaysBeforeYearMonotone(y1: int, y2: int)
    requires 1 <= y1 < y2
    ensures DaysBeforeYear(y1) + YearLength(y1) <= DaysBeforeYear(y2)
    decreases y2 - y1
  {
    DaysBeforeYearStep(y1);
    if y1 + 1 < y2 {
      DaysBeforeYearMonotone(y1 + 1, y2);
    }
  }

  lemma {:induction false} MonthStep(y: int, m: int)
    requires 1 <= m < 12
    ensures DaysBeforeMonth(y, m + 1) == DaysBeforeMonth(y, m) + DaysInMonth(y, m)
  {
  }

  lemma {:induction false} DecemberEnds(y: int)
    ensures DaysBeforeMonth(y, 12) + DaysInMonth(y, 12) == YearLength(y)
  {
  }

  lemma {:induction false} DaysBeforeMonthMonotone(y: int, m1: int, m2: int)
    requires 1 <= m1 < m2 <= 12
    ensures DaysBeforeMonth(y, m1) + DaysInMonth(y, m1) <= DaysBeforeMonth(y, m2)
    decreases m2 - m1
  {
    MonthStep(y, m1);
    if m1 + 1 < m2 {
      DaysBeforeMonthMonotone(y, m1 + 1, m2);
    }
  }

  /** A date's day number lies within its year's days. */
  lemma {:induction false} OrdinalInYear(d: CalendarDate)
    ensures DaysBeforeYear(d.year) < Ordinal(d) <= DaysBeforeYear(d.year) + YearLength(d.year)
  {
    if d.month < 12 {
      DaysBeforeMonthMonotone(d.year, d.month, 12);
    }
    DecemberEnds(d.year);
  }

  lemma {:induction false} StrictlyEarlier(a: CalendarDate, b: CalendarDate)
    requires NotAfter(a, b) && a != b
    ensures Ordinal(a) < Ordinal(b)
  {
    if a.year < b.year {
      OrdinalInYear(a);
      OrdinalInYear(b);
      DaysBeforeYearMonotone(a.year, b.year);
    } else if a.month < b.month {
      DaysBeforeMonthMonotone(a.year, a.month, b.month);
    }
  }

  /** Comparing dates is comparing their day numbers. */
  lemma {:induction false} OrderIsOrdinalOrder(a: CalendarDate, b: CalendarDate)
    ensures NotAfter(a, b) <==> Ordinal(a) <= Ordinal(b)
    ensures a == b <==> Ordinal(a) == Ordinal(b)
  {
    if a != b {
      if NotAfter(a, b) {
        StrictlyEarlier(a, b);
      } else {
        StrictlyEarlier(b, a);
      }
    }
  }

  /**
   * date + timedelta(days=1); None where Python raises OverflowError
   * (there is no day after date.max).
   */
  function NextDay(d: CalendarDate): (r: Option<CalendarDate>)
    ensures r.None? <==> d == LastDate
    ensures r.Some? ==> Ordinal(r.value) == Ordinal(d) + 1
  {
    if d.day < DaysInMonth(d.year, d.month) then
      Some(Date(d.year, d.month, d.day + 1))
    else if d.month < 12 then
      MonthStep(d.year, d.month);
      Some(Date(d.year, d.month + 1, 1))
    else if d.year < MaxYear then
      DecemberEnds(d.year);
      DaysBeforeYearStep(d.year);
      Some(Date(d.year + 1, 1, 1))
    else
      None
  }

  // ---------------------------------------------------------------------------
  // YYYY-MM-DD

  /** str(d), d.isoformat() and d.strftime('%Y-%m-%d'). */
  function Format(d: CalendarDate): (s: string)
    ensures |s| == 10
  {
    Digits(d.year, 4) + "-" + Digits(d.month, 2) + "-" + Digits(d.day, 2)
  }

  predicate Shaped(s: string) {
    |s| == 10 && s[4] == '-' && s[7] == '-'
    && AllDigits(s[..4]) && AllDigits(s[5..7]) && AllDigits(s[8..])
  }

  /**
   * strptime(s, '%Y-%m-%d').date() on the zero-padded form; None where Python
   * raises ValueError (wrong shape, or a day or month that does not exist).
   */
  function Parse(s: string): (r: Option<CalendarDate>)
    ensures r.Some? ==> Shaped(s)
  {
    if Shaped(s) then
      var d := Date(Number(s[..4]), Number(s[5..7]), Number(s[8..]));
      if d.Valid() then Some(d) else None
    else
      None
  }

  /** Parsing a formatted date gives the date back. */
  lemma {:induction false} ParseFormat(d: CalendarDate)
    ensures Parse(Format(d)) == Some(d)
  {
    var s := Format(d);
    assert s[..4] == Digits(d.year, 4);
    assert s[5..7] == Digits(d.month, 2);
    assert s[8..] == Digits(d.day, 2);
    NumberOfDigits(d.year, 4);
    NumberOfDigits(d.month, 2);
    NumberOfDigits(d.day, 2);
  }

  /** A string that parses is exactly the formatted date: the format has one spelling per date. */
  lemma {:induction false} FormatParse(s: string)
    requires Parse(s).Some?
    ensures Format(Parse(s).value) == s
  {
    DigitsOfNumber(s[..4]);
    DigitsOfNumber(s[5..7]);
    DigitsOfNumber(s[8..]);
    assert s == s[..4] + "-" + s[5..7] + "-" + s[8..];
  }
}
