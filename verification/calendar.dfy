/** The proleptic Gregorian calendar as JavaScript's `Date` uses it: day numbers
    (days since 1970-01-01), millisecond instants, the normalisation that
    `Date.UTC(y, m, d)` and `new Date(y, m, d)` apply to out-of-range fields, and
    the `YYYY-MM-DD` reader that both the server and the heatmap use. */
module Calendar {
  import opened Wrappers
  import opened Text

  /** Milliseconds in a day. */
  const DAY_MS: int := 24 * 60 * 60 * 1000

  predicate IsLeapYear(y: int) {
    y % 4 == 0 && (y % 100 != 0 || y % 400 == 0)
  }

  function DaysInMonth(y: int, m: int): (r: int)
    requires 1 <= m <= 12
    ensures 28 <= r <= 31
    ensures r == 29 <==> m == 2 && IsLeapYear(y)
  {
    if m == 2 then (if IsLeapYear(y) then 29 else 28)
    else if m == 4 || m == 6 || m == 9 || m == 11 then 30
    else 31
  }

  function YearLength(y: int): int {
    if IsLeapYear(y) then 366 else 365
  }

  predicate ValidDate(y: int, m: int, d: int) {
    1 <= m <= 12 && 1 <= d <= DaysInMonth(y, m)
  }

  /** Days of year `y` before the first of month `m`. */
  function DaysBeforeMonth(y: int, m: int): int
    requires 1 <= m <= 12
  {
    [0, 31, 59, 90, 120, 151, 181, 212, 243, 273, 304, 334][m - 1]
      + (if m > 2 && IsLeapYear(y) then 1 else 0)
  }

  /** Days from 0001-01-01 to January 1st of year `y`. */
  function DaysBeforeYear(y: int): int {
    365 * (y - 1) + (y - 1) / 4 - (y - 1) / 100 + (y - 1) / 400
  }

  /** DaysBeforeYear(1970). */
  const UNIX_EPOCH_DAYS: int := 719_162

  /** Days since 1970-01-01 of the date `y-m-d`; negative before it. */
  function DayNumber(y: int, m: int, d: int): int
    requires 1 <= m <= 12
  {
    DaysBeforeYear(y) - UNIX_EPOCH_DAYS + DaysBeforeMonth(y, m) + d - 1
  }

  /** The day that holds the instant `ms` (UTC, or local time once shifted). */
  function DayOf(ms: int): (day: int)
    ensures day * DAY_MS <= ms < (day + 1) * DAY_MS
  {
    ms / DAY_MS
  }

  /** Lexicographic order on (year, month, day). */
  predicate DateBefore(y1: int, m1: int, d1: int, y2: int, m2: int, d2: int) {
    y1 < y2 || (y1 == y2 && (m1 < m2 || (m1 == m2 && d1 < d2)))
  }

  lemma EpochIsDayZero()
    ensures DayNumber(1970, 1, 1) == 0
  {
  }

  /** Consecutive New Year's days are a year's length apart. */
  lemma YearStep(y: int)
    ensures DaysBeforeYear(y + 1) == DaysBeforeYear(y) + YearLength(y)
  {
    QuotientSteps(y);
    CenturyDivisors(y);
  }

  /** Going from `y - 1` to `y`, each of the quotients by 4, 100 and 400
      goes up by one exactly when its divisor divides `y`. */
  lemma QuotientSteps(y: int)
    ensures y / 4 - (y - 1) / 4 == if y % 4 == 0 then 1 else 0
    ensures y / 100 - (y - 1) / 100 == if y % 100 == 0 then 1 else 0
    ensures y / 400 - (y - 1) / 400 == if y % 400 == 0 then 1 else 0
  {
  }

  /** A multiple of 400 is a multiple of 100, and a multiple of 100 one
      of 4. */
  lemma CenturyDivisors(y: int)
    ensures y % 400 == 0 ==> y % 100 == 0
    ensures y % 100 == 0 ==> y % 4 == 0
  {
    if y % 400 == 0 {
      MultipleOf(y, 400, 100);
    }
    if y % 100 == 0 {
      MultipleOf(y, 100, 4);
    }
  }

  /** A multiple of `n` is a multiple of each divisor `a` of `n`. */
  lemma MultipleOf(y: int, n: int, a: int)
    requires (n == 400 && a == 100) || (n == 100 && a == 4)
    requires y % n == 0
    ensures y % a == 0
  {
    if n == 400 {
      var q := y / 400;
      assert y == 400 * q;
      assert y == 100 * (4 * q) + 0;
    } else {
      var q := y / 100;
      assert y == 100 * q;
      assert y == 4 * (25 * q) + 0;
    }
  }

  lemma MonthStep(y: int, m: int)
    requires 1 <= m < 12
    ensures DaysBeforeMonth(y, m + 1) == DaysBeforeMonth(y, m) + DaysInMonth(y, m)
  {
  }

  lemma LastMonth(y: int)
    ensures DaysBeforeMonth(y, 12) + DaysInMonth(y, 12) == YearLength(y)
  {
  }

  lemma {:induction false} MonthsAscend(y: int, m1: int, m2: int)
    requires 1 <= m1 < m2 <= 12
    ensures DaysBeforeMonth(y, m1) + DaysInMonth(y, m1) <= DaysBeforeMonth(y, m2)
    decreases m2 - m1
  {
    MonthStep(y, m1);
    if m1 + 1 < m2 {
      MonthsAscend(y, m1 + 1, m2);
    }
  }

  lemma {:induction false} YearsAscend(y1: int, y2: int)
    requires y1 < y2
    ensures DaysBeforeYear(y1) + YearLength(y1) <= DaysBeforeYear(y2)
    decreases y2 - y1
  {
    YearStep(y1);
    if y1 + 1 < y2 {
      YearsAscend(y1 + 1, y2);
    }
  }

  /** Day numbers follow the calendar order: for valid dates, one day number is
      smaller than another exactly when its date comes first. */
  lemma DayNumberOrder(y1: int, m1: int, d1: int, y2: int, m2: int, d2: int)
    requires ValidDate(y1, m1, d1) && ValidDate(y2, m2, d2)
    ensures DayNumber(y1, m1, d1) < DayNumber(y2, m2, d2) <==> DateBefore(y1, m1, d1, y2, m2, d2)
    ensures DayNumber(y1, m1, d1) == DayNumber(y2, m2, d2) <==> (y1, m1, d1) == (y2, m2, d2)
  {
    if DateBefore(y1, m1, d1, y2, m2, d2) {
      DayNumberAscends(y1, m1, d1, y2, m2, d2);
    } else if DateBefore(y2, m2, d2, y1, m1, d1) {
      DayNumberAscends(y2, m2, d2, y1, m1, d1);
    }
  }

  lemma DayNumberAscends(y1: int, m1: int, d1: int, y2: int, m2: int, d2: int)
    requires ValidDate(y1, m1, d1) && ValidDate(y2, m2, d2)
    requires DateBefore(y1, m1, d1, y2, m2, d2)
    ensures DayNumber(y1, m1, d1) < DayNumber(y2, m2, d2)
  {
    if y1 < y2 {
      if m1 < 12 {
        MonthsAscend(y1, m1, 12);
      }
      LastMonth(y1);
      YearsAscend(y1, y2);
    } else if m1 < m2 {
      MonthsAscend(y1, m1, m2);
    }
  }

  /** The date after a valid date. */
  function NextDate(y: int, m: int, d: int): (r: (int, int, int))
    requires ValidDate(y, m, d)
    ensures ValidDate(r.0, r.1, r.2)
  {
    if d < DaysInMonth(y, m) then (y, m, d + 1)
    else if m < 12 then (y, m + 1, 1)
    else (y + 1, 1, 1)
  }

  /** The day number of the next date is one more. */
  lemma NextDateNumber(y: int, m: int, d: int)
    requires ValidDate(y, m, d)
    ensures var n := NextDate(y, m, d); DayNumber(n.0, n.1, n.2) == DayNumber(y, m, d) + 1
  {
    if d == DaysInMonth(y, m) {
      if m < 12 {
        MonthStep(y, m);
      } else {
        LastMonth(y);
        YearStep(y);
      }
    }
  }

  /** The fields a JavaScript date reports after it was built from the day
      `d` (1 or more) of month `m` of year `y`: a day past the month's end rolls
      into the following months, as `MakeDay` does. */
  function RollDays(y: int, m: int, d: int): (f: (int, int, int))
    requires 1 <= m <= 12 && d >= 1
    ensures ValidDate(f.0, f.1, f.2)
    ensures d <= DaysInMonth(y, m) ==> f == (y, m, d)
    ensures d > DaysInMonth(y, m) ==> f.0 * 12 + f.1 > y * 12 + m
    decreases d
  {
    if d <= DaysInMonth(y, m) then (y, m, d)
    else if m == 12 then RollDays(y + 1, 1, d - 31)
    else RollDays(y, m + 1, d - DaysInMonth(y, m))
  }

  /** Rolling over lands on the date `d - 1` days after the first of the month. */
  lemma {:induction false} RollDaysOffset(y: int, m: int, d: int)
    requires 1 <= m <= 12 && d >= 1
    ensures var f := RollDays(y, m, d); DayNumber(f.0, f.1, f.2) == DayNumber(y, m, 1) + d - 1
    decreases d
  {
    if d > DaysInMonth(y, m) {
      if m == 12 {
        RollDaysOffset(y + 1, 1, d - 31);
        NewYearFirst(y);
      } else {
        RollDaysOffset(y, m + 1, d - DaysInMonth(y, m));
        NextMonthFirst(y, m);
      }
    }
  }

  /** The first of a month is its predecessor's length after the first of
      that one. */
  lemma NextMonthFirst(y: int, m: int)
    requires 1 <= m < 12
    ensures DayNumber(y, m + 1, 1) == DayNumber(y, m, 1) + DaysInMonth(y, m)
  {
    MonthStep(y, m);
  }

  /** New Year's day is 31 days after the first of December. */
  lemma NewYearFirst(y: int)
    ensures DayNumber(y + 1, 1, 1) == DayNumber(y, 12, 1) + 31
  {
    LastMonth(y);
    YearStep(y);
  }

  /** The (year, month, day) that `Date.UTC(year, monthIndex, day)` and the local
      `new Date(year, monthIndex, day)` report back through their getters, for
      a non-negative month index and a positive day: a year from 0 to 99 means
      1900 to 1999, and month and day overflow carry forward. */
  function NormalizedFields(year: int, monthIndex: nat, day: int): (f: (int, int, int))
    requires day >= 1
    ensures ValidDate(f.0, f.1, f.2)
  {
    var fullYear := if 0 <= year <= 99 then 1900 + year else year;
    RollDays(fullYear + monthIndex / 12, monthIndex % 12 + 1, day)
  }

  /** The shape `^\d{4}-\d{2}-\d{2}$`. */
  predicate IsYmdShape(s: string) {
    && |s| == 10 && s[4] == '-' && s[7] == '-'
    && (forall i :: 0 <= i < 10 && i != 4 && i != 7 ==> IsDigit(s[i]))
  }

  function YearField(s: string): nat
    requires IsYmdShape(s)
  {
    DigitsValue(s[..4])
  }

  function MonthField(s: string): nat
    requires IsYmdShape(s)
  {
    DigitsValue(s[5..7])
  }

  function DayField(s: string): nat
    requires IsYmdShape(s)
  {
    DigitsValue(s[8..])
  }

  lemma TwoDigitsBound(t: string)
    requires |t| == 2 && AllDigits(t)
    ensures DigitsValue(t) <= 99
  {
    var first := t[..1];
    assert first[..0] == [] && first[0] == t[0];
    assert DigitsValue(first) == t[0] as int - '0' as int <= 9;
    assert DigitsValue(t) == DigitsValue(first) * 10 + (t[1] as int - '0' as int);
  }

  /** Reads a `YYYY-MM-DD` string into its day number, as both the server's
      `parseYyyyMmDd` and the heatmap's `parseYmdToLocalDate` do: the shape must
      match, no field may be zero, and the date built from the fields must
      report the same fields back. */
  function ParseYmd(s: string): Option<int> {
    if !IsYmdShape(s) then None
    else
      var yyyy, mm, dd := YearField(s), MonthField(s), DayField(s);
      if yyyy == 0 || mm == 0 || dd == 0 then None
      else if NormalizedFields(yyyy, mm - 1, dd) != (yyyy, mm, dd) then None
      else Some(DayNumber(yyyy, mm, dd))
  }

  /** The reader accepts exactly the well-shaped strings that name a real
      Gregorian date in the years 0100 to 9999: month 13, day 0, February 30th
      and February 29th of a common year are refused, and so are the years 0000
      to 0099 (year 0 is falsy, and 1 to 99 come back as 1901 to 1999). */
  lemma ParseYmdAccepts(s: string)
    ensures ParseYmd(s).Some? <==>
      IsYmdShape(s) && YearField(s) >= 100 && ValidDate(YearField(s), MonthField(s), DayField(s))
    ensures ParseYmd(s).Some? ==>
      ParseYmd(s).value == DayNumber(YearField(s), MonthField(s), DayField(s))
  {
    if IsYmdShape(s) {
      var yyyy, mm, dd := YearField(s), MonthField(s), DayField(s);
      if yyyy != 0 && mm != 0 && dd != 0 {
        TwoDigitsBound(s[5..7]);
        FieldsReportedBack(yyyy, mm, dd);
      }
    }
  }

  /** A date built from positive fields, with a month below 100, reports
      the same fields back exactly when they name a real date in a year
      from 100 on. */
  lemma FieldsReportedBack(yyyy: int, mm: int, dd: int)
    requires yyyy >= 1 && 1 <= mm <= 99 && dd >= 1
    ensures NormalizedFields(yyyy, mm - 1, dd) == (yyyy, mm, dd) <==> yyyy >= 100 && ValidDate(yyyy, mm, dd)
  {
    var fullYear := if yyyy <= 99 then 1900 + yyyy else yyyy;
    var y1, m1 := fullYear + (mm - 1) / 12, (mm - 1) % 12 + 1;
    assert y1 * 12 + m1 == fullYear * 12 + mm;
    assert NormalizedFields(yyyy, mm - 1, dd) == RollDays(y1, m1, dd);
  }
}
