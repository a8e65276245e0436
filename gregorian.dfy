/** The proleptic Gregorian calendar as JavaScript's `Date` sees it in the viewer's local time:
    dates are (full year, month index 0..11, day of month), days are numbered from
    1 January 1970, and out-of-range months and days carry over the way ECMAScript's
    MakeDay carries them. The year is taken as given: the `Date` constructor's mapping of
    years 0..99 to 1900..1999, and time values outside the `Date` range, are not modelled. */
module Gregorian {

  /** Milliseconds since the epoch, as `Date.now()` returns them. */
  type Timestamp = int

  /** The calendar fields of a `Date`: `getFullYear()`, `getMonth()` (0 = January) and `getDate()`. */
  datatype CalDate = CalDate(year: int, month: int, day: int)

  /** A year and month index as `new Date(year, month)` stores them once normalised. */
  datatype YearMonth = YearMonth(year: int, month: int)

  /** The two dates name the same calendar day (the comparison of `getDate`, `getMonth`
      and `getFullYear` in both components). */
  predicate SameDay(a: CalDate, b: CalDate) {
    a.day == b.day && a.month == b.month && a.year == b.year
  }

  predicate IsLeapYear(y: int) {
    y % 4 == 0 && (y % 100 != 0 || y % 400 == 0)
  }

  /** The number of days of month `m` (0 = January) of year `y`. */
  function DaysInMonth(y: int, m: int): (n: int)
    requires 0 <= m < 12
    ensures 28 <= n <= 31
    ensures m == 1 ==> (n == 29 <==> IsLeapYear(y)) && (n == 28 <==> !IsLeapYear(y))
    ensures m != 1 ==> (n == 30 <==> m in {3, 5, 8, 10}) && (n == 31 <==> m !in {3, 5, 8, 10})
  {
    if m == 1 then (if IsLeapYear(y) then 29 else 28)
    else if m == 3 || m == 5 || m == 8 || m == 10 then 30
    else 31
  }

  predicate IsValidDate(d: CalDate) {
    0 <= d.month < 12 && 1 <= d.day <= DaysInMonth(d.year, d.month)
  }

  /** The days of the months before month `m` (0..12) of year `y`: the cumulative month table,
      with February's leap day counted from March on. */
  function DaysBeforeMonth(y: int, m: int): int
    requires 0 <= m <= 12
  {
    [0, 31, 59, 90, 120, 151, 181, 212, 243, 273, 304, 334, 365][m]
      + if 2 <= m && IsLeapYear(y) then 1 else 0
  }

  /** The lengths of the months before month `m`, added up one by one. */
  function SumOfMonths(y: int, m: int): int
    requires 0 <= m <= 12
  {
    if m == 0 then 0 else SumOfMonths(y, m - 1) + DaysInMonth(y, m - 1)
  }

  /** Each month of the table starts where the month before it ends. */
  lemma MonthStep(y: int, m: int)
    requires 0 <= m < 12
    ensures DaysBeforeMonth(y, m + 1) == DaysBeforeMonth(y, m) + DaysInMonth(y, m)
  {
  }

  /** The table agrees with the month lengths. */
  lemma {:induction false} DaysBeforeMonthIsSum(y: int, m: int)
    requires 0 <= m <= 12
    ensures DaysBeforeMonth(y, m) == SumOfMonths(y, m)
  {
    if m > 0 {
      DaysBeforeMonthIsSum(y, m - 1);
      MonthStep(y, m - 1);
    }
  }

  function YearLength(y: int): int {
    DaysBeforeMonth(y, 12)
  }

  /** The twelve month lengths add up to 366 days in a leap year and 365 otherwise. */
  lemma YearLengthIsGregorian(y: int)
    ensures SumOfMonths(y, 12) == YearLength(y) == if IsLeapYear(y) then 366 else 365
  {
    DaysBeforeMonthIsSum(y, 12);
  }

  /** Days from 1 January 1970 to 1 January of year `y` (negative before 1970), by
      ECMAScript's DayFromYear: 365 a year plus the leap days of the Gregorian rule.
      Dafny's `/` floors for a positive divisor, as the formula requires. */
  function DaysBeforeYear(y: int): int {
    365 * (y - 1970) + (y - 1969) / 4 - (y - 1901) / 100 + (y - 1601) / 400
  }

  /** Adding one to `n` adds one to `n / k` exactly when `n + 1` is a multiple of `k`. */
  lemma FloorStep(n: int, k: int)
    requires k == 4 || k == 100 || k == 400
    ensures (n + 1) / k == n / k + if (n + 1) % k == 0 then 1 else 0
  {
  }

  /** The leap days DayFromYear counts between 1 January of `y` and of `y + 1`. */
  lemma LeapDayStep(y: int)
    ensures (y - 1968) / 4 - (y - 1969) / 4 == if y % 4 == 0 then 1 else 0
    ensures (y - 1900) / 100 - (y - 1901) / 100 == if y % 100 == 0 then 1 else 0
    ensures (y - 1600) / 400 - (y - 1601) / 400 == if y % 400 == 0 then 1 else 0
  {
    FloorStep(y - 1969, 4);
    FloorStep(y - 1901, 100);
    FloorStep(y - 1601, 400);
    assert (y - 1968) % 4 == y % 4;
    assert (y - 1900) % 100 == y % 100;
    assert (y - 1600) % 400 == y % 400;
  }

  /** A multiple of 400 is a multiple of 100, and a multiple of 100 a multiple of 4. */
  lemma CenturyDivides(y: int)
    ensures y % 400 == 0 ==> y % 100 == 0
    ensures y % 100 == 0 ==> y % 4 == 0
  {
    if y % 400 == 0 {
      var q := y / 400;
      assert y == 100 * (4 * q);
      HundredDivides(4 * q);
    }
    if y % 100 == 0 {
      var c := y / 100;
      assert y == 100 * c;
      FourDividesHundreds(c);
    }
  }

  lemma HundredDivides(t: int)
    ensures (100 * t) % 100 == 0
  {
  }

  lemma FourDividesHundreds(t: int)
    ensures (100 * t) % 4 == 0
  {
  }

  /** The days of a year are the days between its first day and the next year's. */
  lemma NextYear(y: int)
    ensures DaysBeforeYear(y + 1) == DaysBeforeYear(y) + YearLength(y)
  {
    LeapDayStep(y);
    CenturyDivides(y);
  }

  /** `new Date(y, mo)` normalises an out-of-range month index into the year
      (month -1 is December of the year before, month 12 January of the year after). */
  function NormalizeMonth(y: int, mo: int): (r: YearMonth)
    ensures 0 <= r.month < 12
    ensures r.year * 12 + r.month == y * 12 + mo
  {
    YearMonth(y + mo / 12, mo % 12)
  }

  /** Two normalised year-months that count the same number of months are equal. */
  lemma MonthCountDetermines(a: YearMonth, b: YearMonth)
    requires 0 <= a.month < 12 && 0 <= b.month < 12
    requires a.year * 12 + a.month == b.year * 12 + b.month
    ensures a == b
  {
  }

  /** The day number (days since 1 January 1970) of a date whose month index is in range:
      the days before its year, before its month, and its day of month less one. */
  function DayNumber(d: CalDate): int
    requires 0 <= d.month < 12
  {
    DaysBeforeYear(d.year) + DaysBeforeMonth(d.year, d.month) + d.day - 1
  }

  /** The day number of `new Date(y, mo, d)`, after ECMAScript's MakeDay: the month carries
      into the year first, then `d - 1` days are added to the first of the month, so day 0 is
      the last day of the month before. A month index already in range needs no carry. */
  function MakeDay(y: int, mo: int, d: int): (n: int)
    ensures 0 <= mo < 12 ==> n == DayNumber(CalDate(y, mo, d))
  {
    var ym := NormalizeMonth(y, mo);
    assert 0 <= mo < 12 ==> ym == YearMonth(y, mo) by {
      if 0 <= mo < 12 {
        MonthCountDetermines(ym, YearMonth(y, mo));
      }
    }
    DayNumber(CalDate(ym.year, ym.month, d))
  }

  /** `getDay()`: 0 = Sunday .. 6 = Saturday; day 0 (1 January 1970) was a Thursday. */
  function WeekDay(dayNumber: int): (w: int)
    ensures 0 <= w < 7
  {
    (dayNumber + 4) % 7
  }

  /** `firstDayOfMonth`: the weekday of day 1 of month `m` of year `y`. */
  function FirstDayOfMonth(y: int, m: int): (w: int)
    requires 0 <= m < 12
    ensures 0 <= w < 7
  {
    WeekDay(DayNumber(CalDate(y, m, 1)))
  }

  lemma {:induction false} DaysBeforeMonthMonotone(y: int, m1: int, m2: int)
    requires 0 <= m1 <= m2 <= 12
    ensures DaysBeforeMonth(y, m1) <= DaysBeforeMonth(y, m2)
    decreases m2 - m1
  {
    if m1 < m2 {
      DaysBeforeMonthMonotone(y, m1, m2 - 1);
    }
  }

  lemma {:induction false} DaysBeforeYearMonotone(y1: int, y2: int)
    requires y1 < y2
    ensures DaysBeforeYear(y1 + 1) <= DaysBeforeYear(y2)
    decreases y2 - y1
  {
    if y1 + 1 < y2 {
      DaysBeforeYearMonotone(y1, y2 - 1);
      NextYear(y2 - 1);
    }
  }

  /** A valid date's day number lies within its year. */
  lemma DayNumberWithinYear(d: CalDate)
    requires IsValidDate(d)
    ensures DaysBeforeYear(d.year) <= DayNumber(d) < DaysBeforeYear(d.year + 1)
  {
    DaysBeforeMonthMonotone(d.year, d.month + 1, 12);
    NextYear(d.year);
  }

  /** Distinct valid dates have distinct day numbers: a day number determines the date
      that `getFullYear`, `getMonth` and `getDate` report for it. */
  lemma DayNumberInjective(a: CalDate, b: CalDate)
    requires IsValidDate(a) && IsValidDate(b)
    requires DayNumber(a) == DayNumber(b)
    ensures a == b
  {
    if a.year < b.year {
      EarlierYearEarlierDay(a, b);
    } else if b.year < a.year {
      EarlierYearEarlierDay(b, a);
    } else if a.month < b.month {
      EarlierMonthEarlierDay(a, b);
    } else if b.month < a.month {
      EarlierMonthEarlierDay(b, a);
    }
  }

  lemma EarlierYearEarlierDay(a: CalDate, b: CalDate)
    requires IsValidDate(a) && IsValidDate(b) && a.year < b.year
    ensures DayNumber(a) < DayNumber(b)
  {
    DayNumberWithinYear(a);
    DayNumberWithinYear(b);
    DaysBeforeYearMonotone(a.year, b.year);
    assert DayNumber(a) < DaysBeforeYear(a.year + 1) <= DaysBeforeYear(b.year) <= DayNumber(b);
  }

  lemma EarlierMonthEarlierDay(a: CalDate, b: CalDate)
    requires IsValidDate(a) && IsValidDate(b) && a.year == b.year && a.month < b.month
    ensures DayNumber(a) < DayNumber(b)
  {
    MonthStep(a.year, a.month);
    DaysBeforeMonthMonotone(a.year, a.month + 1, b.month);
  }

  /** The month after (y, m) and the month before it, as `new Date(y, m + 1)` and
      `new Date(y, m - 1)` compute them. */
  function NextMonth(ym: YearMonth): (r: YearMonth)
    requires 0 <= ym.month < 12
    ensures ym.month < 11 ==> r == YearMonth(ym.year, ym.month + 1)
    ensures ym.month == 11 ==> r == YearMonth(ym.year + 1, 0)
  {
    NormalizeMonth(ym.year, ym.month + 1)
  }

  function PrevMonth(ym: YearMonth): (r: YearMonth)
    requires 0 <= ym.month < 12
    ensures ym.month > 0 ==> r == YearMonth(ym.year, ym.month - 1)
    ensures ym.month == 0 ==> r == YearMonth(ym.year - 1, 11)
  {
    NormalizeMonth(ym.year, ym.month - 1)
  }

  lemma PrevUndoesNext(ym: YearMonth)
    requires 0 <= ym.month < 12
    ensures PrevMonth(NextMonth(ym)) == ym
    ensures NextMonth(PrevMonth(ym)) == ym
  {
    MonthCountDetermines(PrevMonth(NextMonth(ym)), ym);
    MonthCountDetermines(NextMonth(PrevMonth(ym)), ym);
  }

  /** Day 0 of the following month is the last day of this month: `new Date(y, m + 1, 0)`
      falls on (y, m, DaysInMonth(y, m)), and on no other valid date, so its `getDate()`
      is DaysInMonth(y, m). */
  lemma DayZeroOfNextMonth(y: int, m: int)
    requires 0 <= m < 12
    ensures IsValidDate(CalDate(y, m, DaysInMonth(y, m)))
    ensures MakeDay(y, m + 1, 0) == DayNumber(CalDate(y, m, DaysInMonth(y, m)))
    ensures forall c :: IsValidDate(c) && DayNumber(c) == MakeDay(y, m + 1, 0) ==> c.day == DaysInMonth(y, m)
  {
    var last := CalDate(y, m, DaysInMonth(y, m));
    DayZeroIsLastDay(y, m);
    forall c | IsValidDate(c) && DayNumber(c) == MakeDay(y, m + 1, 0)
      ensures c.day == DaysInMonth(y, m)
    {
      DayNumberInjective(c, last);
    }
  }

  lemma DayZeroIsLastDay(y: int, m: int)
    requires 0 <= m < 12
    ensures MakeDay(y, m + 1, 0) == DayNumber(CalDate(y, m, DaysInMonth(y, m)))
  {
    MonthStep(y, m);
    if m == 11 {
      assert NormalizeMonth(y, m + 1) == YearMonth(y + 1, 0);
      NextYear(y);
    }
  }

  /** The first of the next month comes the day after the last of this month. */
  lemma FirstOfNextMonth(y: int, m: int)
    requires 0 <= m < 12
    ensures var n := NextMonth(YearMonth(y, m));
      DayNumber(CalDate(n.year, n.month, 1)) == DayNumber(CalDate(y, m, 1)) + DaysInMonth(y, m)
  {
    MonthStep(y, m);
    if m == 11 {
      NextYear(y);
    }
  }

  /** The weekday of the first of the next month is this month's first weekday advanced by
      the length of this month. */
  lemma {:induction false} NextFirstDayOfMonth(y: int, m: int)
    requires 0 <= m < 12
    ensures var n := NextMonth(YearMonth(y, m));
      FirstDayOfMonth(n.year, n.month) == (FirstDayOfMonth(y, m) + DaysInMonth(y, m)) % 7
  {
    var n := NextMonth(YearMonth(y, m));
    var d := DaysInMonth(y, m);
    var a := DayNumber(CalDate(y, m, 1));
    var b := DayNumber(CalDate(n.year, n.month, 1));
    assert b == a + d by {
      FirstOfNextMonth(y, m);
    }
    WeekDayShift(a, d);
  }

  /** Fixed points that tie the day numbering to the calendar: 1 January 1970 was a Thursday
      and 1 January 2024 a Monday; February has 28 days in 1900 and 29 in 2000. */
  lemma KnownDates()
    ensures FirstDayOfMonth(1970, 0) == 4
    ensures FirstDayOfMonth(2024, 0) == 1
    ensures DaysInMonth(1900, 1) == 28 && DaysInMonth(2000, 1) == 29
  {
  }

  /** Counting `k` days on from a day advances its weekday by `k`, modulo 7. */
  lemma WeekDayShift(n: int, k: int)
    ensures WeekDay(n + k) == (WeekDay(n) + k) % 7
  {
    var q := (n + 4) / 7;
    assert n + 4 == 7 * q + WeekDay(n);
    assert n + k + 4 == 7 * q + (WeekDay(n) + k);
  }
}
