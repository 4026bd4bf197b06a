/**
 * A small proleptic Gregorian calendar standing in for the `moment`/`Date`
 * objects of the source: dates, day numbers counted from 1970-01-01 (the
 * epoch of JavaScript's Date), stepping one day forwards or backwards,
 * weekdays and month addition with the day clamped to the month's length.
 */
module Calendar {

  /** A calendar date; `month` runs 1..12 (JavaScript's `getMonth()` + 1). */
  datatype Date = Date(year: int, month: int, day: int)

  /** The Gregorian leap-year rule. */
  predicate IsLeapYear(y: int) {
    y % 4 == 0 && (y % 100 != 0 || y % 400 == 0)
  }

  function DaysInMonth(y: int, m: int): int
    requires 1 <= m <= 12
  {
    if m == 2 then (if IsLeapYear(y) then 29 else 28)
    else if m == 4 || m == 6 || m == 9 || m == 11 then 30
    else 31
  }

  predicate ValidDate(d: Date) {
    1 <= d.month <= 12 && 1 <= d.day <= DaysInMonth(d.year, d.month)
  }

  function DaysInYear(y: int): int {
    if IsLeapYear(y) then 366 else 365
  }

  /** Days of year `y` before the first of month `m`; `m == 13` gives the whole year. */
  function DaysBeforeMonth(y: int, m: int): int
    requires 1 <= m <= 13
  {
    var common :=
      if m == 1 then 0 else if m == 2 then 31 else if m == 3 then 59
      else if m == 4 then 90 else if m == 5 then 120 else if m == 6 then 151
      else if m == 7 then 181 else if m == 8 then 212 else if m == 9 then 243
      else if m == 10 then 273 else if m == 11 then 304 else if m == 12 then 334
      else 365;
    common + (if m > 2 && IsLeapYear(y) then 1 else 0)
  }

  const Epoch: Date := Date(1970, 1, 1)

  /** Days from 1970-01-01 to January 1st of year `y` (negative before 1970), counted year by year. */
  function YearStart(y: int): int
    decreases if y < 1970 then 1970 - y else y - 1970
  {
    if y == 1970 then 0
    else if y > 1970 then YearStart(y - 1) + DaysInYear(y - 1)
    else YearStart(y + 1) - DaysInYear(y)
  }

  /** Days elapsed since 1970-01-01 (negative before it). */
  function DayNumber(d: Date): int
    requires ValidDate(d)
  {
    YearStart(d.year) + DaysBeforeMonth(d.year, d.month) + d.day - 1
  }

  /** Consecutive year starts are exactly one year length apart. */
  lemma YearStartStep(y: int)
    ensures YearStart(y + 1) == YearStart(y) + DaysInYear(y)
  {
  }

  lemma {:induction false} YearStartMonotone(a: int, b: int)
    requires a <= b
    ensures YearStart(b) - YearStart(a) >= 365 * (b - a)
    decreases b - a
  {
    if a < b {
      YearStartMonotone(a, b - 1);
      YearStartStep(b - 1);
    }
  }

  /** The number of Gregorian leap days before year y + 1, counted from year 1. */
  function LeapDaysThrough(y: int): int {
    y / 4 - y / 100 + y / 400
  }

  /** Multiples of 400 are multiples of 100, which are multiples of 4. */
  lemma Divisibility(y: int)
    ensures y % 400 == 0 ==> y % 100 == 0
    ensures y % 100 == 0 ==> y % 4 == 0
  {
    if y % 400 == 0 {
      var k := y / 400;
      assert y == 100 * (4 * k);
    }
    if y % 100 == 0 {
      var k := y / 100;
      assert y == 4 * (25 * k);
    }
  }

  /** Year y is a leap year iff it adds one to the leap-day count. */
  lemma LeapDaysStep(y: int)
    ensures LeapDaysThrough(y) - LeapDaysThrough(y - 1) == if IsLeapYear(y) then 1 else 0
  {
    Divisibility(y);
    var p := y - 1;
    assert y / 4 - p / 4 == if y % 4 == 0 then 1 else 0;
    assert y / 100 - p / 100 == if y % 100 == 0 then 1 else 0;
    assert y / 400 - p / 400 == if y % 400 == 0 then 1 else 0;
  }

  /**
   * The year-by-year count agrees with the closed Gregorian formula
   * 365 (y - 1970) + (leap days before y) - (leap days before 1970).
   */
  lemma {:induction false} YearStartClosedForm(y: int)
    ensures YearStart(y) == 365 * (y - 1970) + LeapDaysThrough(y - 1) - LeapDaysThrough(1969)
    decreases if y < 1970 then 1970 - y else y - 1970
  {
    if y > 1970 {
      YearStartClosedForm(y - 1);
      LeapDaysStep(y - 1);
    } else if y < 1970 {
      YearStartClosedForm(y + 1);
      LeapDaysStep(y);
    }
  }

  lemma DaysBeforeMonthStep(y: int, m: int)
    requires 1 <= m <= 12
    ensures DaysBeforeMonth(y, m + 1) == DaysBeforeMonth(y, m) + DaysInMonth(y, m)
    ensures DaysBeforeMonth(y, 13) == DaysInYear(y)
  {
  }

  /** The day after `d`, rolling over month and year ends. */
  function NextDay(d: Date): (r: Date)
    requires ValidDate(d)
    ensures ValidDate(r)
    ensures DayNumber(r) == DayNumber(d) + 1
  {
    if d.day < DaysInMonth(d.year, d.month) then Date(d.year, d.month, d.day + 1)
    else if d.month < 12 then
      DaysBeforeMonthStep(d.year, d.month);
      Date(d.year, d.month + 1, 1)
    else
      DaysBeforeMonthStep(d.year, 12);
      YearStartStep(d.year);
      Date(d.year + 1, 1, 1)
  }

  /** The day before `d`; `add('days', -1)` in the source. */
  function PrevDay(d: Date): (r: Date)
    requires ValidDate(d)
    ensures ValidDate(r)
    ensures NextDay(r) == d
    ensures DayNumber(r) == DayNumber(d) - 1
  {
    if d.day > 1 then Date(d.year, d.month, d.day - 1)
    else if d.month > 1 then Date(d.year, d.month - 1, DaysInMonth(d.year, d.month - 1))
    else Date(d.year - 1, 12, 31)
  }

  lemma PrevOfNext(d: Date)
    requires ValidDate(d)
    ensures PrevDay(NextDay(d)) == d
  {
  }

  /** The date whose day number is `n`. */
  function FromDayNumber(n: int): (d: Date)
    ensures ValidDate(d)
    ensures DayNumber(d) == n
    decreases if n < 0 then -n else n
  {
    if n == 0 then Epoch
    else if n > 0 then NextDay(FromDayNumber(n - 1))
    else PrevDay(FromDayNumber(n + 1))
  }

  /** The only valid date with day number 0 is the epoch. */
  lemma EpochUnique(d: Date)
    requires ValidDate(d)
    requires DayNumber(d) == 0
    ensures d == Epoch
  {
    var y := d.year;
    assert DaysBeforeMonth(y, d.month) + d.day <= DaysInYear(y);
    if y < 1970 {
      YearStartStep(y);
      YearStartMonotone(y + 1, 1970);
      assert false;
    } else if y > 1970 {
      YearStartStep(1970);
      YearStartMonotone(1971, y);
      assert false;
    }
  }

  lemma {:induction false} FromDayNumberOfDayNumber(d: Date)
    requires ValidDate(d)
    ensures FromDayNumber(DayNumber(d)) == d
    decreases if DayNumber(d) < 0 then -DayNumber(d) else DayNumber(d)
  {
    var n := DayNumber(d);
    if n == 0 {
      EpochUnique(d);
    } else if n > 0 {
      var p := PrevDay(d);
      FromDayNumberOfDayNumber(p);
      assert FromDayNumber(n - 1) == p;
      assert FromDayNumber(n) == NextDay(p);
    } else {
      var s := NextDay(d);
      FromDayNumberOfDayNumber(s);
      assert FromDayNumber(n + 1) == s;
      PrevOfNext(d);
      assert FromDayNumber(n) == PrevDay(s);
    }
  }

  /** Day numbers identify valid dates. */
  lemma DayNumberInjective(a: Date, b: Date)
    requires ValidDate(a) && ValidDate(b)
    requires DayNumber(a) == DayNumber(b)
    ensures a == b
  {
    FromDayNumberOfDayNumber(a);
    FromDayNumberOfDayNumber(b);
  }

  /** Day of the week of day number `n`, 0 = Sunday .. 6 = Saturday; 1970-01-01 was a Thursday. */
  function WeekdayOf(n: int): int {
    (n + 4) % 7
  }

  /** `get('day')` of a date. */
  function Weekday(d: Date): (w: int)
    requires ValidDate(d)
    ensures 0 <= w < 7
  {
    WeekdayOf(DayNumber(d))
  }

  lemma ModSevenStep(x: int)
    ensures (x + 1) % 7 == (x % 7 + 1) % 7
  {
  }

  lemma WeekdayOfNextDay(d: Date)
    requires ValidDate(d)
    ensures 0 <= Weekday(d) < 7
    ensures Weekday(NextDay(d)) == (Weekday(d) + 1) % 7
  {
    var n := DayNumber(d);
    assert DayNumber(NextDay(d)) == n + 1;
    ModSevenStep(n + 4);
  }

  /** 1970-01-01 was a Thursday. */
  lemma WeekdayOfEpoch()
    ensures Weekday(Epoch) == 4
  {
  }

  /** 2024-01-01 was a Monday. */
  lemma WeekdayOfNewYear2024()
    ensures Weekday(Date(2024, 1, 1)) == 1
  {
    YearStartClosedForm(2024);
    assert LeapDaysThrough(2023) == 490;
    assert LeapDaysThrough(1969) == 477;
    assert YearStart(2024) == 19723;
  }

  /** 2000-02-29, a leap day of a year divisible by 400, was a Tuesday. */
  lemma WeekdayOfLeapDay2000()
    ensures Weekday(Date(2000, 2, 29)) == 2
  {
    YearStartClosedForm(2000);
    assert LeapDaysThrough(1999) == 484;
    assert LeapDaysThrough(1969) == 477;
    assert YearStart(2000) == 10957;
  }

  /** Months elapsed since January of year 0. */
  function MonthIndex(d: Date): int {
    d.year * 12 + d.month - 1
  }

  /**
   * `d` shifted by `n` calendar months; the day is clamped to the length of
   * the target month, as moment's `add('months', n)` does.
   */
  function AddMonths(d: Date, n: int): (r: Date)
    requires ValidDate(d)
    ensures ValidDate(r)
    ensures MonthIndex(r) == MonthIndex(d) + n
    ensures r.day <= d.day
    ensures r.day == d.day || r.day == DaysInMonth(r.year, r.month)
  {
    var t := MonthIndex(d) + n;
    var y := t / 12;
    var m := t % 12 + 1;
    Date(y, m, if d.day <= DaysInMonth(y, m) then d.day else DaysInMonth(y, m))
  }

  lemma MonthIndexInjective(a: Date, b: Date)
    requires ValidDate(a) && ValidDate(b)
    requires MonthIndex(a) == MonthIndex(b)
    ensures a.year == b.year && a.month == b.month
  {
  }

  /** Shifting by zero months changes nothing. */
  lemma AddZeroMonths(d: Date)
    requires ValidDate(d)
    ensures AddMonths(d, 0) == d
  {
    MonthIndexInjective(AddMonths(d, 0), d);
  }

  /** Without clamping, shifting there and back returns the same date. */
  lemma AddMonthsRoundTrip(d: Date, n: int)
    requires ValidDate(d)
    requires d.day <= 28
    ensures AddMonths(AddMonths(d, n), -n) == d
  {
    MonthIndexInjective(AddMonths(AddMonths(d, n), -n), d);
  }

  /** `a` comes before `b` in (year, month, day) order. */
  predicate Before(a: Date, b: Date) {
    a.year < b.year || (a.year == b.year && (a.month < b.month || (a.month == b.month && a.day < b.day)))
  }

  lemma DaysBeforeMonthMonotone(y: int, m1: int, m2: int)
    requires 1 <= m1 < m2 <= 13
    ensures DaysBeforeMonth(y, m1) + DaysInMonth(y, m1) <= DaysBeforeMonth(y, m2)
  {
  }

  /** Day numbers follow calendar order: the day number is a faithful timestamp. */
  lemma BeforeMeansSmallerDayNumber(a: Date, b: Date)
    requires ValidDate(a) && ValidDate(b)
    requires Before(a, b)
    ensures DayNumber(a) < DayNumber(b)
  {
    if a.year < b.year {
      DaysBeforeMonthMonotone(a.year, a.month, 13);
      YearStartStep(a.year);
      YearStartMonotone(a.year + 1, b.year);
    } else if a.month < b.month {
      DaysBeforeMonthMonotone(a.year, a.month, b.month);
    }
  }

  /** A later month index means a later day number. */
  lemma LaterMonthLaterDay(a: Date, b: Date)
    requires ValidDate(a) && ValidDate(b)
    requires MonthIndex(a) < MonthIndex(b)
    ensures DayNumber(a) < DayNumber(b)
  {
    assert Before(a, b);
    BeforeMeansSmallerDayNumber(a, b);
  }
}
