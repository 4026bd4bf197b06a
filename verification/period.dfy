/**
 * The end of a period of whole months: `monthLater` shifts the start date by
 * the chosen number of months (clamping the day to the target month) and
 * steps back one day, and the end input then shows that date's key.
 */
module Period {
  import opened Options
  import opened Calendar
  import opened DateKey

  /** `monthLater(monthPeriod, startDay)`: `monthPeriod` months on, minus one day. */
  function MonthLater(monthPeriod: int, startDay: Date): (r: Date)
    requires ValidDate(startDay)
    ensures ValidDate(r)
  {
    PrevDay(AddMonths(startDay, monthPeriod))
  }

  /**
   * The period ends on the day before the same day of the month `monthPeriod`
   * months on: the day after the end is that shifted date, and the end lies
   * in the target month or the one before it.
   */
  lemma MonthLaterIsDayBeforeShift(monthPeriod: int, startDay: Date)
    requires ValidDate(startDay)
    ensures NextDay(MonthLater(monthPeriod, startDay)) == AddMonths(startDay, monthPeriod)
    ensures DayNumber(MonthLater(monthPeriod, startDay)) + 1 == DayNumber(AddMonths(startDay, monthPeriod))
    ensures MonthIndex(startDay) + monthPeriod - 1
         <= MonthIndex(MonthLater(monthPeriod, startDay))
         <= MonthIndex(startDay) + monthPeriod
  {
  }

  /** A period starting on the 1st ends on the last day of its last month. */
  lemma MonthLaterFromFirst(monthPeriod: int, startDay: Date)
    requires ValidDate(startDay) && startDay.day == 1
    ensures var r := MonthLater(monthPeriod, startDay);
      && MonthIndex(r) == MonthIndex(startDay) + monthPeriod - 1
      && r.day == DaysInMonth(r.year, r.month)
  {
  }

  /**
   * For at least one month the end never comes before the start, so the
   * day walk over the period terminates.
   */
  lemma MonthLaterNotBefore(monthPeriod: int, startDay: Date)
    requires ValidDate(startDay) && monthPeriod >= 1
    ensures DayNumber(startDay) <= DayNumber(MonthLater(monthPeriod, startDay))
  {
    LaterMonthLaterDay(startDay, AddMonths(startDay, monthPeriod));
  }

  /** A zero-month period ends the day before it starts, so the walk would never meet the end. */
  lemma MonthLaterZero(startDay: Date)
    requires ValidDate(startDay)
    ensures DayNumber(MonthLater(0, startDay)) + 1 == DayNumber(startDay)
  {
    AddZeroMonths(startDay);
  }

  /**
   * `startValueFromEndValue`: the end input receives the key of the period's
   * last day, and reading it back gives exactly that day.
   */
  function EndValue(monthPeriod: int, startDay: Date): (value: string)
    requires ValidDate(startDay)
    ensures ParseKey(value) == Some(MonthLater(monthPeriod, startDay))
  {
    KeyRoundTrip(MonthLater(monthPeriod, startDay));
    FormatDate(MonthLater(monthPeriod, startDay))
  }

  /** One month from the 15th ends on the 14th of the next month. */
  lemma MonthLaterMidMonth()
    ensures MonthLater(1, Date(2024, 1, 15)) == Date(2024, 2, 14)
  {
  }

  /** From January 31st the shifted day is clamped to February 29th of a leap year, so the period ends on the 28th. */
  lemma MonthLaterClampedInLeapYear()
    ensures MonthLater(1, Date(2024, 1, 31)) == Date(2024, 2, 28)
  {
  }

  /** Across a year end: three months from November 1st ends on January 31st. */
  lemma MonthLaterAcrossYearEnd()
    ensures MonthLater(3, Date(2023, 11, 1)) == Date(2024, 1, 31)
  {
  }
}
