/**
 * `startToEndPeriodCalc`: merge the two years' holidays, walk the period
 * collecting the days of the selected weekdays, then price them for the
 * summary (every collected day) and the table (non-holidays only).
 */
module Comparison {
  import opened Options
  import opened Calendar
  import opened DateKey
  import opened Holidays
  import opened DayWalk
  import opened Billing

  /** Every record of a period list carries a real date. */
  lemma PeriodListDatesValid(list: seq<DayRecord>, start: Date, end: Date, holidays: HolidayMap, selected: set<int>)
    requires ValidDate(start) && ValidDate(end)
    requires DayNumber(start) <= DayNumber(end)
    requires IsPeriodList(list, start, end, holidays, selected)
    ensures AllDatesValid(list)
  {
    forall i | 0 <= i < |list|
      ensures ValidDate(list[i].date)
    {
      PeriodListSound(list, start, end, holidays, selected, i);
    }
  }

  /**
   * The whole comparison for one period. The summary counts every collected
   * day, the table bills only the non-holidays among them, so the summary's
   * ticket cost exceeds the table's last running total by one round trip
   * per collected holiday.
   */
  method PeriodCalc(
    start: Date, end: Date,
    startYearHolidays: HolidayMap, endYearHolidays: HolidayMap,
    selected: set<int>, ticketPrice: int, regularPrice: int)
    returns (list: seq<DayRecord>, summary: Summary, rows: seq<Row>)
    requires ValidDate(start) && ValidDate(end)
    requires DayNumber(start) <= DayNumber(end)
    ensures IsPeriodList(list, start, end, Merge(startYearHolidays, endYearHolidays), selected)
    ensures summary == Summarize(ticketPrice, |list|, regularPrice)
    ensures summary.days == |list| && summary.regularPrice == regularPrice
    ensures summary.ticketTotal
         == FareFor(2 * ticketPrice, NonHolidayCount(list)) + FareFor(2 * ticketPrice, HolidayCount(list))
    ensures summary.ticketTotal + summary.diff == regularPrice
    ensures summary.passSaving.Some? <==> regularPrice < summary.ticketTotal
    ensures summary.ticketSaving.Some? <==> summary.ticketTotal < regularPrice
    ensures |rows| == |list|
    ensures forall i :: 0 <= i < |list| ==>
      ValidDate(list[i].date) && RowShows(rows[i], list[i], 2 * ticketPrice, NonHolidayCount(list[..i + 1]))
  {
    var holidays := Merge(startYearHolidays, endYearHolidays);
    list := WalkPeriod(start, end, holidays, selected);
    PeriodListDatesValid(list, start, end, holidays, selected);
    summary := Summarize(ticketPrice, |list|, regularPrice);
    SummaryCountsHolidayRows(ticketPrice, list, regularPrice);
    rows := BuildTable(ticketPrice, list);
  }

  /**
   * A 220-yen ticket on 20 days against a 5000-yen pass: the tickets cost
   * 8800 yen and the pass is advertised as 3800 yen cheaper.
   */
  lemma PassCheaperExample()
    ensures var s := Summarize(220, 20, 5000);
      && s.ticketTotal == 8800 && s.diff == -3800
      && s.passSaving == Some(3800) && s.ticketSaving == None
  {
    FareForIsProduct(440, 20);
  }

  /**
   * A 150-yen ticket on 10 days against a 5000-yen pass: the tickets cost
   * 3000 yen and are advertised as 2000 yen cheaper.
   */
  lemma TicketCheaperExample()
    ensures var s := Summarize(150, 10, 5000);
      && s.ticketTotal == 3000 && s.diff == 2000
      && s.passSaving == None && s.ticketSaving == Some(2000)
  {
    FareForIsProduct(300, 10);
  }

  const NewYearOnly: HolidayMap := map["2024-01-01" := "New Year's Day"]

  /** Day numbers of 2024-01-01 (a Monday) and the following Sunday. */
  lemma FirstWeekOf2024()
    ensures DayNumber(Date(2024, 1, 1)) == 19723 && DayNumber(Date(2024, 1, 7)) == 19729
  {
    YearStartClosedForm(2024);
    assert LeapDaysThrough(2023) == 490;
    assert LeapDaysThrough(1969) == 477;
  }

  /** Weekday-only selection over 2024-01-01 .. 2024-01-07 keeps Monday to Friday. */
  lemma FirstWeekKeptDays()
    ensures KeptDays(19723, 7, {1, 2, 3, 4, 5}) == [19723, 19724, 19725, 19726, 19727]
  {
    var sel := {1, 2, 3, 4, 5};
    assert KeptDays(19723, 1, sel) == [19723];
    assert KeptDays(19723, 2, sel) == [19723, 19724];
    assert KeptDays(19723, 3, sel) == [19723, 19724, 19725];
    assert KeptDays(19723, 4, sel) == [19723, 19724, 19725, 19726];
    assert KeptDays(19723, 5, sel) == [19723, 19724, 19725, 19726, 19727];
    assert KeptDays(19723, 6, sel) == [19723, 19724, 19725, 19726, 19727];
  }

  /** Only 2024-01-01 is a holiday in `NewYearOnly`. */
  lemma NewYearOnlyTag(d: Date)
    requires ValidDate(d)
    ensures Tag(d, NewYearOnly).isHoliday <==> d == Date(2024, 1, 1)
    ensures d == Date(2024, 1, 1) ==> Tag(d, NewYearOnly).holidayName == Some("New Year's Day")
  {
    KeyExample();
    TagSingleHoliday(d, Date(2024, 1, 1), "New Year's Day");
  }

  /** The collected list of the first week: Monday to Friday in order. */
  lemma NewYearWeekDays(list: seq<DayRecord>)
    requires IsPeriodList(list, Date(2024, 1, 1), Date(2024, 1, 7), NewYearOnly, {1, 2, 3, 4, 5})
    ensures |list| == 5
    ensures forall i :: 0 <= i < 5 ==>
      ValidDate(list[i].date) && DayNumber(list[i].date) == 19723 + i && list[i] == Tag(list[i].date, NewYearOnly)
    ensures list[0].date == Date(2024, 1, 1)
  {
    FirstWeekOf2024();
    FirstWeekKeptDays();
    DayNumberInjective(list[0].date, Date(2024, 1, 1));
  }

  /**
   * The first week of 2024 with weekdays selected and New Year's Day as the
   * only holiday: five days are collected and all five enter the summary,
   * but the table bills four.
   */
  lemma NewYearWeekExample(list: seq<DayRecord>)
    requires IsPeriodList(list, Date(2024, 1, 1), Date(2024, 1, 7), NewYearOnly, {1, 2, 3, 4, 5})
    ensures |list| == 5
    ensures list[0].isHoliday && list[0].holidayName == Some("New Year's Day")
    ensures HolidayCount(list) == 1 && NonHolidayCount(list) == 4
  {
    NewYearWeekDays(list);
    forall i | 0 <= i < |list|
      ensures list[i].isHoliday <==> i == 0
    {
      NewYearOnlyTag(list[i].date);
    }
    OneHolidayRow(list, 0);
  }
}
