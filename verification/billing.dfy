/**
 * The result shown for one comparison: the summary of `createResultItem`
 * (round-trip fare times days against the commuter pass price, and which
 * side is cheaper) and the rows of `createResultTable` (a running total that
 * skips holidays). Prices are whole yen.
 */
module Billing {
  import opened Options
  import opened Calendar
  import opened Holidays

  /** Days of `days` that are not holidays: the days the table bills. */
  function NonHolidayCount(days: seq<DayRecord>): nat
    decreases |days|
  {
    if |days| == 0 then 0
    else NonHolidayCount(days[..|days| - 1]) + (if days[|days| - 1].isHoliday then 0 else 1)
  }

  /** Days of `days` tagged as holidays. */
  function HolidayCount(days: seq<DayRecord>): nat
    decreases |days|
  {
    if |days| == 0 then 0
    else HolidayCount(days[..|days| - 1]) + (if days[|days| - 1].isHoliday then 1 else 0)
  }

  /** Every day is counted exactly once, as a holiday or as a billed day. */
  lemma {:induction false} CountsPartition(days: seq<DayRecord>)
    ensures NonHolidayCount(days) + HolidayCount(days) == |days|
    decreases |days|
  {
    if |days| > 0 {
      CountsPartition(days[..|days| - 1]);
    }
  }

  /** Counting a prefix one element longer adds that element. */
  lemma PrefixCountStep(days: seq<DayRecord>, i: int)
    requires 0 <= i < |days|
    ensures NonHolidayCount(days[..i + 1])
         == NonHolidayCount(days[..i]) + (if days[i].isHoliday then 0 else 1)
  {
    assert days[..i + 1][..i] == days[..i];
  }

  /** Longer prefixes never count fewer billed days. */
  lemma {:induction false} PrefixCountMonotone(days: seq<DayRecord>, i: int, j: int)
    requires 0 <= i <= j <= |days|
    ensures NonHolidayCount(days[..i]) <= NonHolidayCount(days[..j])
    decreases j - i
  {
    if i < j {
      PrefixCountMonotone(days, i, j - 1);
      PrefixCountStep(days, j - 1);
    }
  }

  /** A run of holidays at the end adds nothing to the billed count. */
  lemma {:induction false} HolidayTailCountsNothing(days: seq<DayRecord>, i: int)
    requires 0 <= i <= |days|
    requires forall k :: i <= k < |days| ==> days[k].isHoliday
    ensures NonHolidayCount(days[..i]) == NonHolidayCount(days)
    decreases |days| - i
  {
    if i < |days| {
      HolidayTailCountsNothing(days, i + 1);
      PrefixCountStep(days, i);
    }
    assert days[..|days|] == days;
  }

  /** Without holidays every day is billed. */
  lemma {:induction false} NoHolidayRows(days: seq<DayRecord>)
    requires forall i :: 0 <= i < |days| ==> !days[i].isHoliday
    ensures HolidayCount(days) == 0 && NonHolidayCount(days) == |days|
    decreases |days|
  {
    if |days| > 0 {
      var prefix := days[..|days| - 1];
      assert forall i :: 0 <= i < |prefix| ==> prefix[i] == days[i];
      NoHolidayRows(prefix);
    }
  }

  /** With exactly one holiday, at position `k`, every other day is billed. */
  lemma {:induction false} OneHolidayRow(days: seq<DayRecord>, k: int)
    requires 0 <= k < |days| && days[k].isHoliday
    requires forall i :: 0 <= i < |days| && i != k ==> !days[i].isHoliday
    ensures HolidayCount(days) == 1 && NonHolidayCount(days) == |days| - 1
    decreases |days|
  {
    var prefix := days[..|days| - 1];
    assert forall i :: 0 <= i < |prefix| ==> prefix[i] == days[i];
    if k == |days| - 1 {
      NoHolidayRows(prefix);
    } else {
      OneHolidayRow(prefix, k);
    }
  }

  /**
   * The ticket cost of `days` round trips at `roundTrip` yen each, added up
   * one day at a time as the table's running total is.
   */
  function FareFor(roundTrip: int, days: nat): int
    decreases days
  {
    if days == 0 then 0 else FareFor(roundTrip, days - 1) + roundTrip
  }

  /** Adding up day by day gives the product the summary computes. */
  lemma {:induction false} FareForIsProduct(roundTrip: int, days: nat)
    ensures FareFor(roundTrip, days) == roundTrip * days
    decreases days
  {
    if days > 0 {
      FareForIsProduct(roundTrip, days - 1);
      assert roundTrip * days == roundTrip * (days - 1) + roundTrip;
    }
  }

  /** The cost of two groups of days is the sum of their costs. */
  lemma {:induction false} FareForAdd(roundTrip: int, a: nat, b: nat)
    ensures FareFor(roundTrip, a + b) == FareFor(roundTrip, a) + FareFor(roundTrip, b)
    decreases b
  {
    if b > 0 {
      FareForAdd(roundTrip, a, b - 1);
    }
  }

  /** With a non-negative fare, more days never cost less. */
  lemma {:induction false} FareForMonotone(roundTrip: int, a: nat, b: nat)
    requires roundTrip >= 0 && a <= b
    ensures FareFor(roundTrip, a) <= FareFor(roundTrip, b)
    decreases b - a
  {
    if a < b {
      FareForMonotone(roundTrip, a, b - 1);
    }
  }

  /**
   * One table row: the day's running number and running total (both blank
   * on a holiday), its date parts, weekday, the holiday column, and whether
   * the row carries the holiday style.
   */
  datatype Row = Row(
    index: Option<int>,
    year: int,
    month: int,
    day: int,
    weekday: int,
    holidayName: string,
    runningTotal: Option<int>,
    holidayStyle: bool)

  /** Every record's date is a real calendar date, as moment objects always are. */
  predicate AllDatesValid(days: seq<DayRecord>) {
    forall i :: 0 <= i < |days| ==> ValidDate(days[i].date)
  }

  /** The holiday column: the name on a holiday (JavaScript prints a missing one as "undefined"), blank otherwise. */
  function HolidayCell(item: DayRecord): (cell: string)
    ensures !item.isHoliday ==> cell == ""
    ensures item.isHoliday && item.holidayName.Some? ==> cell == item.holidayName.value
  {
    if !item.isHoliday then ""
    else match item.holidayName
      case Some(name) => name
      case None => "undefined"
  }

  /**
   * `row` shows `item` as the `billed`-th billed day at round-trip fare
   * `roundTrip`; holiday rows leave number and total blank.
   */
  predicate RowShows(row: Row, item: DayRecord, roundTrip: int, billed: nat)
    requires ValidDate(item.date)
  {
    && row.year == item.date.year
    && row.month == item.date.month
    && row.day == item.date.day
    && row.weekday == Weekday(item.date)
    && row.holidayName == HolidayCell(item)
    && row.holidayStyle == item.isHoliday
    && row.index == (if item.isHoliday then None else Some(billed))
    && row.runningTotal == (if item.isHoliday then None else Some(FareFor(roundTrip, billed)))
  }

  /** The `<tr>` the table builds for `item` after counting it: number and total blank on a holiday. */
  function RowOf(item: DayRecord, index: int, ticketPriceSum: int): (row: Row)
    requires ValidDate(item.date)
    ensures row.year == item.date.year && row.month == item.date.month && row.day == item.date.day
    ensures row.weekday == Weekday(item.date) && 0 <= row.weekday < 7
    ensures row.index.None? <==> item.isHoliday
    ensures row.runningTotal.None? <==> item.isHoliday
    ensures !item.isHoliday ==> row.index == Some(index) && row.runningTotal == Some(ticketPriceSum)
    ensures row.holidayStyle == item.isHoliday && row.holidayName == HolidayCell(item)
  {
    var d := item.date;
    Row(
      if item.isHoliday then None else Some(index),
      d.year, d.month, d.day, Weekday(d),
      HolidayCell(item),
      if item.isHoliday then None else Some(ticketPriceSum),
      item.isHoliday)
  }

  lemma RowOfShows(item: DayRecord, roundTrip: int, billed: nat)
    requires ValidDate(item.date)
    ensures RowShows(RowOf(item, billed, FareFor(roundTrip, billed)), item, roundTrip, billed)
  {
  }

  /**
   * `createResultTable`: one row per day in order. A non-holiday row shows
   * how many non-holidays there are up to and including it, and the fare
   * for that many round trips as the running total.
   */
  method BuildTable(ticketPrice: int, dayList: seq<DayRecord>) returns (rows: seq<Row>)
    requires AllDatesValid(dayList)
    ensures |rows| == |dayList|
    ensures forall i :: 0 <= i < |dayList| ==>
      RowShows(rows[i], dayList[i], 2 * ticketPrice, NonHolidayCount(dayList[..i + 1]))
  {
    var roundTripTicketPrice := 2 * ticketPrice;
    var ticketPriceSum := 0;
    var index := 0;
    rows := [];
    for i := 0 to |dayList|
      invariant |rows| == i
      invariant index == NonHolidayCount(dayList[..i])
      invariant ticketPriceSum == FareFor(roundTripTicketPrice, index)
      invariant TableShows(rows, dayList, roundTripTicketPrice)
    {
      var item := dayList[i];
      if !item.isHoliday {
        ticketPriceSum := ticketPriceSum + roundTripTicketPrice;
        index := index + 1;
      }
      PrefixCountStep(dayList, i);
      var row := RowOf(item, index, ticketPriceSum);
      RowOfShows(item, roundTripTicketPrice, index);
      TableStep(rows, dayList, roundTripTicketPrice, row);
      rows := rows + [row];
    }
  }

  /** The rows built so far show the days so far. */
  ghost predicate TableShows(rows: seq<Row>, dayList: seq<DayRecord>, roundTrip: int)
    requires |rows| <= |dayList| && AllDatesValid(dayList)
  {
    forall j :: 0 <= j < |rows| ==> RowShows(rows[j], dayList[j], roundTrip, NonHolidayCount(dayList[..j + 1]))
  }

  lemma TableStep(rows: seq<Row>, dayList: seq<DayRecord>, roundTrip: int, row: Row)
    requires |rows| < |dayList| && AllDatesValid(dayList)
    requires TableShows(rows, dayList, roundTrip)
    requires RowShows(row, dayList[|rows|], roundTrip, NonHolidayCount(dayList[..|rows| + 1]))
    ensures TableShows(rows + [row], dayList, roundTrip)
  {
    var rows' := rows + [row];
    forall j | 0 <= j < |rows'|
      ensures RowShows(rows'[j], dayList[j], roundTrip, NonHolidayCount(dayList[..j + 1]))
    {
      if j < |rows| {
        assert rows'[j] == rows[j];
      }
    }
  }

  /**
   * Billed rows are numbered 1, 2, 3, ... in order: a later billed row has a
   * larger number, whatever the fare.
   */
  lemma BilledNumbersIncrease(dayList: seq<DayRecord>, i: int, j: int)
    requires 0 <= i < j < |dayList|
    requires !dayList[i].isHoliday && !dayList[j].isHoliday
    ensures 1 <= NonHolidayCount(dayList[..i + 1]) < NonHolidayCount(dayList[..j + 1])
  {
    PrefixCountStep(dayList, i);
    PrefixCountStep(dayList, j);
    PrefixCountMonotone(dayList, i + 1, j);
  }

  /** With a non-negative fare, a later billed row shows a running total no smaller. */
  lemma BilledTotalsNondecreasing(dayList: seq<DayRecord>, ticketPrice: int, i: int, j: int)
    requires 0 <= i < j < |dayList|
    requires !dayList[i].isHoliday && !dayList[j].isHoliday
    requires ticketPrice >= 0
    ensures FareFor(2 * ticketPrice, NonHolidayCount(dayList[..i + 1]))
         <= FareFor(2 * ticketPrice, NonHolidayCount(dayList[..j + 1]))
  {
    BilledNumbersIncrease(dayList, i, j);
    FareForMonotone(2 * ticketPrice, NonHolidayCount(dayList[..i + 1]), NonHolidayCount(dayList[..j + 1]));
  }

  /**
   * The last billed row's total is the fare for every non-holiday of the
   * list: everything after it is a holiday.
   */
  lemma LastBilledRowTotal(dayList: seq<DayRecord>, i: int)
    requires 0 <= i < |dayList|
    requires forall k :: i < k < |dayList| ==> dayList[k].isHoliday
    ensures NonHolidayCount(dayList[..i + 1]) == NonHolidayCount(dayList)
  {
    HolidayTailCountsNothing(dayList, i + 1);
  }

  /**
   * The figures of `createResultItem`: the round-trip fare, the number of
   * days, their ticket cost, the pass price, the pass price minus the ticket
   * cost, and the saving each side advertises (shown only when it is the
   * cheaper one).
   */
  datatype Summary = Summary(
    roundTrip: int,
    days: int,
    ticketTotal: int,
    regularPrice: int,
    diff: int,
    passSaving: Option<int>,
    ticketSaving: Option<int>)

  /** `createResultItem`'s arithmetic and its two "cheaper by" messages. */
  function Summarize(ticketPrice: int, ticketDateNum: nat, regularPrice: int): (s: Summary)
    ensures s.roundTrip == 2 * ticketPrice && s.days == ticketDateNum && s.regularPrice == regularPrice
    ensures s.ticketTotal == FareFor(s.roundTrip, ticketDateNum)
    ensures s.ticketTotal + s.diff == regularPrice
    ensures s.passSaving.Some? <==> regularPrice < s.ticketTotal
    ensures s.passSaving.Some? ==> s.passSaving.value == s.ticketTotal - regularPrice > 0
    ensures s.ticketSaving.Some? <==> s.ticketTotal < regularPrice
    ensures s.ticketSaving.Some? ==> s.ticketSaving.value == regularPrice - s.ticketTotal > 0
  {
    FareForIsProduct(ticketPrice * 2, ticketDateNum);
    var calcPeriodTicketPrice := ticketPrice * 2 * ticketDateNum;
    var diffPrice := regularPrice - calcPeriodTicketPrice;
    Summary(
      ticketPrice * 2,
      ticketDateNum,
      calcPeriodTicketPrice,
      regularPrice,
      diffPrice,
      if diffPrice < 0 then Some(Abs(diffPrice)) else None,
      if diffPrice > 0 then Some(diffPrice) else None)
  }

  /** `Math.abs` on integers. */
  function Abs(x: int): nat {
    if x < 0 then -x else x
  }

  /**
   * At most one side is advertised as cheaper, neither on a tie, and the
   * advertised saving is the size of the difference.
   */
  lemma SummaryVerdict(ticketPrice: int, ticketDateNum: nat, regularPrice: int)
    ensures var s := Summarize(ticketPrice, ticketDateNum, regularPrice);
      && !(s.passSaving.Some? && s.ticketSaving.Some?)
      && (s.passSaving.None? && s.ticketSaving.None? <==> s.diff == 0)
      && (s.passSaving.Some? ==> s.passSaving.value == Abs(s.diff))
      && (s.ticketSaving.Some? ==> s.ticketSaving.value == Abs(s.diff))
  {
  }

  /**
   * The summary is charged for every day of the list, holidays included,
   * while the table's totals skip holidays: the summary exceeds the
   * table's billed days by one round trip per holiday row.
   */
  lemma SummaryCountsHolidayRows(ticketPrice: int, dayList: seq<DayRecord>, regularPrice: int)
    ensures Summarize(ticketPrice, |dayList|, regularPrice).ticketTotal
         == FareFor(2 * ticketPrice, NonHolidayCount(dayList)) + FareFor(2 * ticketPrice, HolidayCount(dayList))
  {
    CountsPartition(dayList);
    FareForAdd(2 * ticketPrice, NonHolidayCount(dayList), HolidayCount(dayList));
  }
}
