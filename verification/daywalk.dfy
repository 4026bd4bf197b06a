/**
 * The day walk of `startToEndPeriodCalc`: step one calendar day at a time
 * from the start date to the end date inclusive, tag each day, and keep the
 * days whose weekday is selected. Holidays stay in the list, tagged.
 *
 * The specification of the list is stated through day numbers (days since
 * 1970-01-01): the walk keeps the day numbers `KeptDays` describes, each
 * turned into its tagged date.
 */
module DayWalk {
  import opened Calendar
  import opened Holidays

  /**
   * The day numbers kept after `count` passes of the loop body from day
   * `first`: the day of each pass is appended when its weekday is selected.
   */
  function KeptDays(first: int, count: nat, selected: set<int>): (kept: seq<int>)
    ensures |kept| <= count
    decreases count
  {
    if count == 0 then []
    else
      var n := first + count - 1;
      KeptDays(first, count - 1, selected) + (if WeekdayOf(n) in selected then [n] else [])
  }

  /**
   * `list` holds, position by position, the tagged date of each day number
   * in `days`.
   */
  ghost predicate TaggedDays(list: seq<DayRecord>, days: seq<int>, holidays: HolidayMap) {
    && |list| == |days|
    && forall i :: 0 <= i < |list| ==>
         && ValidDate(list[i].date)
         && DayNumber(list[i].date) == days[i]
         && list[i] == Tag(list[i].date, holidays)
  }

  /** Appending a tagged day keeps the correspondence. */
  lemma TaggedDaysSnoc(list: seq<DayRecord>, days: seq<int>, holidays: HolidayMap, d: Date)
    requires TaggedDays(list, days, holidays)
    requires ValidDate(d)
    ensures TaggedDays(list + [Tag(d, holidays)], days + [DayNumber(d)], holidays)
  {
    var list' := list + [Tag(d, holidays)];
    var days' := days + [DayNumber(d)];
    forall i | 0 <= i < |list'|
      ensures ValidDate(list'[i].date) && DayNumber(list'[i].date) == days'[i]
      ensures list'[i] == Tag(list'[i].date, holidays)
    {
      if i < |list| {
        assert list'[i] == list[i] && days'[i] == days[i];
      }
    }
  }

  /** The day numbers fix the list: a date is determined by its day number. */
  lemma TaggedDaysUnique(a: seq<DayRecord>, b: seq<DayRecord>, days: seq<int>, holidays: HolidayMap)
    requires TaggedDays(a, days, holidays) && TaggedDays(b, days, holidays)
    ensures a == b
  {
    forall i | 0 <= i < |a|
      ensures a[i] == b[i]
    {
      DayNumberInjective(a[i].date, b[i].date);
    }
  }

  /** What the walk produces for `start` through `end`, both included. */
  ghost predicate IsPeriodList(list: seq<DayRecord>, start: Date, end: Date, holidays: HolidayMap, selected: set<int>)
    requires ValidDate(start) && ValidDate(end)
    requires DayNumber(start) <= DayNumber(end)
  {
    TaggedDays(list, KeptDays(DayNumber(start), DayNumber(end) - DayNumber(start) + 1, selected), holidays)
  }

  /**
   * The loop of `startToEndPeriodCalc`: it breaks right after processing the
   * day equal to `end`, so `end` must not precede `start` (otherwise the
   * break never fires). Every day is tagged; only days with a selected
   * weekday are kept, holidays included.
   */
  method WalkPeriod(start: Date, end: Date, holidays: HolidayMap, selected: set<int>)
    returns (list: seq<DayRecord>)
    requires ValidDate(start) && ValidDate(end)
    requires DayNumber(start) <= DayNumber(end)
    ensures IsPeriodList(list, start, end, holidays, selected)
  {
    var current := start;
    list := [];
    ghost var first := DayNumber(start);
    ghost var visited: nat := 0;
    while true
      invariant ValidDate(current)
      invariant DayNumber(current) == first + visited <= DayNumber(end)
      invariant TaggedDays(list, KeptDays(first, visited, selected), holidays)
      decreases DayNumber(end) - DayNumber(current)
    {
      var thisDay := current;
      current := NextDay(current);
      var record := Tag(thisDay, holidays);
      WalkStep(list, first, visited, holidays, selected, thisDay);
      if Weekday(thisDay) in selected {
        list := list + [record];
      }
      visited := visited + 1;
      if thisDay == end {
        assert visited == DayNumber(end) - DayNumber(start) + 1;
        break;
      }
      if DayNumber(thisDay) == DayNumber(end) {
        DayNumberInjective(thisDay, end);
        assert false;
      }
    }
  }

  /** One pass of the loop body: the list keeps matching the kept days. */
  lemma WalkStep(list: seq<DayRecord>, first: int, visited: nat, holidays: HolidayMap, selected: set<int>, thisDay: Date)
    requires ValidDate(thisDay) && DayNumber(thisDay) == first + visited
    requires TaggedDays(list, KeptDays(first, visited, selected), holidays)
    ensures TaggedDays(if Weekday(thisDay) in selected then list + [Tag(thisDay, holidays)] else list,
                       KeptDays(first, visited + 1, selected), holidays)
  {
    KeptDaysNext(first, visited, selected);
    if Weekday(thisDay) in selected {
      TaggedDaysSnoc(list, KeptDays(first, visited, selected), holidays, thisDay);
    }
  }

  /** One more pass appends the day of that pass when its weekday is selected. */
  lemma KeptDaysNext(first: int, count: nat, selected: set<int>)
    ensures KeptDays(first, count + 1, selected)
         == KeptDays(first, count, selected) + (if WeekdayOf(first + count) in selected then [first + count] else [])
  {
  }

  /** Every kept day lies in the visited range and has a selected weekday. */
  lemma {:induction false} KeptDaysSound(first: int, count: nat, selected: set<int>, i: int)
    requires 0 <= i < |KeptDays(first, count, selected)|
    ensures var n := KeptDays(first, count, selected)[i];
      WeekdayOf(n) in selected && first <= n < first + count
    decreases count
  {
    var prev := KeptDays(first, count - 1, selected);
    if i < |prev| {
      KeptDaysSound(first, count - 1, selected, i);
      assert KeptDays(first, count, selected)[i] == prev[i];
    }
  }

  /** Every day of the visited range with a selected weekday is kept. */
  lemma {:induction false} KeptDaysComplete(first: int, count: nat, selected: set<int>, n: int)
    requires first <= n < first + count
    requires WeekdayOf(n) in selected
    ensures n in KeptDays(first, count, selected)
    decreases count
  {
    if n < first + count - 1 {
      KeptDaysComplete(first, count - 1, selected, n);
    }
  }

  /** The kept days are in strictly increasing order. */
  lemma {:induction false} KeptDaysIncreasing(first: int, count: nat, selected: set<int>, i: int, j: int)
    requires 0 <= i < j < |KeptDays(first, count, selected)|
    ensures KeptDays(first, count, selected)[i] < KeptDays(first, count, selected)[j]
    decreases count
  {
    var kept := KeptDays(first, count, selected);
    var prev := KeptDays(first, count - 1, selected);
    assert kept[i] == prev[i];
    if j < |prev| {
      KeptDaysIncreasing(first, count - 1, selected, i, j);
      assert kept[j] == prev[j];
    } else {
      KeptDaysSound(first, count - 1, selected, i);
    }
  }

  /** With every weekday selected, every visited day is kept. */
  lemma {:induction false} KeptDaysEveryWeekday(first: int, count: nat, selected: set<int>)
    requires forall w :: 0 <= w < 7 ==> w in selected
    ensures |KeptDays(first, count, selected)| == count
    decreases count
  {
    if count > 0 {
      KeptDaysEveryWeekday(first, count - 1, selected);
      assert WeekdayOf(first + count - 1) in selected;
    }
  }

  /** With no weekday selected nothing is kept. */
  lemma {:induction false} KeptDaysNoWeekday(first: int, count: nat)
    ensures KeptDays(first, count, {}) == []
    decreases count
  {
    if count > 0 {
      KeptDaysNoWeekday(first, count - 1);
    }
  }

  /** Every day in range with a selected weekday appears in the list, tagged. */
  lemma PeriodListComplete(list: seq<DayRecord>, start: Date, end: Date, holidays: HolidayMap, selected: set<int>, d: Date)
    requires ValidDate(start) && ValidDate(end) && ValidDate(d)
    requires DayNumber(start) <= DayNumber(end)
    requires IsPeriodList(list, start, end, holidays, selected)
    requires DayNumber(start) <= DayNumber(d) <= DayNumber(end) && Weekday(d) in selected
    ensures exists i :: 0 <= i < |list| && list[i] == Tag(d, holidays)
  {
    var first := DayNumber(start);
    var count := DayNumber(end) - first + 1;
    var kept := KeptDays(first, count, selected);
    KeptDaysComplete(first, count, selected, DayNumber(d));
    var i :| 0 <= i < |kept| && kept[i] == DayNumber(d);
    DayNumberInjective(list[i].date, d);
    assert list[i] == Tag(d, holidays);
  }

  /** Every record of the list is a tagged day in range with a selected weekday. */
  lemma PeriodListSound(list: seq<DayRecord>, start: Date, end: Date, holidays: HolidayMap, selected: set<int>, i: int)
    requires ValidDate(start) && ValidDate(end)
    requires DayNumber(start) <= DayNumber(end)
    requires IsPeriodList(list, start, end, holidays, selected)
    requires 0 <= i < |list|
    ensures ValidDate(list[i].date)
    ensures list[i] == Tag(list[i].date, holidays)
    ensures DayNumber(start) <= DayNumber(list[i].date) <= DayNumber(end)
    ensures Weekday(list[i].date) in selected
  {
    KeptDaysSound(DayNumber(start), DayNumber(end) - DayNumber(start) + 1, selected, i);
  }

  /**
   * A date is in the walk's list iff it lies between `start` and `end` and
   * its weekday is selected; it then appears tagged, holiday or not.
   */
  lemma PeriodListMembership(list: seq<DayRecord>, start: Date, end: Date, holidays: HolidayMap, selected: set<int>, d: Date)
    requires ValidDate(start) && ValidDate(end) && ValidDate(d)
    requires DayNumber(start) <= DayNumber(end)
    requires IsPeriodList(list, start, end, holidays, selected)
    ensures Tag(d, holidays) in list
        <==> DayNumber(start) <= DayNumber(d) <= DayNumber(end) && Weekday(d) in selected
    ensures (exists i :: 0 <= i < |list| && list[i].date == d)
        <==> DayNumber(start) <= DayNumber(d) <= DayNumber(end) && Weekday(d) in selected
  {
    if DayNumber(start) <= DayNumber(d) <= DayNumber(end) && Weekday(d) in selected {
      PeriodListComplete(list, start, end, holidays, selected, d);
    }
    if exists i :: 0 <= i < |list| && list[i].date == d {
      var i :| 0 <= i < |list| && list[i].date == d;
      PeriodListSound(list, start, end, holidays, selected, i);
    }
    if Tag(d, holidays) in list {
      var i :| 0 <= i < |list| && list[i] == Tag(d, holidays);
      PeriodListSound(list, start, end, holidays, selected, i);
    }
  }

  /** The walk's list is in strictly increasing date order, so no day appears twice. */
  lemma PeriodListChronological(list: seq<DayRecord>, start: Date, end: Date, holidays: HolidayMap, selected: set<int>, i: int, j: int)
    requires ValidDate(start) && ValidDate(end)
    requires DayNumber(start) <= DayNumber(end)
    requires IsPeriodList(list, start, end, holidays, selected)
    requires 0 <= i < j < |list|
    ensures ValidDate(list[i].date) && ValidDate(list[j].date)
    ensures DayNumber(list[i].date) < DayNumber(list[j].date)
  {
    KeptDaysIncreasing(DayNumber(start), DayNumber(end) - DayNumber(start) + 1, selected, i, j);
  }

  /** With all seven weekdays selected the list holds every day of the range. */
  lemma PeriodListEveryWeekday(list: seq<DayRecord>, start: Date, end: Date, holidays: HolidayMap, selected: set<int>)
    requires ValidDate(start) && ValidDate(end)
    requires DayNumber(start) <= DayNumber(end)
    requires IsPeriodList(list, start, end, holidays, selected)
    requires forall w :: 0 <= w < 7 ==> w in selected
    ensures |list| == DayNumber(end) - DayNumber(start) + 1
  {
    KeptDaysEveryWeekday(DayNumber(start), DayNumber(end) - DayNumber(start) + 1, selected);
  }

  /** An empty weekday selection yields an empty list. */
  lemma PeriodListEmptySelection(list: seq<DayRecord>, start: Date, end: Date, holidays: HolidayMap)
    requires ValidDate(start) && ValidDate(end)
    requires DayNumber(start) <= DayNumber(end)
    requires IsPeriodList(list, start, end, holidays, {})
    ensures list == []
  {
    KeptDaysNoWeekday(DayNumber(start), DayNumber(end) - DayNumber(start) + 1);
  }
}
