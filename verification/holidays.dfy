/**
 * Holiday data: one map per calendar year from `YYYY-MM-DD` key to holiday
 * name, the merge of the start-year and end-year maps, and the tagging of a
 * day as holiday or not.
 */
module Holidays {
  import opened Options
  import opened Calendar
  import opened DateKey

  /** Date key to holiday name, as the holiday service returns it for one year. */
  type HolidayMap = map<string, string>

  /**
   * `Object.assign(startDayHolidays, endDayHolidays)`: every key of either
   * year, the end year's name winning on a shared key.
   */
  function Merge(startYear: HolidayMap, endYear: HolidayMap): (merged: HolidayMap)
    ensures merged.Keys == startYear.Keys + endYear.Keys
    ensures forall k :: k in endYear ==> merged[k] == endYear[k]
    ensures forall k :: k in startYear && k !in endYear ==> merged[k] == startYear[k]
    ensures startYear == endYear ==> merged == startYear
  {
    startYear + endYear
  }

  /** A visited day: the moment object with the `isHoliday` and `holidayName` fields the walk sets. */
  datatype DayRecord = DayRecord(date: Date, isHoliday: bool, holidayName: Option<string>)

  /** Tags `d` by looking its key up in the merged map. */
  function Tag(d: Date, holidays: HolidayMap): (r: DayRecord)
    requires ValidDate(d)
    ensures r.date == d
    ensures r.isHoliday <==> FormatDate(d) in holidays
    ensures r.isHoliday ==> r.holidayName == Some(holidays[FormatDate(d)])
    ensures !r.isHoliday ==> r.holidayName == None
  {
    var key := FormatDate(d);
    if key in holidays then DayRecord(d, true, Some(holidays[key]))
    else DayRecord(d, false, None)
  }

  /**
   * With a map holding a single holiday `h`, exactly that date is tagged:
   * keys of distinct dates never collide.
   */
  lemma TagSingleHoliday(d: Date, h: Date, name: string)
    requires ValidDate(d) && ValidDate(h)
    ensures Tag(d, map[FormatDate(h) := name]).isHoliday <==> d == h
    ensures d == h ==> Tag(d, map[FormatDate(h) := name]).holidayName == Some(name)
  {
    if FormatDate(d) == FormatDate(h) {
      KeyInjective(d, h);
    }
  }

  /**
   * A range crossing a year boundary sees the holidays of both years: a day is
   * tagged from the merged map iff one of the two yearly maps lists it, and
   * the end year's name is shown on a shared key.
   */
  lemma TagMerged(d: Date, startYear: HolidayMap, endYear: HolidayMap)
    requires ValidDate(d)
    ensures Tag(d, Merge(startYear, endYear)).isHoliday
        <==> Tag(d, startYear).isHoliday || Tag(d, endYear).isHoliday
    ensures Tag(d, endYear).isHoliday ==> Tag(d, Merge(startYear, endYear)) == Tag(d, endYear)
    ensures !Tag(d, endYear).isHoliday ==> Tag(d, Merge(startYear, endYear)) == Tag(d, startYear)
  {
  }
}
