# Commuter pass vs. tickets: the date-range billing engine

This project is a Dafny model of the calculation core of *regular-ticket-comparison*. That is a small web page that compares a commuter pass (定期) with buying a round-trip ticket (切符) on every commuting day of a period. The model covers these steps:

- Formatting a date as its `YYYY-MM-DD` holiday key (`formatDate`).
- Merging the start year's and end year's holiday maps (`Object.assign`).
- Walking day by day from the start date to the end date. The walk keeps the days whose weekday is checked and tags each kept day as a holiday or not.
- Pricing the kept days:
  - The summary (`createResultItem`) charges one round trip for *every* kept day and says which side is cheaper.
  - The table (`createResultTable`) keeps a running number and running total that skip holidays.
- Computing the period's end from a number of months (`monthLater`).

The modules follow the program's structure:

| file | module | what it holds |
|---|---|---|
| `option.dfy` | `Options` | `Option` |
| `calendar.dfy` | `Calendar` | A proleptic Gregorian calendar standing in for `moment`. Day numbers count from 1970-01-01. Covers next and previous day, weekday, and month addition with the day clamped to the month's length. |
| `datekey.dfy` | `DateKey` | `formatDate`, plus a parser used as its inverse |
| `holidays.dfy` | `Holidays` | Holiday maps, their merge, and the tagging of one day |
| `daywalk.dfy` | `DayWalk` | The day walk and its specification, stated over day numbers |
| `billing.dfy` | `Billing` | The summary figures and the table rows |
| `period.dfy` | `Period` | `monthLater` and the end-date value it produces |
| `comparison.dfy` | `Comparison` | `startToEndPeriodCalc` end to end, plus worked examples |

Specification-level facts:

- `DayWalk.IsPeriodList` says exactly which list the walk produces. For each day number from the start to the end, in order, the list holds that day's tagged date exactly when its weekday is selected.
- `DayWalk.WalkPeriod` implements the source's `while (true) … if (isSame) break` loop over dates. Its result is proved to meet `IsPeriodList`.
- The table's running total is `Billing.FareFor`: the round-trip fare added once per billed day, as the loop adds it. `Billing.FareForIsProduct` relates it to the summary's multiplication.

Behaviour of the code that the model keeps as written:

- **The summary counts holidays.** `createResultItem` is given `trueDateList.length` (js/functions.js:238), which includes holiday days, while the table's running number and total skip them. With New Year's Day in a Monday–Friday week the summary charges five days and the table bills four. `Comparison.NewYearWeekExample` shows this, and `Billing.SummaryCountsHolidayRows` states it in general.
- **No range check.** The loop (js/functions.js:218-233) stops only when the current day equals the end date, so when the end date comes before the start it never stops. The model makes `DayNumber(start) <= DayNumber(end)` a precondition of the walk. `Period.MonthLaterNotBefore` shows that a period of at least one month always meets it, and `Period.MonthLaterZero` shows that a zero-month period does not.
- **A negative difference marks the pass as cheaper.** The difference is the pass price minus the ticket cost (js/functions.js:116). When it is negative, the note "cheaper than the tickets by |difference|" goes next to the pass price (js/functions.js:123-124). When it is positive, the note "cheaper than the pass by the difference" goes next to the ticket cost (js/functions.js:129-130). `Comparison.PassCheaperExample` and `Comparison.TicketCheaperExample` show one of each.
- **No fare validation.** Negative fares are not rejected, and the model accepts any integer fare.

## Model

| member | source | states |
|---|---|---|
| Calendar.NextDay | js/functions.js:219-220 | `add('days', 1)`: the result is a real date, and its day number is one more |
| Calendar.PrevDay | js/functions.js:103 | `add('days', -1)`: a real date one day number earlier, and stepping forward from it returns the original |
| Calendar.PrevOfNext | js/functions.js:220 | Stepping one day forward then one day back returns the same date |
| Calendar.FromDayNumber | js/functions.js:218-220 | Every day number names a real date whose day number it is, so the walk can reach any day |
| Calendar.FromDayNumberOfDayNumber | js/functions.js:232 | A date is recovered from its day number: a day number is a faithful timestamp |
| Calendar.DayNumberInjective | js/functions.js:232 | `isSame` on day numbers: two real dates with the same day number are the same date |
| Calendar.BeforeMeansSmallerDayNumber | js/functions.js:232 | Calendar order agrees with day-number order |
| Calendar.Weekday | js/functions.js:229 | `get('day')`: the weekday number, 0 (Sunday) to 6 (Saturday) |
| Calendar.WeekdayOfNextDay | js/functions.js:229 | `get('day')` lies in 0..6 and advances by one, modulo 7, from one day to the next |
| Calendar.WeekdayOfEpoch | js/functions.js:229 | 1970-01-01 is a Thursday (4) |
| Calendar.WeekdayOfNewYear2024 | js/functions.js:229 | 2024-01-01 is a Monday (1) |
| Calendar.WeekdayOfLeapDay2000 | js/functions.js:229 | 2000-02-29 is a Tuesday (2) |
| Calendar.AddMonths | js/functions.js:103 | `add('months', n)`: a real date exactly n months on, with the day kept or clamped to the last day of the target month |
| Calendar.AddZeroMonths | js/functions.js:103 | Adding zero months changes nothing |
| Calendar.AddMonthsRoundTrip | js/functions.js:103 | For a day of month up to 28, adding n months then −n months returns the original date |
| Calendar.LaterMonthLaterDay | js/functions.js:103 | A later month index means a later day number |
| DateKey.FormatDate | js/functions.js:31-38 | `formatDate`: year, `('00' + month).slice(-2)` and `('00' + day).slice(-2)` joined by '-'; its layout and round trip are stated by `FormatDateLayout` and `KeyRoundTrip` |
| DateKey.FormatDateLayout | js/functions.js:31-38 | The key is the unpadded year, '-', two month digits, '-', two day digits, and each part reads back as its number |
| DateKey.NatToDigitsValue | js/functions.js:32-37 | Decimal rendering of a natural number: non-empty, digits only, reads back as the number, one digit exactly below 10 |
| DateKey.Pad2Value | js/functions.js:34-36 | `('00' + n).slice(-2)` gives two digits, which read back as n when n < 100 |
| DateKey.ParseIntOfIntToString | js/functions.js:32 | The year's rendering (with a '-' for negative years) parses back to the year |
| DateKey.KeyRoundTrip | js/functions.js:31-38 | Parsing a date's key gives back the date |
| DateKey.KeyInjective | js/functions.js:31-38 | Different dates have different keys, so a holiday key names exactly one day |
| DateKey.KeyLengthForFourDigitYears | js/functions.js:31-38 | Years 1000..9999 give the 10-character `YYYY-MM-DD` form that the holiday service uses |
| DateKey.KeyExample | js/functions.js:31-38 | 2024-01-01 is keyed "2024-01-01" |
| Holidays.Merge | js/functions.js:205-207 | The merged map has the keys of both years; on a shared key the end year's name wins; merging a map with itself gives the same map |
| Holidays.Tag | js/functions.js:222-226 | A day is a holiday exactly when its key is in the map, and then it carries that key's name; otherwise it has no name |
| Holidays.TagSingleHoliday | js/functions.js:222-226 | With a single-entry map, exactly the named date is a holiday and it carries that name |
| Holidays.TagMerged | js/functions.js:205-207 | Tagging against the merge is a holiday exactly when either year's map has the day, and uses the end year's entry when it has one |
| DayWalk.KeptDays | js/functions.js:229 | After n passes of the loop, at most n days have been kept |
| DayWalk.WalkPeriod | js/functions.js:216-233 | The loop terminates at the end date and returns exactly the specified period list: every selected-weekday day from start to end, in order, each tagged against the holiday map |
| DayWalk.WalkStep | js/functions.js:219-229 | One pass of the loop body: appending the tagged day when its weekday is selected extends the list to cover one more day |
| DayWalk.TaggedDaysSnoc | js/functions.js:229 | Pushing a tagged day keeps the list matched to its day numbers |
| DayWalk.TaggedDaysUnique | js/functions.js:216-233 | The day numbers determine the list: the walk's result is unique |
| DayWalk.KeptDaysNext | js/functions.js:229 | One more pass appends that pass's day exactly when its weekday is selected |
| DayWalk.KeptDaysSound | js/functions.js:209-211 | Every kept day lies in the visited range and has a selected weekday |
| DayWalk.KeptDaysComplete | js/functions.js:229 | Every visited day with a selected weekday is kept |
| DayWalk.KeptDaysIncreasing | js/functions.js:218-220 | Kept days are strictly increasing |
| DayWalk.KeptDaysEveryWeekday | js/functions.js:209-211 | With all seven weekdays checked, every visited day is kept |
| DayWalk.KeptDaysNoWeekday | js/functions.js:209-211 | With no weekday checked, nothing is kept |
| DayWalk.PeriodListComplete | js/functions.js:229-232 | Every date from start to end (inclusive) with a selected weekday appears in the list, tagged |
| DayWalk.PeriodListSound | js/functions.js:222-232 | Every list entry is a real date from start to end (inclusive), has a selected weekday and carries its correct holiday tag |
| DayWalk.PeriodListMembership | js/functions.js:218-233 | A date is in the list (as its tagged record, or by date) if and only if it lies from start to end (inclusive) and its weekday is selected |
| DayWalk.PeriodListChronological | js/functions.js:218-220 | The list is strictly chronological, so no day appears twice |
| DayWalk.PeriodListEveryWeekday | js/functions.js:209-211 | With every weekday checked, the list has one entry per day from start to end (inclusive) |
| DayWalk.PeriodListEmptySelection | js/functions.js:209-211 | With no weekday checked, the list is empty rather than an error |
| Billing.CountsPartition | js/functions.js:166 | Every day is counted once, as a holiday or as a billed day |
| Billing.PrefixCountStep | js/functions.js:166-169 | The running number rises by one exactly on a non-holiday |
| Billing.PrefixCountMonotone | js/functions.js:168 | The running number never decreases along the list |
| Billing.HolidayTailCountsNothing | js/functions.js:166-169 | Trailing holidays do not change the running number |
| Billing.NoHolidayRows | js/functions.js:166-169 | Without holidays, every row is billed |
| Billing.OneHolidayRow | js/functions.js:166-169 | With exactly one holiday, all other rows are billed |
| Billing.FareForIsProduct | js/functions.js:115 | Adding the fare once per day equals `ticketPrice * 2 * ticketDateNum` |
| Billing.FareForAdd | js/functions.js:167 | The cost of a + b days is the cost of a days plus the cost of b days |
| Billing.FareForMonotone | js/functions.js:167 | With a non-negative fare, more days never cost less |
| Billing.HolidayCell | js/functions.js:176 | The holiday column is blank on a non-holiday and shows the holiday's name on a holiday |
| Billing.RowOf | js/functions.js:165-177 | The `<tr>` cells: year, month, day and weekday of the date; number and total blank exactly on a holiday, otherwise the running number and sum; holiday style and holiday column |
| Billing.RowOfShows | js/functions.js:171-177 | A row built from a day's running number and running total shows that day |
| Billing.BuildTable | js/functions.js:161-179 | One row per day, in order. Each row shows its date parts and weekday. A holiday row has the holiday style, its name, and a blank number and total. Any other row numbers the non-holidays so far and shows their round-trip total |
| Billing.TableStep | js/functions.js:163-178 | Appending the current day's row keeps every row showing its day |
| Billing.BilledNumbersIncrease | js/functions.js:166-171 | Billed rows are numbered from 1 upwards and strictly increasing, for any fare |
| Billing.BilledTotalsNondecreasing | js/functions.js:166-177 | With a non-negative fare, a later billed row's running total is never smaller |
| Billing.LastBilledRowTotal | js/functions.js:177 | When only holidays follow a row, that row's number counts every billed day of the list |
| Billing.Summarize | js/functions.js:113-130 | Ticket cost is the round trip times the day count, and the difference is the pass price minus that cost. The pass is shown as cheaper (by the cost minus the price) exactly when the cost exceeds the price. The tickets are shown as cheaper exactly when the cost is below it |
| Billing.SummaryVerdict | js/functions.js:123-130 | At most one side is shown as cheaper, neither on a tie, and the amount shown is the absolute difference |
| Billing.SummaryCountsHolidayRows | js/functions.js:236-240 | The summary, given the list length, charges the billed days plus one round trip per holiday |
| Period.MonthLater | js/functions.js:102-104 | The end of a period of months is a real date |
| Period.MonthLaterIsDayBeforeShift | js/functions.js:102-104 | The end is the day before the start shifted by n months, in the target month or the one before |
| Period.MonthLaterFromFirst | js/index.js:47-49 | Starting on the 1st (as the page's default start does), the end is the last day of the period's last month |
| Period.MonthLaterNotBefore | js/functions.js:102-104 | For n ≥ 1 months, the end is not before the start, so the walk terminates |
| Period.MonthLaterZero | js/functions.js:102-104 | A zero-month period ends the day before its start |
| Period.EndValue | js/functions.js:251-254 | The end input receives the key of the period's last day, and that key reads back as exactly that day |
| Period.MonthLaterMidMonth | js/functions.js:102-104 | One month from 2024-01-15 ends on 2024-02-14 |
| Period.MonthLaterClampedInLeapYear | js/functions.js:102-104 | One month from 2024-01-31 is clamped to 2024-02-29, so the period ends on 2024-02-28 |
| Period.MonthLaterAcrossYearEnd | js/functions.js:102-104 | Three months from 2023-11-01 ends on 2024-01-31 |
| Comparison.PeriodListDatesValid | js/functions.js:216-233 | Every collected record carries a real date |
| Comparison.PeriodCalc | js/functions.js:195-243 | The whole comparison. The list is the period list over the merged holidays. The summary is `createResultItem`'s result for every listed day, including its verdict: the pass is shown as cheaper exactly when the ticket cost exceeds the pass price, and the tickets exactly when it is below. Its cost is the billed days' fare plus one round trip per holiday. The table has one row per listed day, showing it |
| Comparison.PassCheaperExample | js/functions.js:113-124 | Fare 220 for 20 days against a 5000 pass: cost 8800, difference −3800, and the pass is shown as 3800 cheaper |
| Comparison.TicketCheaperExample | js/functions.js:113-130 | Fare 150 for 10 days against a 5000 pass: cost 3000, difference 2000, and the tickets are shown as 2000 cheaper |
| Comparison.FirstWeekOf2024 | js/functions.js:218-220 | 2024-01-01 and 2024-01-07 are day numbers 19723 and 19729 |
| Comparison.FirstWeekKeptDays | js/functions.js:229 | With Monday–Friday checked, 2024-01-01..07 keeps Monday to Friday |
| Comparison.NewYearOnlyTag | js/functions.js:222-226 | With New Year's Day as the only holiday, exactly 2024-01-01 is tagged, with its name |
| Comparison.NewYearWeekDays | js/functions.js:216-233 | The walk over 2024-01-01..07 with Monday–Friday checked collects five days, Monday first |
| Comparison.NewYearWeekExample | js/functions.js:236-240 | In that week, with New Year's Day a holiday, five days are collected and charged by the summary, one is a holiday, and four are billed by the table |

## Left out

- `fetchHolidays` (js/functions.js:10-24): the network request is not modelled; the two years' holiday maps are inputs. When a request fails it resolves to `undefined`. A failed start-year request makes `Object.assign(undefined, …)` throw, and that error path is not modelled. A failed end-year request is silently ignored, because `Object.assign(map, undefined)` returns the start-year map; the model covers that case as `endYearHolidays == map[]`.
- DOM and HTML: element creation, `innerHTML` markup, CSS classes, and the execution timestamp (`moment()`, a clock read) are not modelled. The table row is modelled as its cell values, plus a flag for the holiday style.
- Checkbox reading (js/functions.js:209-211): the checked weekday values become the input `selected: set<int>`. Unchecked entries map to `undefined`, which never matches a weekday, so the set models them faithfully.
- Weekday names: `dayOfWeekParams` in js/constant.js is not modelled; the row keeps the weekday number (0 = Sunday) that indexes the name list.
- `flatpickrInit`, `addHolidayClass`, `addItemDayOfWeekInput`, the local-storage functions, and the event wiring in js/index.js are not modelled, because they are UI and storage.
- Numeric coercion: input values arrive as strings and JavaScript arithmetic uses floating-point numbers. The model uses unbounded integers, which is exact for whole-yen prices that stay below 2^53.
- Date parsing and time zones: `moment(value)` parsing and local-time handling are not modelled. Dates are calendar days, and `isSame` is modelled as equality of dates (`thisDay == end` in `DayWalk.WalkPeriod`). That agrees with equal timestamps because `Calendar.DayNumberInjective` proves equal day numbers mean equal dates.
- moment's supported date range is not modelled: the calendar is unbounded proleptic Gregorian.
- Argument forms of `add`: moment's deprecated `add(unit, amount)` order and string amounts are not modelled; the amount of months or days is an integer.
- A start after the end: the source loops without end, and the model instead requires the start not to come after the end.
