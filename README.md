# Weather impact model — verified core

The model covers two Node scripts that compare the coming week's weather at each
McDonald's restaurant in Denmark with the same weekdays one year earlier.

`weather_impact_interactive.js` is the batch:
- It reads the restaurants' coordinates.
- It aligns the seven forecast days with their partner days one year earlier, on the same weekday.
- It fetches a forecast and an archive series per restaurant.
- It scores each day 'Bedre', 'Dårligere' or 'Lignende' and writes seven rows per restaurant, plus the hourly series.

`generate_interactive_html.js` is the report. It reads those rows back and produces:
- the label counts and the overall verdict;
- the sorted restaurant list for the filter dropdown;
- the average differences and their remarks;
- the table's grouping rule and the restaurant filter;
- the hour-by-hour comparison shown when a date is clicked.

The modules follow the program's structure:

- `Calendar` (calendar.dfy) models the part of JS `Date` the scripts use. It works on integer day numbers, with day 0 = 1970-01-01:
  - `getDay`, `getDate`/`setDate` and `getFullYear`/`setFullYear` on calendar days;
  - the round trip between day numbers and calendar dates.
- `IsoText` (isotext.dfy) models the text formats:
  - `toISOString().split('T')[0]` and the `new Date(string)` parser for dates, with or without a time of day;
  - `toFixed(1)` and `parseFloat`, and the round trip between them.
- `Impact` (impact.dfy) models `calculateImpact`:
  - on exact reals;
  - on JS values, where `null` reads as 0 and `undefined` as NaN.
- `DateAligner` (aligner.dfy) models `calculateDates` as a loop method and `getWeekdayName`, and the window of the archive request.
- `Batch` (batch.dfy) models the restaurant loop of `processRestaurants`, which builds the rows and `hourlyData`. Each weather request is an input whose outcome is `None` when the request failed.
- `Report` (report.dfy) models the summary of `generate_interactive_html.js`:
  - the counts, the unique list, the accumulator loop and the averages;
  - the remarks and the verdict;
  - the name-cell rule;
  - `filterByRestaurant`, as a class whose method updates an array of hidden flags.
- `HourlyDetail` (detail.dfy) models `showDetailedAnalysis`. Its two for-with-break searches and its 24-hour loop are methods.
- `Pipeline` (pipeline.dfy) connects the scripts: it follows the rows the batch writes through what the report makes of them.
- `Sequences` (sequences.dfy) holds small generic sequence facts.

The report looks columns and labels up under keys that differ from the ones the batch writes:
- 'Nedb√∏r 2026' against 'Nedbør 2026';
- 'Snefald 2026 (cm)' against 'Sne 2026';
- 'D√•rligere' against 'Dårligere'.

The model keeps both scripts' strings exactly as written. `Pipeline` proves what this does to the report, and "## Findings" records it.

## Model

| member | source | states |
|---|---|---|
| Calendar.Weekday | weather_impact_interactive.js:69-73 | getDay of a day number is in 0..6, with 1970-01-01 a Thursday |
| Calendar.DaysInMonth | weather_impact_interactive.js:82 | a month has 28 to 31 days, the gap between consecutive month starts |
| Calendar.DaysFromCivil | weather_impact_interactive.js:82 | a valid date of year y gets a day number within year y's range |
| Calendar.SetDate | weather_impact_interactive.js:82 | setDate(x) moves the date by x minus its day of the month, rolling over month ends |
| Calendar.SetFullYear | weather_impact_interactive.js:86 | setting the same year changes nothing; setting the year before moves the date back 365 or 366 days |
| Calendar.YearOf | generate_interactive_html.js:580 | getFullYear: the year whose day range holds the day |
| Calendar.CivilFromDays | weather_impact_interactive.js:81-86 | the calendar date of a day is valid and maps back to the same day |
| Calendar.CivilRoundTrip | weather_impact_interactive.js:81-86 | every valid date maps to a day number and back to itself |
| Calendar.WeekdayShift | weather_impact_interactive.js:89-91 | moving k days moves the weekday by k modulo 7 |
| Calendar.SetDateMoves | weather_impact_interactive.js:82 | setDate(getDate() + k) moves a date exactly k days |
| Calendar.YearBeforeDays | weather_impact_interactive.js:86 | the same month and day of month one year earlier lies 365 or 366 days back |
| Calendar.YearEarlierDistance | weather_impact_interactive.js:86 | setFullYear(getFullYear() - 1) moves a date back 365 or 366 days |
| IsoText.PadDigitsExact | weather_impact_interactive.js:94-95 | zero-padding to w digits keeps the value of a number below 10^w |
| IsoText.NatToString | weather_impact_interactive.js:148 | String(n) is a non-empty digit string whose value is n, starting with '0' only for n = 0 and then just "0" |
| IsoText.ParseIsoDate | weather_impact_interactive.js:70 | new Date(s) yields a day within the Date range, or Invalid Date |
| IsoText.FormatIsoDate | weather_impact_interactive.js:94-95 | toISOString().split('T')[0] of a day in the Date range is at least ten characters; its meaning is given by IsoText.IsoDateRoundTrip and IsoText.IsoDateParsesBack, which read every such text back as the same day |
| IsoText.IsoDateRoundTrip | generate_interactive_html.js:609 | a written ISO date, with or without "THH:MM", parses back to its own day |
| IsoText.IsoDateParsesBack | weather_impact_interactive.js:70 | an ISO date parses back to the day it was written from |
| IsoText.Round1 | weather_impact_interactive.js:208 | the value toFixed(1) shows lies within 0.05 of the number in magnitude |
| IsoText.ToFixed1 | weather_impact_interactive.js:208 | toFixed(1) ends in a point and one digit, after at least one character |
| IsoText.ToFixed1Sign | weather_impact_interactive.js:208 | toFixed(1) starts with '-' exactly for a negative number, and only digits stand between the sign and the point |
| IsoText.LeadingDigits | generate_interactive_html.js:32 | parseFloat reads the longest run of digits at the front |
| IsoText.ParseUnsigned | generate_interactive_html.js:32 | an unsigned decimal prefix parses to a non-negative value |
| IsoText.ParseUnsignedFixed | generate_interactive_html.js:32 | the unsigned toFixed(1) text of t tenths parses back as t / 10 |
| IsoText.ToFixed1RoundTrip | generate_interactive_html.js:642-643 | parseFloat(x.toFixed(1)) is x rounded to a tenth, for either sign |
| IsoText.ParseFloat | generate_interactive_html.js:32-37 | parseFloat, here and on the detail cells at generate_interactive_html.js:642-643, gives a number only for non-empty text; its meaning is given by Pipeline.FieldParses (a written field reads as its rounded value, 'N/A' as NaN) and IsoText.ToFixed1RoundTrip (toFixed(1) text reads back as its tenths) |
| Impact.LabelText | weather_impact_interactive.js:120-122 | the three label texts, each at least five characters |
| Impact.LabelTextInjective | weather_impact_interactive.js:120-122 | two labels have the same text exactly when they are the same label |
| Impact.TemperatureTerm | weather_impact_interactive.js:103-112 | newly freezing gives -3 and no longer freezing +3; otherwise the term is positive iff it is warmer than last year and negative iff colder |
| Impact.TotalImpact | weather_impact_interactive.js:115-118 | with at least last year's rain and snow the total is at most the temperature term; with at most last year's it is at least that term |
| Impact.Classify | weather_impact_interactive.js:118-124 | 'Bedre' iff the total is above 3, 'Dårligere' iff below -3, 'Lignende' iff within [-3, 3] |
| Impact.CalculateImpact | weather_impact_interactive.js:102-125 | the label is 'Bedre' iff the total impact is above 3, 'Dårligere' iff below -3, 'Lignende' otherwise |
| Impact.CalculateImpactJs | weather_impact_interactive.js:102-125 | on JS values: 'Lignende' when any operand is undefined, otherwise the exact rule with null read as 0 |
| Impact.ImpactOfValues | weather_impact_interactive.js:193-201 | a label other than 'Lignende' needs all six values defined; 'Bedre' and 'Dårligere' exactly when the total with null read as 0 passes +3 or -3 |
| Impact.ValuesAgree | weather_impact_interactive.js:193-201 | the step-by-step JS evaluation of the payload values is 'Lignende' with an undefined value and the exact rule otherwise |
| Impact.FreezingCrossings | weather_impact_interactive.js:109-110 | newly freezing gives a temperature term of -3, no longer freezing gives +3 |
| Impact.Slopes | weather_impact_interactive.js:111-112 | without a crossing the term is 0.3 or 0.1 times the difference and has its sign |
| Impact.PrecipitationMonotone | weather_impact_interactive.js:115-118 | more forecast rain lowers the total by 1.5 per unit, more snow by 5, snow always at least as much |
| Impact.LabelMonotone | weather_impact_interactive.js:115-124 | the label never improves as forecast rain or snow grows |
| Impact.TemperatureTermAgrees | weather_impact_interactive.js:103-112 | on finite numbers the JS temperature term equals the exact one; a NaN operand gives NaN |
| Impact.ClassifyJsAgrees | weather_impact_interactive.js:120-122 | on a finite total the JS thresholds are the exact ones; NaN fails both tests and gives 'Lignende' |
| Impact.NumbersAgree | weather_impact_interactive.js:102-125 | the step-by-step JS evaluation equals the exact rule on finite operands, and is 'Lignende' with a NaN operand |
| Impact.JsAgreesWithNumbers | weather_impact_interactive.js:193-201 | on payload values, null counts as 0 and any undefined operand makes the label 'Lignende' |
| Impact.Examples | weather_impact_interactive.js:109-124 | last year's snow gives 'Bedre', 8 mm more rain gives 'Dårligere', and a freezing crossing outweighs an equal change |
| DateAligner.NaiveYearEarlier | weather_impact_interactive.js:85-86 | the date one year earlier lies 365 or 366 days back |
| DateAligner.AlignedHistorical | weather_impact_interactive.js:85-92 | the partner has the forecast day's weekday, is within 6 days of the naive date, and lies 359 to 372 days back |
| DateAligner.ShiftToWeekday | weather_impact_interactive.js:89-91 | adding the signed weekday difference lands on the target weekday, at most 6 days away |
| DateAligner.ForecastDays | weather_impact_interactive.js:80-83 | there are exactly seven forecast days |
| DateAligner.HistoricalDays | weather_impact_interactive.js:85-92 | there are exactly seven historical days |
| DateAligner.HistoricalDaysAligned | weather_impact_interactive.js:85-92 | historical[i] falls on forecast[i]'s weekday, 359 to 372 days earlier |
| DateAligner.IsoDates | weather_impact_interactive.js:94-95 | one ISO string per day |
| DateAligner.IsoDatesParseBack | weather_impact_interactive.js:94-95 | every written date parses back to its day |
| DateAligner.DaysInRange | weather_impact_interactive.js:80-96 | all fourteen dates are within the Date range when the start is |
| DateAligner.CalculateDates | weather_impact_interactive.js:76-99 | the loop pushes exactly the ISO texts of start + i and of its partner, for i in 0..6 |
| DateAligner.AlignDay | weather_impact_interactive.js:81-95 | one pass of the loop body writes the i-th forecast and historical texts |
| DateAligner.ForecastDay | weather_impact_interactive.js:81-82 | the forecast date is start + i and its text is the i-th forecast text |
| DateAligner.HistoricalDay | weather_impact_interactive.js:85-95 | the historical text is the i-th historical text |
| DateAligner.MoveDays | weather_impact_interactive.js:81-82 | a copy of the start moved with setDate is start + i |
| DateAligner.PartnerOf | weather_impact_interactive.js:85-92 | setFullYear then the conditional setDate gives the aligned partner |
| DateAligner.ForecastIsoAt | weather_impact_interactive.js:94 | the text of start + i is the i-th forecast text |
| DateAligner.HistoricalIsoAt | weather_impact_interactive.js:95 | the text of the partner of start + i is the i-th historical text |
| DateAligner.ForecastAt | weather_impact_interactive.js:80-83 | forecast[i] is start + i |
| DateAligner.HistoricalAt | weather_impact_interactive.js:85-92 | historical[i] is the partner of start + i |
| DateAligner.ExampleWeekEnds | weather_impact_interactive.js:85-92 | from Monday 2026-10-19, historical[0] is 2025-10-20 and historical[6] is 2025-10-19 |
| DateAligner.WeekdayName | weather_impact_interactive.js:69-73 | getWeekdayName gives one of the seven Danish names, or undefined for an Invalid Date |
| DateAligner.WeekdayNamesDistinct | weather_impact_interactive.js:71 | the seven weekday names are pairwise different |
| DateAligner.NameOfIsoDate | weather_impact_interactive.js:69-73 | the name read from a written date is the weekday of that day |
| DateAligner.AlignedDatesShareName | weather_impact_interactive.js:89-95 | a forecast date and its partner carry the same weekday name, that of start + i |
| DateAligner.ArchiveWindow | weather_impact_interactive.js:174 | both ends of the window are historical days, and it covers all seven exactly when historical[0] is the earliest and historical[6] the latest |
| DateAligner.ReversedArchiveWindow | weather_impact_interactive.js:174 | from Monday 2026-10-19 the window runs from 2025-10-20 back to 2025-10-19 and holds none of the seven days |
| DateAligner.EmptyWindow | weather_impact_interactive.js:174 | a window whose end is before its start holds no historical day |
| DateAligner.FirstExamplePartner | weather_impact_interactive.js:85-92 | the partner of 2026-10-19 is 2025-10-20 |
| DateAligner.LastExamplePartner | weather_impact_interactive.js:85-92 | the partner of 2026-10-25 is 2025-10-19 |
| DateAligner.PartnerOfDate | weather_impact_interactive.js:85-92 | the partner of a date is the same month and day a year earlier, moved to the same weekday |
| DateAligner.CoveringWindow | weather_impact_interactive.js:174 | the corrected window: never reversed, holds every historical day, and both ends are historical days |
| DateAligner.CoveringWindowAgrees | weather_impact_interactive.js:174 | when the partners ascend, the corrected window is the written one |
| Batch.At | weather_impact_interactive.js:193-199 | series[i] is undefined past the end, null for a null entry, and the number otherwise |
| Batch.ValidCoordinates | weather_impact_interactive.js:155 | coordinates pass exactly when each is a non-zero number, or non-empty text that reads as a number |
| Batch.Accepted | weather_impact_interactive.js:155-178 | a restaurant is kept exactly when both coordinates pass and both requests returned data |
| Batch.RestaurantName | weather_impact_interactive.js:148 | the name is __EMPTY when non-empty, else Restaurant when non-empty, else a non-empty fallback |
| Batch.FallbackName | weather_impact_interactive.js:148 | the fallback is "Restaurant " followed by the 1-based position |
| Batch.FieldTextMeaning | weather_impact_interactive.js:208-213 | a field is 'N/A' exactly when the value is 0, null or undefined; otherwise it parses back as the rounded value |
| Batch.FieldText | weather_impact_interactive.js:208-213 | a field is 'N/A' exactly when the value is not a non-zero number |
| Batch.DayRow | weather_impact_interactive.js:189-215 | the row's label is calculateImpact of that day's six daily values; past the end of the series the row shows 'N/A' and 'Lignende' |
| Batch.RestaurantRows | weather_impact_interactive.js:188-216 | an accepted restaurant gets seven rows |
| Batch.AcceptedCount | weather_impact_interactive.js:155-178 | at most n of the first n restaurants are accepted |
| Batch.BatchRows | weather_impact_interactive.js:146-219 | the rows after n restaurants are seven per accepted restaurant |
| Batch.BatchHourly | weather_impact_interactive.js:146-219 | hourlyData has at most one entry per accepted restaurant |
| Batch.ProcessRestaurants | weather_impact_interactive.js:139-219 | the loop's rows and hourlyData are those of the accepted restaurants, in input order |
| Batch.PushDays | weather_impact_interactive.js:188-216 | the day loop appends the restaurant's seven rows, in day order, after the rows already there |
| Batch.BatchRowsStep | weather_impact_interactive.js:146-219 | one more restaurant adds its seven rows when it is accepted and nothing otherwise |
| Batch.PushRow | weather_impact_interactive.js:189-215 | the day loop's body builds that day's row from the six daily values |
| Batch.RowAt | weather_impact_interactive.js:188-216 | row `day` of a restaurant is built from day `day` of both daily blocks |
| Batch.RowsOfRestaurant | weather_impact_interactive.js:188-216 | restaurant j's rows come in day order, right after the rows of the accepted restaurants before it |
| Batch.AcceptedCountGrows | weather_impact_interactive.js:146-219 | the number of accepted restaurants only grows along the input |
| Batch.HourlyKeys | weather_impact_interactive.js:182-185 | hourlyData has a name exactly when an accepted restaurant has that name |
| Batch.HourlyEntry | weather_impact_interactive.js:182-185 | the entry under a name holds the hourly blocks of the last accepted restaurant of that name |
| Batch.RowDate | weather_impact_interactive.js:189-207 | each row carries its restaurant's name, forecast date `day` and that date's weekday name |
| Batch.RowName | weather_impact_interactive.js:204 | each row carries its restaurant's name |
| Report.CountImpact | generate_interactive_html.js:22-24 | a count never exceeds the number of rows |
| Report.CountIsMultiplicity | generate_interactive_html.js:22-24 | a count is the number of rows whose Impact equals the text |
| Report.CountsBounded | generate_interactive_html.js:22-24 | better + worse + similar is at most data.length |
| Report.BelowIrreflexive | generate_interactive_html.js:27 | the sort order puts no string before itself |
| Report.BelowTransitive | generate_interactive_html.js:27 | the sort order is transitive |
| Report.BelowTotal | generate_interactive_html.js:27 | of two different strings one sorts before the other |
| Report.Insert | generate_interactive_html.js:27 | adding a name keeps the list sorted, and its elements are the old ones plus the name |
| Report.UniqueRestaurants | generate_interactive_html.js:27 | the list is strictly sorted and holds exactly the Restaurant values of the data |
| Report.UniqueHasNoDuplicates | generate_interactive_html.js:27 | no name appears twice |
| Report.SortedSetUnique | generate_interactive_html.js:27 | a strictly sorted list is fixed by its elements, whatever order the Set met them in |
| Report.Column | generate_interactive_html.js:32-37 | an absent column reads as NaN; a number is read only from a present cell whose text parses |
| Report.Subtract | generate_interactive_html.js:39-48 | a difference exists exactly when both values parse, and adding it to the earlier value gives the later one |
| Report.AddRow | generate_interactive_html.js:31-48 | one row adds each column pair's difference when the pair parses, and counts the temperature pair |
| Report.TotalsOf | generate_interactive_html.js:30-49 | count is the number of rows whose temperatures both parse, at most data.length |
| Report.AveragesOf | generate_interactive_html.js:51-53 | no average is ever infinite |
| Report.AccumulateDifferences | generate_interactive_html.js:30-49 | the forEach leaves the four accumulators at the totals of the data |
| Report.AccumulateRow | generate_interactive_html.js:31-48 | one callback adds each difference whose two columns parse, and counts the temperature pair |
| Report.TotalsStep | generate_interactive_html.js:31-48 | the totals of one more row are one step on the earlier totals |
| Report.CountPairs | generate_interactive_html.js:39-48 | the number of rows whose pair parses is at most data.length |
| Report.TotalsMeaning | generate_interactive_html.js:43-48 | a precipitation, snow or temperature total stays 0 when its pair never parses |
| Report.Divide | generate_interactive_html.js:51-53 | x / n is the quotient for n > 0, and 0 / 0 is NaN |
| Report.AveragesFinite | generate_interactive_html.js:51-53 | the temperature average is NaN iff count is 0; the other two divide by data.length and are NaN iff there are no rows |
| Report.Remark | generate_interactive_html.js:468-470 | 'lower' iff avg < -limit, 'higher' iff avg > limit, 'alike' otherwise (also for NaN) |
| Report.RemarksOf | generate_interactive_html.js:468-470 | a NaN average is called alike; a finite one is alike exactly within ±1 degree, ±5 mm or ±1 cm |
| Report.EmptyDataRemarks | generate_interactive_html.js:468-470 | with no rows every remark is 'alike' |
| Report.OverallVerdict | generate_interactive_html.js:473 | 'worse' iff worse > better, 'better' iff better > worse, 'similar' iff they are equal |
| Report.NameCellBefore | generate_interactive_html.js:498-499 | every row is at or after a name cell of its own restaurant, with no other restaurant in between |
| Report.OptionShowsRows | generate_interactive_html.js:444 | every dropdown option shows at least one row |
| Report.DataTable.constructor | generate_interactive_html.js:506 | the table starts with every row visible |
| Report.DataTable.FilterByRestaurant | generate_interactive_html.js:551-559 | a row is hidden exactly when a restaurant is selected and the row is not that restaurant's |
| HourlyDetail.FirstMatch | generate_interactive_html.js:593-614 | the least matching index, or -1 exactly when no time stamp matches |
| HourlyDetail.FindFirst | generate_interactive_html.js:597-602 | the for loop with break leaves the first match, or -1 |
| HourlyDetail.StartsWith | generate_interactive_html.js:598 | a stamp starts with the date exactly when its first characters are the date |
| HourlyDetail.SameWeekdayYearBefore | generate_interactive_html.js:605-612 | a stamp matches only when both it and the target are readable dates |
| HourlyDetail.MatchDistance | generate_interactive_html.js:605-612 | a matching stamp lies a whole number of weeks before the target, between 1 and 731 days earlier |
| HourlyDetail.CellText | generate_interactive_html.js:632-639 | reading a cell throws exactly when the series exists and the index is past its end |
| HourlyDetail.FlagFor | generate_interactive_html.js:647-655 | red iff precipDiff > 2, green iff precipDiff < -2, neutral otherwise |
| HourlyDetail.HourRowAt | generate_interactive_html.js:629-658 | building the row for an hour throws exactly when a present series ends at or before that hour's index |
| HourlyDetail.HoursOf | generate_interactive_html.js:628-664 | the 24-hour loop gives exactly 24 rows or throws |
| HourlyDetail.DetailOf | generate_interactive_html.js:562-664 | 'no hourly data' exactly for a restaurant without an entry, 'not available' exactly when a block is missing, and otherwise 24 rows when any are shown |
| HourlyDetail.ShowDetailedAnalysis | generate_interactive_html.js:562-679 | the method's outcome is the function's: which message or which rows the modal shows |
| HourlyDetail.SearchAndBuild | generate_interactive_html.js:593-664 | with both blocks present: 'no data' when a search fails, otherwise 24 rows or a throw |
| HourlyDetail.ReadHourRow | generate_interactive_html.js:629-658 | one pass of the hour loop gives the row built for that hour, or throws exactly where that row does |
| HourlyDetail.HourRows | generate_interactive_html.js:628-664 | the 24-iteration loop yields the rows for hours 0..23, or throws at the first bad cell |
| HourlyDetail.Searches | generate_interactive_html.js:593-625 | nothing is found exactly when no forecast stamp starts with the date or no historical stamp falls on its weekday a year earlier |
| HourlyDetail.NotFoundWhenSearchFails | generate_interactive_html.js:624-625 | the 'no data' message appears exactly when a start index is -1 |
| HourlyDetail.ForecastNone | generate_interactive_html.js:597-602 | the forecast search fails exactly when no time stamp starts with the date |
| HourlyDetail.HistoricalNone | generate_interactive_html.js:605-614 | the historical search fails exactly when no time stamp falls on the weekday in the previous year |
| HourlyDetail.InvalidDateFindsNothing | generate_interactive_html.js:579-614 | an unreadable date never matches, so no rows are shown |
| HourlyDetail.CrashMeaning | generate_interactive_html.js:632-639 | building the rows throws exactly when a present series ends before start + 24 |
| HourlyDetail.ShortRow | generate_interactive_html.js:632-639 | a series ending before start + 24 makes a row throw |
| HourlyDetail.ZeroText | generate_interactive_html.js:637-643 | the fallback '0.0' parses as 0 |
| HourlyDetail.PrecipCell | generate_interactive_html.js:636-643 | a precipitation cell parses back as its rounded reading, 0 when missing or null |
| HourlyDetail.TempCell | generate_interactive_html.js:632-635 | a temperature cell is 'N/A' exactly when there is no reading, and otherwise parses back as the rounded reading |
| HourlyDetail.FlagReadsCells | generate_interactive_html.js:636-655 | the flag compares exactly what parseFloat reads from the two precipitation cells |
| HourlyDetail.RowFields | generate_interactive_html.js:629-658 | a row that does not throw holds the four cell texts, the hour label and the flag of its readings |
| HourlyDetail.HourLabel | generate_interactive_html.js:658 | the hour label is two digits reading back as the hour, then ":00" |
| HourlyDetail.RowsShown | generate_interactive_html.js:597-628 | rows appear only when both searches matched, built from the two first matches |
| HourlyDetail.HoursShown | generate_interactive_html.js:628-664 | 24 rows labelled 00:00 to 23:00 in order, 'N/A' exactly where a reading is missing, flags from the shown precipitation |
| HourlyDetail.RowFacts | generate_interactive_html.js:628-664 | the same facts for one shown row |
| HourlyDetail.RowOfHours | generate_interactive_html.js:628-664 | shown row `hour` is the row built for that hour |
| HourlyDetail.RowAtFacts | generate_interactive_html.js:629-658 | a built row has its label, 'N/A' cells and flag as stated |
| Pipeline.TextCount | weather_impact_interactive.js:214 | each label's text occurs in the column as often as the label |
| Pipeline.TextsSnoc | weather_impact_interactive.js:214 | the column of one more row ends with that row's text |
| Pipeline.WorseTextAbsent | generate_interactive_html.js:23 | the report's 'D√•rligere' never occurs in the written column |
| Pipeline.LabelCounts | generate_interactive_html.js:22-24 | better and similar count the rows labelled so; worse is always 0 |
| Pipeline.VerdictNeverWorse | generate_interactive_html.js:473 | the verdict is never 'worse', and it is 'better' exactly when some row is 'Bedre' |
| Pipeline.NoPrecipitationPairs | generate_interactive_html.js:34-37 | no written row has the precipitation or snow columns the report reads |
| Pipeline.PrecipitationAndSnowZero | generate_interactive_html.js:43-53 | so their totals stay 0 and the averages are 0, or NaN with no rows |
| Pipeline.AveragesWithoutPairs | generate_interactive_html.js:43-53 | with no parsing pair, those totals are 0 and the averages 0 or NaN |
| Pipeline.PrecipitationAndSnowAlike | generate_interactive_html.js:469-470 | the report always calls precipitation and snow alike |
| Pipeline.TemperatureDifference | generate_interactive_html.js:32-42 | a row adds to count exactly when both temperatures were non-zero numbers, and adds the difference of the rounded values |
| Pipeline.FieldsSubtract | generate_interactive_html.js:39-40 | the difference of two written fields, as parseFloat reads them |
| Pipeline.TemperatureColumns | generate_interactive_html.js:32-33 | the report's temperature columns are the two texts the batch wrote |
| Pipeline.FieldParses | generate_interactive_html.js:32 | parseFloat reads a written field as its rounded value, or NaN for 'N/A' |
| Pipeline.SheetCells | generate_interactive_html.js:32-37 | the temperature keys find the written texts; the precipitation and snow keys find nothing |
| Pipeline.ToSheetRow | generate_interactive_html.js:8 | the read-back row keeps the restaurant and the label text, has Ugedag exactly when the weekday is defined, and lacks every precipitation and snow key the report reads |
| Pipeline.NameOncePerRestaurant | generate_interactive_html.js:498-499 | within a restaurant's seven rows only the first shows the name cell |
| Pipeline.NameHidden | generate_interactive_html.js:498 | a row of the same restaurant as the row before shows no name |
| Pipeline.RowsHaveHourlyData | generate_interactive_html.js:570-576 | every written row has hourly data under its restaurant, so the 'no hourly data' message never appears for it |
| Pipeline.IntendedVerdict | generate_interactive_html.js:23 | counting the written 'Dårligere', the verdict is 'worse' iff more rows are 'Dårligere' than 'Bedre' |
| Pipeline.IntendedDifferences | generate_interactive_html.js:34-37 | under the written headers, rain and snow add the rounded difference exactly when both values are non-zero numbers |
| Pipeline.WrittenColumns | generate_interactive_html.js:34-37 | the written headers find the batch's rain and snow texts |

## Left out

- The HTTP requests and JSON parsing (`fetchJSON`, `getHourlyWeatherData`, `getForecastWithHourly`) are not modelled. Each restaurant carries the outcome of its two requests as an input, with `None` for a request that returned null.
- The 500 ms pause between restaurants is not modelled: it affects timing only.
- Reading and writing the spreadsheets and the JSON file are not modelled. The batch's rows are handed to the report through `Pipeline.ToSheetRow`, where every written cell becomes text.
- The HTML, CSS and DOM work is not modelled: the page template, the modal markup, the title and `console.log`. `showDetailedAnalysis` returns which message or which rows it would show.
- The localised `Dato` column (`toLocaleDateString('da-DK')`) is not modelled.
- Floating point is not modelled: numbers are exact reals.
  - `toFixed(1)` rounds halves away from zero on the exact value.
  - Large values, where JS switches to exponent notation, are not covered.
- `parseFloat` is modelled only on the texts the scripts produce: an optional sign, digits, and an optional point with digits. Exponents, "Infinity" and leading blanks are not covered.
- JS `Date` is modelled on calendar days. The shift between local time (`getDay`, `getFullYear`) and UTC (`toISOString`) is not modelled, nor are time zones.
- `new Date(string)` is modelled only on ISO dates, alone or followed by "THH:MM". Other formats are Invalid Date here.
- IsoText.ParseIsoDate reads a date with an over-large day of the month as Invalid Date. V8 rolls it into the next month instead: `new Date('2026-02-30')` is 2026-03-02.
- The `startDate = new Date()` defaults of `calculateDates` and `processRestaurants` (weather_impact_interactive.js:76 and :128) read the clock. The model takes the start day as a parameter.
- The default `sort` compares strings character by character. UTF-16 surrogate pairs are not distinguished.
- A weather payload without a `daily` block, or without a `time` array in its hourly block, is not modelled. Those are JS TypeErrors the source does not handle.
- Batch.Daily holds all three daily series. A `daily` block that lacks one of them is not modelled: the source then reads `undefined[day]` (weather_impact_interactive.js:194-200) and throws a TypeError.
- `fetchJSON` (weather_impact_interactive.js:25-26) resolves any JSON body, including an API error object without a `daily` block. The reply to the reversed archive window in "## Findings" is such a case. It passes the `!historicalData` test and reaches that TypeError rather than the skip. The model's responses are either absent or well-formed, so this path is not modelled.
- Numeric cells in the name columns are not modelled: `__EMPTY` and `Restaurant` are text or absent.
- Text coordinates are modelled through the value JS `Number()` gives them. That value is an input.
- The franchisee filter is only mentioned in a log line of the report. It does not exist as code.
- HourlyDetail.HourRowAt computes the flag from the readings. The source reads it back from the cell texts. HourlyDetail.FlagReadsCells proves the two agree.
- HourlyDetail.SameWeekdayYearBefore stands for `getDay`/`getFullYear` on the historical stamp. An Invalid Date target matches nothing, as NaN comparisons do in JS.

## Findings

| source | as written | input that shows it | evidently intended | confidence | as-written member | corrected member |
|---|---|---|---|---|---|---|
| weather_impact_interactive.js:174 | the archive is asked for historical[0] to historical[6], but the partners are not in ascending order: a Sunday moves 6 days back | start Monday 2026-10-19: the window runs from 2025-10-20 to 2025-10-19, ends before it starts and holds none of the seven days | request from the earliest to the latest partner | not executed | DateAligner.ReversedArchiveWindow | DateAligner.CoveringWindow |
| generate_interactive_html.js:23 | worse counts rows whose Impact is 'D√•rligere', a text the batch never writes | any rows at all, for instance seven 'Dårligere' rows: worse is 0 and the verdict is 'similar' | count 'Dårligere', so the verdict is 'worse' when Dårligere rows outnumber Bedre rows | not executed | Pipeline.VerdictNeverWorse | Pipeline.IntendedVerdict |
| generate_interactive_html.js:34-37 | precipitation and snow are read under 'Nedb√∏r 2026/2025' and 'Snefald 2026/2025 (cm)', but the batch writes 'Nedbør 2026/2025' and 'Sne 2026/2025' | any row with 10.0 mm of rain this year and 1.0 mm last year: the precipitation average is 0 and the remark says alike | read the headers the batch writes, so each row adds its rounded difference | not executed | Pipeline.PrecipitationAndSnowAlike | Pipeline.IntendedDifferences |
