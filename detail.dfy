/** The hourly comparison of showDetailedAnalysis in generate_interactive_html.js:
    the two first-match searches for where the chosen day starts in the hourly
    arrays, and the 24 rows with their precipitation flag. The modal's markup is
    not modelled; the outcome says which message or which rows it would show. */
module HourlyDetail {
  import opened Calendar
  import opened IsoText
  import opened Batch

  /** time.startsWith(date). */
  function StartsWith(time: string, date: string): (b: bool)
    ensures b <==> |date| <= |time| && time[..|date|] == date
  {
    date <= time
  }

  /** The first index at or after k whose time stamp satisfies p, or -1: what a
      for loop that breaks at its first match leaves in its start index. */
  function FirstMatch(times: seq<string>, p: string -> bool, k: nat): (r: int)
    requires k <= |times|
    ensures r == -1 <==> forall i :: k <= i < |times| ==> !p(times[i])
    ensures r != -1 ==> k <= r < |times| && p(times[r])
    ensures r != -1 ==> forall i :: k <= i < r ==> !p(times[i])
    decreases |times| - k
  {
    if k == |times| then -1
    else if p(times[k]) then k
    else FirstMatch(times, p, k + 1)
  }

  /** new Date(t).getDay() === targetWeekday && new Date(t).getFullYear() === lastYear,
      for the target day `target` (None when new Date(date) is invalid, whose NaN
      weekday equals nothing). */
  function SameWeekdayYearBefore(time: string, target: Option<int>): (b: bool)
    ensures b ==> target.Some? && ParseIsoDate(time).Some?
  {
    if ParseIsoDate(time).None? || target.None? then false
    else
      var d, t := ParseIsoDate(time).value, target.value;
      Weekday(d) == Weekday(t) && YearOf(d) == YearOf(t) - 1
  }

  /** A time stamp that matches, on day d, lies a whole number of weeks, and 1 to
      731 days, before the target day t. */
  lemma MatchDistance(time: string, target: Option<int>, d: int, t: int)
    requires ParseIsoDate(time) == Some(d) && target == Some(t)
    requires SameWeekdayYearBefore(time, target)
    ensures (t - d) % 7 == 0 && 0 < t - d < 732
  {
    SameWeekdayWeeks(d, t);
    YearBeforeDistance(d, t);
  }

  /** series && series[idx] !== null ? series[idx].toFixed(1) : fallback. None is the
      TypeError thrown by toFixed when series[idx] is undefined (past the end). */
  function CellText(series: Option<Series>, idx: nat, fallback: string): (c: Option<string>)
    ensures c.None? <==> series.Some? && idx >= |series.value|
  {
    if series.None? then Some(fallback)
    else match At(series.value, idx)
      case Num(x) => Some(ToFixed1(x))
      case Null => Some(fallback)
      case Undefined => None
  }

  /** Red: more rain this year; Green: less; Neutral: within 2 mm either way. */
  datatype Flag = Red | Green | Neutral

  /** One row of the comparison: the hour label, the four cells and the flag. */
  datatype HourRow = HourRow(hourText: string, fTemp: string, hTemp: string, fPrecip: string, hPrecip: string, flag: Flag)

  /** The precipitation a cell shows, as a value: the reading rounded to a tenth,
      and 0 for a missing series or a null reading. */
  function PrecipValue(series: Option<Series>, idx: nat): real {
    if series.None? then 0.0
    else match At(series.value, idx)
      case Num(x) => Round1(x)
      case _ => 0.0
  }

  /** precipDiff > 2 ? red : precipDiff < -2 ? green : neutral. */
  function FlagFor(precipDiff: real): (f: Flag)
    ensures f == Red <==> precipDiff > 2.0
    ensures f == Green <==> precipDiff < -2.0
    ensures f == Neutral <==> -2.0 <= precipDiff <= 2.0
  {
    if precipDiff > 2.0 then Red else if precipDiff < -2.0 then Green else Neutral
  }

  /** The row for `hour`, read at forecastStartIdx + hour and historicalStartIdx + hour;
      None when a cell throws. */
  function HourRowAt(forecast: Hourly, historical: Hourly, fStart: nat, hStart: nat, hour: nat): (r: Option<HourRow>)
    ensures r.None? <==>
      || (forecast.temperature.Some? && fStart + hour >= |forecast.temperature.value|)
      || (historical.temperature.Some? && hStart + hour >= |historical.temperature.value|)
      || (forecast.precipitation.Some? && fStart + hour >= |forecast.precipitation.value|)
      || (historical.precipitation.Some? && hStart + hour >= |historical.precipitation.value|)
  {
    var fIdx, hIdx := fStart + hour, hStart + hour;
    var fTemp := CellText(forecast.temperature, fIdx, "N/A");
    var hTemp := CellText(historical.temperature, hIdx, "N/A");
    var fPrecip := CellText(forecast.precipitation, fIdx, "0.0");
    var hPrecip := CellText(historical.precipitation, hIdx, "0.0");
    if fTemp.None? || hTemp.None? || fPrecip.None? || hPrecip.None? then None
    else
      var precipDiff := PrecipValue(forecast.precipitation, fIdx) - PrecipValue(historical.precipitation, hIdx);
      Some(HourRow(PadDigits(hour, 2) + ":00", fTemp.value, hTemp.value, fPrecip.value, hPrecip.value, FlagFor(precipDiff)))
  }

  /** What the modal ends up showing. */
  datatype Detail =
    | NoHourlyData          // no hourly entry for the restaurant
    | NotAvailable          // the entry lacks its forecast or its historical block
    | NotFound              // a start index stayed -1: no hour rows
    | Hours(rows: seq<HourRow>)
    | TypeError             // a cell read past the end of a series and the function threw

  /** The 24 rows from the two start indices, or TypeError if any row throws. */
  function HoursOf(forecast: Hourly, historical: Hourly, fStart: nat, hStart: nat): (d: Detail)
    ensures d.Hours? || d == TypeError
    ensures d.Hours? ==> |d.rows| == 24
  {
    if exists hour :: 0 <= hour < 24 && HourRowAt(forecast, historical, fStart, hStart, hour).None? then TypeError
    else Hours(seq(24, hour requires 0 <= hour < 24 => HourRowAt(forecast, historical, fStart, hStart, hour).value))
  }

  /** The search loop: let idx = -1; for (let i = 0; i < times.length; i++) { if (test)
      { idx = i; break; } }. */
  method FindFirst(times: seq<string>, p: string -> bool) returns (idx: int)
    ensures idx == FirstMatch(times, p, 0)
  {
    idx := -1;
    for i := 0 to |times|
      invariant idx == -1
      invariant forall k :: 0 <= k < i ==> !p(times[k])
    {
      if p(times[i]) {
        idx := i;
        break;
      }
    }
  }

  /** The forecast search's test: the time stamp starts with the date. */
  function ForecastMatch(date: string): string -> bool {
    t => StartsWith(t, date)
  }

  /** The historical search's test: the time stamp falls on the date's weekday in
      the year before the date's. */
  function HistoricalMatch(date: string): string -> bool {
    t => SameWeekdayYearBefore(t, ParseIsoDate(date))
  }

  /** showDetailedAnalysis as a function of the hourly data, the restaurant and the date. */
  function DetailOf(hourlyData: map<string, HourlyPair>, restaurant: string, date: string): (d: Detail)
    ensures d == NoHourlyData <==> restaurant !in hourlyData
    ensures d == NotAvailable <==>
      restaurant in hourlyData && (hourlyData[restaurant].forecast.None? || hourlyData[restaurant].historical.None?)
    ensures d.Hours? ==> |d.rows| == 24
  {
    if restaurant !in hourlyData then NoHourlyData
    else
      var pair := hourlyData[restaurant];
      if pair.forecast.None? || pair.historical.None? then NotAvailable
      else
        SearchAndBuild(pair.forecast.value, pair.historical.value, date)
  }

  /** With both blocks present: search both time arrays, then build the 24 rows. */
  function SearchAndBuild(forecast: Hourly, historical: Hourly, date: string): (d: Detail)
    ensures d == NotFound || d == TypeError || (d.Hours? && |d.rows| == 24)
  {
    var fStart := FirstMatch(forecast.time, ForecastMatch(date), 0);
    var hStart := FirstMatch(historical.time, HistoricalMatch(date), 0);
    if fStart == -1 || hStart == -1 then NotFound
    else HoursOf(forecast, historical, fStart, hStart)
  }

  /** showDetailedAnalysis: look up the restaurant, search both hourly arrays with
      a for loop that breaks at the first match, then build the 24 rows. */
  method ShowDetailedAnalysis(hourlyData: map<string, HourlyPair>, restaurant: string, date: string)
    returns (outcome: Detail)
    ensures outcome == DetailOf(hourlyData, restaurant, date)
  {
    if restaurant !in hourlyData {
      return NoHourlyData;
    }
    var restHourly := hourlyData[restaurant];
    if restHourly.forecast.None? || restHourly.historical.None? {
      return NotAvailable;
    }
    var forecast, historical := restHourly.forecast.value, restHourly.historical.value;

    var forecastStartIdx := FindFirst(forecast.time, ForecastMatch(date));
    var historicalStartIdx := FindFirst(historical.time, HistoricalMatch(date));
    if forecastStartIdx == -1 || historicalStartIdx == -1 {
      return NotFound;
    }
    outcome := HourRows(forecast, historical, forecastStartIdx, historicalStartIdx);
  }

  /** The 24-iteration loop of showDetailedAnalysis: the rows for hours 0 .. 23 from
      the two start indices, stopping at the first cell that throws. */
  method HourRows(forecast: Hourly, historical: Hourly, fStart: nat, hStart: nat) returns (outcome: Detail)
    ensures outcome == HoursOf(forecast, historical, fStart, hStart)
  {
    var rows: seq<HourRow> := [];
    for hour := 0 to 24
      invariant |rows| == hour
      invariant forall k :: 0 <= k < hour ==> HourRowAt(forecast, historical, fStart, hStart, k) == Some(rows[k])
    {
      var row := ReadHourRow(forecast, historical, fStart, hStart, hour);
      if row.None? {
        return TypeError;
      }
      rows := rows + [row.value];
    }
    outcome := Hours(rows);
  }

  /** The body of the hour loop: the four cells, which may throw, and the flag. */
  method ReadHourRow(forecast: Hourly, historical: Hourly, fStart: nat, hStart: nat, hour: nat)
    returns (row: Option<HourRow>)
    ensures row == HourRowAt(forecast, historical, fStart, hStart, hour)
  {
    var fIdx, hIdx := fStart + hour, hStart + hour;
    var fTemp := CellText(forecast.temperature, fIdx, "N/A");
    var hTemp := CellText(historical.temperature, hIdx, "N/A");
    var fPrecip := CellText(forecast.precipitation, fIdx, "0.0");
    var hPrecip := CellText(historical.precipitation, hIdx, "0.0");
    if fTemp.None? || hTemp.None? || fPrecip.None? || hPrecip.None? {
      return None;
    }
    var precipDiff := PrecipValue(forecast.precipitation, fIdx) - PrecipValue(historical.precipitation, hIdx);
    row := Some(HourRow(PadDigits(hour, 2) + ":00", fTemp.value, hTemp.value, fPrecip.value, hPrecip.value, FlagFor(precipDiff)));
  }

  // ---------------------------------------------------------------------
  // What the outcome means.

  /** Past the end of a present series within the 24 hours from start. */
  predicate TooShort(series: Option<Series>, start: nat) {
    series.Some? && |series.value| < start + 24
  }

  /** With both blocks present, nothing is found exactly when no forecast time stamp
      starts with the date or no historical one falls on its weekday a year earlier;
      otherwise the rows start at the first match in each array. */
  lemma Searches(hourlyData: map<string, HourlyPair>, restaurant: string, date: string)
    requires restaurant in hourlyData
    requires hourlyData[restaurant].forecast.Some? && hourlyData[restaurant].historical.Some?
    ensures var forecast, historical := hourlyData[restaurant].forecast.value, hourlyData[restaurant].historical.value;
      DetailOf(hourlyData, restaurant, date) == NotFound <==>
        (forall i :: 0 <= i < |forecast.time| ==> !StartsWith(forecast.time[i], date)) ||
        (forall i :: 0 <= i < |historical.time| ==> !SameWeekdayYearBefore(historical.time[i], ParseIsoDate(date)))
  {
    var forecast, historical := hourlyData[restaurant].forecast.value, hourlyData[restaurant].historical.value;
    NotFoundWhenSearchFails(hourlyData, restaurant, date);
    ForecastNone(forecast.time, date);
    HistoricalNone(historical.time, date);
  }

  /** The outcome is NotFound exactly when one of the two searches left -1. */
  lemma NotFoundWhenSearchFails(hourlyData: map<string, HourlyPair>, restaurant: string, date: string)
    requires restaurant in hourlyData
    requires hourlyData[restaurant].forecast.Some? && hourlyData[restaurant].historical.Some?
    ensures var forecast, historical := hourlyData[restaurant].forecast.value, hourlyData[restaurant].historical.value;
      DetailOf(hourlyData, restaurant, date) == NotFound <==>
        FirstMatch(forecast.time, ForecastMatch(date), 0) == -1 || FirstMatch(historical.time, HistoricalMatch(date), 0) == -1
  {
  }

  lemma ForecastNone(times: seq<string>, date: string)
    ensures FirstMatch(times, ForecastMatch(date), 0) == -1 <==> forall i :: 0 <= i < |times| ==> !StartsWith(times[i], date)
  {
    assert forall i :: 0 <= i < |times| ==> ForecastMatch(date)(times[i]) == StartsWith(times[i], date);
  }

  lemma HistoricalNone(times: seq<string>, date: string)
    ensures FirstMatch(times, HistoricalMatch(date), 0) == -1 <==>
      forall i :: 0 <= i < |times| ==> !SameWeekdayYearBefore(times[i], ParseIsoDate(date))
  {
    assert forall i :: 0 <= i < |times| ==> HistoricalMatch(date)(times[i]) == SameWeekdayYearBefore(times[i], ParseIsoDate(date));
  }

  /** An unreadable date never matches a historical time stamp, so no rows are shown. */
  lemma InvalidDateFindsNothing(hourlyData: map<string, HourlyPair>, restaurant: string, date: string)
    requires restaurant in hourlyData
    requires hourlyData[restaurant].forecast.Some? && hourlyData[restaurant].historical.Some?
    requires ParseIsoDate(date).None?
    ensures DetailOf(hourlyData, restaurant, date) == NotFound
  {
    var historical := hourlyData[restaurant].historical.value;
    assert forall i :: 0 <= i < |historical.time| ==> !SameWeekdayYearBefore(historical.time[i], None);
  }

  /** The rows throw exactly when a present series ends before start + 24. */
  lemma CrashMeaning(forecast: Hourly, historical: Hourly, fStart: nat, hStart: nat)
    ensures HoursOf(forecast, historical, fStart, hStart) == TypeError <==>
      TooShort(forecast.temperature, fStart) || TooShort(historical.temperature, hStart) ||
      TooShort(forecast.precipitation, fStart) || TooShort(historical.precipitation, hStart)
  {
    if TooShort(forecast.temperature, fStart) {
      ShortRow(forecast.temperature, fStart, forecast, historical, fStart, hStart);
    } else if TooShort(historical.temperature, hStart) {
      ShortRow(historical.temperature, hStart, forecast, historical, fStart, hStart);
    } else if TooShort(forecast.precipitation, fStart) {
      ShortRow(forecast.precipitation, fStart, forecast, historical, fStart, hStart);
    } else if TooShort(historical.precipitation, hStart) {
      ShortRow(historical.precipitation, hStart, forecast, historical, fStart, hStart);
    }
  }

  /** A short series makes the row at its end throw. */
  lemma ShortRow(series: Option<Series>, start: nat, forecast: Hourly, historical: Hourly, fStart: nat, hStart: nat)
    requires TooShort(series, start)
    requires || (series == forecast.temperature && start == fStart)
             || (series == historical.temperature && start == hStart)
             || (series == forecast.precipitation && start == fStart)
             || (series == historical.precipitation && start == hStart)
    ensures HoursOf(forecast, historical, fStart, hStart) == TypeError
  {
    var hour := if |series.value| <= start then 0 else |series.value| - start;
    assert HourRowAt(forecast, historical, fStart, hStart, hour).None?;
  }

  /** The temperature a cell shows: the reading rounded to a tenth, None for 'N/A'. */
  function TempValue(series: Option<Series>, idx: nat): Option<real> {
    if series.None? then None
    else match At(series.value, idx)
      case Num(x) => Some(Round1(x))
      case _ => None
  }

  /** The fallback text of a precipitation cell reads back as 0. */
  lemma ZeroText()
    ensures ParseFloat("0.0") == Some(0.0)
  {
    ToFixed1RoundTrip(0.0);
    assert NatToString(0) == "0";
    assert ToFixed1(0.0) == "0.0";
  }

  /** A precipitation cell reads back through parseFloat as PrecipValue. */
  lemma PrecipCell(series: Option<Series>, idx: nat)
    requires CellText(series, idx, "0.0").Some?
    ensures ParseFloat(CellText(series, idx, "0.0").value) == Some(PrecipValue(series, idx))
  {
    ZeroText();
    if series.Some? && At(series.value, idx).Num? {
      ToFixed1RoundTrip(At(series.value, idx).x);
    }
  }

  /** A temperature cell is 'N/A' exactly when there is no reading; otherwise it
      reads back as the reading rounded to a tenth. */
  lemma TempCell(series: Option<Series>, idx: nat)
    requires CellText(series, idx, "N/A").Some?
    ensures var text := CellText(series, idx, "N/A").value;
      && (text == "N/A" <==> TempValue(series, idx).None?)
      && ParseFloat(text) == TempValue(series, idx)
  {
    assert ParseFloat("N/A") == None;
    if series.Some? && At(series.value, idx).Num? {
      ToFixed1RoundTrip(At(series.value, idx).x);
    }
  }

  /** The flag is what the source computes from the cell texts: both precipitation
      cells read back through parseFloat as the values the flag compares. */
  lemma FlagReadsCells(forecast: Hourly, historical: Hourly, fStart: nat, hStart: nat, hour: nat)
    requires HourRowAt(forecast, historical, fStart, hStart, hour).Some?
    ensures var row := HourRowAt(forecast, historical, fStart, hStart, hour).value;
      && ParseFloat(row.fPrecip) == Some(PrecipValue(forecast.precipitation, fStart + hour))
      && ParseFloat(row.hPrecip) == Some(PrecipValue(historical.precipitation, hStart + hour))
      && row.flag == FlagFor(ParseFloat(row.fPrecip).value - ParseFloat(row.hPrecip).value)
  {
    RowFields(forecast, historical, fStart, hStart, hour);
    PrecipCell(forecast.precipitation, fStart + hour);
    PrecipCell(historical.precipitation, hStart + hour);
  }

  /** The fields of a row that does not throw. */
  lemma RowFields(forecast: Hourly, historical: Hourly, fStart: nat, hStart: nat, hour: nat)
    requires HourRowAt(forecast, historical, fStart, hStart, hour).Some?
    ensures var row := HourRowAt(forecast, historical, fStart, hStart, hour).value;
      && CellText(forecast.temperature, fStart + hour, "N/A").Some?
      && CellText(historical.temperature, hStart + hour, "N/A").Some?
      && CellText(forecast.precipitation, fStart + hour, "0.0").Some?
      && CellText(historical.precipitation, hStart + hour, "0.0").Some?
      && row.hourText == PadDigits(hour, 2) + ":00"
      && row.fTemp == CellText(forecast.temperature, fStart + hour, "N/A").value
      && row.hTemp == CellText(historical.temperature, hStart + hour, "N/A").value
      && row.fPrecip == CellText(forecast.precipitation, fStart + hour, "0.0").value
      && row.hPrecip == CellText(historical.precipitation, hStart + hour, "0.0").value
      && row.flag == FlagFor(PrecipValue(forecast.precipitation, fStart + hour) - PrecipValue(historical.precipitation, hStart + hour))
  {
  }

  /** The hour label is two digits that read back as the hour, then ":00". */
  lemma HourLabel(hour: nat)
    requires hour < 24
    ensures var text := PadDigits(hour, 2) + ":00";
      |text| == 5 && AllDigits(text[..2]) && DigitsValue(text[..2]) == hour && text[2..] == ":00"
  {
    var text := PadDigits(hour, 2) + ":00";
    assert text[..2] == PadDigits(hour, 2);
    assert Pow10(2) == 100;
    PadDigitsExact(hour, 2);
  }

  /** Rows are shown only when both searches found a match: the rows are those
      built from the first time stamp starting with the date and the first historical
      time stamp on its weekday a year earlier. */
  lemma RowsShown(hourlyData: map<string, HourlyPair>, restaurant: string, date: string)
    requires DetailOf(hourlyData, restaurant, date).Hours?
    ensures restaurant in hourlyData
    ensures hourlyData[restaurant].forecast.Some? && hourlyData[restaurant].historical.Some?
    ensures var forecast, historical := hourlyData[restaurant].forecast.value, hourlyData[restaurant].historical.value;
      var fStart := FirstMatch(forecast.time, ForecastMatch(date), 0);
      var hStart := FirstMatch(historical.time, HistoricalMatch(date), 0);
      && 0 <= fStart < |forecast.time| && StartsWith(forecast.time[fStart], date)
      && 0 <= hStart < |historical.time| && SameWeekdayYearBefore(historical.time[hStart], ParseIsoDate(date))
      && DetailOf(hourlyData, restaurant, date) == HoursOf(forecast, historical, fStart, hStart)
  {
  }

  /** The shown rows are 24, labelled 00:00 .. 23:00 in order; each temperature cell
      is 'N/A' exactly when there is no reading, and each flag compares the two
      precipitation values the row shows. */
  lemma HoursShown(forecast: Hourly, historical: Hourly, fStart: nat, hStart: nat)
    requires HoursOf(forecast, historical, fStart, hStart).Hours?
    ensures var rows := HoursOf(forecast, historical, fStart, hStart).rows;
      && |rows| == 24
      && forall hour :: 0 <= hour < 24 ==>
           && |rows[hour].hourText| == 5 && AllDigits(rows[hour].hourText[..2])
           && DigitsValue(rows[hour].hourText[..2]) == hour
           && (rows[hour].fTemp == "N/A" <==> TempValue(forecast.temperature, fStart + hour).None?)
           && (rows[hour].hTemp == "N/A" <==> TempValue(historical.temperature, hStart + hour).None?)
           && rows[hour].flag == FlagFor(PrecipValue(forecast.precipitation, fStart + hour) -
                                         PrecipValue(historical.precipitation, hStart + hour))
  {
    var rows := HoursOf(forecast, historical, fStart, hStart).rows;
    forall hour | 0 <= hour < 24
      ensures && |rows[hour].hourText| == 5 && AllDigits(rows[hour].hourText[..2])
              && DigitsValue(rows[hour].hourText[..2]) == hour
              && (rows[hour].fTemp == "N/A" <==> TempValue(forecast.temperature, fStart + hour).None?)
              && (rows[hour].hTemp == "N/A" <==> TempValue(historical.temperature, hStart + hour).None?)
              && rows[hour].flag == FlagFor(PrecipValue(forecast.precipitation, fStart + hour) -
                                            PrecipValue(historical.precipitation, hStart + hour))
    {
      RowFacts(forecast, historical, fStart, hStart, hour);
    }
  }

  /** The facts HoursShown states, for one row. */
  lemma RowFacts(forecast: Hourly, historical: Hourly, fStart: nat, hStart: nat, hour: nat)
    requires HoursOf(forecast, historical, fStart, hStart).Hours? && hour < 24
    ensures var row := HoursOf(forecast, historical, fStart, hStart).rows[hour];
      && |row.hourText| == 5 && AllDigits(row.hourText[..2]) && DigitsValue(row.hourText[..2]) == hour
      && (row.fTemp == "N/A" <==> TempValue(forecast.temperature, fStart + hour).None?)
      && (row.hTemp == "N/A" <==> TempValue(historical.temperature, hStart + hour).None?)
      && row.flag == FlagFor(PrecipValue(forecast.precipitation, fStart + hour) - PrecipValue(historical.precipitation, hStart + hour))
  {
    RowOfHours(forecast, historical, fStart, hStart, hour);
    RowAtFacts(forecast, historical, fStart, hStart, hour);
  }

  /** Row `hour` of the shown rows is HourRowAt's row. */
  lemma RowOfHours(forecast: Hourly, historical: Hourly, fStart: nat, hStart: nat, hour: nat)
    requires HoursOf(forecast, historical, fStart, hStart).Hours? && hour < 24
    ensures HourRowAt(forecast, historical, fStart, hStart, hour).Some?
    ensures HoursOf(forecast, historical, fStart, hStart).rows[hour] == HourRowAt(forecast, historical, fStart, hStart, hour).value
  {
  }

  /** The facts RowFacts states, on the row HourRowAt builds. */
  lemma RowAtFacts(forecast: Hourly, historical: Hourly, fStart: nat, hStart: nat, hour: nat)
    requires HourRowAt(forecast, historical, fStart, hStart, hour).Some? && hour < 24
    ensures var row := HourRowAt(forecast, historical, fStart, hStart, hour).value;
      && |row.hourText| == 5 && AllDigits(row.hourText[..2]) && DigitsValue(row.hourText[..2]) == hour
      && (row.fTemp == "N/A" <==> TempValue(forecast.temperature, fStart + hour).None?)
      && (row.hTemp == "N/A" <==> TempValue(historical.temperature, hStart + hour).None?)
      && row.flag == FlagFor(PrecipValue(forecast.precipitation, fStart + hour) - PrecipValue(historical.precipitation, hStart + hour))
  {
    RowFields(forecast, historical, fStart, hStart, hour);
    HourLabel(hour);
    TempCell(forecast.temperature, fStart + hour);
    TempCell(historical.temperature, hStart + hour);
  }
}
