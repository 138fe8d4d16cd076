/** The restaurant loop of processRestaurants in weather_impact_interactive.js.
    The two weather requests are not made here: each restaurant comes with the
    outcome of its forecast request and of its archive request, None standing
    for a request that failed (the helpers return null). */
module Batch {
  import opened Calendar
  import opened IsoText
  import opened Impact
  import opened DateAligner
  import opened Sequences

  /** A JSON array of numbers that may hold nulls. */
  type Series = seq<Option<real>>

  /** series[i] as JS reads it: the number, null, or undefined past the end. */
  function At(series: Series, i: nat): (v: JsValue)
    ensures v.Undefined? <==> i >= |series|
    ensures v.Null? <==> i < |series| && series[i].None?
    ensures v.Num? ==> i < |series| && series[i] == Some(v.x)
  {
    if i >= |series| then Undefined
    else match series[i]
      case None => Null
      case Some(x) => Num(x)
  }

  /** The hourly block of a response: time stamps and two series that may be absent. */
  datatype Hourly = Hourly(time: seq<string>, temperature: Option<Series>, precipitation: Option<Series>)

  /** The daily block of a response. */
  datatype Daily = Daily(temperatureMean: Series, precipitationSum: Series, snowfallSum: Series)

  /** A parsed response; its hourly block may be absent. */
  datatype Weather = Weather(hourly: Option<Hourly>, daily: Daily)

  /** What hourlyData keeps for one restaurant. */
  datatype HourlyPair = HourlyPair(forecast: Option<Hourly>, historical: Option<Hourly>)

  /** A spreadsheet cell as sheet_to_json yields it. For text, asNumber is what
      JS Number() makes of it, None standing for NaN. */
  datatype Cell = Missing | Number(x: real) | Text(s: string, asNumber: Option<real>)

  /** JS truthiness: undefined, 0 and the empty string are falsy. */
  predicate Truthy(c: Cell) {
    match c
    case Missing => false
    case Number(x) => x != 0.0
    case Text(s, _) => s != ""
  }

  /** JS isNaN: undefined and text that is not a number. */
  predicate IsNaN(c: Cell) {
    match c
    case Missing => true
    case Number(_) => false
    case Text(_, n) => n.None?
  }

  /** One row of the coordinates sheet, with the outcomes of its two requests. */
  datatype RestaurantInput = RestaurantInput(
    emptyColumn: Option<string>, restaurantColumn: Option<string>,
    latitude: Cell, longitude: Cell,
    forecast: Option<Weather>, historical: Option<Weather>)

  /** restaurant.__EMPTY || restaurant.Restaurant || `Restaurant ${i+1}`. */
  function RestaurantName(r: RestaurantInput, i: nat): (name: string)
    ensures name != ""
    ensures r.emptyColumn.Some? && r.emptyColumn.value != "" ==> name == r.emptyColumn.value
    ensures (r.emptyColumn.None? || r.emptyColumn.value == "") ==>
              r.restaurantColumn.Some? && r.restaurantColumn.value != "" ==>
                name == r.restaurantColumn.value
  {
    if r.emptyColumn.Some? && r.emptyColumn.value != "" then r.emptyColumn.value
    else if r.restaurantColumn.Some? && r.restaurantColumn.value != "" then r.restaurantColumn.value
    else "Restaurant " + NatToString(i + 1)
  }

  /** The fallback name holds the 1-based position of the restaurant. */
  lemma FallbackName(r: RestaurantInput, i: nat)
    requires r.emptyColumn.None? || r.emptyColumn.value == ""
    requires r.restaurantColumn.None? || r.restaurantColumn.value == ""
    ensures var name := RestaurantName(r, i);
      name[..11] == "Restaurant " && AllDigits(name[11..]) && DigitsValue(name[11..]) == i + 1
  {
    var name := RestaurantName(r, i);
    assert name[11..] == NatToString(i + 1);
  }

  /** A coordinate the check lets through: a non-zero number, or non-empty text
      that reads as a number (the text "0" included). */
  predicate UsableCoordinate(c: Cell) {
    (c.Number? && c.x != 0.0) || (c.Text? && c.s != "" && c.asNumber.Some?)
  }

  /** The coordinate check: both truthy and neither NaN. */
  function ValidCoordinates(r: RestaurantInput): (b: bool)
    ensures b <==> UsableCoordinate(r.latitude) && UsableCoordinate(r.longitude)
  {
    Truthy(r.latitude) && Truthy(r.longitude) && !IsNaN(r.latitude) && !IsNaN(r.longitude)
  }

  /** A restaurant that gets rows: valid coordinates and both requests answered. */
  function Accepted(r: RestaurantInput): (b: bool)
    ensures b <==> UsableCoordinate(r.latitude) && UsableCoordinate(r.longitude) && r.forecast.Some? && r.historical.Some?
  {
    ValidCoordinates(r) && r.forecast.Some? && r.historical.Some?
  }

  /** x ? x.toFixed(1) : 'N/A'. */
  function FieldText(v: JsValue): (s: string)
    ensures s == "N/A" <==> !(v.Num? && v.x != 0.0)
  {
    if v.Num? && v.x != 0.0 then ToFixed1(v.x) else "N/A"
  }

  /** A field is 'N/A' exactly when the value is falsy (0, null or undefined);
      otherwise it reads back through parseFloat as the value rounded to a tenth,
      while 'N/A' reads back as NaN. */
  lemma FieldTextMeaning(v: JsValue)
    ensures FieldText(v) == "N/A" <==> !(v.Num? && v.x != 0.0)
    ensures v.Num? && v.x != 0.0 ==>
              var s := FieldText(v); |s| >= 3 && s[|s| - 2] == '.' && (s[0] == '-' <==> v.x < 0.0)
    ensures v.Num? && v.x != 0.0 ==> ParseFloat(FieldText(v)) == Some(Round1(v.x))
    ensures !(v.Num? && v.x != 0.0) ==> ParseFloat(FieldText(v)) == None
  {
    if v.Num? && v.x != 0.0 {
      ToFixed1Sign(v.x);
      ToFixed1RoundTrip(v.x);
      assert ParseFloat("N/A") == None;
    }
  }

  /** One output row; the localised Dato column is not part of this model. */
  datatype ResultRow = ResultRow(
    restaurant: string, dateIso: string, weekday: Option<string>,
    temp2026: string, temp2025: string, precip2026: string, precip2025: string,
    snow2026: string, snow2025: string, impact: Label)

  /** The row for day `day` of a restaurant, from the two daily blocks. */
  function DayRow(name: string, dateIso: string, forecast: Daily, historical: Daily, day: nat): (row: ResultRow)
    ensures row.impact == CalculateImpactJs(At(forecast.temperatureMean, day), At(historical.temperatureMean, day),
                                            At(forecast.precipitationSum, day), At(historical.precipitationSum, day),
                                            At(forecast.snowfallSum, day), At(historical.snowfallSum, day))
    ensures day >= |forecast.temperatureMean| ==> row.temp2026 == "N/A" && row.impact == Similar
  {
    JsAgreesWithNumbers(At(forecast.temperatureMean, day), At(historical.temperatureMean, day),
                        At(forecast.precipitationSum, day), At(historical.precipitationSum, day),
                        At(forecast.snowfallSum, day), At(historical.snowfallSum, day));
    var ft, fp, fs := At(forecast.temperatureMean, day), At(forecast.precipitationSum, day), At(forecast.snowfallSum, day);
    var lt, lp, ls := At(historical.temperatureMean, day), At(historical.precipitationSum, day), At(historical.snowfallSum, day);
    ResultRow(name, dateIso, WeekdayName(dateIso),
              FieldText(ft), FieldText(lt), FieldText(fp), FieldText(lp), FieldText(fs), FieldText(ls),
              ImpactOfValues(ft, lt, fp, lp, fs, ls))
  }

  /** The seven rows of an accepted restaurant, days 0 .. 6 in order. */
  function RestaurantRows(r: RestaurantInput, i: nat, dates: seq<string>): (rows: seq<ResultRow>)
    requires Accepted(r) && |dates| == 7
    ensures |rows| == 7
  {
    seq(7, day requires 0 <= day < 7 =>
      DayRow(RestaurantName(r, i), dates[day], r.forecast.value.daily, r.historical.value.daily, day))
  }

  /** The rows after the first n restaurants. */
  function BatchRows(rs: seq<RestaurantInput>, n: nat, dates: seq<string>): (rows: seq<ResultRow>)
    requires n <= |rs| && |dates| == 7
    ensures |rows| == 7 * AcceptedCount(rs, n)
  {
    BlocksLength(rs, n, dates);
    Gather(Blocks(rs, dates), n)
  }

  /** Restaurant i's rows, or none when it is skipped. */
  function Blocks(rs: seq<RestaurantInput>, dates: seq<string>): nat -> seq<ResultRow>
    requires |dates| == 7
  {
    (i: nat) => if i < |rs| && Accepted(rs[i]) then RestaurantRows(rs[i], i, dates) else []
  }

  /** Seven rows per accepted restaurant and none for a skipped one. */
  lemma {:induction false} BlocksLength(rs: seq<RestaurantInput>, n: nat, dates: seq<string>)
    requires n <= |rs| && |dates| == 7
    ensures |Gather(Blocks(rs, dates), n)| == 7 * AcceptedCount(rs, n)
  {
    if n > 0 {
      BlocksLength(rs, n - 1, dates);
    }
  }

  /** hourlyData after the first n restaurants: a later restaurant of the same
      name overwrites the entry. */
  function BatchHourly(rs: seq<RestaurantInput>, n: nat): (m: map<string, HourlyPair>)
    requires n <= |rs|
    ensures |m.Keys| <= AcceptedCount(rs, n)
  {
    if n == 0 then map[]
    else
      var m := BatchHourly(rs, n - 1);
      var r := rs[n - 1];
      if Accepted(r) then m[RestaurantName(r, n - 1) := HourlyPair(r.forecast.value.hourly, r.historical.value.hourly)]
      else m
  }

  /** The number of accepted restaurants among the first n. */
  function AcceptedCount(rs: seq<RestaurantInput>, n: nat): (c: nat)
    requires n <= |rs|
    ensures c <= n
  {
    if n == 0 then 0 else AcceptedCount(rs, n - 1) + (if Accepted(rs[n - 1]) then 1 else 0)
  }

  /** processRestaurants' loop: for each restaurant, skip it on bad coordinates or a
      failed request, otherwise record its hourly blocks and push its seven rows. */
  method ProcessRestaurants(restaurants: seq<RestaurantInput>, start: int)
    returns (results: seq<ResultRow>, hourlyData: map<string, HourlyPair>)
    requires DatesInRange(start)
    ensures AllInDateRange(ForecastDays(start))
    ensures results == BatchRows(restaurants, |restaurants|, IsoDates(ForecastDays(start)))
    ensures hourlyData == BatchHourly(restaurants, |restaurants|)
  {
    var forecast, historical := CalculateDates(start);
    results, hourlyData := [], map[];
    for i := 0 to |restaurants|
      invariant results == BatchRows(restaurants, i, forecast)
      invariant hourlyData == BatchHourly(restaurants, i)
    {
      BatchRowsStep(restaurants, i + 1, forecast);
      var restaurant := restaurants[i];
      var restaurantName := RestaurantName(restaurant, i);
      var lat, lon := restaurant.latitude, restaurant.longitude;
      if !Truthy(lat) || !Truthy(lon) || IsNaN(lat) || IsNaN(lon) {
        continue;
      }
      if restaurant.forecast.None? {
        continue;
      }
      var forecastData := restaurant.forecast.value;
      if restaurant.historical.None? {
        continue;
      }
      var historicalData := restaurant.historical.value;
      hourlyData := hourlyData[restaurantName := HourlyPair(forecastData.hourly, historicalData.hourly)];
      results := PushDays(results, restaurant, i, forecast);
    }
  }

  /** The day loop of an accepted restaurant: push its seven rows onto results. */
  method PushDays(results: seq<ResultRow>, restaurant: RestaurantInput, i: nat, forecast: seq<string>)
    returns (pushed: seq<ResultRow>)
    requires Accepted(restaurant) && |forecast| == 7
    ensures pushed == results + RestaurantRows(restaurant, i, forecast)
  {
    var restaurantName := RestaurantName(restaurant, i);
    var forecastData, historicalData := restaurant.forecast.value, restaurant.historical.value;
    ghost var rows := RestaurantRows(restaurant, i, forecast);
    pushed := results;
    for day := 0 to 7
      invariant pushed == results + rows[..day]
    {
      var row := PushRow(restaurantName, forecast[day], forecastData.daily, historicalData.daily, day);
      RowAt(restaurant, i, forecast, day);
      AppendPrefixSnoc(results, rows, day);
      pushed := pushed + [row];
    }
    PrefixAll(rows);
  }

  lemma RowAt(r: RestaurantInput, i: nat, dates: seq<string>, day: nat)
    requires Accepted(r) && |dates| == 7 && day < 7
    ensures RestaurantRows(r, i, dates)[day]
         == DayRow(RestaurantName(r, i), dates[day], r.forecast.value.daily, r.historical.value.daily, day)
  {
  }

  /** The body of the day loop: read the six daily values, score them and lay out the row. */
  method PushRow(restaurantName: string, dateForecast: string, forecast: Daily, historical: Daily, day: nat)
    returns (row: ResultRow)
    ensures row == DayRow(restaurantName, dateForecast, forecast, historical, day)
  {
    var weekday := WeekdayName(dateForecast);
    var forecastTemp := At(forecast.temperatureMean, day);
    var forecastPrecip := At(forecast.precipitationSum, day);
    var forecastSnow := At(forecast.snowfallSum, day);
    var lyTemp := At(historical.temperatureMean, day);
    var lyPrecip := At(historical.precipitationSum, day);
    var lySnow := At(historical.snowfallSum, day);
    var impact := CalculateImpactJs(forecastTemp, lyTemp, forecastPrecip, lyPrecip, forecastSnow, lySnow);
    JsAgreesWithNumbers(forecastTemp, lyTemp, forecastPrecip, lyPrecip, forecastSnow, lySnow);
    row := ResultRow(restaurantName, dateForecast, weekday,
                     FieldText(forecastTemp), FieldText(lyTemp), FieldText(forecastPrecip),
                     FieldText(lyPrecip), FieldText(forecastSnow), FieldText(lySnow), impact);
  }

  // ---------------------------------------------------------------------
  // What the loop promises about its output.

  /** Restaurant j's rows sit, in day order, after those of the accepted restaurants before it. */
  lemma RowsOfRestaurant(rs: seq<RestaurantInput>, n: nat, dates: seq<string>, j: nat, day: nat)
    requires n <= |rs| && |dates| == 7
    requires j < n && Accepted(rs[j]) && day < 7
    ensures 7 * AcceptedCount(rs, j) + day < |BatchRows(rs, n, dates)|
    ensures BatchRows(rs, n, dates)[7 * AcceptedCount(rs, j) + day] == RestaurantRows(rs[j], j, dates)[day]
  {
    var blocks := Blocks(rs, dates);
    BlocksLength(rs, j, dates);
    assert blocks(j) == RestaurantRows(rs[j], j, dates);
    GatherIndex(blocks, n, j, day, 7 * AcceptedCount(rs, j) + day);
  }

  /** One restaurant more appends its seven rows when it is accepted and nothing otherwise. */
  lemma BatchRowsStep(rs: seq<RestaurantInput>, n: nat, dates: seq<string>)
    requires 0 < n <= |rs| && |dates| == 7
    ensures BatchRows(rs, n, dates)
         == BatchRows(rs, n - 1, dates) + (if Accepted(rs[n - 1]) then RestaurantRows(rs[n - 1], n - 1, dates) else [])
  {
    var blocks := Blocks(rs, dates);
    assert Gather(blocks, n) == Gather(blocks, n - 1) + blocks(n - 1);
  }

  lemma {:induction false} AcceptedCountGrows(rs: seq<RestaurantInput>, a: nat, b: nat)
    requires a <= b <= |rs|
    ensures AcceptedCount(rs, a) <= AcceptedCount(rs, b)
    decreases b - a
  {
    if a < b {
      AcceptedCountGrows(rs, a, b - 1);
    }
  }

  /** hourlyData holds an entry for a name exactly when some accepted restaurant has that name. */
  lemma {:induction false} HourlyKeys(rs: seq<RestaurantInput>, n: nat, name: string)
    requires n <= |rs|
    ensures name in BatchHourly(rs, n) <==> exists j :: 0 <= j < n && Accepted(rs[j]) && RestaurantName(rs[j], j) == name
  {
    if n > 0 {
      HourlyKeys(rs, n - 1, name);
    }
  }

  /** The entry under a name is the hourly blocks of the last accepted restaurant of that name. */
  lemma {:induction false} HourlyEntry(rs: seq<RestaurantInput>, n: nat, j: nat)
    requires j < n <= |rs| && Accepted(rs[j])
    requires forall k :: j < k < n && Accepted(rs[k]) ==> RestaurantName(rs[k], k) != RestaurantName(rs[j], j)
    ensures RestaurantName(rs[j], j) in BatchHourly(rs, n)
    ensures BatchHourly(rs, n)[RestaurantName(rs[j], j)]
         == HourlyPair(rs[j].forecast.value.hourly, rs[j].historical.value.hourly)
  {
    if j < n - 1 {
      HourlyEntry(rs, n - 1, j);
    }
  }

  /** Row 7c + day, for the c-th accepted restaurant, carries forecast date `day` and
      the weekday name read from it; with the dates calculateDates writes, these are
      start + day and its Danish weekday (DateAligner.IsoDatesParseBack and
      DateAligner.AlignedDatesShareName). */
  lemma RowDate(rs: seq<RestaurantInput>, dates: seq<string>, j: nat, day: nat)
    requires |dates| == 7 && j < |rs| && Accepted(rs[j]) && day < 7
    ensures var rows := BatchRows(rs, |rs|, dates);
      && 7 * AcceptedCount(rs, j) + day < |rows|
      && rows[7 * AcceptedCount(rs, j) + day].restaurant == RestaurantName(rs[j], j)
      && rows[7 * AcceptedCount(rs, j) + day].dateIso == dates[day]
      && rows[7 * AcceptedCount(rs, j) + day].weekday == WeekdayName(dates[day])
  {
    RowsOfRestaurant(rs, |rs|, dates, j, day);
    RowAt(rs[j], j, dates, day);
  }

  /** The restaurant of that row, alone. */
  lemma RowName(rs: seq<RestaurantInput>, dates: seq<string>, j: nat, day: nat)
    requires |dates| == 7 && j < |rs| && Accepted(rs[j]) && day < 7
    ensures var rows := BatchRows(rs, |rs|, dates);
      && 7 * AcceptedCount(rs, j) + day < |rows|
      && rows[7 * AcceptedCount(rs, j) + day].restaurant == RestaurantName(rs[j], j)
  {
    RowDate(rs, dates, j, day);
  }
}
