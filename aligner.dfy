/** The date aligner of weather_impact_interactive.js: calculateDates and getWeekdayName. */
module DateAligner {
  import opened Calendar
  import opened IsoText
  import opened Sequences

  /** setFullYear(getFullYear() - 1): the same month and day one year earlier
      (February 29 rolls on to March 1). */
  function NaiveYearEarlier(f: int): (h0: int)
    ensures 365 <= f - h0 <= 366
  {
    YearEarlierDistance(f);
    SetFullYear(f, CivilFromDays(f).year - 1)
  }

  /** The historical partner of forecast day f: one year earlier, then moved by the
      signed weekday difference (-6 .. 6) so that it falls on f's weekday. */
  function AlignedHistorical(f: int): (h: int)
    ensures Weekday(h) == Weekday(f)
    ensures -6 <= h - NaiveYearEarlier(f) <= 6
    ensures 359 <= f - h <= 372
  {
    var h0 := NaiveYearEarlier(f);
    ShiftToWeekday(h0, f);
    h0 + (Weekday(f) - Weekday(h0))
  }

  /** Adding the signed weekday difference lands on f's weekday, at most 6 days away. */
  lemma ShiftToWeekday(h0: int, f: int)
    ensures Weekday(h0 + (Weekday(f) - Weekday(h0))) == Weekday(f)
    ensures -6 <= Weekday(f) - Weekday(h0) <= 6
  {
    WeekdayShift(h0, Weekday(f) - Weekday(h0));
  }

  /** The seven start + i days and their partners, as calculateDates writes them. */
  predicate DatesInRange(start: int) {
    InDateRange(start - 372) && InDateRange(start + 6)
  }

  /** The forecast days start .. start + 6 and their historical partners. */
  function ForecastDays(start: int): (days: seq<int>)
    ensures |days| == 7
  {
    seq(7, i => start + i)
  }

  function HistoricalDays(start: int): (days: seq<int>)
    ensures |days| == 7
  {
    seq(7, i => AlignedHistorical(start + i))
  }

  /** Each historical day falls on the weekday of its forecast day, 359 to 372 days earlier. */
  lemma HistoricalDaysAligned(start: int, i: int)
    requires 0 <= i < 7
    ensures Weekday(HistoricalDays(start)[i]) == Weekday(ForecastDays(start)[i])
    ensures 359 <= ForecastDays(start)[i] - HistoricalDays(start)[i] <= 372
  {
    ForecastAt(start, i);
    HistoricalAt(start, i, start + i);
  }

  predicate AllInDateRange(days: seq<int>) {
    forall k :: 0 <= k < |days| ==> InDateRange(days[k])
  }

  /** toISOString().split('T')[0] of each day. */
  function IsoDates(days: seq<int>): (s: seq<string>)
    requires AllInDateRange(days)
    ensures |s| == |days|
  {
    seq(|days|, k requires 0 <= k < |days| => FormatIsoDate(days[k]))
  }

  /** Each written date reads back as the day it was written from. */
  lemma IsoDatesParseBack(days: seq<int>, k: int)
    requires AllInDateRange(days) && 0 <= k < |days|
    ensures ParseIsoDate(IsoDates(days)[k]) == Some(days[k])
  {
    IsoDateParsesBack(days[k]);
  }

  lemma DaysInRange(start: int)
    requires DatesInRange(start)
    ensures AllInDateRange(ForecastDays(start)) && AllInDateRange(HistoricalDays(start))
  {
    forall k | 0 <= k < 7
      ensures InDateRange(HistoricalDays(start)[k])
    {
      HistoricalDaysAligned(start, k);
    }
  }

  /** One pass of calculateDates' loop body: a copy of the start date moved i days
      on and its partner, both written as ISO dates. */
  method AlignDay(start: int, i: int) returns (forecastIso: string, historicalIso: string)
    requires DatesInRange(start) && 0 <= i < 7
    ensures AllInDateRange(ForecastDays(start)) && AllInDateRange(HistoricalDays(start))
    ensures forecastIso == IsoDates(ForecastDays(start))[i]
    ensures historicalIso == IsoDates(HistoricalDays(start))[i]
  {
    var forecastDate;
    forecastDate, forecastIso := ForecastDay(start, i);
    historicalIso := HistoricalDay(start, i, forecastDate);
  }

  /** The forecast half of the loop body: the day start + i and its ISO text. */
  method ForecastDay(start: int, i: int) returns (forecastDate: int, forecastIso: string)
    requires DatesInRange(start) && 0 <= i < 7
    ensures forecastDate == start + i
    ensures AllInDateRange(ForecastDays(start))
    ensures forecastIso == IsoDates(ForecastDays(start))[i]
  {
    forecastDate := MoveDays(start, i);
    ForecastInRange(start, i, forecastDate);
    forecastIso := FormatIsoDate(forecastDate);
    ForecastIsoAt(start, i, forecastDate, forecastIso);
  }

  /** The historical half: the partner of the forecast day and its ISO text. */
  method HistoricalDay(start: int, i: int, forecastDate: int) returns (historicalIso: string)
    requires DatesInRange(start) && 0 <= i < 7 && forecastDate == start + i
    ensures AllInDateRange(HistoricalDays(start))
    ensures historicalIso == IsoDates(HistoricalDays(start))[i]
  {
    var historicalDate := PartnerOf(forecastDate);
    HistoricalInRange(start, i, forecastDate, historicalDate);
    historicalIso := FormatIsoDate(historicalDate);
    HistoricalIsoAt(start, i, forecastDate, historicalDate, historicalIso);
  }

  /** A copy of the start date with setDate(getDate() + i): i days later. */
  method MoveDays(start: int, i: int) returns (forecastDate: int)
    ensures forecastDate == start + i
  {
    forecastDate := SetDate(start, CivilFromDays(start).day + i);
    SetDateMoves(start, i);
  }

  /** The forecast day start + i is in range. */
  lemma ForecastInRange(start: int, i: int, d: int)
    requires DatesInRange(start) && 0 <= i < 7 && d == start + i
    ensures InDateRange(d)
  {
  }

  /** The text written for start + i is the i-th written forecast date. */
  lemma ForecastIsoAt(start: int, i: int, d: int, iso: string)
    requires DatesInRange(start) && 0 <= i < 7 && d == start + i && InDateRange(d) && iso == FormatIsoDate(d)
    ensures AllInDateRange(ForecastDays(start))
    ensures iso == IsoDates(ForecastDays(start))[i]
  {
    DaysInRange(start);
    ForecastAt(start, i);
    IsoDatesAt(ForecastDays(start), i, d);
  }

  /** The partner of the forecast day f = start + i is in range. */
  lemma HistoricalInRange(start: int, i: int, f: int, d: int)
    requires DatesInRange(start) && 0 <= i < 7 && f == start + i && d == AlignedHistorical(f)
    ensures InDateRange(d)
  {
  }

  /** The text written for the partner of the forecast day f = start + i is the
      i-th written historical date. */
  lemma HistoricalIsoAt(start: int, i: int, f: int, d: int, iso: string)
    requires DatesInRange(start) && 0 <= i < 7 && f == start + i && d == AlignedHistorical(f)
    requires InDateRange(d) && iso == FormatIsoDate(d)
    ensures AllInDateRange(HistoricalDays(start))
    ensures iso == IsoDates(HistoricalDays(start))[i]
  {
    DaysInRange(start);
    HistoricalAt(start, i, f);
    IsoDatesAt(HistoricalDays(start), i, d);
  }

  lemma IsoDatesAt(days: seq<int>, i: int, d: int)
    requires AllInDateRange(days) && 0 <= i < |days| && days[i] == d
    ensures InDateRange(d) && IsoDates(days)[i] == FormatIsoDate(d)
  {
  }

  /** The partner of a forecast date: the same date a year earlier, then
      setDate(getDate() + dayDiff) when the weekdays differ. */
  method PartnerOf(forecastDate: int) returns (historicalDate: int)
    ensures historicalDate == AlignedHistorical(forecastDate)
  {
    historicalDate := SetFullYear(forecastDate, CivilFromDays(forecastDate).year - 1);
    assert historicalDate == NaiveYearEarlier(forecastDate);
    var dayDiff := Weekday(forecastDate) - Weekday(historicalDate);
    if dayDiff != 0 {
      SetDateMoves(historicalDate, dayDiff);
      historicalDate := SetDate(historicalDate, CivilFromDays(historicalDate).day + dayDiff);
    }
  }

  /** calculateDates: seven passes that push both dates as ISO strings. */
  method CalculateDates(start: int) returns (forecast: seq<string>, historical: seq<string>)
    requires DatesInRange(start)
    ensures AllInDateRange(ForecastDays(start)) && AllInDateRange(HistoricalDays(start))
    ensures forecast == IsoDates(ForecastDays(start))
    ensures historical == IsoDates(HistoricalDays(start))
  {
    DaysInRange(start);
    ghost var allForecast, allHistorical := IsoDates(ForecastDays(start)), IsoDates(HistoricalDays(start));
    forecast, historical := [], [];
    for i := 0 to 7
      invariant forecast == allForecast[..i]
      invariant historical == allHistorical[..i]
    {
      var forecastIso, historicalIso := AlignDay(start, i);
      PrefixSnoc(allForecast, i);
      PrefixSnoc(allHistorical, i);
      forecast := forecast + [forecastIso];
      historical := historical + [historicalIso];
    }
    PrefixAll(allForecast);
    PrefixAll(allHistorical);
  }

  /** Day i of the forecast week is start + i. */
  lemma ForecastAt(start: int, i: int)
    requires 0 <= i < 7
    ensures ForecastDays(start)[i] == start + i
  {
  }

  /** Day i of the historical week is the partner of the forecast day f = start + i. */
  lemma HistoricalAt(start: int, i: int, f: int)
    requires 0 <= i < 7 && f == start + i
    ensures HistoricalDays(start)[i] == AlignedHistorical(f)
  {
  }

  const WeekdayNames: seq<string> := ["Søndag", "Mandag", "Tirsdag", "Onsdag", "Torsdag", "Fredag", "Lørdag"]

  /** getWeekdayName: the Danish name of the weekday of a date string;
      None stands for the undefined an Invalid Date yields. */
  function WeekdayName(dateString: string): (r: Option<string>)
    ensures r.Some? ==> r.value in WeekdayNames
  {
    match ParseIsoDate(dateString)
    case None => None
    case Some(n) => Some(WeekdayNames[Weekday(n)])
  }

  /** The names of the seven weekdays are pairwise different. */
  lemma WeekdayNamesDistinct(a: int, b: int)
    requires 0 <= a < 7 && 0 <= b < 7
    ensures WeekdayNames[a] == WeekdayNames[b] <==> a == b
  {
  }

  /** Each forecast date and its historical partner are named alike, by the
      weekday of the forecast day. */
  lemma AlignedDatesShareName(start: int, i: int)
    requires DatesInRange(start)
    requires 0 <= i < 7
    ensures AllInDateRange(ForecastDays(start)) && AllInDateRange(HistoricalDays(start))
    ensures WeekdayName(IsoDates(ForecastDays(start))[i]) == WeekdayName(IsoDates(HistoricalDays(start))[i])
    ensures WeekdayName(IsoDates(ForecastDays(start))[i]) == Some(WeekdayNames[Weekday(start + i)])
  {
    DaysInRange(start);
    HistoricalDaysAligned(start, i);
    ForecastAt(start, i);
    NameOfIsoDate(ForecastDays(start), i);
    NameOfIsoDate(HistoricalDays(start), i);
  }

  /** getWeekdayName reads back the weekday of a date toISOString wrote. */
  lemma NameOfIsoDate(days: seq<int>, k: int)
    requires AllInDateRange(days) && 0 <= k < |days|
    ensures WeekdayName(IsoDates(days)[k]) == Some(WeekdayNames[Weekday(days[k])])
  {
    IsoDatesParseBack(days, k);
  }

  // ---------------------------------------------------------------------
  // The archive request window. The batch asks the archive for the days
  // historical[0] .. historical[6], but the partners are not consecutive:
  // the shift is +1 on most weekdays and -6 on a Sunday (in a year whose
  // predecessor starts one weekday earlier), so the last partner can come
  // before the first.

  /** The window processRestaurants requests: first and last historical date, as
      written. It covers all seven days exactly when the first is the earliest and
      the last the latest. */
  function ArchiveWindow(days: seq<int>): (window: (int, int))
    requires |days| == 7
    ensures window.0 in days && window.1 in days
    ensures (forall k :: 0 <= k < 7 ==> window.0 <= days[k] <= window.1) <==>
            (forall k :: 0 <= k < 7 ==> days[0] <= days[k] <= days[6])
  {
    (days[0], days[6])
  }

  /** With start Monday 2026-10-19 the requested window ends a day before it begins,
      so it holds none of the seven historical days. */
  lemma ReversedArchiveWindow(start: int)
    requires start == DaysFromCivil(2026, 10, 19)
    ensures var days := HistoricalDays(start);
      && days[0] == DaysFromCivil(2025, 10, 20)
      && days[6] == DaysFromCivil(2025, 10, 19)
      && ArchiveWindow(days).1 < ArchiveWindow(days).0
      && forall k :: 0 <= k < 7 ==> !(ArchiveWindow(days).0 <= days[k] <= ArchiveWindow(days).1)
  {
    ExampleWeekEnds(start);
    ExampleDays();
    EmptyWindow(HistoricalDays(start));
  }

  /** The first and last historical days of the week from Monday 2026-10-19. */
  lemma ExampleWeekEnds(start: int)
    requires start == DaysFromCivil(2026, 10, 19)
    ensures HistoricalDays(start)[0] == DaysFromCivil(2025, 10, 20)
    ensures HistoricalDays(start)[6] == DaysFromCivil(2025, 10, 19)
  {
    var last := start + 6;
    HistoricalAt(start, 0, start);
    HistoricalAt(start, 6, last);
    FirstExamplePartner(start);
    LastExamplePartner(start, last);
  }

  /** A window whose end comes before its start holds none of the days. */
  lemma EmptyWindow(days: seq<int>)
    requires |days| == 7 && days[6] < days[0]
    ensures ArchiveWindow(days).1 < ArchiveWindow(days).0
    ensures forall k :: 0 <= k < 7 ==> !(ArchiveWindow(days).0 <= days[k] <= ArchiveWindow(days).1)
  {
  }

  lemma FirstExamplePartner(start: int)
    requires start == DaysFromCivil(2026, 10, 19)
    ensures AlignedHistorical(start) == DaysFromCivil(2025, 10, 20)
  {
    ExampleDays();
    PartnerOn(start, Date(2026, 10, 19), 1);
  }

  lemma LastExamplePartner(start: int, last: int)
    requires start == DaysFromCivil(2026, 10, 19) && last == start + 6
    ensures AlignedHistorical(last) == DaysFromCivil(2025, 10, 19)
  {
    ExampleDays();
    PartnerOn(last, Date(2026, 10, 25), -6);
  }

  /** Monday 2026-10-19 and Sunday 2026-10-25; a year earlier, Sunday 2025-10-19
      and Saturday 2025-10-25. */
  lemma ExampleDays()
    ensures DaysFromCivil(2026, 10, 25) == DaysFromCivil(2026, 10, 19) + 6
    ensures Weekday(DaysFromCivil(2026, 10, 19)) == 1 && Weekday(DaysFromCivil(2026, 10, 25)) == 0
    ensures Weekday(DaysFromCivil(2025, 10, 19)) == 0 && Weekday(DaysFromCivil(2025, 10, 25)) == 6
    ensures DaysFromCivil(2025, 10, 20) == DaysFromCivil(2025, 10, 19) + 1
  {
  }

  /** The partner of day f, the valid date d, when the weekday shift is known. */
  lemma PartnerOn(f: int, d: Date, shift: int)
    requires ValidDate(d) && f == DaysFromCivil(d.year, d.month, d.day)
    requires shift == Weekday(f) - Weekday(DaysFromCivil(d.year - 1, d.month, d.day))
    ensures AlignedHistorical(f) == DaysFromCivil(d.year - 1, d.month, d.day) + shift
  {
    PartnerOfDate(d);
  }

  /** The partner of a valid date: the same month and day a year earlier, moved
      to the same weekday. */
  lemma PartnerOfDate(d: Date)
    requires ValidDate(d)
    ensures var f, h0 := DaysFromCivil(d.year, d.month, d.day), DaysFromCivil(d.year - 1, d.month, d.day);
      AlignedHistorical(f) == h0 + (Weekday(f) - Weekday(h0))
  {
    NaiveOfDate(d);
  }

  lemma NaiveOfDate(d: Date)
    requires ValidDate(d)
    ensures NaiveYearEarlier(DaysFromCivil(d.year, d.month, d.day)) == DaysFromCivil(d.year - 1, d.month, d.day)
  {
    var f := DaysFromCivil(d.year, d.month, d.day);
    CivilRoundTrip(d);
    assert CivilFromDays(f) == d;
    assert SetFullYear(f, d.year - 1) == DaysFromCivil(d.year - 1, d.month, d.day);
  }

  function MinOf(days: seq<int>): (m: int)
    requires |days| > 0
    ensures m in days && forall k :: 0 <= k < |days| ==> m <= days[k]
  {
    if |days| == 1 then days[0]
    else var rest := MinOf(days[1..]); if days[0] <= rest then days[0] else rest
  }

  function MaxOf(days: seq<int>): (m: int)
    requires |days| > 0
    ensures m in days && forall k :: 0 <= k < |days| ==> days[k] <= m
  {
    if |days| == 1 then days[0]
    else var rest := MaxOf(days[1..]); if days[0] >= rest then days[0] else rest
  }

  /** The window the request evidently means: the earliest to the latest partner.
      It is never reversed, holds every historical day and is no wider than needed. */
  function CoveringWindow(days: seq<int>): (window: (int, int))
    requires |days| == 7
    ensures window.0 <= window.1
    ensures forall k :: 0 <= k < 7 ==> window.0 <= days[k] <= window.1
    ensures window.0 in days && window.1 in days
  {
    (MinOf(days), MaxOf(days))
  }

  /** When the partners are in ascending order the two windows coincide. */
  lemma CoveringWindowAgrees(days: seq<int>)
    requires |days| == 7
    requires forall j, k :: 0 <= j <= k < 7 ==> days[j] <= days[k]
    ensures CoveringWindow(days) == ArchiveWindow(days)
  {
    var w := CoveringWindow(days);
    assert days[0] <= w.0 && w.1 <= days[6];
  }
}
