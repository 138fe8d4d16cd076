/** The two scripts together: the rows processRestaurants writes to the results
    sheet, read back by generate_interactive_html.js. The report looks columns and
    labels up by keys that differ from the ones the batch writes ('Nedb√∏r 2026'
    and 'Snefald 2026 (cm)' against 'Nedbør 2026' and 'Sne 2026', 'D√•rligere'
    against 'Dårligere'); the lemmas here state what that does to the report. */
module Pipeline {
  import opened IsoText
  import opened Impact
  import opened Batch
  import opened Sequences
  import Report
  import HourlyDetail

  /** The precipitation and snow headers the batch writes. */
  const WrittenPrecipNow: string := "Nedbør 2026"
  const WrittenPrecipBefore: string := "Nedbør 2025"
  const WrittenSnowNow: string := "Sne 2026"
  const WrittenSnowBefore: string := "Sne 2025"

  /** The sheet row json_to_sheet writes and sheet_to_json reads back for a result
      row: every column as text, and no Ugedag column when the weekday is undefined.
      None of the precipitation and snow keys the report looks up is written.
      The localised Dato column is not part of this model. */
  function ToSheetRow(r: ResultRow): (s: Report.SheetRow)
    ensures s.restaurant == r.restaurant && s.impact == LabelText(r.impact)
    ensures "Ugedag" in s.cells <==> r.weekday.Some?
    ensures r.weekday.Some? ==> s.cells["Ugedag"] == r.weekday.value
    ensures Report.PrecipNow !in s.cells && Report.PrecipBefore !in s.cells
    ensures Report.SnowNow !in s.cells && Report.SnowBefore !in s.cells
  {
    var cells := map[
      "DateISO" := r.dateIso,
      "Temp 2026" := r.temp2026, "Temp 2025" := r.temp2025,
      WrittenPrecipNow := r.precip2026, WrittenPrecipBefore := r.precip2025,
      WrittenSnowNow := r.snow2026, WrittenSnowBefore := r.snow2025];
    Report.SheetRow(r.restaurant, LabelText(r.impact),
                    if r.weekday.Some? then cells["Ugedag" := r.weekday.value] else cells)
  }

  function SheetRows(rows: seq<ResultRow>): (data: seq<Report.SheetRow>)
    ensures |data| == |rows|
    ensures forall i :: 0 <= i < |rows| ==> data[i] == ToSheetRow(rows[i])
    ensures forall i :: 0 <= i < |rows| ==> data[i].restaurant == rows[i].restaurant
  {
    seq(|rows|, i requires 0 <= i < |rows| => ToSheetRow(rows[i]))
  }

  function Labels(rows: seq<ResultRow>): (labels: seq<Label>)
    ensures |labels| == |rows|
    ensures forall i :: 0 <= i < |rows| ==> labels[i] == rows[i].impact
  {
    seq(|rows|, i requires 0 <= i < |rows| => rows[i].impact)
  }

  /** The Impact column: the label texts of the rows. */
  function Texts(labels: seq<Label>): (texts: seq<string>)
    ensures |texts| == |labels|
    ensures forall i :: 0 <= i < |labels| ==> texts[i] == LabelText(labels[i])
  {
    seq(|labels|, i requires 0 <= i < |labels| => LabelText(labels[i]))
  }

  /** Each label's text occurs as often as the label. */
  lemma {:induction false} TextCount(labels: seq<Label>, l: Label)
    ensures multiset(Texts(labels))[LabelText(l)] == multiset(labels)[l]
  {
    if labels != [] {
      var init, last := labels[..|labels| - 1], labels[|labels| - 1];
      TextCount(init, l);
      SplitLast(labels);
      TextsSnoc(labels);
      LabelTextInjective(last, l);
      CountStep(init, Texts(init), last, LabelText(last), l, LabelText(l));
    }
  }

  lemma TextsSnoc(labels: seq<Label>)
    requires labels != []
    ensures Texts(labels) == Texts(labels[..|labels| - 1]) + [LabelText(labels[|labels| - 1])]
  {
  }

  /** The report's worse text is not among the label texts. */
  lemma WorseTextAbsent(labels: seq<Label>)
    ensures multiset(Texts(labels))[Report.WorseText] == 0
  {
    forall l: Label
      ensures LabelText(l) != Report.WorseText
    {
      if l == Worse {
        assert LabelText(l)[1] != Report.WorseText[1];
      }
    }
    assert Report.WorseText !in Texts(labels);
  }

  /** 'Bedre' and 'Lignende' are counted for exactly the rows the batch labelled so;
      'D√•rligere' matches no label the batch writes, so worse is always 0. */
  lemma LabelCounts(rows: seq<ResultRow>)
    ensures Report.CountImpact(SheetRows(rows), Report.BetterText) == multiset(Labels(rows))[Better]
    ensures Report.CountImpact(SheetRows(rows), Report.SimilarText) == multiset(Labels(rows))[Similar]
    ensures Report.CountImpact(SheetRows(rows), Report.WorseText) == 0
  {
    var data := SheetRows(rows);
    assert Report.Impacts(data) == Texts(Labels(rows));
    Report.CountIsMultiplicity(data, Report.BetterText);
    Report.CountIsMultiplicity(data, Report.SimilarText);
    Report.CountIsMultiplicity(data, Report.WorseText);
    TextCount(Labels(rows), Better);
    TextCount(Labels(rows), Similar);
    WorseTextAbsent(Labels(rows));
  }

  /** Hence the overall verdict is never 'worse': it is 'better' when some row is
      labelled Bedre and 'similar' otherwise, however many rows are Dårligere. */
  lemma VerdictNeverWorse(rows: seq<ResultRow>)
    ensures var data := SheetRows(rows);
      var v := Report.OverallVerdict(Report.CountImpact(data, Report.BetterText), Report.CountImpact(data, Report.WorseText));
      && v != Report.WorseOverall
      && (v == Report.BetterOverall <==> Better in Labels(rows))
  {
    LabelCounts(rows);
  }

  /** No sheet row has the precipitation or snow columns the report reads. */
  lemma {:induction false} NoPrecipitationPairs(rows: seq<ResultRow>)
    ensures Report.CountPairs(SheetRows(rows), Report.PrecipNow, Report.PrecipBefore) == 0
    ensures Report.CountPairs(SheetRows(rows), Report.SnowNow, Report.SnowBefore) == 0
  {
    if rows != [] {
      var init := rows[..|rows| - 1];
      NoPrecipitationPairs(init);
      assert SheetRows(rows)[..|rows| - 1] == SheetRows(init);
      SheetCells(rows[|rows| - 1]);
    }
  }

  /** So the precipitation and snow totals stay 0 and their averages are 0 (NaN
      with no rows). */
  lemma PrecipitationAndSnowZero(rows: seq<ResultRow>)
    ensures var data := SheetRows(rows);
      && Report.TotalsOf(data).precip == 0.0 && Report.TotalsOf(data).snow == 0.0
      && Report.AveragesOf(data).precip == (if rows == [] then Report.NaN else Report.Finite(0.0))
      && Report.AveragesOf(data).snow == (if rows == [] then Report.NaN else Report.Finite(0.0))
  {
    NoPrecipitationPairs(rows);
    AveragesWithoutPairs(SheetRows(rows));
  }

  /** Totals and averages of data in which no precipitation or snow pair parses. */
  lemma AveragesWithoutPairs(data: seq<Report.SheetRow>)
    requires Report.CountPairs(data, Report.PrecipNow, Report.PrecipBefore) == 0
    requires Report.CountPairs(data, Report.SnowNow, Report.SnowBefore) == 0
    ensures Report.TotalsOf(data).precip == 0.0 && Report.TotalsOf(data).snow == 0.0
    ensures Report.AveragesOf(data).precip == (if data == [] then Report.NaN else Report.Finite(0.0))
    ensures Report.AveragesOf(data).snow == (if data == [] then Report.NaN else Report.Finite(0.0))
  {
    Report.TotalsMeaning(data);
    assert Report.TotalsOf(data).precip == 0.0 && Report.TotalsOf(data).snow == 0.0;
    Report.AveragesFinite(data);
  }

  /** And the report always calls precipitation and snow alike. */
  lemma PrecipitationAndSnowAlike(rows: seq<ResultRow>)
    ensures var remarks := Report.RemarksOf(Report.AveragesOf(SheetRows(rows)));
      remarks.precip == Report.Alike && remarks.snow == Report.Alike
  {
    PrecipitationAndSnowZero(rows);
  }

  /** The temperature columns do match: a row adds to count exactly when both
      temperatures were truthy, and then adds the difference of the rounded values. */
  lemma TemperatureDifference(r: ResultRow, ft: JsValue, lt: JsValue)
    requires r.temp2026 == FieldText(ft) && r.temp2025 == FieldText(lt)
    ensures Report.Difference(ToSheetRow(r), Report.TempNow, Report.TempBefore) ==
      if ft.Num? && ft.x != 0.0 && lt.Num? && lt.x != 0.0 then Some(Round1(ft.x) - Round1(lt.x)) else None
  {
    TemperatureColumns(r);
    FieldsSubtract(ft, lt);
  }

  /** The difference of two fields the batch wrote, as parseFloat reads them. */
  lemma FieldsSubtract(ft: JsValue, lt: JsValue)
    ensures Report.Subtract(ParseFloat(FieldText(ft)), ParseFloat(FieldText(lt))) ==
      if ft.Num? && ft.x != 0.0 && lt.Num? && lt.x != 0.0 then Some(Round1(ft.x) - Round1(lt.x)) else None
  {
    FieldParses(ft);
    FieldParses(lt);
    SubtractParsed(ParseFloat(FieldText(ft)), ParseFloat(FieldText(lt)), ft, lt);
  }

  /** Subtract on the two values parseFloat reads back from the fields ft and lt. */
  lemma SubtractParsed(now: Option<real>, before: Option<real>, ft: JsValue, lt: JsValue)
    requires now == if ft.Num? && ft.x != 0.0 then Some(Round1(ft.x)) else None
    requires before == if lt.Num? && lt.x != 0.0 then Some(Round1(lt.x)) else None
    ensures Report.Subtract(now, before) ==
      if ft.Num? && ft.x != 0.0 && lt.Num? && lt.x != 0.0 then Some(Round1(ft.x) - Round1(lt.x)) else None
  {
  }

  /** The report's temperature difference of a sheet row, on the row's two texts. */
  lemma TemperatureColumns(r: ResultRow)
    ensures Report.Difference(ToSheetRow(r), Report.TempNow, Report.TempBefore)
         == Report.Subtract(ParseFloat(r.temp2026), ParseFloat(r.temp2025))
  {
    SheetCells(r);
  }

  /** What parseFloat reads from a field the batch wrote. */
  lemma FieldParses(v: JsValue)
    ensures ParseFloat(FieldText(v)) == if v.Num? && v.x != 0.0 then Some(Round1(v.x)) else None
  {
    FieldTextMeaning(v);
  }

  /** The columns of a sheet row under the keys the report reads. */
  lemma SheetCells(r: ResultRow)
    ensures Report.Column(ToSheetRow(r), Report.TempNow) == ParseFloat(r.temp2026)
    ensures Report.Column(ToSheetRow(r), Report.TempBefore) == ParseFloat(r.temp2025)
    ensures Report.Column(ToSheetRow(r), Report.PrecipNow) == None
    ensures Report.Column(ToSheetRow(r), Report.SnowNow) == None
  {
    var cells := ToSheetRow(r).cells;
    assert Report.TempNow in cells && cells[Report.TempNow] == r.temp2026;
    assert Report.TempBefore in cells && cells[Report.TempBefore] == r.temp2025;
    assert Report.PrecipNow !in cells && Report.SnowNow !in cells;
  }

  /** Within one restaurant's seven rows only the first shows the name cell. */
  lemma NameOncePerRestaurant(rs: seq<RestaurantInput>, dates: seq<string>, j: nat, day: nat)
    requires |dates| == 7 && j < |rs| && Accepted(rs[j]) && 0 < day < 7
    ensures var data := SheetRows(BatchRows(rs, |rs|, dates));
      7 * AcceptedCount(rs, j) + day < |data| && !Report.ShowName(data, 7 * AcceptedCount(rs, j) + day)
  {
    RowName(rs, dates, j, day);
    RowName(rs, dates, j, day - 1);
    NameHidden(BatchRows(rs, |rs|, dates), 7 * AcceptedCount(rs, j), day);
  }

  /** A row of the same restaurant as the row before it shows no name; the rows
      are counted from a start c. */
  lemma NameHidden(rows: seq<ResultRow>, c: nat, day: nat)
    requires 0 < day && c + day < |rows| && rows[c + day].restaurant == rows[c + (day - 1)].restaurant
    ensures c + day < |SheetRows(rows)| && !Report.ShowName(SheetRows(rows), c + day)
  {
  }

  /** Every row of the sheet can open its hourly comparison: the batch recorded
      hourly data under the row's restaurant name. */
  lemma RowsHaveHourlyData(rs: seq<RestaurantInput>, dates: seq<string>, j: nat, day: nat)
    requires |dates| == 7 && j < |rs| && Accepted(rs[j]) && day < 7
    ensures 7 * AcceptedCount(rs, j) + day < |BatchRows(rs, |rs|, dates)|
    ensures var row := BatchRows(rs, |rs|, dates)[7 * AcceptedCount(rs, j) + day];
      && row.restaurant in BatchHourly(rs, |rs|)
      && HourlyDetail.DetailOf(BatchHourly(rs, |rs|), row.restaurant, row.dateIso) != HourlyDetail.NoHourlyData
  {
    RowDate(rs, dates, j, day);
    HourlyKeys(rs, |rs|, RestaurantName(rs[j], j));
  }

  // ---------------------------------------------------------------------
  // The report as evidently intended: the same counting and the same
  // accumulation, under the keys and label text the batch writes.

  /** Counting the batch's own text for Dårligere, the verdict is 'worse' exactly
      when more rows are labelled Dårligere than Bedre, and 'better' exactly when
      more are labelled Bedre. */
  lemma IntendedVerdict(rows: seq<ResultRow>)
    ensures var data := SheetRows(rows);
      var labels := multiset(Labels(rows));
      var v := Report.OverallVerdict(Report.CountImpact(data, LabelText(Better)), Report.CountImpact(data, LabelText(Worse)));
      && (v == Report.WorseOverall <==> labels[Worse] > labels[Better])
      && (v == Report.BetterOverall <==> labels[Better] > labels[Worse])
  {
    var data := SheetRows(rows);
    assert Report.Impacts(data) == Texts(Labels(rows));
    Report.CountIsMultiplicity(data, LabelText(Better));
    Report.CountIsMultiplicity(data, LabelText(Worse));
    TextCount(Labels(rows), Better);
    TextCount(Labels(rows), Worse);
  }

  /** Read under the headers the batch writes, a row adds to the precipitation and
      snow totals exactly when both of its values were truthy, and then adds the
      difference of the rounded values, as the temperature columns do. */
  lemma IntendedDifferences(r: ResultRow, fp: JsValue, lp: JsValue, fs: JsValue, ls: JsValue)
    requires r.precip2026 == FieldText(fp) && r.precip2025 == FieldText(lp)
    requires r.snow2026 == FieldText(fs) && r.snow2025 == FieldText(ls)
    ensures Report.Difference(ToSheetRow(r), WrittenPrecipNow, WrittenPrecipBefore) ==
      if fp.Num? && fp.x != 0.0 && lp.Num? && lp.x != 0.0 then Some(Round1(fp.x) - Round1(lp.x)) else None
    ensures Report.Difference(ToSheetRow(r), WrittenSnowNow, WrittenSnowBefore) ==
      if fs.Num? && fs.x != 0.0 && ls.Num? && ls.x != 0.0 then Some(Round1(fs.x) - Round1(ls.x)) else None
  {
    WrittenColumns(r);
    FieldsSubtract(fp, lp);
    FieldsSubtract(fs, ls);
  }

  /** The precipitation and snow differences of a sheet row under the written headers. */
  lemma WrittenColumns(r: ResultRow)
    ensures Report.Difference(ToSheetRow(r), WrittenPrecipNow, WrittenPrecipBefore)
         == Report.Subtract(ParseFloat(r.precip2026), ParseFloat(r.precip2025))
    ensures Report.Difference(ToSheetRow(r), WrittenSnowNow, WrittenSnowBefore)
         == Report.Subtract(ParseFloat(r.snow2026), ParseFloat(r.snow2025))
  {
    var cells := ToSheetRow(r).cells;
    assert WrittenPrecipNow in cells && cells[WrittenPrecipNow] == r.precip2026;
    assert WrittenPrecipBefore in cells && cells[WrittenPrecipBefore] == r.precip2025;
    assert WrittenSnowNow in cells && cells[WrittenSnowNow] == r.snow2026;
    assert WrittenSnowBefore in cells && cells[WrittenSnowBefore] == r.snow2025;
  }
}
