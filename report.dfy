/** The summary and table logic of generate_interactive_html.js, over the rows it
    reads back from the results sheet. Column names and label texts are kept
    exactly as that script spells them. */
module Report {
  import opened IsoText

  /** A row of the results sheet as sheet_to_json yields it: the Restaurant and
      Impact columns, and the other columns by header. A column absent from the
      map reads as undefined. */
  datatype SheetRow = SheetRow(restaurant: string, impact: string, cells: map<string, string>)

  const BetterText: string := "Bedre"
  const WorseText: string := "D√•rligere"
  const SimilarText: string := "Lignende"

  // ---------------------------------------------------------------------
  // Label counts: data.filter(r => r.Impact === label).length

  function CountImpact(data: seq<SheetRow>, text: string): (c: nat)
    ensures c <= |data|
  {
    if data == [] then 0
    else CountImpact(data[..|data| - 1], text) + (if data[|data| - 1].impact == text then 1 else 0)
  }

  function Impacts(data: seq<SheetRow>): (s: seq<string>)
    ensures |s| == |data| && forall i :: 0 <= i < |data| ==> s[i] == data[i].impact
  {
    seq(|data|, i requires 0 <= i < |data| => data[i].impact)
  }

  /** The count is the number of rows whose Impact is the given text. */
  lemma {:induction false} CountIsMultiplicity(data: seq<SheetRow>, text: string)
    ensures CountImpact(data, text) == multiset(Impacts(data))[text]
  {
    if data != [] {
      var init := data[..|data| - 1];
      CountIsMultiplicity(init, text);
      assert Impacts(data) == Impacts(init) + [data[|data| - 1].impact];
    }
  }

  /** The three counts never add up to more than the number of rows. */
  lemma {:induction false} CountsBounded(data: seq<SheetRow>)
    ensures CountImpact(data, BetterText) + CountImpact(data, WorseText) + CountImpact(data, SimilarText) <= |data|
  {
    if data != [] {
      CountsBounded(data[..|data| - 1]);
    }
  }

  // ---------------------------------------------------------------------
  // uniqueRestaurants: [...new Set(data.map(r => r.Restaurant))].sort()

  /** The default sort order: character by character, a proper prefix first. */
  predicate Below(a: string, b: string)
    decreases |a|
  {
    if a == [] then b != []
    else if b == [] then false
    else if a[0] != b[0] then a[0] < b[0]
    else Below(a[1..], b[1..])
  }

  lemma {:induction false} BelowIrreflexive(a: string)
    ensures !Below(a, a)
    decreases |a|
  {
    if a != [] {
      BelowIrreflexive(a[1..]);
    }
  }

  lemma {:induction false} BelowTransitive(a: string, b: string, c: string)
    requires Below(a, b) && Below(b, c)
    ensures Below(a, c)
    decreases |a|
  {
    if a != [] && b != [] && c != [] && a[0] == b[0] && b[0] == c[0] {
      BelowTransitive(a[1..], b[1..], c[1..]);
    }
  }

  lemma {:induction false} BelowTotal(a: string, b: string)
    requires a != b
    ensures Below(a, b) || Below(b, a)
    decreases |a|
  {
    if a != [] && b != [] && a[0] == b[0] {
      assert a[1..] != b[1..] by {
        assert a == [a[0]] + a[1..] && b == [b[0]] + b[1..];
      }
      BelowTotal(a[1..], b[1..]);
    }
  }

  predicate StrictlySorted(s: seq<string>) {
    forall i, j :: 0 <= i < j < |s| ==> Below(s[i], s[j])
  }

  /** Adds x to a strictly sorted list unless it is already there. */
  function Insert(s: seq<string>, x: string): (r: seq<string>)
    requires StrictlySorted(s)
    ensures StrictlySorted(r)
    ensures forall y :: y in r <==> y in s || y == x
    decreases |s|
  {
    if s == [] then [x]
    else if x == s[0] then s
    else if Below(x, s[0]) then
      InsertFront(s, x);
      [x] + s
    else
      BelowTotal(x, s[0]);
      var r := [s[0]] + Insert(s[1..], x);
      InsertBehind(s, x, r);
      r
  }

  lemma InsertFront(s: seq<string>, x: string)
    requires StrictlySorted(s) && s != [] && Below(x, s[0])
    ensures StrictlySorted([x] + s)
  {
    forall j | 0 < j < |s| + 1
      ensures Below(x, ([x] + s)[j])
    {
      if j > 1 {
        BelowTransitive(x, s[0], s[j - 1]);
      }
    }
  }

  lemma InsertBehind(s: seq<string>, x: string, r: seq<string>)
    requires StrictlySorted(s) && s != [] && Below(s[0], x)
    requires r != [] && r[0] == s[0]
    requires StrictlySorted(r[1..]) && forall y :: y in r[1..] ==> y in s[1..] || y == x
    ensures StrictlySorted(r)
  {
    forall i, j | 0 <= i < j < |r|
      ensures Below(r[i], r[j])
    {
      if i == 0 {
        assert r[j] in r[1..] by { assert r[j] == r[1..][j - 1]; }
        if r[j] != x {
          var k :| 0 <= k < |s[1..]| && s[1..][k] == r[j];
          assert Below(s[0], s[k + 1]);
        }
      } else {
        assert r[i] == r[1..][i - 1] && r[j] == r[1..][j - 1];
      }
    }
  }

  /** The restaurant names in the data, each once, in sort order. */
  function UniqueRestaurants(data: seq<SheetRow>): (r: seq<string>)
    ensures StrictlySorted(r)
    ensures forall x :: x in r <==> exists i :: 0 <= i < |data| && data[i].restaurant == x
  {
    if data == [] then []
    else
      var init := data[..|data| - 1];
      var r := Insert(UniqueRestaurants(init), data[|data| - 1].restaurant);
      assert forall i :: 0 <= i < |init| ==> init[i] == data[i];
      r
  }

  /** No name appears twice. */
  lemma UniqueHasNoDuplicates(data: seq<SheetRow>)
    ensures var r := UniqueRestaurants(data);
      forall i, j :: 0 <= i < j < |r| ==> r[i] != r[j]
  {
    var r := UniqueRestaurants(data);
    forall i, j | 0 <= i < j < |r|
      ensures r[i] != r[j]
    {
      BelowIrreflexive(r[i]);
    }
  }

  /** A strictly sorted list is fixed by its elements, so the list does not depend
      on the order in which the Set met the names. */
  lemma {:induction false} SortedSetUnique(a: seq<string>, b: seq<string>)
    requires StrictlySorted(a) && StrictlySorted(b)
    requires forall x :: x in a <==> x in b
    ensures a == b
    decreases |a|
  {
    EmptyTogether(a, b);
    if a != [] {
      if a[0] != b[0] {
        BelowTotal(a[0], b[0]);
        if Below(a[0], b[0]) {
          HeadIsLeast(b, a[0]);
        } else {
          HeadIsLeast(a, b[0]);
        }
      }
      forall x
        ensures x in a[1..] <==> x in b[1..]
      {
        SortedTail(a, x);
        SortedTail(b, x);
      }
      SortedSetUnique(a[1..], b[1..]);
      assert a == [a[0]] + a[1..] && b == [b[0]] + b[1..];
    }
  }

  /** Two lists with the same elements are empty together. */
  lemma EmptyTogether(a: seq<string>, b: seq<string>)
    requires forall x :: x in a <==> x in b
    ensures a == [] <==> b == []
  {
    if a != [] {
      assert a[0] in b;
    }
    if b != [] {
      assert b[0] in a;
    }
  }

  /** Nothing in a strictly sorted list comes before its head. */
  lemma HeadIsLeast(s: seq<string>, x: string)
    requires StrictlySorted(s) && x in s
    ensures !Below(x, s[0])
  {
    var k :| 0 <= k < |s| && s[k] == x;
    if k > 0 && Below(x, s[0]) {
      BelowTransitive(s[0], s[k], s[0]);
      BelowIrreflexive(s[0]);
    }
    if k == 0 {
      BelowIrreflexive(x);
    }
  }

  /** In a strictly sorted list the tail holds every element but the head. */
  lemma SortedTail(s: seq<string>, x: string)
    requires StrictlySorted(s) && s != []
    ensures x in s[1..] <==> x in s && x != s[0]
  {
    if x in s[1..] {
      var k :| 0 <= k < |s[1..]| && s[1..][k] == x;
      assert Below(s[0], s[k + 1]);
      BelowIrreflexive(s[0]);
    }
    if x in s && x != s[0] {
      var k :| 0 <= k < |s| && s[k] == x;
      assert s[1..][k - 1] == x;
    }
  }

  // ---------------------------------------------------------------------
  // The difference accumulators and the averages.

  const TempNow: string := "Temp 2026"
  const TempBefore: string := "Temp 2025"
  const PrecipNow: string := "Nedb√∏r 2026"
  const PrecipBefore: string := "Nedb√∏r 2025"
  const SnowNow: string := "Snefald 2026 (cm)"
  const SnowBefore: string := "Snefald 2025 (cm)"

  /** parseFloat(r[key]); an absent column is undefined and parses as NaN (None). */
  function Column(r: SheetRow, key: string): (v: Option<real>)
    ensures key !in r.cells ==> v.None?
    ensures v.Some? ==> key in r.cells && ParseFloat(r.cells[key]).Some?
  {
    if key in r.cells then ParseFloat(r.cells[key]) else None
  }

  /** The difference of two columns when both parse. */
  function Difference(r: SheetRow, now: string, before: string): Option<real> {
    Subtract(Column(r, now), Column(r, before))
  }

  /** now - before when both parsed. */
  function Subtract(now: Option<real>, before: Option<real>): (r: Option<real>)
    ensures r.Some? <==> now.Some? && before.Some?
    ensures r.Some? ==> before.value + r.value == now.value
  {
    if now.Some? && before.Some? then Some(now.value - before.value) else None
  }

  datatype Totals = Totals(temp: real, precip: real, snow: real, count: nat)

  /** One forEach step: each total grows by its difference when both columns parse;
      count follows the temperature pair only. */
  function AddRow(t: Totals, r: SheetRow): (u: Totals)
    ensures var d := Difference(r, TempNow, TempBefore);
      && u.count == t.count + (if d.Some? then 1 else 0)
      && u.temp == t.temp + (if d.Some? then d.value else 0.0)
    ensures var d := Difference(r, PrecipNow, PrecipBefore); u.precip == t.precip + (if d.Some? then d.value else 0.0)
    ensures var d := Difference(r, SnowNow, SnowBefore); u.snow == t.snow + (if d.Some? then d.value else 0.0)
  {
    AddParsed(t, Column(r, TempNow), Column(r, TempBefore), Column(r, PrecipNow),
              Column(r, PrecipBefore), Column(r, SnowNow), Column(r, SnowBefore))
  }

  /** The step on the six parsed columns of a row. */
  function AddParsed(t: Totals, tn: Option<real>, tb: Option<real>, pn: Option<real>,
                     pb: Option<real>, sn: Option<real>, sb: Option<real>): Totals {
    Totals(if tn.Some? && tb.Some? then t.temp + (tn.value - tb.value) else t.temp,
           if pn.Some? && pb.Some? then t.precip + (pn.value - pb.value) else t.precip,
           if sn.Some? && sb.Some? then t.snow + (sn.value - sb.value) else t.snow,
           if tn.Some? && tb.Some? then t.count + 1 else t.count)
  }

  function TotalsOf(data: seq<SheetRow>): (t: Totals)
    ensures t.count == CountPairs(data, TempNow, TempBefore) <= |data|
  {
    if data == [] then Totals(0.0, 0.0, 0.0, 0) else AddRow(TotalsOf(data[..|data| - 1]), data[|data| - 1])
  }

  /** The forEach over the data with its four accumulators. */
  method AccumulateDifferences(data: seq<SheetRow>)
    returns (totalTempDiff: real, totalPrecipDiff: real, totalSnowDiff: real, count: nat)
    ensures Totals(totalTempDiff, totalPrecipDiff, totalSnowDiff, count) == TotalsOf(data)
  {
    totalTempDiff, totalPrecipDiff, totalSnowDiff, count := 0.0, 0.0, 0.0, 0;
    for i := 0 to |data|
      invariant Totals(totalTempDiff, totalPrecipDiff, totalSnowDiff, count) == TotalsOf(data[..i])
    {
      TotalsStep(data, i);
      totalTempDiff, totalPrecipDiff, totalSnowDiff, count :=
        AccumulateRow(totalTempDiff, totalPrecipDiff, totalSnowDiff, count, data[i]);
    }
    assert data[..|data|] == data;
  }

  /** The forEach callback on one row: parse the six columns and add each
      difference whose two columns parse. */
  method AccumulateRow(totalTempDiff: real, totalPrecipDiff: real, totalSnowDiff: real, count: nat, r: SheetRow)
    returns (temp: real, precip: real, snow: real, n: nat)
    ensures Totals(temp, precip, snow, n) == AddRow(Totals(totalTempDiff, totalPrecipDiff, totalSnowDiff, count), r)
  {
    temp, precip, snow, n := totalTempDiff, totalPrecipDiff, totalSnowDiff, count;
    var temp2026, temp2025 := Column(r, TempNow), Column(r, TempBefore);
    var precip2026, precip2025 := Column(r, PrecipNow), Column(r, PrecipBefore);
    var snow2026, snow2025 := Column(r, SnowNow), Column(r, SnowBefore);
    if temp2026.Some? && temp2025.Some? {
      temp := temp + (temp2026.value - temp2025.value);
      n := n + 1;
    }
    if precip2026.Some? && precip2025.Some? {
      precip := precip + (precip2026.value - precip2025.value);
    }
    if snow2026.Some? && snow2025.Some? {
      snow := snow + (snow2026.value - snow2025.value);
    }
  }

  /** The totals of one more row. */
  lemma TotalsStep(data: seq<SheetRow>, i: nat)
    requires i < |data|
    ensures TotalsOf(data[..i + 1]) == AddRow(TotalsOf(data[..i]), data[i])
  {
    assert data[..i + 1][..i] == data[..i];
  }

  /** The rows where a pair of columns both parse. */
  function CountPairs(data: seq<SheetRow>, now: string, before: string): (c: nat)
    ensures c <= |data|
  {
    if data == [] then 0
    else CountPairs(data[..|data| - 1], now, before) + (if Difference(data[|data| - 1], now, before).Some? then 1 else 0)
  }

  /** A total stays 0 when its pair never parses. */
  lemma {:induction false} TotalsMeaning(data: seq<SheetRow>)
    ensures CountPairs(data, TempNow, TempBefore) == 0 ==> TotalsOf(data).temp == 0.0
    ensures CountPairs(data, PrecipNow, PrecipBefore) == 0 ==> TotalsOf(data).precip == 0.0
    ensures CountPairs(data, SnowNow, SnowBefore) == 0 ==> TotalsOf(data).snow == 0.0
  {
    if data != [] {
      TotalsMeaning(data[..|data| - 1]);
    }
  }

  /** A JS number as the averages can make it. */
  datatype JsNumber = Finite(r: real) | NaN | PlusInfinity | MinusInfinity

  /** total / n in JS: 0 / 0 is NaN, x / 0 is an infinity. */
  function Divide(total: real, n: nat): (q: JsNumber)
    ensures n > 0 ==> q == Finite(total / n as real)
    ensures n == 0 && total == 0.0 ==> q == NaN
  {
    if n > 0 then Finite(total / n as real)
    else if total == 0.0 then NaN
    else if total > 0.0 then PlusInfinity
    else MinusInfinity
  }

  datatype Averages = Averages(temp: JsNumber, precip: JsNumber, snow: JsNumber)

  /** The temperature average divides by count, the other two by the number of rows. */
  function AveragesOf(data: seq<SheetRow>): (a: Averages)
    ensures !a.temp.PlusInfinity? && !a.temp.MinusInfinity?
    ensures !a.precip.PlusInfinity? && !a.precip.MinusInfinity?
    ensures !a.snow.PlusInfinity? && !a.snow.MinusInfinity?
  {
    TotalsMeaning(data);
    var t := TotalsOf(data);
    Averages(Divide(t.temp, t.count), Divide(t.precip, |data|), Divide(t.snow, |data|))
  }

  /** The averages are never infinite: NaN when nothing was counted (or there are no
      rows), the mean difference otherwise. */
  lemma AveragesFinite(data: seq<SheetRow>)
    ensures var a, t := AveragesOf(data), TotalsOf(data);
      && (t.count == 0 <==> a.temp == NaN)
      && (t.count > 0 ==> a.temp == Finite(t.temp / t.count as real))
      && (|data| == 0 <==> a.precip == NaN) && (|data| == 0 <==> a.snow == NaN)
      && (|data| > 0 ==> a.precip == Finite(t.precip / |data| as real) && a.snow == Finite(t.snow / |data| as real))
  {
    TotalsMeaning(data);
  }

  // ---------------------------------------------------------------------
  // The interpretation paragraph and the overall verdict.

  /** a < k and a > k in JS; NaN compares false. */
  predicate LessThan(a: JsNumber, k: real) {
    match a
    case Finite(r) => r < k
    case MinusInfinity => true
    case _ => false
  }

  predicate GreaterThan(a: JsNumber, k: real) {
    match a
    case Finite(r) => r > k
    case PlusInfinity => true
    case _ => false
  }

  datatype Trend = Lower | Higher | Alike

  /** avg < -limit ? lower : avg > limit ? higher : alike. */
  function Remark(avg: JsNumber, limit: real): (t: Trend)
    requires limit > 0.0
    ensures t == Lower <==> LessThan(avg, -limit)
    ensures t == Higher <==> GreaterThan(avg, limit)
    ensures t == Alike <==> !LessThan(avg, -limit) && !GreaterThan(avg, limit)
  {
    if LessThan(avg, -limit) then Lower else if GreaterThan(avg, limit) then Higher else Alike
  }

  datatype Remarks = Remarks(temp: Trend, precip: Trend, snow: Trend)

  /** Temperature beyond 1 degree, precipitation beyond 5 mm and snow beyond 1 cm. */
  function RemarksOf(a: Averages): (m: Remarks)
    ensures a.temp.NaN? ==> m.temp == Alike
    ensures a.precip.NaN? ==> m.precip == Alike
    ensures a.snow.NaN? ==> m.snow == Alike
    ensures a.temp.Finite? ==> (m.temp == Alike <==> -1.0 <= a.temp.r <= 1.0)
    ensures a.precip.Finite? ==> (m.precip == Alike <==> -5.0 <= a.precip.r <= 5.0)
    ensures a.snow.Finite? ==> (m.snow == Alike <==> -1.0 <= a.snow.r <= 1.0)
  {
    Remarks(Remark(a.temp, 1.0), Remark(a.precip, 5.0), Remark(a.snow, 1.0))
  }

  /** With no rows every remark is 'alike'. */
  lemma EmptyDataRemarks(data: seq<SheetRow>)
    requires data == []
    ensures RemarksOf(AveragesOf(data)) == Remarks(Alike, Alike, Alike)
  {
    AveragesFinite(data);
  }

  datatype Verdict = WorseOverall | BetterOverall | SimilarOverall

  /** worse > better ? worse : better > worse ? better : similar. */
  function OverallVerdict(better: nat, worse: nat): (v: Verdict)
    ensures v == WorseOverall <==> worse > better
    ensures v == BetterOverall <==> better > worse
    ensures v == SimilarOverall <==> better == worse
  {
    if worse > better then WorseOverall else if better > worse then BetterOverall else SimilarOverall
  }

  // ---------------------------------------------------------------------
  // The table: one name cell per group of rows, and the restaurant filter.

  /** idx === 0 || r.Restaurant !== data[idx - 1].Restaurant. */
  predicate ShowName(data: seq<SheetRow>, idx: nat)
    requires idx < |data|
  {
    idx == 0 || data[idx].restaurant != data[idx - 1].restaurant
  }

  /** Every row is preceded (or met) by a name cell of its own restaurant, with no
      other restaurant in between. */
  lemma {:induction false} NameCellBefore(data: seq<SheetRow>, i: nat)
    requires i < |data|
    ensures exists k :: 0 <= k <= i && ShowName(data, k) && data[k].restaurant == data[i].restaurant &&
                        forall m :: k <= m <= i ==> data[m].restaurant == data[i].restaurant
  {
    if !ShowName(data, i) {
      NameCellBefore(data, i - 1);
      var k :| 0 <= k <= i - 1 && ShowName(data, k) && data[k].restaurant == data[i - 1].restaurant &&
               forall m :: k <= m <= i - 1 ==> data[m].restaurant == data[i - 1].restaurant;
      assert forall m :: k <= m <= i ==> data[m].restaurant == data[i].restaurant;
    } else {
      assert forall m :: i <= m <= i ==> data[m].restaurant == data[i].restaurant;
    }
  }

  /** !restaurant || rowRestaurant === restaurant. */
  predicate Shows(selected: string, rowRestaurant: string) {
    selected == "" || rowRestaurant == selected
  }

  /** Every option of the restaurant dropdown shows at least one row. */
  lemma OptionShowsRows(data: seq<SheetRow>, selected: string)
    requires selected in UniqueRestaurants(data)
    ensures exists i :: 0 <= i < |data| && Shows(selected, data[i].restaurant)
  {
  }

  /** The table rows with their hidden flags. */
  class DataTable {
    const rowRestaurants: seq<string>
    const hidden: array<bool>

    predicate Valid()
      reads this
    {
      hidden.Length == |rowRestaurants|
    }

    /** The table as first rendered: every row visible. */
    constructor (restaurants: seq<string>)
      ensures Valid() && rowRestaurants == restaurants && fresh(hidden)
      ensures forall i :: 0 <= i < hidden.Length ==> !hidden[i]
    {
      rowRestaurants := restaurants;
      hidden := new bool[|restaurants|](_ => false);
    }

    /** filterByRestaurant: row.classList.toggle('hidden', !show) for every row. */
    method FilterByRestaurant(selected: string)
      requires Valid()
      modifies hidden
      ensures forall i :: 0 <= i < hidden.Length ==> hidden[i] == !Shows(selected, rowRestaurants[i])
    {
      for i := 0 to hidden.Length
        invariant forall k :: 0 <= k < i ==> hidden[k] == !Shows(selected, rowRestaurants[k])
      {
        var show := selected == "" || rowRestaurants[i] == selected;
        hidden[i] := !show;
      }
    }
  }
}
