/** The impact scorer of weather_impact_interactive.js (calculateImpact). */
module Impact {

  /** The three labels and the text the batch writes for each. */
  datatype Label = Better | Worse | Similar

  function LabelText(l: Label): (s: string)
    ensures |s| >= 5
  {
    match l
    case Better => "Bedre"
    case Worse => "Dårligere"
    case Similar => "Lignende"
  }

  lemma LabelTextInjective(a: Label, b: Label)
    ensures LabelText(a) == LabelText(b) <==> a == b
  {
  }

  /** Worse < Similar < Better. */
  function Rank(l: Label): int {
    match l
    case Worse => 0
    case Similar => 1
    case Better => 2
  }

  function Abs(x: real): real {
    if x < 0.0 then -x else x
  }

  /** Temperature contribution: the two freezing crossings, then the steep
      slope for swings over 10 degrees and the shallow slope otherwise. */
  function TemperatureTerm(forecastTemp: real, lyTemp: real): (t: real)
    ensures forecastTemp < 0.0 && lyTemp >= 0.0 ==> t == -3.0
    ensures forecastTemp >= 0.0 && lyTemp < 0.0 ==> t == 3.0
    ensures (forecastTemp < 0.0) == (lyTemp < 0.0) ==> (t > 0.0 <==> forecastTemp > lyTemp) && (t < 0.0 <==> forecastTemp < lyTemp)
  {
    var tempDiff := forecastTemp - lyTemp;
    if forecastTemp < 0.0 && lyTemp >= 0.0 then -3.0
    else if forecastTemp >= 0.0 && lyTemp < 0.0 then 3.0
    else if Abs(tempDiff) > 10.0 then tempDiff * 0.3
    else tempDiff * 0.1
  }

  function TotalImpact(forecastTemp: real, lyTemp: real, forecastPrecip: real, lyPrecip: real,
                       forecastSnow: real, lySnow: real): (total: real)
    ensures forecastPrecip >= lyPrecip && forecastSnow >= lySnow ==> total <= TemperatureTerm(forecastTemp, lyTemp)
    ensures forecastPrecip <= lyPrecip && forecastSnow <= lySnow ==> total >= TemperatureTerm(forecastTemp, lyTemp)
  {
    var precipImpact := -(forecastPrecip - lyPrecip) * 1.5;
    var snowImpact := -(forecastSnow - lySnow) * 5.0;
    TemperatureTerm(forecastTemp, lyTemp) + precipImpact + snowImpact
  }

  function Classify(total: real): (l: Label)
    ensures l == Better <==> total > 3.0
    ensures l == Worse <==> total < -3.0
    ensures l == Similar <==> -3.0 <= total <= 3.0
  {
    if total > 3.0 then Better else if total < -3.0 then Worse else Similar
  }

  /** calculateImpact on numbers, with exact rational arithmetic. */
  function CalculateImpact(forecastTemp: real, lyTemp: real, forecastPrecip: real, lyPrecip: real,
                           forecastSnow: real, lySnow: real): (l: Label)
    ensures var total := TotalImpact(forecastTemp, lyTemp, forecastPrecip, lyPrecip, forecastSnow, lySnow);
      && (l == Better <==> total > 3.0)
      && (l == Worse <==> total < -3.0)
      && (l == Similar <==> -3.0 <= total <= 3.0)
  {
    Classify(TotalImpact(forecastTemp, lyTemp, forecastPrecip, lyPrecip, forecastSnow, lySnow))
  }

  /** Crossing the freezing point decides the temperature term outright. */
  lemma FreezingCrossings(ft: real, lt: real)
    ensures ft < 0.0 && lt >= 0.0 ==> TemperatureTerm(ft, lt) == -3.0
    ensures ft >= 0.0 && lt < 0.0 ==> TemperatureTerm(ft, lt) == 3.0
  {
  }

  /** Without a crossing the term is 0.3 or 0.1 times the difference,
      so it has the sign of the difference. */
  lemma Slopes(ft: real, lt: real)
    requires (ft < 0.0) == (lt < 0.0)
    ensures Abs(ft - lt) > 10.0 ==> TemperatureTerm(ft, lt) == 0.3 * (ft - lt)
    ensures Abs(ft - lt) <= 10.0 ==> TemperatureTerm(ft, lt) == 0.1 * (ft - lt)
    ensures (TemperatureTerm(ft, lt) > 0.0) == (ft > lt)
    ensures (TemperatureTerm(ft, lt) < 0.0) == (ft < lt)
  {
  }

  /** More forecast rain or snow never raises the total; a unit of snow lowers
      it by 5, a unit of rain by 1.5. */
  lemma PrecipitationMonotone(ft: real, lt: real, fp: real, lp: real, fs: real, ls: real, more: real)
    requires more >= 0.0
    ensures TotalImpact(ft, lt, fp + more, lp, fs, ls) == TotalImpact(ft, lt, fp, lp, fs, ls) - 1.5 * more
    ensures TotalImpact(ft, lt, fp, lp, fs + more, ls) == TotalImpact(ft, lt, fp, lp, fs, ls) - 5.0 * more
    ensures TotalImpact(ft, lt, fp, lp, fs + more, ls) <= TotalImpact(ft, lt, fp + more, lp, fs, ls)
  {
  }

  /** Hence the label never improves as forecast rain or snow grows. */
  lemma LabelMonotone(ft: real, lt: real, fp: real, lp: real, fs: real, ls: real, more: real)
    requires more >= 0.0
    ensures Rank(CalculateImpact(ft, lt, fp + more, lp, fs, ls)) <= Rank(CalculateImpact(ft, lt, fp, lp, fs, ls))
    ensures Rank(CalculateImpact(ft, lt, fp, lp, fs + more, ls)) <= Rank(CalculateImpact(ft, lt, fp, lp, fs, ls))
  {
    PrecipitationMonotone(ft, lt, fp, lp, fs, ls, more);
  }

  // ---------------------------------------------------------------------
  // The same rule on JavaScript values, as the batch calls it with whatever
  // the weather payload holds at an index.

  /** A value read out of a JSON array: a number, null, or undefined (index out of range). */
  datatype JsValue = Num(x: real) | Null | Undefined

  /** A JS number as arithmetic sees it: finite, or NaN. */
  datatype Number = Real(r: real) | NaN

  /** Arithmetic conversion: null becomes 0, undefined becomes NaN. */
  function ToNumber(v: JsValue): Number {
    match v
    case Num(x) => Real(x)
    case Null => Real(0.0)
    case Undefined => NaN
  }

  function Minus(a: Number, b: Number): Number {
    if a.Real? && b.Real? then Real(a.r - b.r) else NaN
  }

  function Plus(a: Number, b: Number): Number {
    if a.Real? && b.Real? then Real(a.r + b.r) else NaN
  }

  function Times(a: Number, k: real): Number {
    if a.Real? then Real(a.r * k) else NaN
  }

  function Negate(a: Number): Number {
    if a.Real? then Real(-a.r) else NaN
  }

  function MathAbs(a: Number): Number {
    if a.Real? then Real(Abs(a.r)) else NaN
  }

  /** a < k, a >= k and a > k are all false on NaN. */
  predicate Less(a: Number, k: real) { a.Real? && a.r < k }
  predicate AtLeast(a: Number, k: real) { a.Real? && a.r >= k }
  predicate Greater(a: Number, k: real) { a.Real? && a.r > k }

  /** The temperature term of calculateImpact on JS numbers. */
  function TemperatureTermJs(ft: Number, lt: Number): Number {
    var tempDiff := Minus(ft, lt);
    if Less(ft, 0.0) && AtLeast(lt, 0.0) then Real(-3.0)
    else if AtLeast(ft, 0.0) && Less(lt, 0.0) then Real(3.0)
    else if Greater(MathAbs(tempDiff), 10.0) then Times(tempDiff, 0.3)
    else Times(tempDiff, 0.1)
  }

  /** The threshold tests of calculateImpact on the JS total. */
  function ClassifyJs(totalImpact: Number): Label {
    if Greater(totalImpact, 3.0) then Better
    else if Less(totalImpact, -3.0) then Worse
    else Similar
  }

  /** calculateImpact step by step on the operands after conversion to numbers. */
  function ImpactOfNumbers(ft: Number, lt: Number, fp: Number, lp: Number, fs: Number, ls: Number): Label {
    var tempImpact := TemperatureTermJs(ft, lt);
    var precipDiff := Minus(fp, lp);
    var snowDiff := Minus(fs, ls);
    var precipImpact := Times(Negate(precipDiff), 1.5);
    var snowImpact := Times(Negate(snowDiff), 5.0);
    ClassifyJs(Plus(Plus(tempImpact, precipImpact), snowImpact))
  }

  /** calculateImpact with JS number semantics, as the batch calls it with whatever
      the weather payload holds at an index. */
  function CalculateImpactJs(forecastTemp: JsValue, lyTemp: JsValue, forecastPrecip: JsValue,
                             lyPrecip: JsValue, forecastSnow: JsValue, lySnow: JsValue): (l: Label)
    ensures AnyUndefined(forecastTemp, lyTemp, forecastPrecip, lyPrecip, forecastSnow, lySnow) ==> l == Similar
    ensures !AnyUndefined(forecastTemp, lyTemp, forecastPrecip, lyPrecip, forecastSnow, lySnow) ==>
      l == CalculateImpact(ToNumber(forecastTemp).r, ToNumber(lyTemp).r, ToNumber(forecastPrecip).r,
                           ToNumber(lyPrecip).r, ToNumber(forecastSnow).r, ToNumber(lySnow).r)
  {
    ValuesAgree(forecastTemp, lyTemp, forecastPrecip, lyPrecip, forecastSnow, lySnow);
    ImpactOfNumbers(ToNumber(forecastTemp), ToNumber(lyTemp), ToNumber(forecastPrecip),
                    ToNumber(lyPrecip), ToNumber(forecastSnow), ToNumber(lySnow))
  }

  /** Some operand is undefined (read past the end of its series). */
  predicate AnyUndefined(ft: JsValue, lt: JsValue, fp: JsValue, lp: JsValue, fs: JsValue, ls: JsValue) {
    ft.Undefined? || lt.Undefined? || fp.Undefined? || lp.Undefined? || fs.Undefined? || ls.Undefined?
  }

  /** What calculateImpact yields on JS values, in closed form: 'Lignende' when any
      operand is undefined, otherwise the numeric rule with null read as 0. */
  function ImpactOfValues(ft: JsValue, lt: JsValue, fp: JsValue, lp: JsValue, fs: JsValue, ls: JsValue): (l: Label)
    ensures l != Similar ==> !AnyUndefined(ft, lt, fp, lp, fs, ls)
    ensures l == Better <==>
      (!AnyUndefined(ft, lt, fp, lp, fs, ls) &&
       TotalImpact(ToNumber(ft).r, ToNumber(lt).r, ToNumber(fp).r, ToNumber(lp).r, ToNumber(fs).r, ToNumber(ls).r) > 3.0)
    ensures l == Worse <==>
      (!AnyUndefined(ft, lt, fp, lp, fs, ls) &&
       TotalImpact(ToNumber(ft).r, ToNumber(lt).r, ToNumber(fp).r, ToNumber(lp).r, ToNumber(fs).r, ToNumber(ls).r) < -3.0)
  {
    if AnyUndefined(ft, lt, fp, lp, fs, ls) then Similar
    else CalculateImpact(ToNumber(ft).r, ToNumber(lt).r, ToNumber(fp).r, ToNumber(lp).r, ToNumber(fs).r, ToNumber(ls).r)
  }

  /** The step-by-step evaluation on converted values: 'Lignende' with an undefined
      operand, otherwise the numeric rule with null read as 0. */
  lemma ValuesAgree(ft: JsValue, lt: JsValue, fp: JsValue, lp: JsValue, fs: JsValue, ls: JsValue)
    ensures AnyUndefined(ft, lt, fp, lp, fs, ls) ==>
      ImpactOfNumbers(ToNumber(ft), ToNumber(lt), ToNumber(fp), ToNumber(lp), ToNumber(fs), ToNumber(ls)) == Similar
    ensures !AnyUndefined(ft, lt, fp, lp, fs, ls) ==>
      ImpactOfNumbers(ToNumber(ft), ToNumber(lt), ToNumber(fp), ToNumber(lp), ToNumber(fs), ToNumber(ls))
        == CalculateImpact(ToNumber(ft).r, ToNumber(lt).r, ToNumber(fp).r, ToNumber(lp).r, ToNumber(fs).r, ToNumber(ls).r)
  {
    var a, b, c, d, e, g := ToNumber(ft), ToNumber(lt), ToNumber(fp), ToNumber(lp), ToNumber(fs), ToNumber(ls);
    NumbersAgree(a, b, c, d, e, g);
    assert a.NaN? || b.NaN? || c.NaN? || d.NaN? || e.NaN? || g.NaN? <==> AnyUndefined(ft, lt, fp, lp, fs, ls);
  }

  /** On two finite numbers the JS temperature term is the numeric one; with a NaN
      operand it is NaN. */
  lemma TemperatureTermAgrees(ft: Number, lt: Number)
    ensures ft.Real? && lt.Real? ==> TemperatureTermJs(ft, lt) == Real(TemperatureTerm(ft.r, lt.r))
    ensures ft.NaN? || lt.NaN? ==> TemperatureTermJs(ft, lt) == NaN
  {
  }

  /** The JS thresholds are the numeric ones on a finite total, and NaN is 'Lignende'. */
  lemma ClassifyJsAgrees(total: Number)
    ensures total.Real? ==> ClassifyJs(total) == Classify(total.r)
    ensures total.NaN? ==> ClassifyJs(total) == Similar
  {
  }

  /** The step-by-step evaluation with NaN propagation agrees with the closed form:
      null reads as 0, and one undefined operand makes the total NaN, which fails
      both threshold tests. */
  lemma JsAgreesWithNumbers(ft: JsValue, lt: JsValue, fp: JsValue, lp: JsValue, fs: JsValue, ls: JsValue)
    ensures CalculateImpactJs(ft, lt, fp, lp, fs, ls) == ImpactOfValues(ft, lt, fp, lp, fs, ls)
  {
  }

  /** On finite operands the step-by-step evaluation is the numeric rule; a NaN
      operand makes it 'Lignende'. */
  lemma NumbersAgree(a: Number, b: Number, c: Number, d: Number, e: Number, g: Number)
    ensures a.Real? && b.Real? && c.Real? && d.Real? && e.Real? && g.Real? ==>
      ImpactOfNumbers(a, b, c, d, e, g) == CalculateImpact(a.r, b.r, c.r, d.r, e.r, g.r)
    ensures a.NaN? || b.NaN? || c.NaN? || d.NaN? || e.NaN? || g.NaN? ==>
      ImpactOfNumbers(a, b, c, d, e, g) == Similar
  {
    TemperatureTermAgrees(a, b);
    var total := Plus(Plus(TemperatureTermJs(a, b), Times(Negate(Minus(c, d)), 1.5)), Times(Negate(Minus(e, g)), 5.0));
    ClassifyJsAgrees(total);
    if a.Real? && b.Real? && c.Real? && d.Real? && e.Real? && g.Real? {
      assert total == Real(TotalImpact(a.r, b.r, c.r, d.r, e.r, g.r));
    }
  }

  /** The worked examples: heavy snow last year gives 'Bedre', 8 mm more rain gives
      'Dårligere', and a freezing crossing outweighs an equal 2-degree change. */
  lemma Examples()
    ensures CalculateImpact(2.0, 1.5, 0.0, 0.0, 0.0, 4.0) == Better
    ensures CalculateImpact(10.0, 10.0, 8.0, 0.0, 0.0, 0.0) == Worse
    ensures TotalImpact(-1.0, 1.0, 0.0, 0.0, 0.0, 0.0) < TotalImpact(5.0, 3.0, 0.0, 0.0, 0.0, 0.0)
  {
  }
}
