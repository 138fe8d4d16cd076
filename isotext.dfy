/** The text forms the two scripts exchange: ISO calendar dates
    (Date.prototype.toISOString cut at 'T', and the Date string parser),
    one-decimal numbers (Number.prototype.toFixed(1)) and parseFloat. */
module IsoText {
  import opened Calendar

  datatype Option<T> = None | Some(value: T)

  function Pow10(k: nat): (p: nat)
    ensures p >= 1
  {
    if k == 0 then 1 else 10 * Pow10(k - 1)
  }

  predicate IsDigit(c: char) {
    '0' <= c <= '9'
  }

  predicate AllDigits(s: string) {
    forall i :: 0 <= i < |s| ==> IsDigit(s[i])
  }

  function DigitChar(v: int): (c: char)
    requires 0 <= v < 10
    ensures IsDigit(c) && c as int - '0' as int == v
  {
    ('0' as int + v) as char
  }

  /** The value of a string of decimal digits. */
  function DigitsValue(s: string): nat
    requires AllDigits(s)
  {
    if s == [] then 0 else 10 * DigitsValue(s[..|s| - 1]) + (s[|s| - 1] as int - '0' as int)
  }

  /** The w lowest decimal digits of v, padded with zeros on the left. */
  function PadDigits(v: nat, w: nat): (s: string)
    ensures |s| == w && AllDigits(s)
  {
    if w == 0 then [] else PadDigits(v / 10, w - 1) + [DigitChar(v % 10)]
  }

  /** Padding to w digits loses nothing when v has at most w digits. */
  lemma {:induction false} PadDigitsExact(v: nat, w: nat)
    requires v < Pow10(w)
    ensures DigitsValue(PadDigits(v, w)) == v
  {
    if w > 0 {
      var s := PadDigits(v, w);
      assert s[..|s| - 1] == PadDigits(v / 10, w - 1);
      PadDigitsExact(v / 10, w - 1);
    }
  }

  /** Shortest decimal text of v, as JS String(v) for a non-negative integer. */
  function NatToString(v: nat): (s: string)
    ensures |s| >= 1 && AllDigits(s)
    ensures DigitsValue(s) == v
    ensures s[0] == '0' <==> v == 0
    ensures |s| == 1 || s[0] != '0'
    decreases v
  {
    if v < 10 then [DigitChar(v)]
    else
      var s := NatToString(v / 10) + [DigitChar(v % 10)];
      assert s[..|s| - 1] == NatToString(v / 10);
      s
  }

  /** Date values a JS Date can hold: at most 100 000 000 days either side of 1970-01-01. */
  predicate InDateRange(n: int) {
    -100000000 <= n <= 100000000
  }

  /** toISOString's year: four digits for 0..9999, otherwise a sign and six digits. */
  function YearText(y: int): (s: string)
    requires -1000000 < y < 1000000
  {
    if 0 <= y <= 9999 then PadDigits(y, 4)
    else if y < 0 then "-" + PadDigits(-y, 6)
    else "+" + PadDigits(y, 6)
  }

  /** toISOString().split('T')[0] for the calendar day n. */
  function FormatIsoDate(n: int): (s: string)
    requires InDateRange(n)
    ensures |s| >= 10
  {
    YearBounds(n);
    var c := CivilFromDays(n);
    YearText(c.year) + "-" + PadDigits(c.month, 2) + "-" + PadDigits(c.day, 2)
  }

  lemma YearBounds(n: int)
    requires InDateRange(n)
    ensures -300000 < CivilFromDays(n).year < 300000
  {
    var y := CivilFromDays(n).year;
    DateInYear(CivilFromDays(n));
    if y >= 300000 {
      YearsIncrease(1970, y);
    } else if y <= -300000 {
      YearsIncrease(y + 1, 1970);
    }
  }

  /** Splits the year field off an ISO date string: four digits, or a sign and six digits. */
  function ParseYear(s: string): Option<(int, string)> {
    if |s| >= 7 && (s[0] == '+' || s[0] == '-') && AllDigits(s[1..7]) then
      var v: int := DigitsValue(s[1..7]);
      if s[0] == '-' && v == 0 then None
      else
        var year: int := if s[0] == '-' then -v else v;
        Some((year, s[7..]))
    else if |s| >= 4 && AllDigits(s[..4]) then
      var year: int := DigitsValue(s[..4]);
      Some((year, s[4..]))
    else None
  }

  /** A two-digit field preceded by the separator sep. */
  function ParseField(sep: char, s: string): Option<(int, string)> {
    if |s| >= 3 && s[0] == sep && AllDigits(s[1..3]) then
      var v: int := DigitsValue(s[1..3]);
      Some((v, s[3..]))
    else None
  }

  /** What may follow the date: nothing, or a local time of day "THH:MM". */
  predicate ValidTimeSuffix(s: string) {
    s == [] ||
    (|s| == 6 && s[0] == 'T' && s[3] == ':' && AllDigits(s[1..3]) && AllDigits(s[4..6]) &&
     DigitsValue(s[1..3]) <= 23 && DigitsValue(s[4..6]) <= 59)
  }

  /** new Date(s) reduced to its calendar day; None is an Invalid Date. */
  function ParseIsoDate(s: string): (r: Option<int>)
    ensures r.Some? ==> InDateRange(r.value)
  {
    match ParseYear(s)
    case None => None
    case Some((y, afterYear)) =>
      match ParseField('-', afterYear)
      case None => None
      case Some((m, afterMonth)) =>
        match ParseField('-', afterMonth)
        case None => None
        case Some((d, rest)) =>
          if 1 <= m <= 12 && 1 <= d <= DaysInMonth(y, m) && ValidTimeSuffix(rest)
             && InDateRange(DaysFromCivil(y, m, d))
          then Some(DaysFromCivil(y, m, d))
          else None
  }

  lemma ParseYearText(y: int, tail: string)
    requires -1000000 < y < 1000000
    requires |tail| >= 1 && tail[0] == '-'
    ensures ParseYear(YearText(y) + tail) == Some((y, tail))
  {
    var s := YearText(y) + tail;
    if 0 <= y <= 9999 {
      assert Pow10(4) == 10000;
      PadDigitsExact(y, 4);
      assert s[..4] == PadDigits(y, 4);
      assert s[4..] == tail;
    } else {
      var a := if y < 0 then -y else y;
      assert Pow10(6) == 1000000;
      PadDigitsExact(a, 6);
      assert s[1..7] == PadDigits(a, 6);
      assert s[7..] == tail;
    }
  }

  lemma ParseTwoDigits(v: int, rest: string)
    requires 0 <= v < 100
    ensures ParseField('-', "-" + PadDigits(v, 2) + rest) == Some((v, rest))
  {
    var s := "-" + PadDigits(v, 2) + rest;
    assert Pow10(2) == 100;
    PadDigitsExact(v, 2);
    assert s[1..3] == PadDigits(v, 2);
    assert s[3..] == rest;
  }

  /** The parser reads back exactly the day the formatter wrote, and the
      same holds with a time of day appended, as in the hourly series. */
  lemma IsoDateRoundTrip(n: int, suffix: string)
    requires InDateRange(n)
    requires ValidTimeSuffix(suffix)
    ensures ParseIsoDate(FormatIsoDate(n) + suffix) == Some(n)
  {
    YearBounds(n);
    var c := CivilFromDays(n);
    var dayPart := "-" + PadDigits(c.day, 2) + suffix;
    var tail := "-" + PadDigits(c.month, 2) + dayPart;
    assert FormatIsoDate(n) + suffix == YearText(c.year) + tail;
    ParseYearText(c.year, tail);
    ParseTwoDigits(c.month, dayPart);
    ParseTwoDigits(c.day, suffix);
  }

  lemma IsoDateParsesBack(n: int)
    requires InDateRange(n)
    ensures ParseIsoDate(FormatIsoDate(n)) == Some(n)
  {
    IsoDateRoundTrip(n, []);
    assert FormatIsoDate(n) + [] == FormatIsoDate(n);
  }

  /** Number.prototype.toFixed(1) rounds |x| * 10 to the nearest integer, halves up. */
  function Tenths(x: real): nat {
    var a := if x < 0.0 then -x else x;
    (a * 10.0 + 0.5).Floor
  }

  /** The number toFixed(1) writes, as a value. */
  function Round1(x: real): (r: real)
    ensures -0.05 <= (if x < 0.0 then -x else x) - (if r < 0.0 then -r else r) < 0.05
  {
    if x < 0.0 then -(Tenths(x) as real / 10.0) else Tenths(x) as real / 10.0
  }

  /** x.toFixed(1): optional minus sign, integer part, point, one digit. */
  function ToFixed1(x: real): (s: string)
    ensures |s| >= 3
    ensures s[|s| - 2] == '.' && IsDigit(s[|s| - 1])
  {
    var t := Tenths(x);
    (if x < 0.0 then "-" else "") + NatToString(t / 10) + "." + [DigitChar(t % 10)]
  }

  /** The text of x.toFixed(1) starts with a minus sign exactly for a negative x,
      and everything between that sign and the point is a digit. */
  lemma ToFixed1Sign(x: real)
    ensures var s := ToFixed1(x);
      && (s[0] == '-' <==> x < 0.0)
      && AllDigits(if x < 0.0 then s[1..|s| - 2] else s[..|s| - 2])
  {
  }

  /** The longest run of digits at the front of s. */
  function LeadingDigits(s: string): (d: string)
    ensures d <= s && AllDigits(d)
    ensures |d| < |s| ==> !IsDigit(s[|d|])
  {
    if s == [] || !IsDigit(s[0]) then [] else [s[0]] + LeadingDigits(s[1..])
  }

  /** The value of the digits after a decimal point: 0.d1d2... */
  function FractionValue(f: string): (v: real)
    requires AllDigits(f)
    ensures 0.0 <= v
  {
    if f == [] then 0.0 else ((f[0] as int - '0' as int) as real + FractionValue(f[1..])) / 10.0
  }

  /** Digits with an optional point and more digits, read as a prefix of s. */
  function ParseUnsigned(s: string): (r: Option<real>)
    ensures r.Some? ==> r.value >= 0.0
  {
    var whole := LeadingDigits(s);
    var after := s[|whole|..];
    var fraction := if |after| >= 1 && after[0] == '.' then LeadingDigits(after[1..]) else [];
    if whole == [] && fraction == [] then None
    else Some(DigitsValue(whole) as real + FractionValue(fraction))
  }

  /** parseFloat on text made of an optional sign, digits, and an optional
      point with digits, read as a prefix; None is NaN. */
  function ParseFloat(s: string): (r: Option<real>)
    ensures r.Some? ==> |s| >= 1
  {
    if |s| >= 1 && s[0] == '-' then
      match ParseUnsigned(s[1..])
      case None => None
      case Some(v) => Some(-v)
    else if |s| >= 1 && s[0] == '+' then ParseUnsigned(s[1..])
    else ParseUnsigned(s)
  }

  lemma LeadingDigitsOf(d: string, rest: string)
    requires AllDigits(d)
    requires rest == [] || !IsDigit(rest[0])
    ensures LeadingDigits(d + rest) == d
  {
    if d != [] {
      assert (d + rest)[1..] == d[1..] + rest;
      LeadingDigitsOf(d[1..], rest);
    }
  }

  /** An unsigned toFixed(1) text reads back as t tenths. */
  lemma ParseUnsignedFixed(t: nat)
    ensures ParseUnsigned(NatToString(t / 10) + "." + [DigitChar(t % 10)]) == Some(t as real / 10.0)
  {
    var whole := NatToString(t / 10);
    var digit := [DigitChar(t % 10)];
    var body := whole + "." + digit;
    assert body[0] == whole[0];
    LeadingDigitsOf(whole, "." + digit);
    assert body == whole + ("." + digit);
    assert body[|whole|..] == "." + digit;
    LeadingDigitsOf(digit, []);
    assert ("." + digit)[1..] == digit + [];
    assert digit[..0] == [];
    assert FractionValue(digit) == (t % 10) as real / 10.0;
    assert t == 10 * (t / 10) + t % 10;
  }

  lemma ToFixed1Unsigned(x: real)
    requires x >= 0.0
    ensures ParseFloat(ToFixed1(x)) == Some(Tenths(x) as real / 10.0)
  {
    var t := Tenths(x);
    var body := NatToString(t / 10) + "." + [DigitChar(t % 10)];
    ParseUnsignedFixed(t);
    assert ToFixed1(x) == body;
    assert IsDigit(body[0]);
  }

  lemma ToFixed1Negative(x: real)
    requires x < 0.0
    ensures ParseFloat(ToFixed1(x)) == Some(-(Tenths(x) as real / 10.0))
  {
    var t := Tenths(x);
    var body := NatToString(t / 10) + "." + [DigitChar(t % 10)];
    ParseUnsignedFixed(t);
    assert ToFixed1(x) == "-" + body;
    assert ("-" + body)[1..] == body;
  }

  /** Reading back what toFixed(1) wrote gives the rounded value. */
  lemma ToFixed1RoundTrip(x: real)
    ensures ParseFloat(ToFixed1(x)) == Some(Round1(x))
  {
    if x < 0.0 {
      ToFixed1Negative(x);
    } else {
      ToFixed1Unsigned(x);
    }
  }
}
