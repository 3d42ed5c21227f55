/** JavaScript's conversions between numbers and strings: `parseFloat` and
    `String(x)`. Numbers are exact reals here, so the rounding of binary
    floating point is not part of the model; `String(x)` writes fixed
    notation for 1e-6 <= |x| < 1e21 (fraction cut after 20 digits) and
    exponent notation outside that range, as JavaScript does. */
module JsNumber {
  import opened Wrappers
  import opened JsText

  function Pow10(k: nat): (r: nat)
    ensures r >= 1
  {
    if k == 0 then 1 else 10 * Pow10(k - 1)
  }

  function Abs(v: real): real {
    if v < 0.0 then -v else v
  }

  /** Digits kept after the decimal point when a number is written out. */
  const FractionDigits: nat := 20

  /** 10^FractionDigits. */
  const FractionScale: nat := 100000000000000000000

  lemma FractionScaleIsPow10()
    ensures Pow10(FractionDigits) == FractionScale
  {
    assert Pow10(5) == 100000;
    Pow10Add(5, 5);
    Pow10Add(10, 10);
  }

  /** 10^6 and 10^21, the bounds of fixed notation. */
  const Million: real := 1000000.0
  const ExponentLimit: real := 1000000000000000000000.0

  /** The value of the decimal numeral `intDigits.fracDigits`. */
  function DecimalValue(intDigits: string, fracDigits: string): real
    requires AllDigits(intDigits) && AllDigits(fracDigits)
  {
    DigitsValue(intDigits) as real + DigitsValue(fracDigits) as real / Pow10(|fracDigits|) as real
  }

  // --------------------------------------------------------- parseFloat

  /** The exponent of an `e` suffix (`e5`, `E-3`, `e+2`) at the start of
      `s`, or 0 when `s` does not start with a complete one. */
  function ExponentOf(s: string): int {
    if s != [] && (s[0] == 'e' || s[0] == 'E') then
      var u := UnsignedPart(s[1..]);
      var ds := DigitPrefix(u);
      if ds == [] then 0
      else if s[1] == '-' then -(DigitsValue(ds) as int)
      else DigitsValue(ds)
    else 0
  }

  /** Multiplying by ten to the power `e`. */
  function Scale(e: int): real {
    if e >= 0 then Pow10(e) as real else 1.0 / Pow10(-e) as real
  }

  /** JavaScript's `parseFloat(s)`: leading white space is skipped, then
      the longest prefix that reads as a signed decimal numeral with an
      optional exponent is converted; a string without such a prefix is
      `NaN`, here `None`. */
  function ParseFloat(s: string): (r: Option<real>)
    ensures r.None? <==> NumeralInt(UnsignedPart(TrimStart(s))) == [] && NumeralFrac(UnsignedPart(TrimStart(s))) == []
  {
    var t := TrimStart(s);
    var u := UnsignedPart(t);
    match UnsignedValue(u)
    case None => None
    case Some(m) =>
      UnsignedValueNonEmpty(u);
      Some(if t[0] == '-' then -m else m)
  }

  /** Only a non-empty string holds a numeral. */
  lemma UnsignedValueNonEmpty(u: string)
    requires UnsignedValue(u).Some?
    ensures u != []
  {
    assert UnsignedValue([]).None?;
  }

  /** The value of the numeral at the start of `u`, which has no sign. */
  function UnsignedValue(u: string): (r: Option<real>)
    ensures r.None? <==> NumeralInt(u) == [] && NumeralFrac(u) == []
  {
    var i := NumeralInt(u);
    var f := NumeralFrac(u);
    if i == [] && f == [] then None
    else Some(DecimalValue(i, f) * Scale(ExponentOf(NumeralTail(u))))
  }

  /** The integer digits of the numeral at the start of `u`. */
  function NumeralInt(u: string): (r: string)
    ensures AllDigits(r)
  {
    DigitPrefix(u)
  }

  /** What follows the integer digits. */
  function AfterInt(u: string): string {
    u[|DigitPrefix(u)|..]
  }

  /** The fraction digits of the numeral at the start of `u`. */
  function NumeralFrac(u: string): (r: string)
    ensures AllDigits(r)
  {
    var rest := AfterInt(u);
    if rest != [] && rest[0] == '.' then DigitPrefix(rest[1..]) else []
  }

  /** What follows the digits (and the point, if any). */
  function NumeralTail(u: string): string {
    var rest := AfterInt(u);
    if rest != [] && rest[0] == '.' then rest[1 + |NumeralFrac(u)|..] else rest
  }

  /** A digit string followed by something that is not a digit. */
  lemma {:induction false} DigitPrefixAppend(ds: string, rest: string)
    requires AllDigits(ds)
    requires rest == [] || !IsDigit(rest[0])
    ensures DigitPrefix(ds + rest) == ds
  {
    if ds != [] {
      DigitPrefixAppend(ds[1..], rest);
      assert (ds + rest)[1..] == ds[1..] + rest;
    }
  }

  /** A plain numeral `i.f` (or `i` alone), followed by nothing, reads as
      its decimal value. */
  lemma UnsignedValueNumeral(i: string, f: string)
    requires AllDigits(i) && AllDigits(f) && i != []
    ensures UnsignedValue(i + (if f == [] then [] else ['.'] + f)) == Some(DecimalValue(i, f))
  {
    var u := i + (if f == [] then [] else ['.'] + f);
    DigitPrefixAppend(i, if f == [] then [] else ['.'] + f);
    assert AfterInt(u) == (if f == [] then [] else ['.'] + f);
    if f != [] {
      assert AfterInt(u)[1..] == f + [];
      DigitPrefixAppend(f, []);
      assert f + [] == f;
    }
    assert NumeralTail(u) == [];
    UnsignedValueOfParts(u);
  }

  /** A numeral with nothing after its digits is read without scaling. */
  lemma UnsignedValueOfParts(u: string)
    requires NumeralInt(u) != [] && NumeralTail(u) == []
    ensures UnsignedValue(u) == Some(DecimalValue(NumeralInt(u), NumeralFrac(u)))
  {
    assert ExponentOf(NumeralTail(u)) == 0;
    assert Scale(0) == 1.0;
  }

  /** `parseFloat` reads a numeral that starts with a digit by its
      unsigned value... */
  lemma ParseFloatUnsigned(u: string, x: real)
    requires u != [] && IsDigit(u[0]) && UnsignedValue(u) == Some(x)
    ensures ParseFloat(u) == Some(x)
  {
    TrimStartIdle(u);
    assert UnsignedPart(u) == u;
    ParseFloatTrimmed(u);
  }

  /** ... and a minus sign in front of it negates the value. */
  lemma ParseFloatNegated(u: string, x: real)
    requires u != [] && IsDigit(u[0]) && UnsignedValue(u) == Some(x)
    ensures ParseFloat("-" + u) == Some(-x)
  {
    var t := "-" + u;
    assert t[1..] == u;
    ParseFloatMinus(t, x);
  }

  /** A string that starts with a minus sign reads as the negated value
      of what follows it. */
  lemma ParseFloatMinus(t: string, x: real)
    requires t != [] && t[0] == '-' && UnsignedValue(t[1..]) == Some(x)
    ensures ParseFloat(t) == Some(-x)
  {
    TrimStartIdle(t);
    assert UnsignedPart(t) == t[1..];
  }

  /** `parseFloat` of a string that starts with no white space. */
  lemma ParseFloatTrimmed(t: string)
    requires t != [] && !IsSpace(t[0])
    ensures ParseFloat(t) == (match UnsignedValue(UnsignedPart(t))
      case None => None
      case Some(m) => Some(if t[0] == '-' then -m else m))
  {
    TrimStartIdle(t);
  }

  // ------------------------------------------------------------ String(x)

  /** At most `FractionDigits` digits after the decimal point. */
  predicate IsDecimal(v: real) {
    var scaled := v * FractionScale as real;
    scaled.Floor as real == scaled
  }

  /** The magnitudes JavaScript writes without an exponent. */
  predicate InFixedRange(v: real) {
    v == 0.0 || (Million * Abs(v) >= 1.0 && Abs(v) < ExponentLimit)
  }

  /** JavaScript's `String(v)` for a finite number. */
  function NumberToString(v: real): (r: string)
    ensures r != []
  {
    if v == 0.0 then "0"
    else if v < 0.0 then "-" + Magnitude(-v)
    else Magnitude(v)
  }

  function Magnitude(v: real): (r: string)
    requires v > 0.0
    ensures r != [] && IsDigit(r[0])
  {
    if v >= ExponentLimit then BigForm(v)
    else if Million * v < 1.0 then SmallForm(v)
    else FixedForm(v)
  }

  /** The integer digits of a non-negative number in fixed notation. */
  function FixedInt(v: real): (r: string)
    requires v >= 0.0
    ensures r != [] && AllDigits(r)
  {
    NatToDigits(v.Floor)
  }

  /** The fraction digits of a non-negative number in fixed notation:
      `FractionDigits` digits, trailing zeros dropped. */
  function FixedFrac(v: real): (r: string)
    requires v >= 0.0
    ensures AllDigits(r) && |r| <= FractionDigits
    ensures r == [] || r[|r| - 1] != '0'
  {
    var k := FractionNumerator(v);
    FractionScaleIsPow10();
    DigitsLength(k, FractionDigits);
    StripTrailingZeros(Padded(k, FractionDigits))
  }

  /** The first `FractionDigits` digits of the fraction of `v`, as a number. */
  function FractionNumerator(v: real): (k: nat)
    requires v >= 0.0
    ensures k < FractionScale
  {
    var f := v - v.Floor as real;
    ScaledBelow(f, FractionScale);
    (f * FractionScale as real).Floor
  }

  lemma ScaledBelow(f: real, s: nat)
    requires 0.0 <= f < 1.0 && s >= 1
    ensures 0.0 <= f * s as real < s as real
  {
    assert (1.0 - f) * s as real > 0.0;
  }

  /** Fixed notation: the integer digits, then a point and the fraction
      digits when there are any. */
  function FixedForm(v: real): (r: string)
    requires v >= 0.0
    ensures r != [] && IsDigit(r[0])
  {
    FixedInt(v) + (if FixedFrac(v) == [] then [] else ['.'] + FixedFrac(v))
  }

  /** Exponent notation for 1e21 and above: `d.ddde+n`. */
  function BigForm(v: real): (r: string)
    requires v >= 1.0
    ensures r != [] && IsDigit(r[0]) && 'e' in r
  {
    var ds := NatToDigits(v.Floor);
    var rest := StripTrailingZeros(ds[1..]);
    [ds[0]] + (if rest == [] then [] else ['.'] + rest) + "e+" + NatToDigits(|ds| - 1)
  }

  /** The exponent of JavaScript's smallest positive number (about
      5e-324): no number needs a larger one in exponent notation. */
  const MinExponent: nat := 324

  /** Exponent notation below 1e-6: `d.ddde-n`. */
  function SmallForm(v: real): (r: string)
    requires 0.0 < v < 1.0
    ensures r != [] && IsDigit(r[0]) && 'e' in r
  {
    ScaledForm(v * 10.0, 1, MinExponent)
  }

  /** With `w` the number times 10^k: once `w` is at least 1 (or no step
      is left), `w` in fixed notation followed by `e-k`; otherwise one
      power of ten further. */
  function ScaledForm(w: real, k: nat, fuel: nat): (r: string)
    requires w > 0.0
    ensures r != [] && IsDigit(r[0]) && 'e' in r
    decreases fuel
  {
    if fuel == 0 || w >= 1.0 then FixedForm(w) + "e-" + NatToDigits(k)
    else ScaledForm(w * 10.0, k + 1, fuel - 1)
  }

  /** `k` written with exactly `w` digits, padded with leading zeros. */
  function Padded(k: nat, w: nat): (r: string)
    requires |NatToDigits(k)| <= w
    ensures |r| == w && AllDigits(r)
  {
    Zeros(w - |NatToDigits(k)|) + NatToDigits(k)
  }

  /** `s` without its trailing zeros. */
  function StripTrailingZeros(s: string): (r: string)
    ensures |r| <= |s| && r == s[..|r|]
    ensures r == [] || r[|r| - 1] != '0'
    ensures forall i :: |r| <= i < |s| ==> s[i] == '0'
  {
    if s != [] && s[|s| - 1] == '0' then StripTrailingZeros(s[..|s| - 1]) else s
  }

  // ------------------------------------------------------------ lemmas

  /** A number below 10^w has at most w digits. */
  lemma {:induction false} DigitsLength(k: nat, w: nat)
    requires k < Pow10(w)
    ensures w >= 1 ==> |NatToDigits(k)| <= w
  {
    if k >= 10 {
      DigitsLength(k / 10, w - 1);
    }
  }

  lemma {:induction false} Pow10Add(a: nat, b: nat)
    ensures Pow10(a + b) == Pow10(a) * Pow10(b)
  {
    if a > 0 {
      Pow10Add(a - 1, b);
    }
  }

  /** Trailing zeros scale a digit string by a power of ten. */
  lemma {:induction false} StripTrailingZerosValue(s: string)
    requires AllDigits(s)
    ensures AllDigits(StripTrailingZeros(s))
    ensures DigitsValue(s) == DigitsValue(StripTrailingZeros(s)) * Pow10(|s| - |StripTrailingZeros(s)|)
  {
    var r := StripTrailingZeros(s);
    if s != [] && s[|s| - 1] == '0' {
      var s' := s[..|s| - 1];
      assert r == StripTrailingZeros(s');
      StripTrailingZerosValue(s');
      var a, p := DigitsValue(r), Pow10(|s'| - |r|);
      assert DigitsValue(s) == DigitsValue(s') * 10;
      assert Pow10(|s| - |r|) == p * 10;
      MulAssoc(a, p, 10);
    } else {
      assert Pow10(|s| - |r|) == 1;
    }
  }

  lemma MulAssoc(a: nat, b: nat, c: nat)
    ensures (a * b) * c == a * (b * c)
  {
  }

  lemma CancelCommonFactor(d: nat, p: nat, q: nat)
    requires p >= 1 && q >= 1
    ensures (d * q) as real / (p * q) as real == d as real / p as real
  {
    assert (d * q) as real == d as real * q as real;
    assert (p * q) as real == p as real * q as real;
  }

  /** The fraction digits of fixed notation, followed by the zeros that
      were dropped, are the first `FractionDigits` digits of the fraction. */
  lemma {:induction false} FixedFracDigits(v: real)
    requires v >= 0.0
    ensures FractionNumerator(v) == DigitsValue(FixedFrac(v)) * Pow10(FractionDigits - |FixedFrac(v)|)
  {
    var k := FractionNumerator(v);
    FractionScaleIsPow10();
    DigitsLength(k, FractionDigits);
    var padded := Padded(k, FractionDigits);
    assert FixedFrac(v) == StripTrailingZeros(padded);
    PaddedValue(k, FractionDigits);
    StripTrailingZerosValue(padded);
  }

  /** Padding with leading zeros keeps the value. */
  lemma PaddedValue(k: nat, w: nat)
    requires |NatToDigits(k)| <= w
    ensures AllDigits(Padded(k, w)) && DigitsValue(Padded(k, w)) == k
  {
    NatToDigitsValue(k);
    LeadingZerosValue(w - |NatToDigits(k)|, NatToDigits(k));
  }

  /** The fraction digits of fixed notation denote the fraction cut after
      `FractionDigits` digits. */
  lemma FixedFracValue(v: real)
    requires v >= 0.0
    ensures DigitsValue(FixedFrac(v)) as real / Pow10(|FixedFrac(v)|) as real
            == FractionNumerator(v) as real / FractionScale as real
  {
    var r := FixedFrac(v);
    var q := Pow10(FractionDigits - |r|);
    FixedFracDigits(v);
    FractionScaleIsPow10();
    Pow10Add(|r|, FractionDigits - |r|);
    CancelCommonFactor(DigitsValue(r), Pow10(|r|), q);
  }

  /** Cutting after `FractionDigits` digits loses nothing when there are no more. */
  lemma FractionNumeratorExact(v: real)
    requires v >= 0.0 && IsDecimal(v)
    ensures FractionNumerator(v) as real / FractionScale as real == v - v.Floor as real
  {
    var f := v - v.Floor as real;
    ExactFraction(v, FractionScale);
    assert FractionNumerator(v) as real == f * FractionScale as real;
  }

  /** When `v * s` is whole, so is the fraction of `v` times `s`. */
  lemma ExactFraction(v: real, s: nat)
    requires v >= 0.0 && s >= 1 && (v * s as real).Floor as real == v * s as real
    ensures ((v - v.Floor as real) * s as real).Floor as real == (v - v.Floor as real) * s as real
  {
    var fl := v.Floor;
    var x := (v - fl as real) * s as real;
    assert x == (v - v.Floor as real) * s as real;
    WholeFloor(x, (v * s as real).Floor - fl * s);
  }

  lemma WholeFloor(x: real, m: int)
    requires x == m as real
    ensures x.Floor as real == x
  {
  }

  /** The digits of fixed notation denote the number, provided it has no
      more fraction digits than are written. */
  lemma FixedValue(v: real)
    requires v >= 0.0 && IsDecimal(v)
    ensures DecimalValue(FixedInt(v), FixedFrac(v)) == v
  {
    NatToDigitsValue(v.Floor);
    FixedFracValue(v);
    FractionNumeratorExact(v);
  }

  /** Fixed notation uses digits and at most one point. */
  lemma FixedFormAlphabet(v: real)
    requires v >= 0.0
    ensures forall i :: 0 <= i < |FixedForm(v)| ==> IsDigit(FixedForm(v)[i]) || FixedForm(v)[i] == '.'
  {
  }

  /** `String(v)` uses only digits, `.` and `-` exactly for the numbers it
      writes in fixed notation; every other number gets an `e`. */
  lemma NumberToStringAlphabet(v: real)
    ensures InFixedRange(v) ==> forall i :: 0 <= i < |NumberToString(v)| ==>
      IsDigit(NumberToString(v)[i]) || NumberToString(v)[i] in ".-"
    ensures !InFixedRange(v) ==> 'e' in NumberToString(v)
  {
    if v != 0.0 {
      var m := Abs(v);
      var body := Magnitude(m);
      assert NumberToString(v) == (if v < 0.0 then "-" + body else body);
      if InFixedRange(v) {
        assert body == FixedForm(m);
        FixedFormAlphabet(m);
      } else {
        assert 'e' in body;
      }
    }
  }

  /** Fixed notation reads back as the number it writes. */
  lemma UnsignedValueOfFixedForm(m: real)
    requires m >= 0.0 && IsDecimal(m)
    ensures UnsignedValue(FixedForm(m)) == Some(m)
  {
    FixedValue(m);
    UnsignedValueNumeral(FixedInt(m), FixedFrac(m));
  }

  lemma DecimalNegate(v: real)
    requires IsDecimal(v)
    ensures IsDecimal(-v)
  {
    var x := v * FractionScale as real;
    assert -v * FractionScale as real == -x;
    WholeFloor(-x, -(x.Floor));
  }

  /** `parseFloat` reads back what `String` writes, for every number shown
      in fixed notation with at most `FractionDigits` fraction digits. */
  lemma ParseFloatOfNumberToString(v: real)
    requires InFixedRange(v) && IsDecimal(v)
    ensures ParseFloat(NumberToString(v)) == Some(v)
  {
    if v == 0.0 {
      ParseFloatOfZero();
    } else if v < 0.0 {
      var m := -v;
      DecimalNegate(v);
      assert Abs(m) == Abs(v);
      assert Magnitude(m) == FixedForm(m);
      assert NumberToString(v) == "-" + FixedForm(m);
      ParseFloatOfFixed(m, "-");
    } else {
      assert Magnitude(v) == FixedForm(v);
      assert NumberToString(v) == "" + FixedForm(v);
      ParseFloatOfFixed(v, "");
    }
  }

  /** A whole number below 1e21 is written as its decimal digits, without
      a point. */
  lemma StringOfWhole(n: nat)
    requires n > 0 && (n as real) < ExponentLimit
    ensures NumberToString(n as real) == NatToDigits(n)
  {
    var v := n as real;
    assert v.Floor == n;
    assert FractionNumerator(v) == 0;
    FractionScaleIsPow10();
    var p := Padded(0, FractionDigits);
    assert p == Zeros(FractionDigits - 1) + "0";
    assert forall i :: 0 <= i < |p| ==> p[i] == '0';
    assert FixedFrac(v) == [];
  }

  lemma ParseFloatOfZero()
    ensures ParseFloat(NumberToString(0.0)) == Some(0.0)
  {
    UnsignedValueNumeral("0", []);
    assert DecimalValue("0", []) == 0.0;
    ParseFloatUnsigned("0", 0.0);
  }

  lemma ParseFloatOfFixed(m: real, sign: string)
    requires m > 0.0 && InFixedRange(m) && IsDecimal(m) && (sign == "" || sign == "-")
    ensures ParseFloat(sign + FixedForm(m)) == Some(if sign == "" then m else -m)
  {
    UnsignedValueOfFixedForm(m);
    if sign == "" {
      ParseFloatUnsigned(FixedForm(m), m);
      assert sign + FixedForm(m) == FixedForm(m);
    } else {
      ParseFloatNegated(FixedForm(m), m);
    }
  }
}
