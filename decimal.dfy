/**
 * Decimal amounts as `java.math.BigDecimal` represents them: an unscaled
 * integer and a scale, the value being `unscaled * 10^-scale`.
 *
 * `ParseDecimal` is the `BigDecimal(String)` constructor (ASCII digits,
 * optional sign, optional fraction, optional exponent), `Render` is
 * `BigDecimal.toString()`, and `Round4` is the rounding a `decimal(19, 4)`
 * column applies when a value is stored.
 */
module Decimal {
  import opened Wrappers
  import opened Text

  datatype Dec = Dec(unscaled: int, scale: int)

  function Pow10(n: nat): (r: nat)
    ensures r >= 1
  {
    if n == 0 then 1 else 10 * Pow10(n - 1)
  }

  /** The exact number a decimal denotes. */
  function Value(d: Dec): real {
    if d.scale >= 0 then d.unscaled as real / Pow10(d.scale) as real
    else (d.unscaled * Pow10(-d.scale)) as real
  }

  /** `BigDecimal.negate()`: same scale, opposite sign. */
  function Neg(d: Dec): Dec {
    Dec(-d.unscaled, d.scale)
  }

  lemma NegRound4(d: Dec)
    ensures Round4(Neg(d)) == -Round4(d)
  {
    var m := if d.unscaled < 0 then -d.unscaled else d.unscaled;
    var r := if d.scale <= 4 then m * Pow10(4 - d.scale) else RoundedQuotient(m, Pow10(d.scale - 4));
    assert Round4(d) == if d.unscaled < 0 then -r else r;
    assert Round4(Neg(d)) == if d.unscaled > 0 then -r else r;
  }

  /** Negation flips the sign of both the exact and the stored value. */
  lemma NegValue(d: Dec)
    ensures Value(Neg(d)) == -Value(d)
  {
    if d.scale >= 0 {
      var p := Pow10(d.scale) as real;
      assert (-d.unscaled) as real / p == -(d.unscaled as real / p);
    } else {
      assert -d.unscaled * Pow10(-d.scale) == -(d.unscaled * Pow10(-d.scale));
    }
  }

  // ---------------------------------------------------------------- digits

  /** The number a string of decimal digits spells, most significant first. */
  function DigitsValue(s: string): int {
    if s == [] then 0 else DigitsValue(s[..|s| - 1]) * 10 + DigitValue(s[|s| - 1])
  }

  /** The shortest digit string of `n` ("0" for zero). */
  function NatDigits(n: nat): (s: string)
    ensures |s| >= 1 && AllDigits(s)
    ensures DigitsValue(s) == n
  {
    if n < 10 then [DigitChar(n)]
    else
      var s := NatDigits(n / 10) + [DigitChar(n % 10)];
      assert s[..|s| - 1] == NatDigits(n / 10);
      s
  }

  function Zeros(k: nat): (s: string)
    ensures |s| == k && AllDigits(s) && DigitsValue(s) == 0
  {
    if k == 0 then [] else
      var s := Zeros(k - 1) + ['0'];
      assert s[..|s| - 1] == Zeros(k - 1);
      s
  }

  lemma AllDigitsAppend(a: string, b: string)
    requires AllDigits(a) && AllDigits(b)
    ensures AllDigits(a + b)
  {
    assert forall i :: 0 <= i < |a + b| ==> (a + b)[i] == if i < |a| then a[i] else b[i - |a|];
  }

  lemma {:induction false} DigitsValueAppend(a: string, b: string)
    ensures DigitsValue(a + b) == DigitsValue(a) * Pow10(|b|) + DigitsValue(b)
    decreases |b|
  {
    if b == [] {
      assert a + b == a;
    } else {
      var b' := b[..|b| - 1];
      var c := b[|b| - 1];
      assert (a + b)[..|a + b| - 1] == a + b';
      assert (a + b)[|a + b| - 1] == c;
      DigitsValueAppend(a, b');
      var x := DigitsValue(a);
      var y := DigitsValue(b');
      var p := Pow10(|b'|);
      calc {
        DigitsValue(a + b);
        DigitsValue(a + b') * 10 + DigitValue(c);
        (x * p + y) * 10 + DigitValue(c);
        { assert (x * p + y) * 10 == x * (p * 10) + y * 10; }
        x * (p * 10) + (y * 10 + DigitValue(c));
      }
    }
  }

  /** Index of the first '.' in `s`. */
  function IndexOfDot(s: string): (r: Option<nat>)
    ensures r.Some? ==> r.value < |s| && s[r.value] == '.'
    ensures r.Some? ==> forall j :: 0 <= j < r.value ==> s[j] != '.'
    ensures r.None? ==> forall j :: 0 <= j < |s| ==> s[j] != '.'
  {
    if s == [] then None
    else if s[0] == '.' then Some(0)
    else match IndexOfDot(s[1..])
      case None => None
      case Some(k) => Some(k + 1)
  }

  predicate IsExponentMark(c: char) { c == 'e' || c == 'E' }

  /** Index of the first exponent mark ('e' or 'E') in `s`. */
  function IndexOfExponent(s: string): (r: Option<nat>)
    ensures r.Some? ==> r.value < |s| && IsExponentMark(s[r.value])
    ensures r.Some? ==> forall j :: 0 <= j < r.value ==> !IsExponentMark(s[j])
    ensures r.None? ==> forall j :: 0 <= j < |s| ==> !IsExponentMark(s[j])
  {
    if s == [] then None
    else if IsExponentMark(s[0]) then Some(0)
    else match IndexOfExponent(s[1..])
      case None => None
      case Some(k) => Some(k + 1)
  }

  // ----------------------------------------------------------------- parse

  /** Significand: digits, optionally split by one '.', at least one digit. Yields (digits value, fraction length). */
  function ParseSignificand(m: string): Option<(int, nat)> {
    match IndexOfDot(m)
    case None =>
      if |m| >= 1 && AllDigits(m) then Some((DigitsValue(m), 0)) else None
    case Some(k) =>
      var a := m[..k];
      var b := m[k + 1..];
      if |a| + |b| >= 1 && AllDigits(a) && AllDigits(b)
      then Some((DigitsValue(a + b), |b|))
      else None
  }

  /** Exponent: an optional sign and at least one digit. */
  function ParseExponent(e: string): Option<int> {
    if |e| > 0 && (e[0] == '+' || e[0] == '-') then
      var ds := e[1..];
      if |ds| >= 1 && AllDigits(ds) then
        Some(if e[0] == '-' then -DigitsValue(ds) else DigitsValue(ds))
      else None
    else if |e| >= 1 && AllDigits(e) then Some(DigitsValue(e))
    else None
  }

  /** Unsigned body of a decimal: significand with an optional exponent part. Yields (magnitude, scale). */
  function ParseBody(body: string): Option<(int, int)> {
    var (m, e) := match IndexOfExponent(body)
      case None => (body, Some(0))
      case Some(k) => (body[..k], ParseExponent(body[k + 1..]));
    match (ParseSignificand(m), e)
    case (Some((v, f)), Some(x)) => Some((v, f - x))
    case _ => None
  }

  /** A `BigDecimal` scale is a Java `int`. */
  predicate IntScale(sc: int) {
    -0x8000_0000 <= sc <= 0x7fff_ffff
  }

  /** The text after an optional leading sign. */
  function Unsigned(s: string): (body: string)
    ensures |body| <= |s|
  {
    if |s| > 0 && (s[0] == '-' || s[0] == '+') then s[1..] else s
  }

  /** Digits with at most one '.' among them, and at least one digit. */
  predicate Significand(m: string) {
    (forall i :: 0 <= i < |m| ==> IsAsciiDigit(m[i]) || m[i] == '.')
    && (forall i, j :: 0 <= i < j < |m| && m[i] == '.' ==> m[j] != '.')
    && (exists i :: 0 <= i < |m| && IsAsciiDigit(m[i]))
  }

  /** An optional sign and at least one digit. */
  predicate ExponentNumeral(e: string) {
    |Unsigned(e)| >= 1 && AllDigits(Unsigned(e))
  }

  /**
   * The syntax `BigDecimal(String)` reads: an optional sign, a significand,
   * then optionally an exponent mark followed by an exponent.
   */
  predicate Numeral(s: string) {
    var body := Unsigned(s);
    match IndexOfExponent(body)
    case None => Significand(body)
    case Some(k) => Significand(body[..k]) && ExponentNumeral(body[k + 1..])
  }

  /**
   * `BigDecimal(String)`, `None` where the constructor throws
   * `NumberFormatException`: on text outside the syntax, and on a scale
   * (fraction digits minus exponent) outside the `int` range. The
   * constructor's separate refusal of an exponent of more than ten
   * significant digits is implied by the scale check for every string a
   * JVM can hold, whose fraction has fewer than 2^31 digits.
   */
  function ParseDecimal(s: string): (r: Option<Dec>)
    ensures r.Some? ==> Numeral(s) && IntScale(r.value.scale)
    ensures Numeral(s) ==> ParseBody(Unsigned(s)).Some? && (r.Some? <==> IntScale(ParseBody(Unsigned(s)).value.1))
  {
    NumeralSyntax(s);
    if |s| == 0 then None
    else
      var neg := s[0] == '-';
      match ParseBody(Unsigned(s))
      case None => None
      case Some((v, sc)) =>
        if IntScale(sc) then Some(Dec(if neg then -v else v, sc)) else None
  }

  /** The significand parser accepts exactly the significand syntax. */
  lemma SignificandSyntax(m: string)
    ensures ParseSignificand(m).Some? <==> Significand(m)
  {
    match IndexOfDot(m)
    case None =>
      if Significand(m) {
        assert AllDigits(m);
      }
      if |m| >= 1 && AllDigits(m) {
        assert IsAsciiDigit(m[0]);
      }
    case Some(k) =>
      var a := m[..k];
      var b := m[k + 1..];
      if Significand(m) {
        assert forall j :: 0 <= j < |a| ==> a[j] == m[j] && m[j] != '.';
        assert forall j :: 0 <= j < |b| ==> b[j] == m[k + 1 + j] && m[k + 1 + j] != '.';
        var i :| 0 <= i < |m| && IsAsciiDigit(m[i]);
        assert i != k;
      }
      if |a| + |b| >= 1 && AllDigits(a) && AllDigits(b) {
        assert forall j :: 0 <= j < k ==> m[j] == a[j];
        assert forall j :: k < j < |m| ==> m[j] == b[j - k - 1];
        assert IsAsciiDigit(if |a| >= 1 then m[0] else m[k + 1]);
      }
  }

  /** The exponent parser accepts exactly the exponent syntax. */
  lemma ExponentSyntax(e: string)
    ensures ParseExponent(e).Some? <==> ExponentNumeral(e)
  {
  }

  /** The unchecked parse of the unsigned text succeeds exactly on the syntax. */
  lemma NumeralSyntax(s: string)
    ensures ParseBody(Unsigned(s)).Some? <==> Numeral(s)
  {
    var body := Unsigned(s);
    match IndexOfExponent(body)
    case None =>
      SignificandSyntax(body);
    case Some(k) =>
      SignificandSyntax(body[..k]);
      ExponentSyntax(body[k + 1..]);
  }

  /** An exponent that takes the scale out of the `int` range is refused, however well formed. */
  lemma ScaleOverflow(x: int)
    requires x > 0x8000_0000 || x < -0x7fff_ffff
    ensures Numeral("1E" + ExponentText(x))
    ensures ParseDecimal("1E" + ExponentText(x)) == None
  {
    assert ParseSignificand("1") == Some((1, 0)) by {
      ParseSignificandPlain("1");
    }
    assert ParseExponent(ExponentText(x)) == Some(x) by {
      ParseExponentText(x);
    }
    assert NoExponentMark("1");
    ParseBodyWithExponent("1", ExponentText(x), 1, 0, x);
    assert "1E" + ExponentText(x) == "1" + "E" + ExponentText(x);
    assert Unsigned("1E" + ExponentText(x)) == "1E" + ExponentText(x);
    NumeralSyntax("1E" + ExponentText(x));
  }

  // ---------------------------------------------------------------- render

  function ExponentText(n: int): string {
    if n > 0 then "+" + NatDigits(n)
    else if n < 0 then "-" + NatDigits(-n)
    else NatDigits(0)
  }

  /** Plain notation with `sc > 0` fraction digits. */
  function RenderFraction(coeff: string, sc: nat): string
    requires sc > 0
  {
    var padded := Padded(coeff, sc);
    padded[..|padded| - sc] + "." + padded[|padded| - sc..]
  }

  /** `coeff` with leading zeros so that at least one digit precedes the last `sc`. */
  function Padded(coeff: string, sc: nat): (p: string)
    ensures |p| > sc
  {
    if sc >= |coeff| then Zeros(sc + 1 - |coeff|) + coeff else coeff
  }

  /** Scientific notation: one digit, the others as a fraction, then the adjusted exponent. */
  function RenderScientific(coeff: string, adjusted: int): string
    requires |coeff| >= 1
  {
    if adjusted != 0 then Mantissa(coeff) + "E" + ExponentText(adjusted)
    else Mantissa(coeff)
  }

  /** The digits of `coeff` with a '.' after the first one (when there are more). */
  function Mantissa(coeff: string): string
    requires |coeff| >= 1
  {
    if |coeff| > 1 then [coeff[0]] + "." + coeff[1..] else coeff
  }

  /** `toString()` of a non-negative unscaled value `m` at scale `sc`. */
  function RenderAbs(m: nat, sc: int): (s: string)
    ensures |s| >= 1 && IsAsciiDigit(s[0])
  {
    var coeff := NatDigits(m);
    var adjusted := -sc + (|coeff| - 1);
    if sc == 0 then coeff
    else if sc > 0 && adjusted >= -6 then RenderFraction(coeff, sc)
    else RenderScientific(coeff, adjusted)
  }

  /** `BigDecimal.toString()`: plain notation, or scientific when the adjusted exponent is below -6 or the scale is negative. */
  function Render(d: Dec): string {
    var m := if d.unscaled < 0 then -d.unscaled else d.unscaled;
    (if d.unscaled < 0 then "-" else "") + RenderAbs(m, d.scale)
  }

  // ------------------------------------------------------------ round trip

  predicate NoDot(s: string) { forall i :: 0 <= i < |s| ==> s[i] != '.' }

  predicate NoExponentMark(s: string) { forall i :: 0 <= i < |s| ==> !IsExponentMark(s[i]) }

  lemma {:induction false} ParseExponentText(n: int)
    ensures ParseExponent(ExponentText(n)) == Some(n)
  {
    if n > 0 {
      assert ExponentText(n)[1..] == NatDigits(n);
    } else if n < 0 {
      assert ExponentText(n)[1..] == NatDigits(-n);
    }
  }

  lemma {:induction false} ParseSignificandPlain(a: string)
    requires |a| >= 1 && AllDigits(a)
    ensures ParseSignificand(a) == Some((DigitsValue(a), 0))
  {
    assert NoDot(a);
  }

  lemma {:induction false} ParseSignificandDotted(a: string, b: string)
    requires AllDigits(a) && AllDigits(b) && |a| + |b| >= 1
    ensures AllDigits(a + b)
    ensures NoExponentMark(a + "." + b)
    ensures ParseSignificand(a + "." + b) == Some((DigitsValue(a + b), |b|))
  {
    AllDigitsAppend(a, b);
    var m := a + "." + b;
    assert forall j :: 0 <= j < |m| ==> m[j] == '.' || IsAsciiDigit(m[j]);
    assert m[|a|] == '.';
    assert forall j :: 0 <= j < |a| ==> m[j] == a[j];
    assert IndexOfDot(m) == Some(|a|);
    assert m[..|a|] == a;
    assert m[|a| + 1..] == b;
  }

  lemma {:induction false} ParseBodyWithExponent(m: string, e: string, v: int, f: nat, x: int)
    requires NoExponentMark(m)
    requires ParseSignificand(m) == Some((v, f)) && ParseExponent(e) == Some(x)
    ensures ParseBody(m + "E" + e) == Some((v, f - x))
  {
    var body := m + "E" + e;
    assert body[|m|] == 'E';
    assert forall j :: 0 <= j < |m| ==> body[j] == m[j];
    assert IndexOfExponent(body) == Some(|m|);
    assert body[..|m|] == m;
    assert body[|m| + 1..] == e;
  }

  lemma {:induction false} ParseBodyWithoutExponent(m: string, v: int, f: nat)
    requires NoExponentMark(m)
    requires ParseSignificand(m) == Some((v, f))
    ensures ParseBody(m) == Some((v, f))
  {
    assert IndexOfExponent(m) == None;
  }

  lemma {:induction false} ParseDotted(padded: string, sc: nat)
    requires 0 < sc < |padded| && AllDigits(padded)
    ensures ParseBody(padded[..|padded| - sc] + "." + padded[|padded| - sc..]) == Some((DigitsValue(padded), sc))
  {
    var a := padded[..|padded| - sc];
    var b := padded[|padded| - sc..];
    assert a + b == padded;
    ParseSignificandDotted(a, b);
    ParseBodyWithoutExponent(a + "." + b, DigitsValue(padded), sc);
  }

  lemma {:induction false} PaddedDigits(coeff: string, sc: nat)
    requires AllDigits(coeff)
    ensures AllDigits(Padded(coeff, sc))
    ensures DigitsValue(Padded(coeff, sc)) == DigitsValue(coeff)
  {
    if sc >= |coeff| {
      var z := Zeros(sc + 1 - |coeff|);
      AllDigitsAppend(z, coeff);
      DigitsValueAppend(z, coeff);
    }
  }

  lemma {:induction false} ParseRenderFraction(coeff: string, sc: nat)
    requires sc > 0 && AllDigits(coeff)
    ensures ParseBody(RenderFraction(coeff, sc)) == Some((DigitsValue(coeff), sc))
  {
    PaddedDigits(coeff, sc);
    ParseDotted(Padded(coeff, sc), sc);
  }

  lemma {:induction false} ParseMantissa(coeff: string)
    requires |coeff| >= 1 && AllDigits(coeff)
    ensures NoExponentMark(Mantissa(coeff))
    ensures ParseSignificand(Mantissa(coeff)) == Some((DigitsValue(coeff), |coeff| - 1))
  {
    if |coeff| > 1 {
      var a := [coeff[0]];
      assert a + coeff[1..] == coeff;
      ParseSignificandDotted(a, coeff[1..]);
    } else {
      ParseSignificandPlain(coeff);
    }
  }

  lemma {:induction false} ParseRenderScientific(coeff: string, sc: int)
    requires |coeff| >= 1 && AllDigits(coeff)
    requires -sc + (|coeff| - 1) != 0
    ensures ParseBody(Mantissa(coeff) + "E" + ExponentText(-sc + (|coeff| - 1))) == Some((DigitsValue(coeff), sc))
  {
    var adjusted := -sc + (|coeff| - 1);
    var mant := Mantissa(coeff);
    var e := ExponentText(adjusted);
    var v := DigitsValue(coeff);
    assert NoExponentMark(mant) && ParseSignificand(mant) == Some((v, |coeff| - 1)) by {
      ParseMantissa(coeff);
    }
    assert ParseExponent(e) == Some(adjusted) by {
      ParseExponentText(adjusted);
    }
    ParseBodyWithExponent(mant, e, v, |coeff| - 1, adjusted);
  }

  lemma {:induction false} ParseRenderMantissa(coeff: string)
    requires |coeff| >= 1 && AllDigits(coeff)
    ensures ParseBody(Mantissa(coeff)) == Some((DigitsValue(coeff), |coeff| - 1))
  {
    ParseMantissa(coeff);
    ParseBodyWithoutExponent(Mantissa(coeff), DigitsValue(coeff), |coeff| - 1);
  }

  lemma {:induction false} ParseRenderAbs(m: nat, sc: int)
    ensures ParseBody(RenderAbs(m, sc)) == Some((m, sc))
  {
    var coeff := NatDigits(m);
    var adjusted := -sc + (|coeff| - 1);
    if sc == 0 {
      ParseSignificandPlain(coeff);
      assert NoExponentMark(coeff);
      ParseBodyWithoutExponent(coeff, m, 0);
    } else if sc > 0 && adjusted >= -6 {
      ParseRenderFraction(coeff, sc);
    } else if adjusted != 0 {
      ParseRenderScientific(coeff, sc);
    } else {
      ParseRenderMantissa(coeff);
    }
  }

  lemma {:induction false} ParseUnsigned(body: string)
    requires |body| >= 1 && IsAsciiDigit(body[0])
    ensures ParseDecimal(body) == match ParseBody(body)
      case None => None
      case Some((v, sc)) => if IntScale(sc) then Some(Dec(v, sc)) else None
  {
  }

  lemma {:induction false} ParseNegative(body: string)
    requires |body| >= 1 && IsAsciiDigit(body[0])
    ensures ParseDecimal("-" + body) == match ParseBody(body)
      case None => None
      case Some((v, sc)) => if IntScale(sc) then Some(Dec(-(v as int), sc)) else None
  {
    assert ("-" + body)[1..] == body;
  }

  /** Parsing what `toString()` printed gives back the same unscaled value and scale. */
  lemma {:induction false} ParseRender(d: Dec)
    requires IntScale(d.scale)
    ensures ParseDecimal(Render(d)) == Some(d)
  {
    var m := if d.unscaled < 0 then -d.unscaled else d.unscaled;
    var body := RenderAbs(m, d.scale);
    assert ParseBody(body) == Some((m, d.scale)) by {
      ParseRenderAbs(m, d.scale);
    }
    if d.unscaled < 0 {
      assert Render(d) == "-" + body;
      assert ParseDecimal("-" + body) == Some(Dec(-(m as int), d.scale)) by {
        ParseNegative(body);
      }
    } else {
      assert Render(d) == body by {
        assert "" + body == body;
      }
      assert ParseDecimal(body) == Some(Dec(m, d.scale)) by {
        ParseUnsigned(body);
      }
    }
  }

  // ---------------------------------------------------------- plain string

  /** `BigDecimal.ZERO`. */
  const Zero: Dec := Dec(0, 0)

  /** `toPlainString()` of a non-negative unscaled value at a non-negative scale: never an exponent. */
  function PlainAbs(m: nat, sc: nat): (s: string)
    ensures |s| >= 1 && IsAsciiDigit(s[0])
  {
    if sc == 0 then NatDigits(m) else RenderFraction(NatDigits(m), sc)
  }

  /** `BigDecimal.toPlainString()` for the scales a sum of column values has (zero or more). */
  function PlainString(d: Dec): string
    requires d.scale >= 0
  {
    var m := if d.unscaled < 0 then -d.unscaled else d.unscaled;
    (if d.unscaled < 0 then "-" else "") + PlainAbs(m, d.scale)
  }

  lemma {:induction false} ParsePlainAbs(m: nat, sc: nat)
    ensures ParseBody(PlainAbs(m, sc)) == Some((m, sc))
  {
    var coeff := NatDigits(m);
    if sc == 0 {
      ParseSignificandPlain(coeff);
      assert NoExponentMark(coeff);
      ParseBodyWithoutExponent(coeff, m, 0);
    } else {
      ParseRenderFraction(coeff, sc);
    }
  }

  /** `new BigDecimal(d.toPlainString())` gives back `d`, scale included. */
  lemma {:induction false} ParsePlain(d: Dec)
    requires d.scale >= 0 && IntScale(d.scale)
    ensures ParseDecimal(PlainString(d)) == Some(d)
  {
    var m := if d.unscaled < 0 then -d.unscaled else d.unscaled;
    var body := PlainAbs(m, d.scale);
    assert ParseBody(body) == Some((m, d.scale)) by {
      ParsePlainAbs(m, d.scale);
    }
    if d.unscaled < 0 {
      assert ParseDecimal("-" + body) == Some(d) by {
        ParseNegative(body);
      }
    } else {
      assert ParseDecimal(body) == Some(d) by {
        ParseUnsigned(body);
      }
      assert "" + body == body;
    }
  }

  // ------------------------------------------------------------- arithmetic

  /** `a.add(b)`: exact, at the larger of the two scales. */
  function Add(a: Dec, b: Dec): Dec {
    if a.scale >= b.scale then Dec(a.unscaled + b.unscaled * Pow10(a.scale - b.scale), a.scale)
    else Dec(a.unscaled * Pow10(b.scale - a.scale) + b.unscaled, b.scale)
  }

  /** Multiplying the unscaled value by `10^k` and raising the scale by `k` keeps the value. */
  lemma {:induction false} RescaleValue(u: int, s: int, k: nat)
    ensures Value(Dec(u * Pow10(k), s + k)) == Value(Dec(u, s))
    decreases k
  {
    if k > 0 {
      RescaleValue(u, s, k - 1);
      var u' := u * Pow10(k - 1);
      assert u * Pow10(k) == u' * 10;
      RescaleOnce(u', s + k - 1);
    }
  }

  lemma RescaleOnce(u: int, s: int)
    ensures Value(Dec(u * 10, s + 1)) == Value(Dec(u, s))
  {
    if s >= 0 {
      var p := Pow10(s) as real;
      assert Pow10(s + 1) as real == 10.0 * p;
      assert (u * 10) as real / (10.0 * p) == u as real / p;
    } else if s == -1 {
      assert Pow10(1) == 10;
    } else {
      assert Pow10(-s) == 10 * Pow10(-(s + 1));
      assert u * 10 * Pow10(-(s + 1)) == u * Pow10(-s);
    }
  }

  /** At a common scale the value is linear in the unscaled values. */
  lemma SameScaleSum(u: int, v: int, s: int)
    ensures Value(Dec(u + v, s)) == Value(Dec(u, s)) + Value(Dec(v, s))
  {
    if s >= 0 {
      var p := Pow10(s) as real;
      assert (u + v) as real / p == u as real / p + v as real / p;
    } else {
      assert (u + v) * Pow10(-s) == u * Pow10(-s) + v * Pow10(-s);
    }
  }

  /** Adding is exact: the value of the sum is the sum of the values. */
  lemma AddValue(a: Dec, b: Dec)
    ensures Value(Add(a, b)) == Value(a) + Value(b)
  {
    if a.scale >= b.scale {
      var k := a.scale - b.scale;
      RescaleValue(b.unscaled, b.scale, k);
      SameScaleSum(a.unscaled, b.unscaled * Pow10(k), a.scale);
    } else {
      var k := b.scale - a.scale;
      RescaleValue(a.unscaled, a.scale, k);
      SameScaleSum(a.unscaled * Pow10(k), b.unscaled, b.scale);
    }
  }

  // ---------------------------------------------------------- column scale

  /**
   * The value a `decimal(19, 4)` column holds, in ten-thousandths: rounded
   * to four fraction digits, ties away from zero.
   */
  function Round4(d: Dec): int {
    var m := if d.unscaled < 0 then -d.unscaled else d.unscaled;
    var r := if d.scale <= 4 then m * Pow10(4 - d.scale)
             else
               RoundedQuotient(m, Pow10(d.scale - 4));
    if d.unscaled < 0 then -r else r
  }

  /** At scale four or less nothing is lost: the column holds the exact value. */
  lemma {:induction false} Round4Exact(d: Dec)
    requires d.scale <= 4
    ensures Round4(d) == d.unscaled * Pow10(4 - d.scale)
  {
    var p := Pow10(4 - d.scale);
    if d.unscaled < 0 {
      assert -((-d.unscaled) * p) == d.unscaled * p;
    }
  }

  /**
   * Beyond scale four the column holds the nearest multiple of a
   * ten-thousandth: `Round4(d) * p` is within `p / 2` of the unscaled value,
   * `p` being `10^(scale - 4)`.
   */
  lemma {:induction false} Round4Nearest(d: Dec)
    requires d.scale > 4
    ensures var p := Pow10(d.scale - 4);
      -(p as int) <= 2 * (Round4(d) * p - d.unscaled) <= p
  {
    var m := if d.unscaled < 0 then -d.unscaled else d.unscaled;
    var p := Pow10(d.scale - 4);
    var r := RoundedQuotient(m, p);
    DivisionRounding(m, p);
    if d.unscaled < 0 {
      assert Round4(d) == -r;
      assert (-r) * p - d.unscaled == -(r * p - m);
    } else {
      assert Round4(d) == r;
    }
  }

  function RoundedQuotient(m: nat, p: nat): nat
    requires p >= 1
  {
    m / p + (if 2 * (m % p) >= p then 1 else 0)
  }

  lemma DivisionRounding(m: nat, p: nat)
    requires p >= 1
    ensures -(p as int) <= 2 * (RoundedQuotient(m, p) * p - m) <= p
  {
    var q := m / p;
    var r := m % p;
    var c := if 2 * r >= p then 1 else 0;
    assert m == q * p + r;
    assert (q + c) * p == q * p + c * p;
  }
}
