/**
 * `_safe_convert_number`: how a tool argument given as an int, a float or text
 * becomes the number the tool computes with.
 */
module Normalizer {
  import opened Outcomes
  import opened PyText
  import opened PyNumbers

  /** A tool argument, declared `Union[str, int, float]`. */
  datatype Arg = IntArg(i: int) | FloatArg(r: real) | StrArg(s: string)

  /** The precision the service sets on the decimal context at start-up. */
  const DECIMAL_PRECISION: nat := 100

  /** 10^DECIMAL_PRECISION written out: the magnitude at which `dec % 1` stops being exact. */
  const PRECISION_LIMIT: nat := 10000000000000000000000000000000000000000000000000000000000000000000000000000000000000000000000000000

  /** Text that takes the `int()` branch: no '.', and no 'e' once lowered. */
  predicate IsIntText(s: string) {
    '.' !in s && 'e' !in Lower(s)
  }

  /** `s` with every occurrence of `c` removed. */
  function RemoveChar(s: string, c: char): (r: string)
    ensures |r| <= |s|
    ensures forall k :: 0 <= k < |r| ==> r[k] != c && r[k] in s
    ensures c !in s ==> r == s
  {
    if s == [] then []
    else (if s[0] == c then [] else [s[0]]) + RemoveChar(s[1..], c)
  }

  /** The first index of a character satisfying `p`, or `|s|`. */
  function IndexWhere(s: string, p: char -> bool): (r: nat)
    ensures r <= |s|
    ensures forall k :: 0 <= k < r ==> !p(s[k])
    ensures r < |s| ==> p(s[r])
  {
    if s == [] || p(s[0]) then 0 else 1 + IndexWhere(s[1..], p)
  }

  /** Digits in which single underscores may separate groups, as `int()` accepts them. */
  predicate IsGroupedDigits(s: string) {
    && |s| >= 1 && IsDigit(s[0]) && IsDigit(s[|s| - 1])
    && (forall k :: 0 <= k < |s| ==> IsDigit(s[k]) || s[k] == '_')
    && (forall k :: 0 <= k < |s| - 1 ==> !(s[k] == '_' && s[k + 1] == '_'))
  }

  function ApplySign(negative: bool, m: int): int {
    if negative then -m else m
  }

  function RealSign(negative: bool, m: real): real {
    if negative then -m else m
  }

  /** `int(s)` in base 10: None where it raises ValueError. */
  function ParseInt(s: string): Option<int> {
    ParseSignedInt(StripWith(s, IsIntSpace))
  }

  /** `int()` of text already stripped: an optional sign, then grouped digits. */
  function ParseSignedInt(t: string): Option<int> {
    if t == [] then None
    else
      var body := if t[0] == '-' || t[0] == '+' then t[1..] else t;
      if IsGroupedDigits(body) then
        var ds := RemoveChar(body, '_');
        assert AllDigits(ds) by {
          forall k | 0 <= k < |ds| ensures IsDigit(ds[k]) {
            assert ds[k] in body;
          }
        }
        Some(ApplySign(t[0] == '-', DigitsValue(ds)))
      else None
  }

  /** 10 raised to any integer power. */
  function Pow10(e: int): (r: real)
    ensures r > 0.0
  {
    if e >= 0 then IntPow10(e) as real else 1.0 / IntPow10(-e) as real
  }

  function IntPow10(e: nat): (r: nat)
    ensures r >= 1
  {
    if e == 0 then 1 else 10 * IntPow10(e - 1)
  }

  /** The written-out limit is 10 to the service's precision. */
  lemma PrecisionLimitIsPow10()
    ensures PRECISION_LIMIT == IntPow10(DECIMAL_PRECISION)
  {
    assert IntPow10(5) == 100000;
    IntPow10Add(5, 5);
    assert IntPow10(10) == 10000000000;
    IntPow10Add(10, 10);
    assert IntPow10(20) == 100000000000000000000;
    IntPow10Add(20, 5);
    assert IntPow10(25) == 10000000000000000000000000;
    IntPow10Add(25, 25);
    assert IntPow10(50) == 100000000000000000000000000000000000000000000000000;
    IntPow10Add(50, 50);
  }

  lemma {:induction false} IntPow10Add(a: nat, b: nat)
    ensures IntPow10(a + b) == IntPow10(a) * IntPow10(b)
  {
    if b > 0 {
      IntPow10Add(a, b - 1);
    }
  }

  predicate IsExponentMarker(c: char) {
    c == 'e' || c == 'E'
  }

  predicate IsDot(c: char) {
    c == '.'
  }

  /** The exponent after the marker: an optional sign and at least one digit. */
  function ParseExponent(t: string): Option<int> {
    var digits := if |t| > 0 && (t[0] == '-' || t[0] == '+') then t[1..] else t;
    if |digits| >= 1 && AllDigits(digits) then
      Some(ApplySign(|t| > 0 && t[0] == '-', DigitsValue(digits)))
    else None
  }

  /**
   * A finite `Decimal`: sign, coefficient and exponent, worth
   * (-1)^negative * coefficient * 10^exponent.
   */
  datatype Dec = Dec(negative: bool, coefficient: nat, exponent: int)

  function DecValue(d: Dec): real {
    RealSign(d.negative, d.coefficient as real * Pow10(d.exponent))
  }

  /**
   * `Decimal(s)` for text containing '.' or an exponent marker, or None where
   * the constructor signals ConversionSyntax. Surrounding whitespace is
   * stripped and underscores are ignored wherever they stand. The special
   * forms (Infinity, NaN) contain neither '.' nor 'e' and so never reach
   * this parser.
   */
  function ParseDecimal(s: string): Option<Dec> {
    ParseSignedDecimal(RemoveChar(StripWith(s, IsSpace), '_'))
  }

  /** An optional sign, then the unsigned literal. */
  function ParseSignedDecimal(u: string): Option<Dec> {
    var signed := |u| > 0 && (u[0] == '-' || u[0] == '+');
    var magnitude := ParseUnsignedDecimal(if signed then u[1..] else u);
    if magnitude.Some? then Some(Dec(signed && u[0] == '-', magnitude.value.0, magnitude.value.1)) else None
  }

  /** A mantissa, then optionally an exponent marker and the exponent: coefficient and exponent. */
  function ParseUnsignedDecimal(body: string): Option<(nat, int)> {
    var k := IndexWhere(body, IsExponentMarker);
    var exponent := if k < |body| then ParseExponent(body[k + 1..]) else Some(0);
    var mantissa := ParseMantissa(body[..k]);
    if mantissa.Some? && exponent.Some? then Some((mantissa.value.0, exponent.value - mantissa.value.1))
    else None
  }

  /**
   * Digits with at most one '.', at least one digit in all: the digits read
   * as one integer, and the number of them after the point.
   */
  function ParseMantissa(mantissa: string): Option<(nat, nat)> {
    var dot := IndexWhere(mantissa, IsDot);
    var whole := mantissa[..dot];
    var fraction := if dot < |mantissa| then mantissa[dot + 1..] else [];
    if AllDigits(whole) && AllDigits(fraction) && |whole| + |fraction| >= 1 then
      Some((DigitsValue(whole + fraction), |fraction|))
    else None
  }

  function AbsReal(x: real): real {
    if x < 0.0 then -x else x
  }

  predicate IsIntegral(x: real) {
    x.Floor as real == x
  }

  /**
   * `if dec % 1 == 0: return int(dec)` else `float(dec)`. At the service's
   * precision the remainder signals DivisionImpossible once the integer part
   * of the value needs more than 100 digits.
   */
  function FromDecimal(dec: Dec): (r: Outcome<Num>)
    ensures r.Raise? <==> AbsReal(DecValue(dec)) >= PRECISION_LIMIT as real
    ensures r.Raise? ==> r.exc == InvalidOperation("DivisionImpossible")
    ensures r.Return? && IsIntegral(DecValue(dec)) ==> r.value == I(DecValue(dec).Floor)
    ensures r.Return? && !IsIntegral(DecValue(dec)) ==> r.value == F(DecValue(dec))
  {
    var d := DecValue(dec);
    if AbsReal(d) >= PRECISION_LIMIT as real then Raise(InvalidOperation("DivisionImpossible"))
    else if IsIntegral(d) then Return(I(d.Floor))
    else Return(F(d))
  }

  function CannotConvert(s: string): string {
    "Cannot convert '" + s + "' to number"
  }

  /** `_safe_convert_number(value)` */
  function Normalize(v: Arg): (r: Outcome<Num>)
    ensures r.Return? ==> !r.value.C?
    ensures v.IntArg? ==> r == Return(I(v.i))
    ensures v.FloatArg? ==> r == Return(F(v.r))
    ensures v.StrArg? && IsIntText(v.s) && r.Return? ==> r.value.I?
    ensures r.Raise? ==> v.StrArg? && (r.exc.ValueError? <==> IsIntText(v.s))
    ensures r.Raise? && r.exc.ValueError? ==> r.exc == ValueError(CannotConvert(v.s))
    ensures r.Raise? && !r.exc.ValueError? ==> r.exc.InvalidOperation?
  {
    match v
    case IntArg(i) => Return(I(i))
    case FloatArg(x) => Return(F(x))
    case StrArg(s) =>
      if IsIntText(s) then
        match ParseInt(s)
        case Some(n) => Return(I(n))
        case None => Raise(ValueError(CannotConvert(s)))
      else
        match ParseDecimal(s)
        case None => Raise(InvalidOperation("ConversionSyntax"))
        case Some(d) => FromDecimal(d)
  }

  /** Text made of digits and signs only is left alone by `strip` and `lower`. */
  lemma PlainText(s: string)
    requires |s| >= 1 && IsDigit(s[|s| - 1])
    requires forall k :: 0 <= k < |s| ==> IsDigit(s[k]) || s[k] == '-' || s[k] == '.' || IsExponentMarker(s[k])
    ensures StripWith(s, IsIntSpace) == s && StripWith(s, IsSpace) == s
    ensures RemoveChar(s, '_') == s
  {
    assert !IsSpace(s[0]) && !IsSpace(s[|s| - 1]);
    assert !IsIntSpace(s[0]) && !IsIntSpace(s[|s| - 1]);
    assert '_' !in s by {
      forall k | 0 <= k < |s| ensures s[k] != '_' {
        assert IsDigit(s[k]) || s[k] == '-' || s[k] == '.' || IsExponentMarker(s[k]);
      }
    }
  }

  lemma IntToStringShape(n: int)
    ensures IntToString(n) == (if n < 0 then "-" else "") + NatDigits(Abs(n))
    ensures forall k :: 0 <= k < |IntToString(n)| ==> IsDigit(IntToString(n)[k]) || IntToString(n)[k] == '-'
    ensures IsDigit(IntToString(n)[|IntToString(n)| - 1])
    ensures IsDigit(IntToString(n)[0]) <==> n >= 0
  {
  }

  lemma IntToStringIsIntText(n: int)
    ensures IsIntText(IntToString(n))
  {
    var s := IntToString(n);
    IntToStringShape(n);
    assert forall k :: 0 <= k < |s| ==> Lower(s)[k] == s[k];
  }

  /** `int()` of plain digits after an optional minus sign. */
  lemma SignedDigitsParse(negative: bool, ds: string)
    requires |ds| >= 1 && AllDigits(ds)
    ensures ParseSignedInt((if negative then "-" else "") + ds) == Some(ApplySign(negative, DigitsValue(ds)))
  {
    var t := (if negative then "-" else "") + ds;
    assert '_' !in ds by {
      forall k | 0 <= k < |ds| ensures ds[k] != '_' {
        assert IsDigit(ds[k]);
      }
    }
    assert IsGroupedDigits(ds);
    if negative {
      assert t[0] == '-' && t[1..] == ds;
    } else {
      assert t == ds && IsDigit(t[0]);
    }
  }

  /** `int(str(n)) == n` */
  lemma {:induction false} ParseIntOfIntToString(n: int)
    ensures ParseInt(IntToString(n)) == Some(n)
  {
    var s := IntToString(n);
    var ds := NatDigits(Abs(n));
    IntToStringShape(n);
    PlainText(s);
    assert StripWith(s, IsIntSpace) == s;
    SignedDigitsParse(n < 0, ds);
    assert ParseSignedInt(s) == Some(ApplySign(n < 0, DigitsValue(ds)));
    NatDigitsValue(Abs(n));
    assert ApplySign(n < 0, Abs(n)) == n;
  }

  /** `str(n)` of every int normalises back to `n`. */
  lemma {:induction false} NormalizeIntegerText(n: int)
    ensures Normalize(StrArg(IntToString(n))) == Return(I(n))
  {
    IntToStringIsIntText(n);
    ParseIntOfIntToString(n);
  }

  /** The value of one more digit appended on the right. */
  lemma DigitsValueAppend(ds: string, d: char)
    requires AllDigits(ds) && IsDigit(d)
    ensures AllDigits(ds + [d])
    ensures DigitsValue(ds + [d]) == DigitsValue(ds) * 10 + (d as int - '0' as int)
  {
    assert (ds + [d])[..|ds + [d]| - 1] == ds;
  }

  lemma IndexWhereAt(s: string, p: char -> bool, j: nat)
    requires j <= |s| && (j < |s| ==> p(s[j]))
    requires forall k :: 0 <= k < j ==> !p(s[k])
    ensures IndexWhere(s, p) == j
  {
  }

  lemma DotAfterDigits(ds: string, d: char)
    requires AllDigits(ds)
    ensures IndexWhere(ds + "." + [d], IsDot) == |ds|
    ensures (ds + "." + [d])[..|ds|] == ds && (ds + "." + [d])[|ds| + 1..] == [d]
  {
    var s := ds + "." + [d];
    assert forall k :: 0 <= k < |ds| ==> s[k] == ds[k];
    IndexWhereAt(s, IsDot, |ds|);
  }

  lemma MantissaOneDecimalPlace(ds: string, d: char, c: nat)
    requires |ds| >= 1 && AllDigits(ds) && IsDigit(d)
    requires c == DigitsValue(ds) * 10 + (d as int - '0' as int)
    ensures ParseMantissa(ds + "." + [d]) == Some((c, 1))
  {
    DigitsValueAppend(ds, d);
    assert DigitsValue(ds + [d]) == c;
    MantissaDigits(ds, d);
  }

  lemma MantissaDigits(ds: string, d: char)
    requires |ds| >= 1 && AllDigits(ds) && IsDigit(d)
    ensures AllDigits(ds + [d])
    ensures ParseMantissa(ds + "." + [d]) == Some((DigitsValue(ds + [d]), 1))
  {
    DotAfterDigits(ds, d);
  }

  /** Plain text is parsed as it stands: nothing to strip, no underscores, no sign. */
  lemma ParseDecimalPlain(s: string)
    requires |s| >= 1 && IsDigit(s[0]) && IsDigit(s[|s| - 1])
    requires forall k :: 0 <= k < |s| ==> IsDigit(s[k]) || s[k] == '-' || s[k] == '.' || IsExponentMarker(s[k])
    ensures ParseUnsignedDecimal(s).Some? ==>
              ParseDecimal(s) == Some(Dec(false, ParseUnsignedDecimal(s).value.0, ParseUnsignedDecimal(s).value.1))
    ensures ParseUnsignedDecimal(s).None? ==> ParseDecimal(s).None?
  {
    PlainText(s);
    assert ParseDecimal(s) == ParseSignedDecimal(s);
    assert !(s[0] == '-' || s[0] == '+');
    assert ParseSignedDecimal(s) == (var m := ParseUnsignedDecimal(s); if m.Some? then Some(Dec(false, m.value.0, m.value.1)) else None);
  }

  /** Without an exponent marker the literal is its mantissa, scaled down by its places. */
  lemma UnsignedWithoutExponent(body: string)
    requires forall k :: 0 <= k < |body| ==> !IsExponentMarker(body[k])
    ensures ParseMantissa(body).Some? ==>
              ParseUnsignedDecimal(body) == Some((ParseMantissa(body).value.0, -(ParseMantissa(body).value.1 as int)))
    ensures ParseMantissa(body).None? ==> ParseUnsignedDecimal(body).None?
  {
    IndexWhereAt(body, IsExponentMarker, |body|);
    assert body[..|body|] == body;
  }

  lemma DigitsDotDigit(ds: string, d: char)
    requires |ds| >= 1 && AllDigits(ds) && IsDigit(d)
    ensures var s := ds + "." + [d];
            |s| >= 1 && IsDigit(s[0]) && IsDigit(s[|s| - 1])
            && forall k :: 0 <= k < |s| ==> IsDigit(s[k]) || s[k] == '.'
  {
    var s := ds + "." + [d];
    assert s[0] == ds[0] && s[|s| - 1] == d;
    forall k | 0 <= k < |s| ensures IsDigit(s[k]) || s[k] == '.' {
      if k < |ds| { assert s[k] == ds[k]; }
    }
  }

  /** Plain text with a one-place mantissa and no exponent. */
  lemma ParseOnePlace(s: string, c: nat)
    requires |s| >= 1 && IsDigit(s[0]) && IsDigit(s[|s| - 1])
    requires forall k :: 0 <= k < |s| ==> IsDigit(s[k]) || s[k] == '.'
    requires ParseMantissa(s) == Some((c, 1))
    ensures ParseDecimal(s) == Some(Dec(false, c, -1))
  {
    UnsignedWithoutExponent(s);
    assert ParseUnsignedDecimal(s) == Some((c, -1));
    ParseDecimalPlain(s);
  }

  /**
   * `Decimal` of a run of digits, one '.' and one more digit: the digits read
   * as one integer, with exponent -1.
   */
  lemma ParseOneDecimalPlace(ds: string, d: char, c: nat)
    requires |ds| >= 1 && AllDigits(ds) && IsDigit(d)
    requires c == DigitsValue(ds) * 10 + (d as int - '0' as int)
    ensures ParseDecimal(ds + "." + [d]) == Some(Dec(false, c, -1))
  {
    DigitsDotDigit(ds, d);
    MantissaOneDecimalPlace(ds, d, c);
    ParseOnePlace(ds + "." + [d], c);
  }

  lemma DotTextIsDecimal(whole: string, fraction: string)
    ensures !IsIntText(whole + "." + fraction)
  {
    assert (whole + "." + fraction)[|whole|] == '.';
  }

  /** Text off the int path that `Decimal` parses is converted by `FromDecimal`. */
  lemma NormalizeDecimalText(s: string, dec: Dec)
    requires !IsIntText(s) && ParseDecimal(s) == Some(dec)
    ensures Normalize(StrArg(s)) == FromDecimal(dec)
  {
  }

  /** A decimal with one place, below 10^100 in magnitude. */
  lemma FromDecimalOnePlace(n: nat, dv: nat)
    requires dv < 10 && n < PRECISION_LIMIT
    ensures FromDecimal(Dec(false, n * 10 + dv, -1)) ==
              if dv == 0 then Return(I(n)) else Return(F(n as real + dv as real / 10.0))
  {
    var v := DecValue(Dec(false, n * 10 + dv, -1));
    assert Pow10(-1) == 1.0 / 10.0;
    assert v == n as real + dv as real / 10.0;
    assert v < n as real + 1.0;
    if dv == 0 {
      assert v == n as real;
    } else {
      assert n as real < v;
      assert v.Floor == n;
    }
  }

  /**
   * Text off the int path that `Decimal` reads with one decimal place
   * normalises to the int it names when that place is 0 ("5.0" is 5), and
   * otherwise to the float.
   */
  lemma NormalizeOneDecimalPlace(s: string, n: nat, dv: nat)
    requires dv < 10 && n < PRECISION_LIMIT
    requires !IsIntText(s) && ParseDecimal(s) == Some(Dec(false, n * 10 + dv, -1))
    ensures Normalize(StrArg(s)) == if dv == 0 then Return(I(n)) else Return(F(n as real + dv as real / 10.0))
  {
    FromDecimalOnePlace(n, dv);
  }

  /** Text that `Decimal` reads as the digit `n` followed by ".0" normalises to the int `n`. */
  lemma NormalizeDigitDotZero(s: string, n: nat)
    requires n < 10 && !IsIntText(s) && ParseDecimal(s) == Some(Dec(false, n * 10, -1))
    ensures Normalize(StrArg(s)) == Return(I(n))
  {
    FromDecimalDigitDotZero(n);
  }

  lemma FromDecimalDigitDotZero(n: nat)
    requires n < 10
    ensures FromDecimal(Dec(false, n * 10, -1)) == Return(I(n))
  {
    FromDecimalOnePlace(n, 0);
  }

  lemma ExponentTextIsDecimal(mantissa: string, exponent: string)
    ensures !IsIntText(mantissa + "e" + exponent)
  {
    var s := mantissa + "e" + exponent;
    assert Lower(s)[|mantissa|] == 'e';
  }

  lemma DigitsEDigits(ms: string, ks: string)
    requires AllDigits(ms) && AllDigits(ks)
    ensures forall k :: 0 <= k < |ms + "e" + ks| ==> IsDigit((ms + "e" + ks)[k]) || (ms + "e" + ks)[k] == 'e'
  {
    var s := ms + "e" + ks;
    forall k | 0 <= k < |s| ensures IsDigit(s[k]) || s[k] == 'e' {
      if k < |ms| { assert s[k] == ms[k]; }
      else if k > |ms| { assert s[k] == ks[k - |ms| - 1]; }
    }
  }

  /** Digits alone form a mantissa with no places. */
  lemma MantissaWithoutDot(ms: string)
    requires |ms| >= 1 && AllDigits(ms)
    ensures ParseMantissa(ms) == Some((DigitsValue(ms), 0))
  {
    IndexWhereAt(ms, IsDot, |ms|);
    assert ms[..|ms|] == ms && ms + [] == ms;
  }

  lemma ExponentDigits(ks: string)
    requires |ks| >= 1 && AllDigits(ks)
    ensures ParseExponent(ks) == Some(DigitsValue(ks))
  {
  }

  lemma UnsignedScientific(ms: string, ks: string)
    requires |ms| >= 1 && AllDigits(ms) && |ks| >= 1 && AllDigits(ks)
    ensures ParseUnsignedDecimal(ms + "e" + ks) == Some((DigitsValue(ms), DigitsValue(ks) as int))
  {
    var s := ms + "e" + ks;
    assert forall k :: 0 <= k < |ms| ==> s[k] == ms[k];
    IndexWhereAt(s, IsExponentMarker, |ms|);
    assert s[..|ms|] == ms && s[|ms| + 1..] == ks;
    MantissaWithoutDot(ms);
    ExponentDigits(ks);
  }

  /** `Decimal` of digits, 'e' and digits: the first digits scaled by 10 to the second. */
  lemma ParseScientific(m: nat, k: nat)
    ensures ParseDecimal(NatDigits(m) + "e" + NatDigits(k)) == Some(Dec(false, m, k))
  {
    var ms, ks := NatDigits(m), NatDigits(k);
    var s := ms + "e" + ks;
    DigitsEDigits(ms, ks);
    assert s[0] == ms[0] && s[|s| - 1] == ks[|ks| - 1];
    UnsignedScientific(ms, ks);
    NatDigitsValue(m);
    NatDigitsValue(k);
    ParseDecimalPlain(s);
  }

  lemma FromDecimalIntegral(c: nat, e: nat)
    ensures FromDecimal(Dec(false, c, e)) ==
              if c * IntPow10(e) < PRECISION_LIMIT then Return(I(c * IntPow10(e)))
              else Raise(InvalidOperation("DivisionImpossible"))
  {
    var p := IntPow10(e);
    var v := DecValue(Dec(false, c, e));
    assert Pow10(e) == p as real;
    IntAsReal(c, p);
    assert v == (c * p) as real;
    assert AbsReal(v) == v;
    assert v.Floor == c * p;
  }

  lemma IntAsReal(a: int, b: int)
    ensures a as real * b as real == (a * b) as real
  {
  }

  /**
   * Text off the int path that `Decimal` reads as an integer times a
   * non-negative power of ten ("1e3") normalises to that int, unless its
   * magnitude reaches 10^100, where `dec % 1` signals DivisionImpossible.
   */
  lemma NormalizeIntegralDecimal(s: string, c: nat, e: nat)
    requires !IsIntText(s) && ParseDecimal(s) == Some(Dec(false, c, e))
    ensures Normalize(StrArg(s)) ==
              if c * IntPow10(e) < PRECISION_LIMIT then Return(I(c * IntPow10(e)))
              else Raise(InvalidOperation("DivisionImpossible"))
  {
    FromDecimalIntegral(c, e);
  }

  /** A small integral decimal converts to its int value. */
  lemma FromDecimalSmallIntegral(c: nat, e: nat)
    requires c * IntPow10(e) < 100000
    ensures FromDecimal(Dec(false, c, e)) == Return(I(c * IntPow10(e)))
  {
    FromDecimalIntegral(c, e);
  }

  /** Text on the int path that `int()` accepts normalises to its value. */
  lemma NormalizeIntText(s: string, n: int)
    requires IsIntText(s) && ParseInt(s) == Some(n)
    ensures Normalize(StrArg(s)) == Return(I(n))
  {
  }

  /** Text on the int path that `int()` refuses raises the ValueError. */
  lemma NormalizeRejectsIntText(s: string)
    requires IsIntText(s) && ParseInt(s).None?
    ensures Normalize(StrArg(s)) == Raise(ValueError(CannotConvert(s)))
  {
  }

  /** Text off the int path that `Decimal` refuses raises InvalidOperation, not ValueError. */
  lemma NormalizeDecimalSyntax(s: string)
    requires !IsIntText(s) && ParseDecimal(s).None?
    ensures Normalize(StrArg(s)) == Raise(InvalidOperation("ConversionSyntax"))
  {
  }

  lemma HelloIsNotDecimal()
    ensures !IsIntText("hello") && ParseDecimal("hello").None?
  {
    assert Lower("hello")[1] == 'e';
    HelloNeedsNoCleaning();
    HelloHasNoExponent();
    UnsignedText("hello");
  }

  /** Text that does not start with a sign is read as an unsigned literal. */
  lemma UnsignedText(u: string)
    requires |u| > 0 && u[0] != '-' && u[0] != '+'
    ensures ParseSignedDecimal(u).None? <==> ParseUnsignedDecimal(u).None?
  {
  }

  lemma HelloNeedsNoCleaning()
    ensures RemoveChar(StripWith("hello", IsSpace), '_') == "hello"
  {
    assert !IsSpace('h') && !IsSpace('o');
    assert StripWith("hello", IsSpace) == "hello";
  }

  lemma HelloHasNoExponent()
    ensures ParseUnsignedDecimal("hello").None?
  {
    var s := "hello";
    IndexWhereAt(s, IsExponentMarker, 1);
    assert s[2..] == "llo";
    assert ParseExponent("llo") == None;
  }

  lemma AbcIsNotInt()
    ensures IsIntText("abc") && ParseInt("abc").None?
  {
    assert Lower("abc") == "abc";
    assert !IsIntSpace('a') && !IsIntSpace('c');
    assert StripWith("abc", IsIntSpace) == "abc";
  }

  /** "hello" contains an 'e', so it goes to `Decimal`, whose error is not a ValueError. */
  lemma HelloIsInvalidOperation()
    ensures Normalize(StrArg("hello")) == Raise(InvalidOperation("ConversionSyntax"))
  {
    HelloIsNotDecimal();
    NormalizeDecimalSyntax("hello");
  }

  /** The normaliser's message for "abc". */
  lemma AbcMessage()
    ensures CannotConvert("abc") == "Cannot convert 'abc' to number"
  {
  }

  /** "abc" has neither '.' nor 'e', so it goes to `int`, whose error becomes the ValueError. */
  lemma AbcIsRejected()
    ensures Normalize(StrArg("abc")) == Raise(ValueError(CannotConvert("abc")))
  {
    AbcIsNotInt();
    NormalizeRejectsIntText("abc");
  }
}
