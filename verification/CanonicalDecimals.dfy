/**
 Canonical text of exact decimals (backend/app/epistemic/contracts.py, canonical_decimal).

 A finite decimal is a sign, a coefficient and a power of ten. Before it is written it is normalised, which first
 rounds it half-even to 28 significant digits: equal text means equal numbers only up to that rounding.
 */
module CanonicalDecimals {
  import opened Wrappers
  import opened Numerals

  datatype Decimal =
    | Finite(negative: bool, coefficient: nat, exponent: int)
    | NonFinite

  datatype Error = NotFinite

  const PRECISION := 28
  const POINT: CodePoint := '.' as int

  predicate SameMagnitude(c1: nat, e1: int, c2: nat, e2: int) {
    if e1 >= e2 then c1 * Pow10(e1 - e2) == c2 else c1 == c2 * Pow10(e2 - e1)
  }

  /** Numerical equality; the sign of a zero is immaterial. */
  predicate NumericallyEqual(a: Decimal, b: Decimal)
    requires a.Finite? && b.Finite?
  {
    && SameMagnitude(a.coefficient, a.exponent, b.coefficient, b.exponent)
    && (a.coefficient != 0 ==> a.negative == b.negative)
  }

  // ---------------------------------------------------------------------------------------------------
  // Normalisation
  // ---------------------------------------------------------------------------------------------------

  /** Rounding half-even to the context precision. A carry to the next power of ten is left to the stripping of zeros. */
  function Round(c: nat, e: int): (r: (nat, int))
    requires c > 0
    ensures r.0 > 0
  {
    var n := |Digits(c)|;
    if n <= PRECISION then (c, e)
    else
      var k := n - PRECISION;
      HalfEvenPositive(c, k);
      (HalfEven(c, Pow10(k)), e + k)
  }

  function HalfEven(c: nat, p: nat): nat
    requires p > 0
  {
    var q, r := c / p, c % p;
    if 2 * r > p || (2 * r == p && q % 2 == 1) then q + 1 else q
  }

  lemma {:induction false} HalfEvenPositive(c: nat, k: nat)
    requires c > 0 && k < |Digits(c)|
    ensures HalfEven(c, Pow10(k)) > 0
  {
    DigitCount(c);
    Pow10Strict(k, |Digits(c)| - 1);
    QuotientPositive(c, Pow10(k));
  }

  lemma QuotientPositive(c: nat, p: nat)
    requires 0 < p <= c
    ensures c / p >= 1
  {
  }

  /** Trailing zeros of the coefficient move into the exponent. */
  function Strip(c: nat, e: int): (r: (nat, int))
    requires c > 0
    ensures 0 < r.0 <= c && r.1 >= e && r.0 % 10 != 0
    ensures c % 10 != 0 ==> r == (c, e)
  {
    if c % 10 == 0 then Strip(c / 10, e + 1) else (c, e)
  }

  function Normalize(d: Decimal): (r: Decimal)
    requires d.Finite? && d.coefficient > 0
    ensures r.Finite? && r.coefficient % 10 != 0
  {
    var rounded := Round(d.coefficient, d.exponent);
    var stripped := Strip(rounded.0, rounded.1);
    Finite(d.negative, stripped.0, stripped.1)
  }

  /** Positional notation without an exponent. */
  function Fixed(c: nat, e: int): Text {
    var ds := Digits(c);
    if e >= 0 then ds + Zeros(e)
    else if |ds| + e > 0 then ds[..|ds| + e] + [POINT] + ds[|ds| + e..]
    else [DIGIT_ZERO, POINT] + (Zeros(-e - |ds|) + ds)
  }

  function Signed(d: Decimal): Text
    requires d.Finite?
  {
    (if d.negative then [MINUS] else []) + Fixed(d.coefficient, d.exponent)
  }

  function CanonicalDecimal(d: Decimal): Result<Text, Error> {
    if d.NonFinite? then Err(NotFinite)
    else if d.coefficient == 0 then Ok([DIGIT_ZERO])
    else Ok(Signed(Normalize(d)))
  }

  /** The quotient is rounded to the nearest number, and to the even one of two that are equally near. */
  lemma RoundsHalfEven(c: nat, p: nat)
    requires p > 0
    ensures var q := HalfEven(c, p);
            && 2 * (q * p) - p <= 2 * c <= 2 * (q * p) + p
            && (2 * c == 2 * (q * p) - p || 2 * c == 2 * (q * p) + p ==> q % 2 == 0)
  {
    var q := c / p;
    assert c == q * p + c % p;
    assert (q + 1) * p == q * p + p;
  }

  /** A coefficient of more than 28 digits is rounded to 28, any other is left alone. */
  lemma RoundsToPrecision(c: nat, e: int)
    requires c > 0
    ensures var (q, f) := Round(c, e);
            var n := |Digits(c)|;
            if n <= PRECISION then (q, f) == (c, e)
            else
              && f == e + (n - PRECISION)
              && var p := Pow10(n - PRECISION);
              && 2 * (q * p) - p <= 2 * c <= 2 * (q * p) + p
              && (2 * c == 2 * (q * p) - p || 2 * c == 2 * (q * p) + p ==> q % 2 == 0)
  {
    var n := |Digits(c)|;
    if n > PRECISION {
      RoundsHalfEven(c, Pow10(n - PRECISION));
    }
  }

  // ---------------------------------------------------------------------------------------------------
  // Stripping decides numerical equality
  // ---------------------------------------------------------------------------------------------------

  lemma {:induction false} StripScaled(c: nat, e: int, k: nat)
    requires c > 0
    ensures c * Pow10(k) > 0
    ensures Strip(c * Pow10(k), e - k) == Strip(c, e)
  {
    if k > 0 {
      StripScaled(c, e, k - 1);
      var smaller := c * Pow10(k - 1);
      TenTimes(c, Pow10(k - 1));
      assert c * Pow10(k) == 10 * smaller;
      assert (10 * smaller) % 10 == 0 && (10 * smaller) / 10 == smaller;
    }
  }

  lemma TenTimes(c: int, p: int)
    ensures c * (10 * p) == 10 * (c * p)
  {
  }

  lemma {:induction false} StripExpands(c: nat, e: int)
    requires c > 0
    ensures var s := Strip(c, e); c == s.0 * Pow10(s.1 - e)
  {
    if c % 10 == 0 {
      StripExpands(c / 10, e + 1);
      var s := Strip(c, e);
      TenTimes(s.0, Pow10(s.1 - e - 1));
      assert Pow10(s.1 - e) == 10 * Pow10(s.1 - e - 1);
    }
  }

  lemma SameMagnitudeIsSameStrip(c1: nat, e1: int, c2: nat, e2: int)
    requires c1 > 0 && c2 > 0
    ensures SameMagnitude(c1, e1, c2, e2) <==> Strip(c1, e1) == Strip(c2, e2)
  {
    if e1 >= e2 {
      HigherExponent(c1, e1, c2, e2);
    } else {
      HigherExponent(c2, e2, c1, e1);
    }
  }

  lemma HigherExponent(c1: nat, e1: int, c2: nat, e2: int)
    requires c1 > 0 && c2 > 0 && e1 >= e2
    ensures c1 * Pow10(e1 - e2) == c2 <==> Strip(c1, e1) == Strip(c2, e2)
  {
    StripScaled(c1, e1, e1 - e2);
    if Strip(c1, e1) == Strip(c2, e2) {
      StripExpands(c1, e1);
      StripExpands(c2, e2);
      var s := Strip(c1, e1);
      Pow10Sum(s.1 - e1, e1 - e2);
      Regroup(s.0, Pow10(s.1 - e1), Pow10(e1 - e2));
    }
  }

  lemma Regroup(a: int, b: int, c: int)
    ensures (a * b) * c == a * (b * c)
  {
  }

  // ---------------------------------------------------------------------------------------------------
  // Rounding respects numerical equality
  // ---------------------------------------------------------------------------------------------------

  lemma HalfEvenShift(c: nat, p: nat)
    requires p > 0
    ensures HalfEven(10 * c, 10 * p) == HalfEven(c, p)
  {
    var q, r := c / p, c % p;
    assert c == q * p + r;
    QuotientIs(10 * c, 10 * p, q, 10 * r) by {
      TenTimes(q, p);
    }
  }

  lemma QuotientIs(x: int, y: int, q: int, r: int)
    requires 0 < y && 0 <= r < y && x == q * y + r
    ensures x / y == q && x % y == r
  {
    var d := q - x / y;
    assert x == (x / y) * y + x % y;
    assert d * y == x % y - r by {
      assert d * y == q * y - (x / y) * y;
    }
    MultipleBound(d, y);
  }

  lemma MultipleBound(d: int, y: int)
    requires 0 < y
    ensures d >= 1 ==> d * y >= y
    ensures d <= -1 ==> d * y <= -y
  {
  }

  lemma RoundTenfold(c: nat, e: int)
    requires c > 0
    ensures var a, b := Round(10 * c, e - 1), Round(c, e); Strip(a.0, a.1) == Strip(b.0, b.1)
  {
    var n := |Digits(c)|;
    assert Digits(10 * c) == Digits(c) + [DIGIT_ZERO];
    if n < PRECISION {
      StripScaled(c, e, 1);
      assert Pow10(1) == 10;
    } else if n == PRECISION {
      HalfEvenShift(c, 1);
      assert Pow10(1) == 10;
    } else {
      HalfEvenShift(c, Pow10(n - PRECISION));
    }
  }

  lemma {:induction false} RoundScaled(c: nat, e: int, k: nat)
    requires c > 0
    ensures c * Pow10(k) > 0
    ensures var a, b := Round(c * Pow10(k), e - k), Round(c, e); Strip(a.0, a.1) == Strip(b.0, b.1)
  {
    if k > 0 {
      RoundScaled(c, e, k - 1);
      var smaller := c * Pow10(k - 1);
      TenTimes(c, Pow10(k - 1));
      assert c * Pow10(k) == 10 * smaller;
      RoundTenfold(smaller, e - k + 1);
    }
  }

  /** Numerically equal decimals have the same text, whatever their precision. */
  lemma EqualNumbersPrintAlike(a: Decimal, b: Decimal)
    requires a.Finite? && b.Finite? && NumericallyEqual(a, b)
    ensures CanonicalDecimal(a) == CanonicalDecimal(b)
  {
    SameMagnitudeSameZero(a.coefficient, a.exponent, b.coefficient, b.exponent);
    if a.coefficient != 0 {
      if a.exponent >= b.exponent {
        RoundScaled(a.coefficient, a.exponent, a.exponent - b.exponent);
      } else {
        RoundScaled(b.coefficient, b.exponent, b.exponent - a.exponent);
      }
    }
  }

  lemma ProductIsZero(a: nat, p: nat)
    requires p >= 1
    ensures a * p == 0 <==> a == 0
  {
  }

  // ---------------------------------------------------------------------------------------------------
  // Reading the text back
  // ---------------------------------------------------------------------------------------------------

  function ReadMagnitude(t: Text): (nat, int) {
    var n := DigitPrefix(t);
    if n < |t| && t[n] == POINT && AllDigits(t[n + 1..]) then
      assert AllDigits(t[..n] + t[n + 1..]);
      (Number(t[..n] + t[n + 1..]), -(|t| - n - 1))
    else (Number(t[..n]), 0)
  }

  function ReadDecimal(t: Text): (d: Decimal)
    ensures d.Finite?
  {
    if t != [] && t[0] == MINUS then
      var m := ReadMagnitude(t[1..]);
      Finite(true, m.0, m.1)
    else
      var m := ReadMagnitude(t);
      Finite(false, m.0, m.1)
  }

  lemma ReadPointed(whole: Text, fraction: Text)
    requires AllDigits(whole) && AllDigits(fraction)
    ensures AllDigits(whole + fraction)
    ensures ReadMagnitude(whole + [POINT] + fraction) == (Number(whole + fraction), -|fraction|)
  {
    DigitsEnd(whole, [POINT] + fraction);
    var t := whole + [POINT] + fraction;
    assert t == whole + ([POINT] + fraction);
    assert t[..|whole|] == whole && t[|whole| + 1..] == fraction;
  }

  lemma ReadWhole(whole: Text)
    requires AllDigits(whole)
    ensures ReadMagnitude(whole) == (Number(whole), 0)
  {
    DigitsEnd(whole, []);
    assert whole + [] == whole && whole[..|whole|] == whole;
  }

  /** Positional notation keeps the value. */
  lemma ReadFixed(c: nat, e: int)
    ensures var m := ReadMagnitude(Fixed(c, e)); SameMagnitude(m.0, m.1, c, e)
  {
    if e >= 0 {
      ReadFixedWhole(c, e);
    } else if |Digits(c)| + e > 0 {
      ReadFixedPoint(c, e);
    } else {
      ReadFixedFraction(c, e);
    }
  }

  lemma PaddedRight(c: nat, e: nat)
    ensures AllDigits(Digits(c) + Zeros(e)) && Number(Digits(c) + Zeros(e)) == c * Pow10(e)
  {
    NumberOfDigits(c);
    NumberConcat(Digits(c), Zeros(e));
    NumberOfZeros(e);
  }

  lemma PaddedLeft(c: nat, n: nat)
    ensures AllDigits(Zeros(n) + Digits(c)) && Number(Zeros(n) + Digits(c)) == c
  {
    NumberOfDigits(c);
    NumberOfZeros(n);
    NumberConcat(Zeros(n), Digits(c));
  }

  lemma LeadingZero(ds: Text)
    requires AllDigits(ds)
    ensures AllDigits([DIGIT_ZERO] + ds) && Number([DIGIT_ZERO] + ds) == Number(ds)
  {
    NumberOfZero();
    NumberConcat([DIGIT_ZERO], ds);
  }

  lemma ReadFixedWhole(c: nat, e: nat)
    ensures ReadMagnitude(Fixed(c, e)) == (c * Pow10(e), 0)
  {
    PaddedRight(c, e);
    ReadWhole(Digits(c) + Zeros(e));
  }

  lemma ReadFixedPoint(c: nat, e: int)
    requires e < 0 < |Digits(c)| + e
    ensures ReadMagnitude(Fixed(c, e)) == (c, e)
  {
    var ds := Digits(c);
    NumberOfDigits(c);
    var whole, fraction := ds[..|ds| + e], ds[|ds| + e..];
    assert whole + fraction == ds;
    ReadPointed(whole, fraction);
  }

  lemma ReadFraction(fraction: Text)
    requires AllDigits(fraction)
    ensures ReadMagnitude([DIGIT_ZERO, POINT] + fraction) == (Number(fraction), -|fraction|)
  {
    LeadingZero(fraction);
    ReadPointed([DIGIT_ZERO], fraction);
    assert [DIGIT_ZERO, POINT] + fraction == [DIGIT_ZERO] + [POINT] + fraction;
  }

  lemma FractionDigits(c: nat, e: int) returns (fraction: Text)
    requires |Digits(c)| + e <= 0
    ensures AllDigits(fraction) && Number(fraction) == c && |fraction| == -e
    ensures Fixed(c, e) == [DIGIT_ZERO, POINT] + fraction
  {
    fraction := Zeros(-e - |Digits(c)|) + Digits(c);
    PaddedLeft(c, -e - |Digits(c)|);
  }

  lemma ReadFixedFraction(c: nat, e: int)
    requires |Digits(c)| + e <= 0
    ensures ReadMagnitude(Fixed(c, e)) == (c, e)
  {
    var fraction := FractionDigits(c, e);
    ReadFraction(fraction);
  }

  lemma NumberOfZero()
    ensures Number([DIGIT_ZERO]) == 0
  {
    assert [DIGIT_ZERO][..0] == [];
  }

  lemma FixedStartsWithDigit(c: nat, e: int)
    ensures Fixed(c, e) != [] && Fixed(c, e)[0] != MINUS
  {
    var ds := Digits(c);
    assert ds[0] in ds;
  }

  lemma ReadSigned(d: Decimal)
    requires d.Finite?
    ensures var m := ReadMagnitude(Fixed(d.coefficient, d.exponent)); ReadDecimal(Signed(d)) == Finite(d.negative, m.0, m.1)
  {
    var t := Fixed(d.coefficient, d.exponent);
    FixedStartsWithDigit(d.coefficient, d.exponent);
    assert ([MINUS] + t)[1..] == t && [] + t == t;
  }

  lemma SameMagnitudeSameZero(c1: nat, e1: int, c2: nat, e2: int)
    requires SameMagnitude(c1, e1, c2, e2)
    ensures c1 == 0 <==> c2 == 0
  {
    if e1 >= e2 {
      ProductIsZero(c1, Pow10(e1 - e2));
    } else {
      ProductIsZero(c2, Pow10(e2 - e1));
    }
  }

  /** The text says exactly the normalised number. */
  lemma ReadNormalized(d: Decimal)
    requires d.Finite? && d.coefficient > 0
    ensures NumericallyEqual(ReadDecimal(CanonicalDecimal(d).value), Normalize(d))
    ensures ReadDecimal(CanonicalDecimal(d).value).coefficient > 0
  {
    var r := Normalize(d);
    ReadSigned(r);
    ReadFixed(r.coefficient, r.exponent);
    var m := ReadMagnitude(Fixed(r.coefficient, r.exponent));
    SameMagnitudeSameZero(m.0, m.1, r.coefficient, r.exponent);
  }

  /** A whole part without leading zeros and a fraction without trailing zeros, the point only before a fraction. */
  ghost predicate PlainNotation(t: Text, whole: Text, fraction: Text) {
    && AllDigits(whole) && AllDigits(fraction)
    && whole != [] && (|whole| > 1 ==> whole[0] != DIGIT_ZERO)
    && (fraction != [] ==> fraction[|fraction| - 1] != DIGIT_ZERO)
    && t == whole + (if fraction == [] then [] else [POINT] + fraction)
  }

  lemma LastDigit(c: nat)
    requires c % 10 != 0
    ensures Digits(c)[|Digits(c)| - 1] != DIGIT_ZERO
  {
  }

  lemma WholeIsPlain(c: nat, e: nat)
    requires c % 10 != 0
    ensures PlainNotation(Fixed(c, e), Digits(c) + Zeros(e), [])
  {
  }

  lemma PointedIsPlain(c: nat, e: int)
    requires c % 10 != 0 && e < 0 < |Digits(c)| + e
    ensures var ds := Digits(c); PlainNotation(Fixed(c, e), ds[..|ds| + e], ds[|ds| + e..])
  {
    var ds := Digits(c);
    LastDigit(c);
    var fraction := ds[|ds| + e..];
    assert fraction[|fraction| - 1] == ds[|ds| - 1];
  }

  lemma FractionIsPlain(c: nat, e: int)
    requires c % 10 != 0 && |Digits(c)| + e <= 0
    ensures PlainNotation(Fixed(c, e), [DIGIT_ZERO], Zeros(-e - |Digits(c)|) + Digits(c))
  {
    LastDigit(c);
  }

  lemma FixedIsPlain(c: nat, e: int) returns (whole: Text, fraction: Text)
    requires c % 10 != 0
    ensures PlainNotation(Fixed(c, e), whole, fraction)
  {
    var ds := Digits(c);
    if e >= 0 {
      whole, fraction := ds + Zeros(e), [];
      WholeIsPlain(c, e);
    } else if |ds| + e > 0 {
      whole, fraction := ds[..|ds| + e], ds[|ds| + e..];
      PointedIsPlain(c, e);
    } else {
      whole, fraction := [DIGIT_ZERO], Zeros(-e - |ds|) + ds;
      FractionIsPlain(c, e);
    }
  }

  /** The text of a number: a sign for negative numbers that are not zero, and plain notation without superfluous zeros. */
  lemma TextIsPlain(d: Decimal) returns (whole: Text, fraction: Text)
    requires d.Finite?
    ensures CanonicalDecimal(d).Ok?
    ensures var t := CanonicalDecimal(d).value;
            var signed := d.negative && d.coefficient != 0;
            && (signed ==> t != [] && t[0] == MINUS)
            && PlainNotation(if signed then t[1..] else t, whole, fraction)
  {
    if d.coefficient == 0 {
      whole, fraction := [DIGIT_ZERO], [];
    } else {
      var r := Normalize(d);
      whole, fraction := FixedIsPlain(r.coefficient, r.exponent);
      assert ([MINUS] + Fixed(r.coefficient, r.exponent))[1..] == Fixed(r.coefficient, r.exponent);
    }
  }

  // ---------------------------------------------------------------------------------------------------
  // When the text determines the number
  // ---------------------------------------------------------------------------------------------------

  /** At most 28 significant digits are left without the trailing zeros. */
  predicate WithinPrecision(d: Decimal)
    requires d.Finite?
  {
    d.coefficient > 0 ==> |Digits(Strip(d.coefficient, d.exponent).0)| <= PRECISION
  }

  lemma FewDigits(c: nat, p: nat)
    requires c > 0
    ensures |Digits(c)| <= p <==> c < Pow10(p)
  {
    DigitCount(c);
    if |Digits(c)| <= p {
      Pow10Strict(|Digits(c)|, p);
    } else {
      Pow10Strict(p, |Digits(c)| - 1);
    }
  }

  lemma SmallerHasFewerDigits(a: nat, b: nat)
    requires 0 < a <= b
    ensures |Digits(a)| <= |Digits(b)|
  {
    FewDigits(b, |Digits(b)|);
    FewDigits(a, |Digits(b)|);
  }

  lemma HalfEvenBelow(c: nat, k: nat, p: nat)
    requires c < Pow10(p + k)
    ensures HalfEven(c, Pow10(k)) <= Pow10(p)
  {
    Pow10Sum(p, k);
    QuotientBelow(c, Pow10(k), Pow10(p));
  }

  lemma QuotientBelow(c: nat, p: nat, limit: nat)
    requires p > 0 && c < limit * p
    ensures c / p < limit
  {
    assert (c / p) * p <= c;
    MultipleBound(c / p - limit + 1, p);
    assert (c / p - limit + 1) * p == (c / p) * p - limit * p + p;
  }

  lemma Pow10EndsInZero(n: nat)
    requires n > 0
    ensures Pow10(n) % 10 == 0
  {
  }

  /** Rounding a coefficient of p + k digits to p digits leaves at most p, once the carry is stripped. */
  lemma RoundedIsShort(c: nat, k: nat, p: nat, e: int)
    requires c > 0 && p >= 1 && |Digits(c)| == p + k
    ensures HalfEven(c, Pow10(k)) > 0
    ensures |Digits(Strip(HalfEven(c, Pow10(k)), e).0)| <= p
  {
    HalfEvenPositive(c, k);
    FewDigits(c, p + k);
    HalfEvenBelow(c, k, p);
    Pow10EndsInZero(p);
    FewDigits(Strip(HalfEven(c, Pow10(k)), e).0, p);
  }

  lemma NormalizedIsShort(d: Decimal)
    requires d.Finite? && d.coefficient > 0
    ensures |Digits(Normalize(d).coefficient)| <= PRECISION
  {
    var n, rounded := |Digits(d.coefficient)|, Round(d.coefficient, d.exponent);
    if n > PRECISION {
      RoundedIsShort(d.coefficient, n - PRECISION, PRECISION, rounded.1);
    } else {
      SmallerHasFewerDigits(Strip(rounded.0, rounded.1).0, rounded.0);
    }
  }

  /** Normalising a number keeps its value exactly when it has at most 28 significant digits. */
  lemma NormalizeIsExactWithinPrecision(d: Decimal)
    requires d.Finite? && d.coefficient > 0
    ensures NumericallyEqual(Normalize(d), d) <==> WithinPrecision(d)
  {
    var s, r := Strip(d.coefficient, d.exponent), Normalize(d);
    SameMagnitudeIsSameStrip(r.coefficient, r.exponent, d.coefficient, d.exponent);
    NormalizedIsShort(d);
    if |Digits(s.0)| <= PRECISION {
      StripExpands(d.coefficient, d.exponent);
      RoundScaled(s.0, s.1, s.1 - d.exponent);
    }
  }

  /** The written text reads back as the number itself exactly when it has at most 28 significant digits. */
  lemma TextKeepsTheNumberExactlyWithinPrecision(d: Decimal)
    requires d.Finite?
    ensures NumericallyEqual(ReadDecimal(CanonicalDecimal(d).value), d) <==> WithinPrecision(d)
  {
    if d.coefficient == 0 {
      ReadWhole([DIGIT_ZERO]);
      NumberOfZero();
    } else {
      var read, r := ReadDecimal(CanonicalDecimal(d).value), Normalize(d);
      ReadNormalized(d);
      NormalizeIsExactWithinPrecision(d);
      SameMagnitudeIsSameStrip(read.coefficient, read.exponent, r.coefficient, r.exponent);
      SameMagnitudeIsSameStrip(read.coefficient, read.exponent, d.coefficient, d.exponent);
      SameMagnitudeIsSameStrip(r.coefficient, r.exponent, d.coefficient, d.exponent);
    }
  }

  /** Two texts agree exactly when both numbers are zero or the normalised numbers are equal. */
  lemma TextsAgreeExactlyWhenNormalizedAgree(a: Decimal, b: Decimal)
    requires a.Finite? && b.Finite?
    ensures CanonicalDecimal(a) == CanonicalDecimal(b) <==>
            if a.coefficient == 0 || b.coefficient == 0 then a.coefficient == b.coefficient else Normalize(a) == Normalize(b)
  {
    OnlyZeroPrintsZero(a);
    OnlyZeroPrintsZero(b);
    if a.coefficient > 0 && b.coefficient > 0 && CanonicalDecimal(a) == CanonicalDecimal(b) {
      var read, x, y := ReadDecimal(CanonicalDecimal(a).value), Normalize(a), Normalize(b);
      ReadNormalized(a);
      ReadNormalized(b);
      SameMagnitudeIsSameStrip(read.coefficient, read.exponent, x.coefficient, x.exponent);
      SameMagnitudeIsSameStrip(read.coefficient, read.exponent, y.coefficient, y.exponent);
    }
  }

  lemma OnlyZeroPrintsZero(d: Decimal)
    requires d.Finite?
    ensures CanonicalDecimal(d) == Ok([DIGIT_ZERO]) <==> d.coefficient == 0
  {
    if d.coefficient > 0 {
      ReadNormalized(d);
      ReadWhole([DIGIT_ZERO]);
      NumberOfZero();
    }
  }

  /** Within 28 significant digits, the texts agree exactly when the numbers are equal. */
  lemma TextsAgreeExactlyWhenEqual(a: Decimal, b: Decimal)
    requires a.Finite? && b.Finite? && WithinPrecision(a) && WithinPrecision(b)
    ensures CanonicalDecimal(a) == CanonicalDecimal(b) <==> NumericallyEqual(a, b)
  {
    if NumericallyEqual(a, b) {
      EqualNumbersPrintAlike(a, b);
    } else {
      OnlyZeroPrintsZero(a);
      OnlyZeroPrintsZero(b);
      if a.coefficient > 0 && b.coefficient > 0 {
        TextsAgreeExactlyWhenNormalizedAgree(a, b);
        NormalizedAgreeWhenEqual(a, b);
      }
    }
  }

  lemma NormalizedAgreeWhenEqual(a: Decimal, b: Decimal)
    requires a.Finite? && b.Finite? && WithinPrecision(a) && WithinPrecision(b)
    requires a.coefficient > 0 && b.coefficient > 0
    ensures Normalize(a) == Normalize(b) ==> NumericallyEqual(a, b)
  {
    NormalizeIsExactWithinPrecision(a);
    NormalizeIsExactWithinPrecision(b);
    var r := Normalize(a);
    SameMagnitudeIsSameStrip(r.coefficient, r.exponent, a.coefficient, a.exponent);
    SameMagnitudeIsSameStrip(r.coefficient, r.exponent, b.coefficient, b.exponent);
    SameMagnitudeIsSameStrip(a.coefficient, a.exponent, b.coefficient, b.exponent);
  }

  /** Beyond 28 significant digits the text always belongs to a different number as well. */
  lemma LongDecimalsCollide(d: Decimal) returns (other: Decimal)
    requires d.Finite? && !WithinPrecision(d)
    ensures other.Finite? && WithinPrecision(other) && !NumericallyEqual(other, d)
    ensures CanonicalDecimal(other) == CanonicalDecimal(d)
  {
    other := Normalize(d);
    NormalizeIsExactWithinPrecision(d);
    NormalizedIsShort(d);
  }
}
