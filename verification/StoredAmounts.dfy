/**
 Amounts of money as stored in a column with six decimal places (backend/app/domain/mandates.py, max_spend_usdc), next to
 the canonical text under which they were hashed before they were stored. The column rounds half away from zero.
 */
module StoredAmounts {
  import opened Wrappers
  import opened Numerals
  import opened CanonicalDecimals

  const PLACES := 6

  /** The largest amount of a grant: a hundredth of a unit, ten thousand millionths. */
  const LARGEST_EXPONENT := -2
  const LARGEST_STORED: nat := 10_000

  /** A finite amount above zero and at most one hundredth. */
  predicate Affordable(d: Decimal) {
    && d.Finite? && !d.negative && d.coefficient > 0
    && if d.exponent >= LARGEST_EXPONENT then d.coefficient * Pow10(d.exponent - LARGEST_EXPONENT) <= 1
       else d.coefficient <= Pow10(LARGEST_EXPONENT - d.exponent)
  }

  /** Written over a common power of ten, the amount is above zero and at most a hundredth. */
  lemma AffordableExactly(d: Decimal, k: nat)
    requires d.Finite? && k >= 2 && d.exponent + k >= 0
    ensures Affordable(d) <==> !d.negative && d.coefficient > 0 && d.coefficient * Pow10(d.exponent + k) <= Pow10(k - 2)
  {
    var c, e := d.coefficient, d.exponent;
    if e >= LARGEST_EXPONENT {
      Pow10Sum(e - LARGEST_EXPONENT, k - 2);
      Regroup(c, Pow10(e - LARGEST_EXPONENT), Pow10(k - 2));
      TimesIsMonotone(c * Pow10(e - LARGEST_EXPONENT), 1, Pow10(k - 2));
    } else {
      Pow10Sum(LARGEST_EXPONENT - e, e + k);
      TimesIsMonotone(c, Pow10(LARGEST_EXPONENT - e), Pow10(e + k));
    }
  }

  lemma TimesIsMonotone(a: nat, b: nat, p: nat)
    requires p > 0
    ensures a <= b <==> a * p <= b * p
  {
    if a > b {
      assert a * p == b * p + (a - b) * p;
    }
  }

  function HalfUp(c: nat, p: nat): nat
    requires p > 0
  {
    (2 * c + p) / (2 * p)
  }

  /** The millionths that the column keeps. */
  function Stored(d: Decimal): nat
    requires d.Finite?
  {
    if d.exponent >= -PLACES then d.coefficient * Pow10(d.exponent + PLACES)
    else HalfUp(d.coefficient, Pow10(-PLACES - d.exponent))
  }

  /** The number that is read back from the column. */
  function Loaded(millionths: nat): Decimal {
    Finite(false, millionths, -PLACES)
  }

  function TextOf(d: Decimal): Text
    requires d.Finite?
  {
    CanonicalDecimal(d).value
  }

  /** The number has no digits beyond the sixth decimal place. */
  predicate IsWhole(d: Decimal)
    requires d.Finite?
  {
    d.exponent >= -PLACES || d.coefficient % Pow10(-PLACES - d.exponent) == 0
  }

  /** The nearest number, and the greater one of two that are equally near. */
  lemma HalfUpExactly(c: nat, p: nat, k: nat)
    requires p > 0
    ensures HalfUp(c, p) == k <==> 2 * (k * p) - p <= 2 * c < 2 * (k * p) + p
  {
    var q := HalfUp(c, p);
    assert 2 * (q * p) == q * (2 * p) && 2 * (k * p) == k * (2 * p);
    if 2 * (k * p) - p <= 2 * c < 2 * (k * p) + p {
      QuotientIs(2 * c + p, 2 * p, k, 2 * c + p - k * (2 * p));
    }
  }

  lemma HalfUpNear(c: nat, p: nat, k: nat)
    requires p > 0 && 2 * (k * p) - p < 2 * c < 2 * (k * p) + p
    ensures HalfUp(c, p) == k
  {
    assert 2 * (k * p) == k * (2 * p);
    QuotientIs(2 * c + p, 2 * p, k, 2 * c + p - k * (2 * p));
  }

  lemma HalfUpBelow(c: nat, p: nat, limit: nat)
    requires p > 0 && c <= limit * p
    ensures HalfUp(c, p) <= limit
  {
    assert (limit + 1) * (2 * p) == 2 * (limit * p) + 2 * p;
    QuotientBelow(2 * c + p, 2 * p, limit + 1);
  }

  lemma TenThousand()
    ensures Pow10(4) == LARGEST_STORED
  {
  }

  lemma StoredIsBounded(d: Decimal)
    requires Affordable(d)
    ensures Stored(d) <= LARGEST_STORED
  {
    TenThousand();
    var c, e := d.coefficient, d.exponent;
    if e >= LARGEST_EXPONENT {
      Pow10Sum(e - LARGEST_EXPONENT, 4);
      Regroup(c, Pow10(e - LARGEST_EXPONENT), Pow10(4));
    } else if e >= -PLACES {
      Pow10Sum(LARGEST_EXPONENT - e, e + PLACES);
      AtMostTimes(c, Pow10(LARGEST_EXPONENT - e), Pow10(e + PLACES));
    } else {
      Pow10Sum(4, -PLACES - e);
      HalfUpBelow(c, Pow10(-PLACES - e), LARGEST_STORED);
    }
  }

  lemma AtMostTimes(a: nat, b: nat, k: nat)
    requires a <= b
    ensures a * k <= b * k
  {
  }

  lemma FiveDigits(k: nat)
    requires 0 < k <= LARGEST_STORED
    ensures |Digits(k)| <= 5
  {
    TenThousand();
    Pow10Strict(4, 5);
    FewDigits(k, 5);
  }

  /** A small number of millionths is normalised by stripping alone. */
  lemma LoadedIsExact(k: nat)
    requires 0 < k <= LARGEST_STORED
    ensures Normalize(Loaded(k)) == Finite(false, Strip(k, -PLACES).0, Strip(k, -PLACES).1)
    ensures Normalize(Loaded(k)).exponent >= -PLACES
  {
    FiveDigits(k);
  }

  // ---------------------------------------------------------------------------------------------------
  // Rounding to 28 digits and rounding to six places
  // ---------------------------------------------------------------------------------------------------

  /** Rounding to 28 digits moves an amount by less than half a millionth. */
  lemma RoundIsNear(d: Decimal)
    requires Affordable(d) && d.exponent < -PLACES
    ensures var r, p := Round(d.coefficient, d.exponent), Pow10(-PLACES - d.exponent);
            r.1 >= d.exponent && 2 * (r.0 * Pow10(r.1 - d.exponent)) - p < 2 * d.coefficient < 2 * (r.0 * Pow10(r.1 - d.exponent)) + p
  {
    var c, e, n := d.coefficient, d.exponent, |Digits(d.coefficient)|;
    if n <= PRECISION {
      assert Pow10(0) == 1;
    } else {
      var j := n - PRECISION;
      DigitCount(c);
      if n - 1 > LARGEST_EXPONENT - e {
        Pow10Strict(LARGEST_EXPONENT - e, n - 1);
      }
      Pow10Strict(j, -PLACES - e);
      RoundsHalfEven(c, Pow10(j));
    }
  }

  /** The normalised number as a whole number of millionths. */
  function Millionths(d: Decimal): nat
    requires d.Finite? && d.coefficient > 0 && Normalize(d).exponent >= -PLACES
  {
    Normalize(d).coefficient * Pow10(Normalize(d).exponent + PLACES)
  }

  lemma RoundedInSteps(d: Decimal)
    requires d.Finite? && d.coefficient > 0 && Normalize(d).exponent >= -PLACES && d.exponent < -PLACES
    ensures var r := Round(d.coefficient, d.exponent);
            r.1 >= d.exponent && r.0 * Pow10(r.1 - d.exponent) == Millionths(d) * Pow10(-PLACES - d.exponent)
  {
    var r, s, e := Round(d.coefficient, d.exponent), Normalize(d), d.exponent;
    StripExpands(r.0, r.1);
    Pow10Sum(s.exponent - r.1, r.1 - e);
    Regroup(s.coefficient, Pow10(s.exponent - r.1), Pow10(r.1 - e));
    Pow10Sum(s.exponent + PLACES, -PLACES - e);
    Regroup(s.coefficient, Pow10(s.exponent + PLACES), Pow10(-PLACES - e));
  }

  lemma FewDigitsOfCoarse(d: Decimal)
    requires Affordable(d) && d.exponent >= -PLACES
    ensures |Digits(d.coefficient)| <= 5
  {
    StoredIsBounded(d);
    var p := Pow10(d.exponent + PLACES);
    assert d.coefficient <= d.coefficient * p;
    FiveDigits(d.coefficient);
  }

  /** If the canonical text has no more than six decimals, the column keeps what the text says. */
  lemma StoredIsTheText(d: Decimal)
    requires Affordable(d) && Normalize(d).exponent >= -PLACES
    ensures Stored(d) == Millionths(d)
  {
    var e := d.exponent;
    if e < -PLACES {
      RoundIsNear(d);
      RoundedInSteps(d);
      HalfUpNear(d.coefficient, Pow10(-PLACES - e), Millionths(d));
    } else {
      FewDigitsOfCoarse(d);
      StripExpands(d.coefficient, e);
      var s := Normalize(d);
      Pow10Sum(s.exponent - e, e + PLACES);
      Regroup(s.coefficient, Pow10(s.exponent - e), Pow10(e + PLACES));
    }
  }

  lemma MillionthsNormalize(d: Decimal)
    requires Affordable(d) && Normalize(d).exponent >= -PLACES
    ensures 0 < Millionths(d) <= LARGEST_STORED
    ensures Normalize(Loaded(Millionths(d))) == Normalize(d)
  {
    var s := Normalize(d);
    StoredIsTheText(d);
    StoredIsBounded(d);
    StripScaled(s.coefficient, s.exponent, s.exponent + PLACES);
    LoadedIsExact(Millionths(d));
  }

  /** The stored amount has the text under which the amount was hashed exactly if that text has at most six decimals. */
  lemma StoredKeepsTextExactly(d: Decimal)
    requires Affordable(d)
    ensures TextOf(Loaded(Stored(d))) == TextOf(d) <==> Normalize(d).exponent >= -PLACES
  {
    var k := Stored(d);
    StoredIsBounded(d);
    TextsAgreeExactlyWhenNormalizedAgree(Loaded(k), d);
    if Normalize(d).exponent >= -PLACES {
      StoredIsTheText(d);
      MillionthsNormalize(d);
    } else if k > 0 {
      LoadedIsExact(k);
    }
  }

  lemma NormalizedIsStripped(d: Decimal)
    requires d.Finite? && d.coefficient > 0 && WithinPrecision(d)
    ensures (Normalize(d).coefficient, Normalize(d).exponent) == Strip(d.coefficient, d.exponent)
  {
    NormalizeIsExactWithinPrecision(d);
    var r := Normalize(d);
    SameMagnitudeIsSameStrip(r.coefficient, r.exponent, d.coefficient, d.exponent);
  }

  lemma CoarseIsMultiple(c: nat, e: int)
    requires c > 0 && e < -PLACES && Strip(c, e).1 >= -PLACES
    ensures c % Pow10(-PLACES - e) == 0
  {
    var s, j := Strip(c, e), -PLACES - e;
    StripExpands(c, e);
    Pow10Sum(s.1 + PLACES, j);
    Regroup(s.0, Pow10(s.1 + PLACES), Pow10(j));
    QuotientIs(c, Pow10(j), s.0 * Pow10(s.1 + PLACES), 0);
  }

  lemma MultipleIsCoarse(c: nat, e: int)
    requires c > 0 && e < -PLACES && c % Pow10(-PLACES - e) == 0
    ensures Strip(c, e).1 >= -PLACES
  {
    var j := -PLACES - e;
    assert c == (c / Pow10(j)) * Pow10(j);
    StripScaled(c / Pow10(j), -PLACES, j);
  }

  lemma WholeHasCoarseText(d: Decimal)
    requires d.Finite? && d.coefficient > 0 && WithinPrecision(d)
    ensures IsWhole(d) <==> Normalize(d).exponent >= -PLACES
  {
    NormalizedIsStripped(d);
    if d.exponent < -PLACES {
      if Normalize(d).exponent >= -PLACES {
        CoarseIsMultiple(d.coefficient, d.exponent);
      } else if d.coefficient % Pow10(-PLACES - d.exponent) == 0 {
        MultipleIsCoarse(d.coefficient, d.exponent);
      }
    }
  }

  /** For an amount of at most 28 significant digits that is: exactly if it is a whole number of millionths. */
  lemma StoredKeepsTextOfWhole(d: Decimal)
    requires Affordable(d) && WithinPrecision(d)
    ensures TextOf(Loaded(Stored(d))) == TextOf(d) <==> IsWhole(d)
  {
    StoredKeepsTextExactly(d);
    WholeHasCoarseText(d);
  }
}
