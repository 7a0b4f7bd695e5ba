/** Decimal numerals as text: writing a natural number and reading it back. */
module Numerals {

  type CodePoint = c: int | 0 <= c < 0x11_0000 witness 0

  type Text = seq<CodePoint>

  const DIGIT_ZERO: CodePoint := '0' as int
  const DIGIT_NINE: CodePoint := '9' as int
  const MINUS: CodePoint := '-' as int

  predicate IsDigit(c: CodePoint) {
    DIGIT_ZERO <= c <= DIGIT_NINE
  }

  predicate AllDigits(t: Text) {
    forall c | c in t :: IsDigit(c)
  }

  predicate NoDigitFirst(t: Text) {
    t != [] ==> !IsDigit(t[0])
  }

  function Pow10(n: nat): (p: nat)
    ensures p >= 1
  {
    if n == 0 then 1 else 10 * Pow10(n - 1)
  }

  function Digits(n: nat): (t: Text)
    ensures t != [] && AllDigits(t)
    ensures n > 0 ==> t[0] != DIGIT_ZERO
  {
    if n < 10 then [DIGIT_ZERO + n] else Digits(n / 10) + [DIGIT_ZERO + n % 10]
  }

  function Number(ds: Text): nat
    requires AllDigits(ds)
  {
    if ds == [] then 0
    else
      assert ds[|ds| - 1] in ds;
      Number(ds[..|ds| - 1]) * 10 + (ds[|ds| - 1] - DIGIT_ZERO)
  }

  function Zeros(n: nat): (t: Text)
    ensures |t| == n && AllDigits(t)
  {
    if n == 0 then [] else Zeros(n - 1) + [DIGIT_ZERO]
  }

  /** The length of the longest prefix of digits. */
  function DigitPrefix(t: Text): (n: nat)
    ensures n <= |t| && AllDigits(t[..n])
  {
    if t == [] || !IsDigit(t[0]) then 0
    else
      var n := DigitPrefix(t[1..]);
      assert t[..n + 1] == [t[0]] + t[1..][..n];
      n + 1
  }

  lemma {:induction false} NumberOfDigits(n: nat)
    ensures Number(Digits(n)) == n
  {
    if n >= 10 {
      NumberOfDigits(n / 10);
      assert Digits(n)[..|Digits(n)| - 1] == Digits(n / 10);
    } else {
      assert [DIGIT_ZERO + n][..0] == [];
    }
  }

  /** Digits without a leading zero are the only numeral of their number. */
  lemma {:induction false} DigitsOfNumber(ds: Text)
    requires ds != [] && AllDigits(ds) && (|ds| > 1 ==> ds[0] != DIGIT_ZERO)
    ensures Digits(Number(ds)) == ds
    ensures |ds| > 1 ==> Number(ds) >= 10
  {
    var n := |ds| - 1;
    assert ds[n] in ds && ds == ds[..n] + [ds[n]];
    if n == 0 {
      assert Number(ds[..0]) == 0;
    } else {
      DigitsOfNumber(ds[..n]);
      if n == 1 {
        assert ds[..1][..0] == [];
      }
    }
  }

  /** Reading digits stops exactly where they end. */
  lemma {:induction false} DigitsEnd(ds: Text, rest: Text)
    requires AllDigits(ds) && NoDigitFirst(rest)
    ensures DigitPrefix(ds + rest) == |ds|
  {
    if ds == [] {
      assert ds + rest == rest;
    } else {
      assert (ds + rest)[1..] == ds[1..] + rest;
      DigitsEnd(ds[1..], rest);
      assert ds[0] in ds;
    }
  }

  lemma {:induction false} NumberConcat(a: Text, b: Text)
    requires AllDigits(a) && AllDigits(b)
    ensures AllDigits(a + b)
    ensures Number(a + b) == Number(a) * Pow10(|b|) + Number(b)
  {
    if b == [] {
      assert a + b == a;
    } else {
      var n := |b| - 1;
      NumberConcat(a, b[..n]);
      assert (a + b)[..|a + b| - 1] == a + b[..n];
      ShiftedSum(Number(a), Pow10(n), Number(b[..n]));
    }
  }

  lemma ShiftedSum(a: int, p: int, b: int)
    ensures (a * p + b) * 10 == a * (10 * p) + b * 10
  {
  }

  lemma {:induction false} NumberOfZeros(n: nat)
    ensures Number(Zeros(n)) == 0
  {
    if n > 0 {
      NumberOfZeros(n - 1);
      assert Zeros(n)[..n - 1] == Zeros(n - 1);
    }
  }

  lemma {:induction false} Pow10Sum(a: nat, b: nat)
    ensures Pow10(a + b) == Pow10(a) * Pow10(b)
  {
    if a > 0 {
      Pow10Sum(a - 1, b);
      assert Pow10(a + b) == 10 * Pow10(a - 1 + b);
    }
  }

  /** The number of digits locates a positive number between two powers of ten. */
  lemma {:induction false} DigitCount(n: nat)
    requires n > 0
    ensures Pow10(|Digits(n)| - 1) <= n < Pow10(|Digits(n)|)
  {
    if n >= 10 {
      DigitCount(n / 10);
    }
  }

  lemma {:induction false} Pow10Strict(a: nat, b: nat)
    requires a <= b
    ensures Pow10(a) <= Pow10(b)
    ensures a < b ==> Pow10(a) < Pow10(b)
  {
    if a < b {
      Pow10Strict(a, b - 1);
    }
  }
}
