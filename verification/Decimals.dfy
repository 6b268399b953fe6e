/** Decimal numbers with a coefficient and a power-of-ten exponent, and arithmetic in a context that keeps
    only so many coefficient digits. */
module Decimals {

  function Pow10(n: nat): (p: int)
    ensures p >= 1
  {
    if n == 0 then 1 else 10 * Pow10(n - 1)
  }

  lemma {:induction false} Pow10Add(m: nat, n: nat)
    ensures Pow10(m + n) == Pow10(m) * Pow10(n)
  {
    if m > 0 {
      Pow10Add(m - 1, n);
      TenTimes(Pow10(m - 1), Pow10(n));
    }
  }

  lemma {:induction false} TenTimes(a: int, b: int)
    ensures 10 * (a * b) == (10 * a) * b
  {
  }

  lemma {:induction false} Pow10Monotone(m: nat, n: nat)
    requires m <= n
    ensures Pow10(m) <= Pow10(n)
  {
    if m < n {
      Pow10Monotone(m, n - 1);
    }
  }

  function AbsInt(n: int): nat { if n < 0 then -n else n }

  /** Decimal digits of a coefficient; 0 has one digit. */
  function Digits(n: nat): (d: nat)
    ensures d >= 1
  {
    if n < 10 then 1 else 1 + Digits(n / 10)
  }

  lemma {:induction false} DigitsBound(n: nat)
    ensures n < Pow10(Digits(n))
    ensures n > 0 ==> Pow10(Digits(n) - 1) <= n
  {
    if n >= 10 {
      DigitsBound(n / 10);
    }
  }

  /** A number below 10^k, k >= 1, has at most k digits. */
  lemma {:induction false} FewDigits(n: nat, k: nat)
    requires k >= 1 && n < Pow10(k)
    ensures Digits(n) <= k
  {
    DigitsBound(n);
    if Digits(n) > k {
      Pow10Monotone(k, Digits(n) - 1);
    }
  }

  lemma {:induction false} DigitsAre(n: nat, k: nat)
    requires k >= 1 && n < Pow10(k) && (k > 1 ==> Pow10(k - 1) <= n)
    ensures Digits(n) == k
  {
    FewDigits(n, k);
    DigitsBound(n);
    if Digits(n) < k {
      Pow10Monotone(Digits(n), k - 1);
    }
  }

  datatype Decimal = Decimal(coefficient: int, exponent: int)

  /** Position of the leading digit. */
  function Adjusted(d: Decimal): int {
    Digits(AbsInt(d.coefficient)) - 1 + d.exponent
  }

  /** The value times 10^scale, for a scale that makes it whole. */
  function AtScale(d: Decimal, scale: nat): int
    requires d.exponent + scale >= 0
  {
    d.coefficient * Pow10(d.exponent + scale)
  }

  /** Nearest integer, ties to even. */
  function RoundHalfEven(x: real): int {
    var f := x.Floor;
    var rest := x - f as real;
    if rest < 0.5 then f else if rest > 0.5 then f + 1 else if f % 2 == 0 then f else f + 1
  }

  lemma {:induction false} RoundHalfEvenError(x: real)
    ensures RoundHalfEven(x) as real - 0.5 <= x <= RoundHalfEven(x) as real + 0.5
  {
  }

  /** Rounding is to the nearest integer, and a tie goes to the even neighbour. */
  lemma {:induction false} RoundHalfEvenMeans(x: real, n: int)
    ensures n as real - 0.5 < x < n as real + 0.5 ==> RoundHalfEven(x) == n
    ensures x == n as real + 0.5 ==> RoundHalfEven(x) in {n, n + 1} && RoundHalfEven(x) % 2 == 0
  {
    if n as real <= x < (n + 1) as real {
      assert x.Floor == n;
    } else if (n - 1) as real <= x < n as real {
      assert x.Floor == n - 1;
    }
  }

  /** What the context does to an exact result: nothing while the coefficient fits, else rounding. */
  function Rounded(d: Decimal, prec: nat): Decimal {
    var n := Digits(AbsInt(d.coefficient));
    if n <= prec then d
    else Decimal(RoundHalfEven(d.coefficient as real / Pow10(n - prec) as real), d.exponent + n - prec)
  }

  /** A coefficient of at most prec digits is kept; of one with k more, the last k are rounded off, to the nearest
      multiple of 10^k and of two equally near to the even one. */
  lemma {:induction false} RoundedMeans(d: Decimal, prec: nat, k: nat)
    requires prec >= 1 && AbsInt(d.coefficient) < Pow10(prec + k)
    requires k > 0 ==> Pow10(prec + k - 1) <= AbsInt(d.coefficient)
    ensures k == 0 ==> Rounded(d, prec) == d
    ensures k > 0 ==>
      var r := Rounded(d, prec);
      && r.exponent == d.exponent + k
      && 2 * AbsInt(r.coefficient * Pow10(k) - d.coefficient) <= Pow10(k)
      && (2 * AbsInt(r.coefficient * Pow10(k) - d.coefficient) == Pow10(k) ==> r.coefficient % 2 == 0)
  {
    hide Digits, RoundHalfEven, AbsInt;
    if k == 0 {
      FewDigits(AbsInt(d.coefficient), prec);
    } else {
      DigitsAre(AbsInt(d.coefficient), prec + k);
      NearestMultiple(d.coefficient, Pow10(k), RoundHalfEven(d.coefficient as real / Pow10(k) as real));
    }
  }

  lemma {:induction false} NearestMultiple(c: int, p: int, r: int)
    requires p >= 1 && r == RoundHalfEven(c as real / p as real)
    ensures 2 * AbsInt(r * p - c) <= p
    ensures 2 * AbsInt(r * p - c) == p ==> r % 2 == 0
  {
    hide RoundHalfEven;
    var x := c as real / p as real;
    RoundHalfEvenError(x);
    RoundHalfEvenMeans(x, r);
    RoundHalfEvenMeans(x, r - 1);
    OffsetOfMultiple(c as real, p as real, x, r as real);
    assert (r * p) as real == r as real * p as real;
  }

  lemma {:induction false} OffsetOfMultiple(c: real, p: real, x: real, r: real)
    requires p >= 1.0 && x == c / p && r - 0.5 <= x <= r + 0.5
    ensures -p <= 2.0 * (r * p - c) <= p
    ensures 2.0 * (r * p - c) == p ==> x == r - 1.0 + 0.5
    ensures 2.0 * (r * p - c) == -p ==> x == r + 0.5
  {
    assert x * p == c;
    var t := r - x;
    assert t * p == r * p - c;
    HalfTimes(t, p);
  }

  lemma {:induction false} HalfTimes(t: real, p: real)
    requires p >= 1.0 && -0.5 <= t <= 0.5
    ensures -p <= 2.0 * (t * p) <= p
    ensures 2.0 * (t * p) == p ==> t == 0.5
    ensures 2.0 * (t * p) == -p ==> t == -0.5
  {
    assert (0.5 - t) * p >= 0.0 && (t + 0.5) * p >= 0.0;
    assert (0.5 - t) * p == 0.5 * p - t * p && (t + 0.5) * p == t * p + 0.5 * p;
    if t < 0.5 {
      assert (0.5 - t) * p > 0.0;
    }
    if t > -0.5 {
      assert (t + 0.5) * p > 0.0;
    }
  }

  function Min(a: int, b: int): int { if a <= b then a else b }

  function ExactSum(a: Decimal, b: Decimal): Decimal {
    var e := Min(a.exponent, b.exponent);
    Decimal(a.coefficient * Pow10(a.exponent - e) + b.coefficient * Pow10(b.exponent - e), e)
  }

  function ContextSum(a: Decimal, b: Decimal, prec: nat): Decimal {
    Rounded(ExactSum(a, b), prec)
  }

  function ExactProduct(a: Decimal, b: Decimal): Decimal {
    Decimal(a.coefficient * b.coefficient, a.exponent + b.exponent)
  }

  function ContextProduct(a: Decimal, b: Decimal, prec: nat): Decimal {
    Rounded(ExactProduct(a, b), prec)
  }

  lemma {:induction false} ExactSumValue(a: Decimal, b: Decimal, scale: nat)
    requires a.exponent + scale >= 0 && b.exponent + scale >= 0
    ensures ExactSum(a, b).exponent + scale >= 0
    ensures AtScale(ExactSum(a, b), scale) == AtScale(a, scale) + AtScale(b, scale)
  {
    var e := Min(a.exponent, b.exponent);
    Pow10Add(a.exponent - e, e + scale);
    Pow10Add(b.exponent - e, e + scale);
    SumAlgebra(a.coefficient, Pow10(a.exponent - e), b.coefficient, Pow10(b.exponent - e), Pow10(e + scale));
  }

  lemma {:induction false} SumAlgebra(a: int, p: int, b: int, q: int, s: int)
    ensures (a * p + b * q) * s == a * (p * s) + b * (q * s)
  {
  }

  /** A value is below the power of ten above its leading digit. */
  lemma {:induction false} AtScaleBound(d: Decimal, scale: nat, k: nat)
    requires d.exponent + scale >= 0 && Adjusted(d) + 1 + scale <= k
    ensures AbsInt(AtScale(d, scale)) < Pow10(k)
  {
    var c, e := AbsInt(d.coefficient), d.exponent + scale;
    DigitsBound(c);
    Pow10Add(Digits(c), e);
    Pow10Monotone(Digits(c) + e, k);
    ScaledBound(d.coefficient, Pow10(Digits(c)), Pow10(e));
  }

  lemma {:induction false} ScaledBound(c: int, bound: int, p: int)
    requires AbsInt(c) < bound && p >= 1
    ensures AbsInt(c * p) < bound * p
  {
    if c < 0 {
      assert (-c) * p < bound * p;
    }
  }

  /** The coefficient is no larger than the value at a finer scale. */
  lemma {:induction false} CoefficientBelowScaled(d: Decimal, scale: nat)
    requires d.exponent + scale >= 0
    ensures AbsInt(d.coefficient) <= AbsInt(AtScale(d, scale))
  {
    Grows(d.coefficient, Pow10(d.exponent + scale));
  }

  lemma {:induction false} Grows(c: int, p: int)
    requires p >= 1
    ensures AbsInt(c) <= AbsInt(c * p)
  {
    if c > 0 {
      assert c <= c * p;
    } else if c < 0 {
      assert -c <= (-c) * p;
    }
  }
}
