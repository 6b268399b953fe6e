/** The Decimal precision under which monetary sums and products are exact. */
module NumericalBoundary {
  import opened Wrappers
  import opened RealArithmetic
  import opened Decimals

  const MAX_PRECISION: nat := 4096
  const COMPOSITE_RETURN_PLACES: nat := 12
  const COMPOSITE_ASSET_PLACES: nat := 6

  function MaxInt(a: int, b: int): int { if a >= b then a else b }

  function IntegerDigits(values: seq<Decimal>): (n: nat)
    ensures n >= 1
    ensures forall d :: d in values ==> Adjusted(d) + 1 <= n
  {
    if values == [] then 1 else MaxInt(MaxInt(1, Adjusted(values[0]) + 1), IntegerDigits(values[1..]))
  }

  function FractionalDigits(values: seq<Decimal>): (n: nat)
    ensures forall d :: d in values ==> d.exponent + n >= 0
  {
    if values == [] then 0 else MaxInt(MaxInt(0, -values[0].exponent), FractionalDigits(values[1..]))
  }

  function LongestCoefficient(values: seq<Decimal>): (n: nat)
    ensures n >= 1
    ensures forall d :: d in values ==> Digits(AbsInt(d.coefficient)) <= n
  {
    if values == [] then 1 else MaxInt(Digits(AbsInt(values[0].coefficient)), LongestCoefficient(values[1..]))
  }

  function Precision(values: seq<Decimal>, products: bool): nat {
    var span := IntegerDigits(values) + FractionalDigits(values);
    (if products then MaxInt(span, 2 * LongestCoefficient(values)) else span) + Digits(|values|) + 16
  }

  datatype DomainError = BoundedDecimalDomainExceeded

  function RequiredMonetaryPrecision(values: seq<Decimal>, products: bool): Result<nat, DomainError> {
    var p := Precision(values, products);
    if p > MAX_PRECISION then Failure(BoundedDecimalDomainExceeded) else Success(p)
  }

  /** The precision is the digits before the point, the digits after it, those of the count, and 16 in reserve; for
      products at least twice the longest coefficient in place of the first two. Each maximum is attained. */
  lemma {:induction false} PrecisionMeans(values: seq<Decimal>)
    ensures var i, f, l := IntegerDigits(values), FractionalDigits(values), LongestCoefficient(values);
      && (i == 1 || exists d :: d in values && i == Adjusted(d) + 1)
      && (f == 0 || exists d :: d in values && f == -d.exponent)
      && (l == 1 || exists d :: d in values && l == Digits(AbsInt(d.coefficient)))
      && Precision(values, false) == i + f + Digits(|values|) + 16
      && Precision(values, true) == (if i + f >= l + l then i + f else l + l) + Digits(|values|) + 16
  {
    hide Digits, AbsInt, Adjusted;
    if values != [] {
      PrecisionMeans(values[1..]);
      assert values[0] in values;
      assert forall d :: d in values[1..] ==> d in values;
    }
  }

  // ---------------------------------------------------------------- sums

  /** A signed use of each value: -1, 0 or 1 times. */
  predicate Signs(signs: seq<int>) {
    forall i :: 0 <= i < |signs| ==> -1 <= signs[i] <= 1
  }

  function Signed(d: Decimal, sign: int): Decimal {
    Decimal(sign * d.coefficient, d.exponent)
  }

  /** The exact signed sum of the first n values, times 10^scale. */
  function SignedSum(values: seq<Decimal>, signs: seq<int>, scale: nat, n: nat): int
    requires n <= |values| == |signs|
    requires forall d :: d in values ==> d.exponent + scale >= 0
  {
    if n == 0 then 0 else SignedSum(values, signs, scale, n - 1) + signs[n - 1] * AtScale(values[n - 1], scale)
  }

  lemma {:induction false} SignedSumBound(values: seq<Decimal>, signs: seq<int>, n: nat)
    requires n <= |values| == |signs| && Signs(signs)
    ensures var f := FractionalDigits(values);
            AbsInt(SignedSum(values, signs, f, n)) <= n * Pow10(IntegerDigits(values) + f)
  {
    if n > 0 {
      var f := FractionalDigits(values);
      SignedSumBound(values, signs, n - 1);
      AtScaleBound(values[n - 1], f, IntegerDigits(values) + f);
      OneMoreTerm(SignedSum(values, signs, f, n - 1), signs[n - 1], AtScale(values[n - 1], f),
                  Pow10(IntegerDigits(values) + f), n - 1);
    }
  }

  lemma {:induction false} OneMoreTerm(sum: int, sign: int, term: int, bound: int, n: nat)
    requires AbsInt(sum) <= n * bound && -1 <= sign <= 1 && AbsInt(term) < bound
    ensures AbsInt(sum + sign * term) <= (n + 1) * bound
  {
    assert sign * term == term || sign * term == -term || sign * term == 0;
    assert (n + 1) * bound == n * bound + bound;
  }

  /** Every signed sum that uses each value at most once fits the precision. */
  lemma {:induction false} SignedSumFits(values: seq<Decimal>, signs: seq<int>, n: nat)
    requires n <= |values| == |signs| && Signs(signs)
    ensures AbsInt(SignedSum(values, signs, FractionalDigits(values), n)) < Pow10(Precision(values, false))
  {
    var f, i := FractionalDigits(values), IntegerDigits(values);
    SignedSumBound(values, signs, n);
    DigitsBound(|values|);
    Pow10Add(Digits(|values|), i + f);
    Pow10Monotone(Digits(|values|) + (i + f), Precision(values, false));
    CountBound(n, |values|, Pow10(Digits(|values|)), Pow10(i + f));
  }

  lemma {:induction false} CountBound(n: nat, count: nat, p: int, b: int)
    requires n <= count < p && b >= 1
    ensures n * b < p * b
  {
  }

  /** A running sum in a context of at least the required precision never rounds. */
  method SumInContext(values: seq<Decimal>, signs: seq<int>, prec: nat) returns (sum: Decimal)
    requires |values| == |signs| && Signs(signs) && prec >= Precision(values, false)
    ensures sum.exponent + FractionalDigits(values) >= 0
    ensures AtScale(sum, FractionalDigits(values)) == SignedSum(values, signs, FractionalDigits(values), |values|)
  {
    hide AtScale, SignedSum, Precision, ExactSum;
    ghost var f := FractionalDigits(values);
    sum := Decimal(0, 0);
    EmptySum(values, signs, f);
    for k := 0 to |values|
      invariant sum.exponent + f >= 0 && AtScale(sum, f) == SignedSum(values, signs, f, k)
    {
      NextSumExact(values, signs, prec, k, sum);
      sum := ContextSum(sum, Signed(values[k], signs[k]), prec);
    }
  }

  lemma {:induction false} EmptySum(values: seq<Decimal>, signs: seq<int>, f: nat)
    requires |values| == |signs| && f == FractionalDigits(values)
    ensures AtScale(Decimal(0, 0), f) == SignedSum(values, signs, f, 0)
  {
  }

  lemma {:induction false} NextSumExact(values: seq<Decimal>, signs: seq<int>, prec: nat, k: nat, sum: Decimal)
    requires k < |values| == |signs| && Signs(signs) && prec >= Precision(values, false)
    requires sum.exponent + FractionalDigits(values) >= 0
    requires AtScale(sum, FractionalDigits(values)) == SignedSum(values, signs, FractionalDigits(values), k)
    ensures var f := FractionalDigits(values);
      var next := ContextSum(sum, Signed(values[k], signs[k]), prec);
      && next == ExactSum(sum, Signed(values[k], signs[k]))
      && next.exponent + f >= 0
      && AtScale(next, f) == SignedSum(values, signs, f, k + 1)
  {
    var f, term := FractionalDigits(values), Signed(values[k], signs[k]);
    var next := ExactSum(sum, term);
    assert values[k] in values;
    ExactSumValue(sum, term, f);
    SignedScale(signs[k], values[k], f);
    SignedSumFits(values, signs, k + 1);
    CoefficientBelowScaled(next, f);
    FewDigits(AbsInt(next.coefficient), Precision(values, false));
  }

  lemma {:induction false} SignedScale(sign: int, d: Decimal, f: nat)
    requires d.exponent + f >= 0
    ensures AtScale(Signed(d, sign), f) == sign * AtScale(d, f)
  {
    Reassociate(sign, d.coefficient, Pow10(d.exponent + f));
  }

  lemma {:induction false} Reassociate(a: int, b: int, c: int)
    ensures (a * b) * c == a * (b * c)
  {
  }

  /** No signed sum of the values has more digits than the computed precision. */
  lemma {:induction false} SumDigits(values: seq<Decimal>, signs: seq<int>, sum: Decimal)
    requires |values| == |signs| && Signs(signs) && sum.exponent + FractionalDigits(values) >= 0
    requires AtScale(sum, FractionalDigits(values)) == SignedSum(values, signs, FractionalDigits(values), |values|)
    ensures Digits(AbsInt(sum.coefficient)) <= Precision(values, false)
  {
    hide SignedSum, AtScale;
    SignedSumFits(values, signs, |values|);
    CoefficientBelowScaled(sum, FractionalDigits(values));
    FewDigits(AbsInt(sum.coefficient), Precision(values, false));
  }

  /** A signed sum under the monetary context: refused when the values span too many digits, otherwise exact
      whatever the ambient precision. */
  method MonetarySum(values: seq<Decimal>, signs: seq<int>, ambient: nat) returns (r: Result<Decimal, DomainError>)
    requires |values| == |signs| && Signs(signs)
    ensures r.Failure? <==>
      IntegerDigits(values) + FractionalDigits(values) + Digits(|values|) + 16 > MAX_PRECISION
    ensures r.Success? ==>
      && r.value.exponent + FractionalDigits(values) >= 0
      && AtScale(r.value, FractionalDigits(values)) == SignedSum(values, signs, FractionalDigits(values), |values|)
      && Digits(AbsInt(r.value.coefficient)) <= MAX_PRECISION
  {
    hide AtScale, SignedSum;
    var required := RequiredMonetaryPrecision(values, false);
    if required.Failure? {
      return Failure(required.error);
    }
    var prec := if ambient >= required.value then ambient else required.value;
    var sum := SumInContext(values, signs, prec);
    SumDigits(values, signs, sum);
    return Success(sum);
  }

  // ---------------------------------------------------------------- products

  /** In product mode every pairwise product of the values keeps both full coefficients. */
  lemma {:induction false} PairwiseProductExact(values: seq<Decimal>, a: Decimal, b: Decimal, prec: nat)
    requires a in values && b in values && prec >= Precision(values, true)
    ensures ContextProduct(a, b, prec) == ExactProduct(a, b)
  {
    var x, y, n := AbsInt(a.coefficient), AbsInt(b.coefficient), LongestCoefficient(values);
    DigitsBound(x);
    DigitsBound(y);
    Pow10Monotone(Digits(x), n);
    Pow10Monotone(Digits(y), n);
    Pow10Add(n, n);
    ProductBelow(a.coefficient, b.coefficient, Pow10(n));
    FewDigits(AbsInt(a.coefficient * b.coefficient), n + n);
  }

  lemma {:induction false} ProductBelow(a: int, b: int, p: int)
    requires AbsInt(a) < p && AbsInt(b) < p
    ensures AbsInt(a * b) < p * p
  {
    MagnitudesBelow(AbsInt(a), AbsInt(b), p);
    MagnitudeOfProduct(a, b);
  }

  lemma {:induction false} MagnitudeOfProduct(a: int, b: int)
    ensures AbsInt(a * b) == AbsInt(a) * AbsInt(b)
  {
    if a < 0 {
      assert a * b == -((-a) * b);
    }
    if b < 0 {
      assert a * b == -(a * (-b));
    }
  }

  lemma {:induction false} MagnitudesBelow(x: nat, y: nat, p: int)
    requires x < p && y < p
    ensures x * y < p * p
  {
    assert x * y <= x * p;
    assert x * p < p * p;
  }

  /** Product mode covers the sums as well. */
  lemma {:induction false} ProductModeCoversSums(values: seq<Decimal>)
    ensures Precision(values, true) >= Precision(values, false)
  {
  }

  // ---------------------------------------------------------------- quantisation

  function ToReal(d: Decimal): real {
    if d.exponent >= 0 then (d.coefficient * Pow10(d.exponent)) as real
    else d.coefficient as real / Pow10(-d.exponent) as real
  }

  /** v in units of 1 / unit, rounded. */
  function RoundedUnits(v: real, unit: int): int {
    RoundHalfEven(v * unit as real)
  }

  function UnitsToReal(n: int, unit: int): real
    requires unit >= 1
  {
    n as real / unit as real
  }

  /** Coefficient of the value rounded to a number of decimal places. */
  function QuantizedCoefficient(v: real, places: nat): int {
    RoundedUnits(v, Pow10(places))
  }

  /** The value rounded to a number of decimal places. */
  function Quantize(v: real, places: nat): real {
    UnitsToReal(QuantizedCoefficient(v, places), Pow10(places))
  }

  /** The precision the composite quantiser sets for a nonzero value. */
  function QuantizePrecision(d: Decimal): int {
    MaxInt(28, Adjusted(d) + 18)
  }

  /** Of a value whose leading digit stands for 10^k the quantiser sets 28 digits up to k = 10 and k + 18 beyond. */
  lemma {:induction false} QuantizePrecisionMeans(d: Decimal, k: int)
    requires d.exponent <= k
    requires Pow10(k - d.exponent) <= AbsInt(d.coefficient) < Pow10(k - d.exponent + 1)
    ensures QuantizePrecision(d) == if k <= 10 then 28 else k + 18
  {
    hide Digits, AbsInt;
    DigitsAre(AbsInt(d.coefficient), k - d.exponent + 1);
  }

  predicate Below(x: real, bound: real) { -bound < x < bound }

  lemma {:induction false} WholeCase(c: int, p: int, bound: int, x: real)
    requires AbsInt(c * p) < bound && x == c as real * p as real
    ensures Below(x, bound as real)
  {
    assert c as real * p as real == (c * p) as real;
  }

  lemma {:induction false} RatioCase(c: int, k: int, p: int, m: int, x: real)
    requires k >= 1 && AbsInt(c * p) < m * k && x == c as real / k as real * p as real
    ensures Below(x, m as real)
  {
    RealProduct(c, p);
    RealProduct(m, k);
    RatioAlgebra(c as real, k as real, p as real, x);
    StrictQuotient(x, m as real, k as real);
  }

  lemma {:induction false} RealProduct(a: int, b: int)
    ensures a as real * b as real == (a * b) as real
  {
  }

  lemma {:induction false} RatioAlgebra(c: real, k: real, p: real, x: real)
    requires k >= 1.0 && x == c / k * p
    ensures x * k == c * p
  {
    var r := c / k;
    assert r * k == c;
    assert r * p * k == r * k * p;
  }

  lemma {:induction false} StrictQuotient(x: real, m: real, k: real)
    requires k >= 1.0 && -(m * k) < x * k < m * k
    ensures Below(x, m)
  {
    CancelLess(x, m, k);
    CancelLess(-m, x, k);
  }

  lemma {:induction false} CancelLess(a: real, b: real, p: real)
    requires p > 0.0 && a * p < b * p
    ensures a < b
  {
    if b <= a {
      MulMonotone(b, a, p);
    }
  }

  lemma {:induction false} CancelAtMost(a: real, b: real, p: real)
    requires p > 0.0 && a * p <= b * p
    ensures a <= b
  {
    if b < a {
      MulStrictlyMonotone(b, a, p);
    }
  }

  lemma {:induction false} WholeBound(d: Decimal, places: nat, m: nat)
    requires d.exponent >= 0 && Adjusted(d) + 1 + places <= m
    ensures AbsInt(d.coefficient * Pow10(d.exponent) * Pow10(places)) < Pow10(m)
  {
    var n := Digits(AbsInt(d.coefficient));
    hide Pow10, Digits;
    DigitsBound(AbsInt(d.coefficient));
    Pow10Add(n, d.exponent);
    Pow10Add(n + d.exponent, places);
    Pow10Monotone(n + d.exponent + places, m);
    ScaledBound(d.coefficient, Pow10(n), Pow10(d.exponent));
    ScaledBound(d.coefficient * Pow10(d.exponent), Pow10(n + d.exponent), Pow10(places));
  }

  lemma {:induction false} FractionBound(d: Decimal, places: nat, m: nat)
    requires d.exponent < 0 && Adjusted(d) + 1 + places <= m
    ensures AbsInt(d.coefficient * Pow10(places)) < Pow10(m) * Pow10(-d.exponent)
  {
    var n := Digits(AbsInt(d.coefficient));
    hide Pow10, Digits;
    DigitsBound(AbsInt(d.coefficient));
    Pow10Add(n, places);
    Pow10Add(m, -d.exponent);
    Pow10Monotone(n + places, m + -d.exponent);
    ScaledBound(d.coefficient, Pow10(n), Pow10(places));
  }

  predicate ScaledBelow(v: real, unit: int, bound: int) {
    Below(v * unit as real, bound as real)
  }

  lemma {:induction false} WholeValue(d: Decimal, unit: int, bound: int)
    requires d.exponent >= 0 && AbsInt(d.coefficient * Pow10(d.exponent) * unit) < bound
    ensures ScaledBelow(ToReal(d), unit, bound)
  {
    WholeCase(d.coefficient * Pow10(d.exponent), unit, bound, ToReal(d) * unit as real);
  }

  lemma {:induction false} FractionValue(d: Decimal, unit: int, bound: int)
    requires d.exponent < 0 && AbsInt(d.coefficient * unit) < bound * Pow10(-d.exponent)
    ensures ScaledBelow(ToReal(d), unit, bound)
  {
    RatioCase(d.coefficient, Pow10(-d.exponent), unit, bound, ToReal(d) * unit as real);
  }

  /** |v| * 10^places is below 10^m, with m counting the digits left of the last kept place. */
  lemma {:induction false} ScaledValueBound(d: Decimal, places: nat, m: nat)
    requires Adjusted(d) + 1 + places <= m
    ensures ScaledBelow(ToReal(d), Pow10(places), Pow10(m))
  {
    hide Digits, AbsInt, Below, Adjusted, ToReal, ScaledBelow;
    if d.exponent >= 0 {
      WholeBound(d, places, m);
      WholeValue(d, Pow10(places), Pow10(m));
    } else {
      FractionBound(d, places, m);
      FractionValue(d, Pow10(places), Pow10(m));
    }
  }

  lemma {:induction false} RoundedBound(v: real, unit: int, bound: int)
    requires ScaledBelow(v, unit, bound)
    ensures AbsInt(RoundedUnits(v, unit)) <= bound
  {
    RoundHalfEvenError(v * unit as real);
  }

  /** The quantiser's precision holds every rounded result at up to 16 places, carries included; the composite
      return and asset quanta use 12 and 6. */
  lemma {:induction false} QuantizePrecisionSuffices(d: Decimal, places: nat)
    requires places <= 16
    ensures Digits(AbsInt(QuantizedCoefficient(ToReal(d), places))) <= QuantizePrecision(d)
    ensures COMPOSITE_RETURN_PLACES <= 16 && COMPOSITE_ASSET_PLACES <= 16
  {
    hide ToReal, Adjusted, RoundedUnits, Digits, ScaledBelow, AbsInt;
    var m: nat := MaxInt(0, Adjusted(d) + 1 + places);
    ScaledValueBound(d, places, m);
    RoundedBound(ToReal(d), Pow10(places), Pow10(m));
    OneMoreDigit(m);
    FewDigits(AbsInt(QuantizedCoefficient(ToReal(d), places)), m + 1);
  }

  lemma {:induction false} OneMoreDigit(m: nat)
    ensures Pow10(m) < Pow10(m + 1)
  {
  }

  function HalfUnit(unit: int): real
    requires unit >= 1
  {
    0.5 / unit as real
  }

  /** Rounding moves a value by at most half a unit of the last place. */
  lemma {:induction false} QuantizeError(v: real, places: nat)
    ensures Quantize(v, places) - HalfUnit(Pow10(places)) <= v <= Quantize(v, places) + HalfUnit(Pow10(places))
  {
    RoundedUnitsError(v, Pow10(places));
  }

  lemma {:induction false} RoundedUnitsError(v: real, unit: int)
    requires unit >= 1
    ensures var q := UnitsToReal(RoundedUnits(v, unit), unit); q - HalfUnit(unit) <= v <= q + HalfUnit(unit)
  {
    hide RoundedUnits;
    UnitsError(v, unit, v * unit as real);
    ErrorAlgebra(v, unit as real, RoundedUnits(v, unit) as real, UnitsToReal(RoundedUnits(v, unit), unit), HalfUnit(unit));
  }

  lemma {:induction false} UnitsError(v: real, unit: int, x: real)
    requires x == v * unit as real
    ensures RoundedUnits(v, unit) as real - 0.5 <= x <= RoundedUnits(v, unit) as real + 0.5
  {
  }

  lemma {:induction false} ErrorAlgebra(v: real, p: real, n: real, q: real, e: real)
    requires p >= 1.0 && n - 0.5 <= v * p <= n + 0.5 && q == n / p && e == 0.5 / p
    ensures q - e <= v <= q + e
  {
    assert e * p == 0.5 && q * p == n;
    assert (q - e) * p == n - 0.5 && (q + e) * p == n + 0.5;
    CancelAtMost(q - e, v, p);
    CancelAtMost(v, q + e, p);
  }
}
