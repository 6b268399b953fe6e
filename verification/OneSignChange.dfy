/** Present values whose flows change sign at most once: how many roots, and where the sign flips. */
module OneSignChange {
  import opened RealArithmetic
  import opened Polynomials
  import opened ExponentialTerms

  predicate DistinctRoots(ts: seq<Term>, ys: seq<real>) {
    && (forall i :: 0 <= i < |ys| ==> ys[i] > 0.0 && EvalTerms(ts, ys[i]) == 0.0)
    && (forall i, j :: 0 <= i < j < |ys| ==> ys[i] != ys[j])
  }

  lemma {:induction false} TermsAreDense(ts: seq<Term>, y: real)
    requires Ordered(ts)
    ensures EvalTerms(ts, y) == Eval(Dense(ts, 0), y)
  {
    DenseValue(ts, 0, y);
    assert Pow(y, 0) == 1.0;
  }

  /** The sign changes of the ordered flows bound the number of positive roots of their present value. */
  lemma {:induction false} RootsBoundedBySignChanges(ts: seq<Term>, ys: seq<real>)
    requires Ordered(ts) && ts != [] && DistinctRoots(ts, ys)
    ensures |ys| <= CoefficientSignChanges(Coefficients(ts))
  {
    var p := Dense(ts, 0);
    DenseSigns(ts, 0);
    SignChangesOfTerms(ts, 0);
    forall i | 0 <= i < |ys| ensures Eval(p, ys[i]) == 0.0 {
      TermsAreDense(ts, ys[i]);
    }
    DescartesRule(p, ys);
  }

  /** With at most one sign change a root is the only one, and it is simple: the derivative the
      stationary-point scan would isolate does not vanish there. */
  lemma {:induction false} UniqueSimpleRoot(ts: seq<Term>, y: real, daysPerYear: real)
    requires Ordered(ts) && ts != [] && daysPerYear > 0.0
    requires CoefficientSignChanges(Coefficients(ts)) <= 1
    requires y > 0.0 && EvalTerms(ts, y) == 0.0
    ensures forall z :: z > 0.0 && EvalTerms(ts, z) == 0.0 ==> z == y
    ensures EvalTerms(DerivativeTerms(ts, daysPerYear), y) != 0.0
  {
    var p := Dense(ts, 0);
    DenseSigns(ts, 0);
    SignChangesOfTerms(ts, 0);
    TermsAreDense(ts, y);
    AtMostOneSignChange(p, y);
    forall z | z > 0.0 && EvalTerms(ts, z) == 0.0 ensures z == y {
      TermsAreDense(ts, z);
    }
    DerivativeValue(ts, daysPerYear, y);
    NonZeroProduct(y / daysPerYear, EvalDerivative(p, y));
  }

  lemma {:induction false} NonZeroProduct(a: real, b: real)
    requires a != 0.0 && b != 0.0
    ensures -a * b != 0.0
  {
  }

  /** The derivative terms of the engine evaluate to d/dx = -(y / daysPerYear) d/dy. */
  lemma {:induction false} DerivativeValue(ts: seq<Term>, daysPerYear: real, y: real)
    requires Ordered(ts) && daysPerYear > 0.0
    ensures EvalTerms(DerivativeTerms(ts, daysPerYear), y)
         == -(y / daysPerYear) * EvalDerivative(Dense(ts, 0), y)
  {
    hide *;
    RetainedValue(Differentiated(ts, daysPerYear), y);
    DifferentiatedValue(ts, daysPerYear, y);
    DayWeightedIsDerivative(ts, 0, y);
    PowZero(y);
    ChainRule(y, daysPerYear, Pow(y, 0), Eval(Dense(ts, 0), y), EvalDerivative(Dense(ts, 0), y), DayWeighted(ts, y));
    DerivativeTermsUnfolded(ts, daysPerYear);
  }

  lemma {:induction false} DerivativeTermsUnfolded(ts: seq<Term>, daysPerYear: real)
    requires daysPerYear > 0.0
    ensures DerivativeTerms(ts, daysPerYear) == Retained(Differentiated(ts, daysPerYear))
  {
  }

  lemma {:induction false} PowZero(y: real)
    ensures Pow(y, 0) == 1.0
  {
  }

  lemma {:induction false} ChainRule(y: real, a: real, p: real, v: real, d: real, w: real)
    requires a > 0.0 && p == 1.0 && w == p * (0 as real * v + y * d)
    ensures -(1.0 / a) * w == -(y / a) * d
  {
    assert w == y * d;
    assert y / a == (1.0 / a) * y;
    MulAssociative(1.0 / a, y, d);
  }

  // ---------------------------------------------------------------- where the sign flips

  /** Terms before day `split` carry the sign opposite to sigma, the others carry sigma. */
  predicate SplitAt(ts: seq<Term>, split: nat, sigma: int) {
    && (sigma == 1 || sigma == -1)
    && forall i :: 0 <= i < |ts| ==> Sign(ts[i].coefficient) == if ts[i].days < split then -sigma else sigma
  }

  lemma {:induction false} NoFlipsOneSign(ts: seq<Term>)
    requires Ordered(ts) && ts != [] && AdjacentSignFlips(Coefficients(ts)) == 0
    ensures forall i :: 0 <= i < |ts| ==> Sign(ts[i].coefficient) == Sign(ts[0].coefficient)
  {
    if |ts| > 1 {
      assert Coefficients(ts)[1..] == Coefficients(ts[1..]);
      NoFlipsOneSign(ts[1..]);
    }
  }

  lemma {:induction false} SplitExists(ts: seq<Term>) returns (split: nat, sigma: int)
    requires Ordered(ts) && AdjacentSignFlips(Coefficients(ts)) == 1
    ensures SplitAt(ts, split, sigma) && |ts| > 1 && ts[0].days < split
  {
    var rest := ts[1..];
    assert Coefficients(ts)[1..] == Coefficients(rest);
    if Sign(ts[0].coefficient) == Sign(ts[1].coefficient) {
      split, sigma := SplitExists(rest);
    } else {
      NoFlipsOneSign(rest);
      split, sigma := ts[1].days, Sign(ts[1].coefficient);
    }
  }

  lemma {:induction false} ScaledTerm(c: real, z: real, t: real, n: nat, split: nat, sigma: int)
    requires z > 0.0 && t > 1.0
    requires Sign(c) == if n < split then -sigma else sigma
    requires sigma == 1 || sigma == -1
    ensures sigma as real * (c * Pow(z * t, n)) >= Pow(t, split) * (sigma as real * (c * Pow(z, n)))
    ensures n < split ==> sigma as real * (c * Pow(z * t, n)) > Pow(t, split) * (sigma as real * (c * Pow(z, n)))
  {
    hide Pow;
    PowProduct(z, t, n);
    PowPositive(z, n);
    if n < split {
      PowIncreasesWithExponent(t, n, split);
    } else if split < n {
      PowIncreasesWithExponent(t, split, n);
    }
    ScaledTermAlgebra(sigma as real * c, Pow(z, n), Pow(t, n), Pow(t, split));
  }

  lemma {:induction false} ScaledTermAlgebra(k: real, a: real, p: real, q: real)
    requires a > 0.0 && ((k < 0.0 && p < q) || (k >= 0.0 && p >= q))
    ensures k * (a * p) >= q * (k * a)
    ensures p < q ==> k * (a * p) > q * (k * a)
  {
    var u := k * a;
    assert k * (a * p) == u * p;
    if k < 0.0 {
      assert u < 0.0;
      MulStrictlyMonotone(p, q, -u);
    } else {
      assert u >= 0.0;
      MulMonotone(q, p, u);
    }
  }

  /** Moving from z to t * z multiplies each term on the sigma side by at least t^split. */
  lemma {:induction false} ScaledSum(ts: seq<Term>, z: real, t: real, split: nat, sigma: int)
    requires z > 0.0 && t > 1.0 && SplitAt(ts, split, sigma)
    ensures sigma as real * EvalTerms(ts, z * t) >= Pow(t, split) * (sigma as real * EvalTerms(ts, z))
    ensures (ts != [] && ts[0].days < split) ==>
              sigma as real * EvalTerms(ts, z * t) > Pow(t, split) * (sigma as real * EvalTerms(ts, z))
  {
    hide EvalTerms, Pow;
    if ts == [] {
      EmptyValues(z);
      EmptyValues(z * t);
    } else {
      var c, n := ts[0].coefficient, ts[0].days;
      TermsUnfolded(ts, z);
      TermsUnfolded(ts, z * t);
      ScaledSum(ts[1..], z, t, split, sigma);
      ScaledTerm(c, z, t, n, split, sigma);
      SumAlgebra(sigma as real, Pow(t, split), c * Pow(z * t, n), EvalTerms(ts[1..], z * t), EvalTerms(ts, z * t),
                 c * Pow(z, n), EvalTerms(ts[1..], z), EvalTerms(ts, z));
    }
  }

  lemma {:induction false} SumAlgebra(k: real, q: real, a: real, b: real, s: real, c: real, d: real, r: real)
    requires s == a + b && r == c + d
    ensures k * s == k * a + k * b && q * (k * r) == q * (k * c) + q * (k * d)
  {
    assert k * r == k * c + k * d;
  }

  /** Once the sum is on the sigma side, or zero, it is strictly there for every larger discount factor. */
  lemma {:induction false} Crossing(ts: seq<Term>, split: nat, sigma: int, y: real, z: real)
    requires ts != [] && SplitAt(ts, split, sigma) && ts[0].days < split
    requires 0.0 < y < z && sigma as real * EvalTerms(ts, y) >= 0.0
    ensures sigma as real * EvalTerms(ts, z) > 0.0
  {
    hide EvalTerms, Pow, SplitAt;
    var t := z / y;
    assert y * t == z;
    if t <= 1.0 {
      MulMonotone(t, 1.0, y);
    }
    ScaledSum(ts, y, t, split, sigma);
    PowPositive(t, split);
    ProductNonNegative(Pow(t, split), sigma as real * EvalTerms(ts, y));
  }

  /** With exactly one sign change the sum has opposite strict signs on the two sides of its root. */
  lemma {:induction false} SignFlipsAtRoot(ts: seq<Term>, root: real, y: real, z: real)
    requires Ordered(ts) && AdjacentSignFlips(Coefficients(ts)) == 1
    requires 0.0 < y < root < z && EvalTerms(ts, root) == 0.0
    ensures EvalTerms(ts, y) * EvalTerms(ts, z) < 0.0
  {
    hide EvalTerms;
    var split, sigma := SplitExists(ts);
    Crossing(ts, split, sigma, root, z);
    if sigma as real * EvalTerms(ts, y) >= 0.0 {
      Crossing(ts, split, sigma, y, root);
    }
    OppositeSigns(sigma, EvalTerms(ts, y), EvalTerms(ts, z));
  }

  lemma {:induction false} OppositeSigns(sigma: int, a: real, b: real)
    requires sigma == 1 || sigma == -1
    requires sigma as real * a < 0.0 < sigma as real * b
    ensures a * b < 0.0
  {
  }
}
