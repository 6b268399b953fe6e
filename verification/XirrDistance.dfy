/** How far a reported rate can be from the rate of return of flows with one sign change. */
module XirrDistance {
  import opened RealArithmetic
  import opened Polynomials
  import opened Calculus
  import opened ExponentialTerms
  import opened OneSignChange
  import opened Bisection
  import opened RootScanning
  import opened XirrFlows
  import opened Xirr
  import opened XirrTheorems
  import opened XirrReporting

  lemma {:induction false} FirstTermSign(ts: seq<Term>, split: nat, sigma: int)
    requires ts != [] && SplitAt(ts, split, sigma) && ts[0].days < split
    ensures SplitAt(ts[1..], split, sigma)
    ensures sigma as real * ts[0].coefficient == -Abs(ts[0].coefficient)
    ensures sigma == 1 || sigma == -1
  {
    assert forall i :: 0 <= i < |ts| - 1 ==> ts[1..][i] == ts[i + 1];
  }

  lemma {:induction false} GapAlgebra(k: real, c: real, p: real, r: real, q: real, e: real, f: real)
    requires e == c + r && f == c + q && k * q >= p * (k * r)
    ensures k * f >= p * (k * e) + -(k * c) * (p - 1.0)
  {
    assert k * e == k * c + k * r && k * f == k * c + k * q;
    assert p * (k * e) == p * (k * c) + p * (k * r);
    assert -(k * c) * (p - 1.0) == -(p * (k * c)) + k * c;
  }

  /** Moving from y to t * y moves the sum to the sigma side by at least the growth of the first flow. */
  lemma {:induction false} ScaledGap(ts: seq<Term>, y: real, t: real, split: nat, sigma: int)
    requires ts != [] && ts[0].days == 0 && split > 0 && SplitAt(ts, split, sigma) && y > 0.0 && t > 1.0
    ensures sigma as real * EvalTerms(ts, y * t)
         >= Pow(t, split) * (sigma as real * EvalTerms(ts, y)) + Abs(ts[0].coefficient) * (Pow(t, split) - 1.0)
  {
    hide EvalTerms, Pow, SplitAt;
    var c := ts[0].coefficient;
    FirstTermSign(ts, split, sigma);
    TermsUnfolded(ts, y);
    TermsUnfolded(ts, y * t);
    PowZero(y);
    PowZero(y * t);
    ScaledSum(ts[1..], y, t, split, sigma);
    GapAlgebra(sigma as real, c, Pow(t, split), EvalTerms(ts[1..], y), EvalTerms(ts[1..], y * t), EvalTerms(ts, y),
               EvalTerms(ts, y * t));
  }

  lemma {:induction false} RatioAbove(x: real, y: real) returns (t: real)
    requires 0.0 < x < y
    ensures t == y / x && t > 1.0 && x * t == y
  {
    t := y / x;
    if t <= 1.0 {
      MulMonotone(t, 1.0, x);
    }
  }

  lemma {:induction false} ScaledGapTo(ts: seq<Term>, y: real, w: real, split: nat, sigma: int) returns (t: real)
    requires ts != [] && ts[0].days == 0 && split > 0 && SplitAt(ts, split, sigma) && 0.0 < y < w
    ensures t == w / y && t > 1.0
    ensures sigma as real * EvalTerms(ts, w)
         >= Pow(t, split) * (sigma as real * EvalTerms(ts, y)) + Abs(ts[0].coefficient) * (Pow(t, split) - 1.0)
  {
    hide EvalTerms, Pow, SplitAt, Abs;
    t := RatioAbove(y, w);
    ScaledGap(ts, y, t, split, sigma);
  }

  /** A discount factor y near the root r: the first flow, grown over the days before the sign change by the ratio of
      the two, differs from itself by at most the tolerance, taken at the larger of the two factors. */
  predicate NearRoot(first: real, split: nat, r: real, y: real, tolerance: real)
    requires r > 0.0 && y > 0.0
  {
    && (y > r ==> Abs(first) * (Pow(y / r, split) - 1.0) <= tolerance)
    && (y < r ==> Abs(first) * (Pow(r / y, split) - 1.0) <= tolerance * Pow(r / y, split))
  }

  lemma {:induction false} SignedAtMost(sigma: int, e: real, tolerance: real)
    requires (sigma == 1 || sigma == -1) && Abs(e) <= tolerance
    ensures -tolerance <= sigma as real * e <= tolerance
  {
  }

  lemma {:induction false} BelowAlgebra(p: real, e: real, tolerance: real)
    requires p > 0.0 && -tolerance <= e
    ensures p * e >= -(tolerance * p)
  {
    MulMonotone(-tolerance, e, p);
    assert e * p == p * e && -tolerance * p == -(tolerance * p);
  }

  lemma {:induction false} DistanceAbove(ts: seq<Term>, split: nat, sigma: int, r: real, y: real, tolerance: real)
    requires ts != [] && ts[0].days == 0 && split > 0 && SplitAt(ts, split, sigma) && 0.0 < r < y
    requires EvalTerms(ts, r) == 0.0 && Abs(EvalTerms(ts, y)) <= tolerance
    ensures Abs(ts[0].coefficient) * (Pow(y / r, split) - 1.0) <= tolerance
  {
    hide EvalTerms, Pow, SplitAt, Abs;
    FirstTermSign(ts, split, sigma);
    SignedAtMost(sigma, EvalTerms(ts, y), tolerance);
    var t := ScaledGapTo(ts, r, y, split, sigma);
    ZeroTerm(Pow(t, split), sigma as real, EvalTerms(ts, r));
  }

  lemma {:induction false} DistanceBelow(ts: seq<Term>, split: nat, sigma: int, r: real, y: real, tolerance: real)
    requires ts != [] && ts[0].days == 0 && split > 0 && SplitAt(ts, split, sigma) && 0.0 < y < r
    requires EvalTerms(ts, r) == 0.0 && Abs(EvalTerms(ts, y)) <= tolerance
    ensures Abs(ts[0].coefficient) * (Pow(r / y, split) - 1.0) <= tolerance * Pow(r / y, split)
  {
    hide EvalTerms, Pow, SplitAt, Abs;
    FirstTermSign(ts, split, sigma);
    SignedAtMost(sigma, EvalTerms(ts, y), tolerance);
    var t := ScaledGapTo(ts, y, r, split, sigma);
    ZeroTerm(1.0, sigma as real, EvalTerms(ts, r));
    PowPositive(t, split);
    BelowAlgebra(Pow(t, split), sigma as real * EvalTerms(ts, y), tolerance);
  }

  lemma {:induction false} ZeroTerm(p: real, k: real, e: real)
    requires e == 0.0
    ensures p * (k * e) == 0.0 && k * e == 0.0
  {
  }

  lemma {:induction false} ResidualBoundsDistance(ts: seq<Term>, split: nat, sigma: int, r: real, y: real, tolerance: real)
    requires ts != [] && ts[0].days == 0 && split > 0 && SplitAt(ts, split, sigma) && r > 0.0 && y > 0.0
    requires EvalTerms(ts, r) == 0.0 && Abs(EvalTerms(ts, y)) <= tolerance
    ensures NearRoot(ts[0].coefficient, split, r, y, tolerance)
  {
    hide EvalTerms, Pow, SplitAt, Abs;
    if y > r {
      DistanceAbove(ts, split, sigma, r, y, tolerance);
    } else if y < r {
      DistanceBelow(ts, split, sigma, r, y, tolerance);
    }
  }

  lemma {:induction false} RateDiscountPositive(m: RateMaps, rate: real)
    requires Lawful(m) && rate > -1.0
    ensures m.rateDiscount(rate) > 0.0
  {
    var x := m.logRate(rate);
    assert RateInverseAt(m, rate) && DiscountOfRateAt(m, x) && DiscountPositiveAt(m, x);
  }

  /** Every rate the solver reports for flows with one sign change is near their rate of return z, in bounds or not:
      the bound depends on the first flow, the day of the sign change and the value tolerance only. */
  lemma {:induction false} ReportedRateNearRate(netted: seq<Flow>, m: RateMaps, c: XirrControls, daysPerYear: real, z: real)
    returns (split: nat, sigma: int)
    requires Netted(netted) && netted != [] && daysPerYear > 0.0 && Lawful(m)
    requires CoefficientSignChanges(Coefficients(Terms(netted))) == 1
    requires SolveXirr(netted, m, c, daysPerYear).Rate?
    requires z > -1.0 && Npv(Terms(netted), m, z) == 0.0
    ensures split > 0 && SplitAt(Terms(netted), split, sigma)
    ensures m.rateDiscount(z) > 0.0 && m.rateDiscount(SolveXirr(netted, m, c, daysPerYear).rate) > 0.0
    ensures NearRoot(netted[0].amount, split, m.rateDiscount(z), m.rateDiscount(SolveXirr(netted, m, c, daysPerYear).rate),
                     ValueTolerance(Terms(netted), c.tolerance))
  {
    hide Lawful, Netted, CoefficientSignChanges, Coefficients, EvalTerms, SplitAt, Ordered, AdjacentSignFlips, OneSided,
         GrossFlow, NearRoot, ValueTolerance, ScanRates, ResultFromRoots;
    var ts, rate := Terms(netted), SolveXirr(netted, m, c, daysPerYear).rate;
    NettedTermsOrdered(netted);
    ReportedRateSound(netted, m, c, daysPerYear);
    RateDiscountPositive(m, z);
    RateDiscountPositive(m, rate);
    FlipsOfOrdered(ts);
    split, sigma := SplitExists(ts);
    ResidualBoundsDistance(ts, split, sigma, m.rateDiscount(z), m.rateDiscount(rate), ValueTolerance(ts, c.tolerance));
  }
}
