/** Bisection of a bracket. */
module Bisection {
  import opened RealArithmetic
  import opened Polynomials
  import opened Calculus

  datatype TerminationReason = ResidualTolerance | RateToleranceWithoutResidual | IterationLimit

  datatype RootCandidate = RootCandidate(
    value: real,
    iterations: nat,
    residual: real,
    terminationReason: TerminationReason,
    converged: bool)

  datatype Controls = Controls(valueTolerance: real, rateTolerance: real, maxIter: nat)

  function Middle(left: real, right: real): real { (left + right) / 2.0 }

  function Converged(f: real -> real, x: real, iterations: nat): RootCandidate {
    RootCandidate(x, iterations, f(x), ResidualTolerance, true)
  }

  /** The run of the loop from the bracket (left, right) after k iterations. */
  function BisectFrom(f: real -> real, left: real, right: real, c: Controls, k: nat): RootCandidate
    requires k <= c.maxIter
    decreases c.maxIter - k
  {
    var middle := Middle(left, right);
    var value := f(middle);
    if k == c.maxIter then
      if Abs(value) <= c.valueTolerance then Converged(f, middle, c.maxIter)
      else RootCandidate(middle, c.maxIter, value, IterationLimit, false)
    else if Abs(value) <= c.valueTolerance then Converged(f, middle, k + 1)
    else if Abs(right - left) <= c.rateTolerance then
      RootCandidate(middle, k + 1, value, RateToleranceWithoutResidual, false)
    else if f(left) * value <= 0.0 then BisectFrom(f, left, middle, c, k + 1)
    else BisectFrom(f, middle, right, c, k + 1)
  }

  function Bisect(f: real -> real, left: real, right: real, c: Controls): RootCandidate {
    if Abs(f(left)) <= c.valueTolerance then Converged(f, left, 0)
    else if Abs(f(right)) <= c.valueTolerance then Converged(f, right, 0)
    else BisectFrom(f, left, right, c, 0)
  }

  method BisectRoot(f: real -> real, left: real, right: real, c: Controls) returns (r: RootCandidate)
    ensures r == Bisect(f, left, right, c)
  {
    var lo, hi := left, right;
    var leftValue := f(lo);
    if Abs(leftValue) <= c.valueTolerance {
      return RootCandidate(lo, 0, leftValue, ResidualTolerance, true);
    }
    var rightValue := f(hi);
    if Abs(rightValue) <= c.valueTolerance {
      return RootCandidate(hi, 0, rightValue, ResidualTolerance, true);
    }
    for k := 0 to c.maxIter
      invariant leftValue == f(lo)
      invariant BisectFrom(f, lo, hi, c, k) == Bisect(f, left, right, c)
    {
      var middle := (lo + hi) / 2.0;
      var middleValue := f(middle);
      if Abs(middleValue) <= c.valueTolerance {
        return RootCandidate(middle, k + 1, middleValue, ResidualTolerance, true);
      }
      if Abs(hi - lo) <= c.rateTolerance {
        return RootCandidate(middle, k + 1, middleValue, RateToleranceWithoutResidual, false);
      }
      if leftValue * middleValue <= 0.0 {
        hi, rightValue := middle, middleValue;
      } else {
        lo, leftValue := middle, middleValue;
      }
    }
    var middle := (lo + hi) / 2.0;
    var middleValue := f(middle);
    if Abs(middleValue) <= c.valueTolerance {
      return RootCandidate(middle, c.maxIter, middleValue, ResidualTolerance, true);
    }
    return RootCandidate(middle, c.maxIter, middleValue, IterationLimit, false);
  }

  /** The residual is the function value, and converged means exactly that it is within tolerance. */
  predicate Classified(f: real -> real, r: RootCandidate, c: Controls) {
    && r.residual == f(r.value)
    && (r.converged <==> Abs(r.residual) <= c.valueTolerance)
    && (r.converged <==> r.terminationReason == ResidualTolerance)
    && r.iterations <= c.maxIter
  }

  lemma {:induction false} BisectFromClassified(f: real -> real, left: real, right: real, c: Controls, k: nat)
    requires k <= c.maxIter && left <= right
    ensures var r := BisectFrom(f, left, right, c, k);
            Classified(f, r, c) && left <= r.value <= right && k <= r.iterations
    decreases c.maxIter - k
  {
    if k < c.maxIter {
      BisectFromClassified(f, left, Middle(left, right), c, k + 1);
      BisectFromClassified(f, Middle(left, right), right, c, k + 1);
    }
  }

  lemma {:induction false} BisectClassified(f: real -> real, left: real, right: real, c: Controls)
    requires left <= right
    ensures var r := Bisect(f, left, right, c); Classified(f, r, c) && left <= r.value <= right
  {
    BisectFromClassified(f, left, right, c, 0);
  }

  /** The last bracket (a, b): nested in the first one, with a strict sign change, n halvings narrower and
      centred on the returned value. The rate test stops it only when it is narrow enough, the
      iteration limit only after maxIter halvings. */
  ghost predicate LastBracket(f: real -> real, left: real, right: real, c: Controls, k: nat, r: RootCandidate,
                              a: real, b: real, n: nat)
  {
    && left <= a <= b <= right
    && Opposite(f(a), f(b))
    && r.value == Middle(a, b)
    && (b - a) * Pow(2.0, n) == right - left
    && (r.terminationReason == RateToleranceWithoutResidual ==> b - a <= c.rateTolerance)
    && (r.terminationReason == IterationLimit ==> n == c.maxIter - k)
    && k + n <= r.iterations <= k + n + 1
  }

  lemma {:induction false} BracketHalves(f: real -> real, left: real, right: real, c: Controls, k: nat)
    returns (a: real, b: real, n: nat)
    requires k <= c.maxIter && left <= right && Opposite(f(left), f(right)) && c.valueTolerance >= 0.0
    ensures LastBracket(f, left, right, c, k, BisectFrom(f, left, right, c, k), a, b, n)
    decreases c.maxIter - k
  {
    hide Pow;
    var middle := Middle(left, right);
    var value := f(middle);
    PowZeroTwo();
    if k == c.maxIter || Abs(value) <= c.valueTolerance || Abs(right - left) <= c.rateTolerance {
      a, b, n := left, right, 0;
    } else {
      ProductSign(f(left), value);
      var lo, hi := if f(left) * value <= 0.0 then left else middle, if f(left) * value <= 0.0 then middle else right;
      a, b, n := BracketHalves(f, lo, hi, c, k + 1);
      HalvedBracket(f, left, right, lo, hi, c, k, a, b, n);
      n := n + 1;
    }
  }

  /** One more halving in front of a run of the loop. */
  lemma {:induction false} HalvedBracket(f: real -> real, left: real, right: real, lo: real, hi: real, c: Controls, k: nat,
                      a: real, b: real, n: nat)
    requires k < c.maxIter && left <= lo <= hi <= right && hi - lo == (right - left) / 2.0
    requires BisectFrom(f, left, right, c, k) == BisectFrom(f, lo, hi, c, k + 1)
    requires LastBracket(f, lo, hi, c, k + 1, BisectFrom(f, lo, hi, c, k + 1), a, b, n)
    ensures LastBracket(f, left, right, c, k, BisectFrom(f, left, right, c, k), a, b, n + 1)
  {
    hide Pow, BisectFrom;
    HalvingAlgebra(b - a, n, right - left);
  }

  lemma {:induction false} PowZeroTwo()
    ensures Pow(2.0, 0) == 1.0
  {
  }

  lemma {:induction false} HalvingAlgebra(w: real, n: nat, d: real)
    requires w * Pow(2.0, n) == d / 2.0
    ensures w * Pow(2.0, n + 1) == d
  {
    MulAssociative(w, 2.0, Pow(2.0, n));
  }

  /** The loop stops once the bracket is within the rate tolerance: j halvings that get there bound its iterations. */
  lemma {:induction false} StopsAtRateTolerance(f: real -> real, left: real, right: real, c: Controls, k: nat, j: nat)
    requires k <= c.maxIter && left <= right && right - left <= c.rateTolerance * Pow(2.0, j)
    ensures BisectFrom(f, left, right, c, k).iterations <= k + j + 1
    decreases j
  {
    PowZeroTwo();
    if k < c.maxIter && j > 0 {
      var middle := Middle(left, right);
      HalfOfPower(right - left, c.rateTolerance, j);
      StopsAtRateTolerance(f, left, middle, c, k + 1, j - 1);
      StopsAtRateTolerance(f, middle, right, c, k + 1, j - 1);
    }
  }

  lemma {:induction false} HalfOfPower(w: real, t: real, j: nat)
    requires j > 0 && w <= t * Pow(2.0, j)
    ensures w / 2.0 <= t * Pow(2.0, j - 1)
  {
    assert t * Pow(2.0, j) == 2.0 * (t * Pow(2.0, j - 1));
  }

  /** f keeps the sign of its left end before z and of its right end after z. */
  ghost predicate CrossesOnceAt(f: real -> real, left: real, right: real, z: real) {
    && (forall x :: left <= x < z && x <= right ==> SameSide(f(x), f(left)))
    && (forall x :: z < x <= right && left <= x ==> SameSide(f(x), f(right)))
  }

  /** The returned value is within half a bracket, n halvings narrower than the first, of z. */
  predicate Located(f: real -> real, left: real, right: real, c: Controls, z: real, n: nat) {
    var r := BisectFrom(f, left, right, c, 0);
    n <= r.iterations <= n + 1 && Abs(r.value - z) * Pow(2.0, n + 1) <= right - left
  }

  /** A sign change brackets the only crossing, so bisection is within half its last bracket of it. */
  lemma {:induction false} BisectionLocatesCrossing(f: real -> real, left: real, right: real, c: Controls, z: real)
    returns (n: nat)
    requires left <= z <= right && Opposite(f(left), f(right)) && c.valueTolerance >= 0.0
    requires CrossesOnceAt(f, left, right, z)
    ensures Located(f, left, right, c, z, n)
  {
    hide Pow, BisectFrom;
    var a, b;
    a, b, n := BracketHalves(f, left, right, c, 0);
    assert a <= z <= b;
    HalfWidth(BisectFrom(f, left, right, c, 0).value - z, b - a, n, right - left);
  }

  lemma {:induction false} HalfWidth(e: real, w: real, n: nat, d: real)
    requires Abs(e) <= w / 2.0 && w * Pow(2.0, n) == d
    ensures Abs(e) * Pow(2.0, n + 1) <= d
  {
    hide Pow;
    PowPositive(2.0, n);
    DoublePow(n);
    MulMonotone(Abs(e), w / 2.0, 2.0 * Pow(2.0, n));
    MulAssociative(w / 2.0, 2.0, Pow(2.0, n));
  }

  lemma {:induction false} DoublePow(n: nat)
    ensures Pow(2.0, n + 1) == 2.0 * Pow(2.0, n)
  {
  }
}
