/** What the XIRR solver guarantees about the rates it reports and the roots it cannot miss. */
module XirrTheorems {
  import opened Wrappers
  import opened RealArithmetic
  import opened Polynomials
  import opened Calculus
  import opened SmallSlopes
  import opened ExponentialTerms
  import opened OneSignChange
  import opened Bisection
  import opened RootScanning
  import opened RootDetection
  import opened XirrFlows
  import opened Xirr

  /** A rate is reported exactly for a single converged simple candidate of a complete qualification. */
  lemma {:induction false} RateReportedIff(roots: RootScan)
    ensures ResultFromRoots(roots).Rate? <==>
              && |roots.candidates| == 1
              && roots.candidates[0].converged
              && roots.uniquenessSupported
              && roots.failureReason == None
              && !roots.nonSimpleRootDetected
    ensures ResultFromRoots(roots).Rate? ==> ResultFromRoots(roots).rate == roots.candidates[0].value
  {
  }

  predicate Within(points: seq<real>, lower: real, upper: real) {
    forall p :: p in points ==> lower <= p <= upper
  }

  lemma {:induction false} LinspaceWithin(lower: real, upper: real, steps: nat)
    requires steps >= 2 && lower < upper
    ensures Within(Linspace(lower, upper, steps), lower, upper)
  {
    var points := Linspace(lower, upper, steps);
    forall i | 0 <= i < steps ensures lower <= points[i] <= upper {
      GridPointWithin(lower, upper, i as real, (steps - 1) as real);
    }
  }

  lemma {:induction false} GridPointWithin(lower: real, upper: real, i: real, n: real)
    requires lower < upper && 0.0 <= i <= n && n > 0.0
    ensures lower <= lower + i * ((upper - lower) / n) <= upper
  {
    var w := (upper - lower) / n;
    assert n * w == upper - lower;
    MulMonotone(0.0, i, w);
    MulMonotone(i, n, w);
  }

  predicate AllWithin(f: real -> real, c: Controls, candidates: seq<RootCandidate>, lower: real, upper: real) {
    forall e :: e in candidates ==> Classified(f, e, c) && lower <= e.value <= upper
  }

  lemma {:induction false} ScanWithin(f: real -> real, partition: seq<real>, c: Controls, lower: real, upper: real)
    requires Within(partition, lower, upper)
    ensures AllWithin(f, c, ScanMonotonicPartitions(f, partition, c).candidates, lower, upper)
  {
    var points := SortedPoints(partition);
    forall e | e in ScanMonotonicPartitions(f, partition, c).candidates
      ensures Classified(f, e, c) && lower <= e.value <= upper
    {
      CandidatesSpanned(f, partition, c, e);
      assert points[0] in points && points[|points| - 1] in points;
    }
  }

  /** The points the top level of the isolation scans. */
  function Partition(n: seq<Term>, m: RateMaps, s: SolverSettings): seq<real>
    requires ValidSettings(s) && HasDayZero(n)
  {
    Linspace(s.lower, s.upper, s.steps) + Values(StationaryScan(n, m, s).candidates)
  }

  /** At every level each candidate lies in the search interval and is classified by its residual. */
  lemma {:induction false} IsolatedWithin(ts: seq<Term>, m: RateMaps, s: SolverSettings)
    requires ValidSettings(s)
    ensures var n := Normalized(ts);
            AllWithin(Evaluate(n, m), ScanControls(n, s), Isolate(ts, m, s).candidates, s.lower, s.upper)
    decreases |ts|
  {
    var n := Normalized(ts);
    NormalizedHasDayZero(ts);
    if |n| > 1 {
      LinspaceWithin(s.lower, s.upper, s.steps);
      if CoefficientSignChanges(Coefficients(n)) > 1 && |n| > MAX_UNIQUENESS_TERMS {
        ScanWithin(Evaluate(n, m), Linspace(s.lower, s.upper, s.steps), ScanControls(n, s), s.lower, s.upper);
      } else {
        StationaryWithin(n, m, s);
        ScanWithin(Evaluate(n, m), Partition(n, m, s), ScanControls(n, s), s.lower, s.upper);
      }
    }
  }

  lemma {:induction false} StationaryWithin(n: seq<Term>, m: RateMaps, s: SolverSettings)
    requires ValidSettings(s) && HasDayZero(n)
    ensures Within(Partition(n, m, s), s.lower, s.upper)
    decreases |n|, 0
  {
    hide Linspace, Isolate, Evaluate, CoefficientSignChanges, Classified, DerivativeTerms;
    LinspaceWithin(s.lower, s.upper, s.steps);
    if CoefficientSignChanges(Coefficients(n)) > 1 {
      DerivativeLosesTerm(n, s.daysPerYear);
      IsolatedWithin(DerivativeTerms(n, s.daysPerYear), m, s);
    }
    var stationary := StationaryScan(n, m, s).candidates;
    assert forall e :: e in stationary ==> s.lower <= e.value <= s.upper;
    forall p | p in Values(stationary) ensures s.lower <= p <= s.upper {
      var i :| 0 <= i < |stationary| && stationary[i].value == p;
      assert stationary[i] in stationary;
    }
  }

  // ---------------------------------------------------------------- soundness of a reported rate

  /** Terms of netted flows are already normalised. */
  lemma {:induction false} TermsNormalized(ts: seq<Term>)
    requires Ordered(ts) && ts != [] && ts[0].days == 0
    ensures Normalized(ts) == ts && HasDayZero(ts)
  {
    RetainedOrdered(ts);
    assert ts[0] in ts;
    assert MinDays(ts) == 0;
    assert Shifted(ts, 0) == ts;
  }

  lemma {:induction false} RateBounds(m: RateMaps, lower: real, upper: real, x: real)
    requires Lawful(m) && -1.0 < lower && -1.0 < upper
    requires m.logRate(lower) <= x <= m.logRate(upper)
    ensures lower <= m.rateOf(x) <= upper
  {
    var r := m.rateOf(x);
    assert LogInverseAt(m, x);
    assert LogGrowsAt(m, r, lower) && LogGrowsAt(m, upper, r);
  }

  lemma {:induction false} ReportedCandidateSound(ts: seq<Term>, m: RateMaps, s: SolverSettings, x: RootCandidate)
    requires Ordered(ts) && ts != [] && ts[0].days == 0 && Lawful(m) && ValidSettings(s)
    requires x in Isolate(ts, m, s).candidates
    ensures var e := RateCandidate(ts, m, x);
      && s.lower <= x.value <= s.upper
      && e.residual == Npv(ts, m, e.value)
      && (x.converged ==> Abs(e.residual) <= ValueTolerance(ts, s.tolerance))
  {
    hide Isolate, EvalTerms, Lawful, ValueTolerance, Normalized;
    TermsNormalized(ts);
    IsolatedWithin(ts, m, s);
    NpvIsEvaluate(ts, m, x.value);
  }

  /** A reported rate lies in the requested bounds and its net present value is within tolerance; the
      residual reported with it is that net present value. */
  lemma {:induction false} ReportedRateSound(netted: seq<Flow>, m: RateMaps, c: XirrControls, daysPerYear: real)
    requires Netted(netted) && daysPerYear > 0.0 && Lawful(m)
    requires SolveXirr(netted, m, c, daysPerYear).Rate?
    ensures netted != []
    ensures var r := SolveXirr(netted, m, c, daysPerYear);
      && c.rateLowerBound <= r.rate <= c.rateUpperBound
      && r.candidate.residual == Npv(Terms(netted), m, r.rate)
      && Abs(Npv(Terms(netted), m, r.rate)) <= ValueTolerance(Terms(netted), c.tolerance)
  {
    hide ValidControls, Isolate, Lawful, Npv, Netted, OneSided, GrossFlow, ValueTolerance;
    var ts, s := Terms(netted), Settings(m, c, daysPerYear);
    NettedTermsOrdered(netted);
    LogBoundsOrdered(m, c);
    var scan := ScanRates(ts, m, s);
    RateReportedIff(scan);
    var x := Isolate(ts, m, s).candidates[0];
    assert scan.candidates[0] == RateCandidate(ts, m, x);
    ReportedCandidateSound(ts, m, s, x);
    RateBounds(m, c.rateLowerBound, c.rateUpperBound, x.value);
  }

  lemma {:induction false} LogBoundsOrdered(m: RateMaps, c: XirrControls)
    requires Lawful(m)
    ensures ValidBounds(c) ==> m.logRate(c.rateLowerBound) < m.logRate(c.rateUpperBound)
    ensures ValidControls(c) ==> c.tolerance > 0.0
  {
    assert LogGrowsAt(m, c.rateLowerBound, c.rateUpperBound);
  }

  lemma {:induction false} NpvIsEvaluate(ts: seq<Term>, m: RateMaps, x: real)
    requires Lawful(m)
    ensures Npv(ts, m, m.rateOf(x)) == Evaluate(ts, m)(x)
  {
    assert DiscountOfRateAt(m, x);
  }

  // ---------------------------------------------------------------- at most one sign change

  /** Flows with at most one sign change have at most one internal rate of return above -100%, whatever
      the bounds; skipping the stationary-point scan for them is sound. */
  lemma {:induction false} UniqueRate(ts: seq<Term>, m: RateMaps, r1: real, r2: real)
    requires Ordered(ts) && ts != [] && Lawful(m)
    requires CoefficientSignChanges(Coefficients(ts)) <= 1
    requires r1 > -1.0 && r2 > -1.0 && Npv(ts, m, r1) == 0.0 && Npv(ts, m, r2) == 0.0
    ensures r1 == r2
  {
    var x1, x2 := m.logRate(r1), m.logRate(r2);
    assert RateInverseAt(m, r1) && RateInverseAt(m, r2) && DiscountOfRateAt(m, x1) && DiscountOfRateAt(m, x2);
    assert DiscountPositiveAt(m, x1) && DiscountPositiveAt(m, x2);
    assert DiscountDropsAt(m, x1, x2) && DiscountDropsAt(m, x2, x1);
    UniqueSimpleRoot(ts, m.dayDiscount(x1), 1.0);
    assert m.dayDiscount(x1) == m.dayDiscount(x2);
  }

  /** With exactly one sign change the present value crosses zero at its root and nowhere else. */
  lemma {:induction false} CrossesAtRoot(ts: seq<Term>, m: RateMaps, z: real, a: real, b: real)
    requires Ordered(ts) && Lawful(m) && AdjacentSignFlips(Coefficients(ts)) == 1
    requires EvalTerms(ts, m.dayDiscount(z)) == 0.0
    requires a < z < b
    ensures Opposite(Evaluate(ts, m)(a), Evaluate(ts, m)(b))
  {
    hide EvalTerms, Lawful;
    DiscountOrder(m, a, z);
    DiscountOrder(m, z, b);
    SignFlipsAtRoot(ts, m.dayDiscount(z), m.dayDiscount(b), m.dayDiscount(a));
    ProductSign(EvalTerms(ts, m.dayDiscount(b)), EvalTerms(ts, m.dayDiscount(a)));
  }

  lemma {:induction false} DiscountOrder(m: RateMaps, x: real, y: real)
    requires Lawful(m) && x < y
    ensures 0.0 < m.dayDiscount(y) < m.dayDiscount(x)
  {
    assert DiscountPositiveAt(m, y) && DiscountDropsAt(m, x, y);
  }

  /** Without stationary points the isolation is one scan of the grid. */
  lemma {:induction false} IsolateWithoutStationary(ts: seq<Term>, m: RateMaps, s: SolverSettings)
    requires Ordered(ts) && |ts| > 1 && ts[0].days == 0 && ValidSettings(s)
    requires CoefficientSignChanges(Coefficients(ts)) <= 1
    ensures var scan := ScanMonotonicPartitions(Evaluate(ts, m), Linspace(s.lower, s.upper, s.steps), ScanControls(ts, s));
            Isolate(ts, m, s) == RootScan(scan.candidates, true, scan.failureReason, false)
  {
    hide Normalized, Linspace, EvalTerms, MergedRoots, SortedByValue, SortedPoints, FirstFailureReason;
    TermsNormalized(ts);
    var grid := Linspace(s.lower, s.upper, s.steps);
    assert StationaryScan(ts, m, s) == RootScan([], true, None, false);
    assert grid + Values([]) == grid;
  }

  /** The cell of the scan grid that holds the only root reports a candidate: the scan of flows with one
      sign change never ends in "no root found", and it supports uniqueness without stationary points. */
  lemma {:induction false} OneSignChangeRootFound(ts: seq<Term>, m: RateMaps, s: SolverSettings, z: real) returns (i: nat)
    requires Ordered(ts) && ts != [] && ts[0].days == 0 && Lawful(m) && ValidSettings(s)
    requires CoefficientSignChanges(Coefficients(ts)) == 1
    requires s.lower <= z <= s.upper && EvalTerms(ts, m.dayDiscount(z)) == 0.0
    ensures var points := SortedPoints(Linspace(s.lower, s.upper, s.steps));
      var scan := Isolate(ts, m, s);
      && i + 1 < |points| && points[i] <= z <= points[i + 1]
      && CellDetected(Evaluate(ts, m), points[i], points[i + 1], ScanControls(ts, s), scan)
      && scan.candidates != []
      && scan.uniquenessSupported && !scan.nonSimpleRootDetected
  {
    hide EvalTerms, Lawful, Isolate, ScanMonotonicPartitions, Linspace, SortedPoints, CellDetected, Evaluate, Ordered,
         CoefficientSignChanges, SameSide, ScanControls, AdjacentSignFlips, Coefficients;
    var f, grid := Evaluate(ts, m), Linspace(s.lower, s.upper, s.steps);
    var c := ScanControls(ts, s);
    OneFlip(ts, s);
    IsolateWithoutStationary(ts, m, s);
    var points := SortedPoints(grid);
    GridEnds(s, points);
    i := CellOf(points, z);
    CellCrossed(ts, m, z, points[i], points[i + 1]);
    ScanDetectsCell(f, grid, c, i);
    SameCandidatesDetect(f, points[i], points[i + 1], c, ScanMonotonicPartitions(f, grid, c), Isolate(ts, m, s));
  }

  lemma {:induction false} OneFlip(ts: seq<Term>, s: SolverSettings)
    requires Ordered(ts) && ts != [] && CoefficientSignChanges(Coefficients(ts)) == 1
    ensures |ts| > 1 && AdjacentSignFlips(Coefficients(ts)) == 1
    ensures ScanControls(ts, s).valueTolerance >= 0.0
  {
    NonZeroIdentity(Coefficients(ts));
  }

  lemma {:induction false} SameCandidatesDetect(f: real -> real, a: real, b: real, c: Controls, scan: RootScan, same: RootScan)
    requires CellDetected(f, a, b, c, scan) && same.candidates == scan.candidates
    ensures CellDetected(f, a, b, c, same) && same.candidates != []
  {
  }

  lemma {:induction false} CellCrossed(ts: seq<Term>, m: RateMaps, z: real, a: real, b: real)
    requires Ordered(ts) && Lawful(m) && AdjacentSignFlips(Coefficients(ts)) == 1
    requires EvalTerms(ts, m.dayDiscount(z)) == 0.0
    requires a <= z <= b
    ensures !SameSide(Evaluate(ts, m)(a), Evaluate(ts, m)(b))
  {
    hide EvalTerms, Lawful, Ordered;
    if a < z < b {
      CrossesAtRoot(ts, m, z, a, b);
    }
  }

  lemma {:induction false} EndsOfSorted(all: seq<real>, lower: real, upper: real)
    requires Within(all, lower, upper) && lower < upper && lower in all && upper in all
    ensures var points := SortedPoints(all);
            |points| >= 2 && points[0] == lower && points[|points| - 1] == upper
  {
    hide SortedPoints;
    var points := SortedPoints(all);
    var a :| 0 <= a < |points| && points[a] == lower;
    var b :| 0 <= b < |points| && points[b] == upper;
    assert points[0] in all && points[|points| - 1] in all;
  }

  lemma {:induction false} GridEnds(s: SolverSettings, points: seq<real>)
    requires ValidSettings(s) && points == SortedPoints(Linspace(s.lower, s.upper, s.steps))
    ensures |points| >= 2 && points[0] == s.lower && points[|points| - 1] == s.upper
  {
    hide SortedPoints, Linspace, Within;
    var grid := Linspace(s.lower, s.upper, s.steps);
    LinspaceWithin(s.lower, s.upper, s.steps);
    assert grid[0] in grid && grid[s.steps - 1] in grid;
    EndsOfSorted(grid, s.lower, s.upper);
  }

  /** Inside that cell bisection closes in on the root: n halvings leave it within half the last bracket. */
  lemma {:induction false} OneSignChangeLocated(ts: seq<Term>, m: RateMaps, c: Controls, z: real, a: real, b: real) returns (n: nat)
    requires Ordered(ts) && Lawful(m) && AdjacentSignFlips(Coefficients(ts)) == 1
    requires EvalTerms(ts, m.dayDiscount(z)) == 0.0 && a < z < b && c.valueTolerance >= 0.0
    ensures Located(Evaluate(ts, m), a, b, c, z, n)
  {
    hide EvalTerms, Lawful, Ordered, Located, AdjacentSignFlips, Evaluate;
    var f := Evaluate(ts, m);
    CrossesAtRoot(ts, m, z, a, b);
    forall x | a <= x < z ensures SameSide(f(x), f(a)) {
      CrossesAtRoot(ts, m, z, x, b);
    }
    forall x | z < x <= b ensures SameSide(f(x), f(b)) {
      CrossesAtRoot(ts, m, z, a, x);
    }
    n := BisectionLocatesCrossing(f, a, b, c, z);
  }

  lemma {:induction false} LogOfRateOf(m: RateMaps, x: real)
    requires Lawful(m)
    ensures m.logRate(m.rateOf(x)) == x
  {
    assert LogInverseAt(m, x);
  }

  lemma {:induction false} LogOfRate(ts: seq<Term>, m: RateMaps, lower: real, z: real, upper: real) returns (x: real)
    requires Lawful(m) && -1.0 < lower <= z <= upper && Npv(ts, m, z) == 0.0
    ensures x == m.logRate(z) && m.logRate(lower) <= x <= m.logRate(upper)
    ensures EvalTerms(ts, m.dayDiscount(x)) == 0.0
  {
    x := m.logRate(z);
    assert RateInverseAt(m, z) && DiscountOfRateAt(m, x);
    assert LogGrowsAt(m, lower, z) && LogGrowsAt(m, z, upper);
  }

  // ---------------------------------------------------------------- the derivative partitions the interval

  ghost predicate KeepsSign(g: real -> real, a: real, b: real) {
    || (forall x :: a <= x <= b ==> g(x) >= 0.0)
    || (forall x :: a <= x <= b ==> g(x) <= 0.0)
  }

  lemma {:induction false} DerivativeSignAt(n: seq<Term>, daysPerYear: real, y: real)
    requires Ordered(n) && daysPerYear > 0.0 && y > 0.0
    ensures var g := EvalTerms(DerivativeTerms(n, daysPerYear), y);
            (g >= 0.0 <==> EvalDerivative(Dense(n, 0), y) <= 0.0) && (g <= 0.0 <==> EvalDerivative(Dense(n, 0), y) >= 0.0)
  {
    hide *;
    DerivativeValue(n, daysPerYear, y);
    assert y / daysPerYear > 0.0;
    NegatedProduct(y / daysPerYear, EvalDerivative(Dense(n, 0), y), EvalTerms(DerivativeTerms(n, daysPerYear), y));
  }

  lemma {:induction false} NegatedProduct(a: real, b: real, g: real)
    requires a > 0.0 && g == -a * b
    ensures (g >= 0.0 <==> b <= 0.0) && (g <= 0.0 <==> b >= 0.0)
  {
  }

  lemma {:induction false} LogWithin(m: RateMaps, a: real, b: real, y: real)
    requires Lawful(m) && m.dayDiscount(b) <= y <= m.dayDiscount(a)
    ensures var x := m.discountLog(y); a <= x <= b && m.dayDiscount(x) == y && y > 0.0
  {
    var x := m.discountLog(y);
    assert DiscountPositiveAt(m, b) && DiscountInverseAt(m, y);
    assert DiscountDropsAt(m, x, a) && DiscountDropsAt(m, b, x);
  }

  /** A sign kept in the log rate is a sign kept in the discount factor. */
  lemma {:induction false} DerivativeSignTransfers(n: seq<Term>, m: RateMaps, daysPerYear: real, a: real, b: real)
    requires Ordered(n) && Lawful(m) && daysPerYear > 0.0
    requires KeepsSign(Evaluate(DerivativeTerms(n, daysPerYear), m), a, b)
    ensures DerivativeKeepsSign(Dense(n, 0), m.dayDiscount(b), m.dayDiscount(a))
  {
    hide Lawful, Ordered, EvalTerms, EvalDerivative, Dense, DerivativeTerms;
    forall y | m.dayDiscount(b) <= y <= m.dayDiscount(a)
      ensures var g := Evaluate(DerivativeTerms(n, daysPerYear), m)(m.discountLog(y));
              && a <= m.discountLog(y) <= b
              && (g >= 0.0 <==> EvalDerivative(Dense(n, 0), y) <= 0.0)
              && (g <= 0.0 <==> EvalDerivative(Dense(n, 0), y) >= 0.0)
    {
      LogWithin(m, a, b, y);
      DerivativeSignAt(n, daysPerYear, y);
    }
  }

  /** Where the derivative the solver isolates keeps its sign, the present value is monotone. */
  lemma {:induction false} MonotoneCell(n: seq<Term>, m: RateMaps, daysPerYear: real, a: real, b: real)
    requires Ordered(n) && Lawful(m) && daysPerYear > 0.0 && a <= b
    requires KeepsSign(Evaluate(DerivativeTerms(n, daysPerYear), m), a, b)
    ensures MonotoneOn(Evaluate(n, m), a, b)
  {
    hide Lawful, Ordered, EvalTerms, Eval, Dense, DerivativeTerms, KeepsSign, DerivativeKeepsSign, Monotone, MonotoneOn;
    var p := Dense(n, 0);
    DerivativeSignTransfers(n, m, daysPerYear, a, b);
    DiscountPositive(m, b);
    MonotoneFromDerivativeSign(p, m.dayDiscount(b), m.dayDiscount(a));
    MonotoneInLog(n, m, a, b);
  }

  lemma {:induction false} MonotoneInLog(n: seq<Term>, m: RateMaps, a: real, b: real)
    requires Ordered(n) && Lawful(m) && Monotone(Dense(n, 0), m.dayDiscount(b), m.dayDiscount(a))
    ensures MonotoneOn(Evaluate(n, m), a, b)
  {
    hide Lawful, Ordered, EvalTerms, Eval, Dense, Evaluate;
    var p, f, lo, hi := Dense(n, 0), Evaluate(n, m), m.dayDiscount(b), m.dayDiscount(a);
    if forall u, v :: lo <= u <= v <= hi ==> Eval(p, u) <= Eval(p, v) {
      forall x, y | a <= x <= y <= b ensures f(y) <= f(x) {
        PairInLog(n, m, a, x, y, b);
      }
    } else {
      forall x, y | a <= x <= y <= b ensures f(x) <= f(y) {
        PairInLog(n, m, a, x, y, b);
      }
    }
  }

  lemma {:induction false} PairInLog(n: seq<Term>, m: RateMaps, a: real, x: real, y: real, b: real)
    requires Ordered(n) && Lawful(m) && a <= x <= y <= b
    ensures m.dayDiscount(b) <= m.dayDiscount(y) <= m.dayDiscount(x) <= m.dayDiscount(a)
    ensures Evaluate(n, m)(x) == Eval(Dense(n, 0), m.dayDiscount(x))
    ensures Evaluate(n, m)(y) == Eval(Dense(n, 0), m.dayDiscount(y))
  {
    hide Lawful, Ordered, EvalTerms, Eval, Dense;
    WeakDiscountOrder(m, a, x);
    WeakDiscountOrder(m, x, y);
    WeakDiscountOrder(m, y, b);
    TermsAreDense(n, m.dayDiscount(x));
    TermsAreDense(n, m.dayDiscount(y));
  }

  lemma {:induction false} DiscountPositive(m: RateMaps, x: real)
    requires Lawful(m)
    ensures m.dayDiscount(x) > 0.0
  {
    assert DiscountPositiveAt(m, x);
  }

  lemma {:induction false} WeakDiscountOrder(m: RateMaps, x: real, y: real)
    requires Lawful(m) && x <= y
    ensures m.dayDiscount(y) <= m.dayDiscount(x)
  {
    assert DiscountDropsAt(m, x, y);
  }

  /** The qualified branch of the isolation: the grid refined by the stationary candidates. */
  lemma {:induction false} IsolateScansPartition(n: seq<Term>, m: RateMaps, s: SolverSettings)
    requires Ordered(n) && |n| > 1 && n[0].days == 0 && ValidSettings(s)
    requires CoefficientSignChanges(Coefficients(n)) <= 1 || |n| <= MAX_UNIQUENESS_TERMS
    ensures HasDayZero(n)
    ensures Isolate(n, m, s).candidates
         == ScanMonotonicPartitions(Evaluate(n, m), Partition(n, m, s), ScanControls(n, s)).candidates
  {
    hide Normalized, Linspace, EvalTerms, MergedRoots, SortedByValue, SortedPoints, FirstFailureReason, StationaryScan;
    TermsNormalized(n);
  }

  // ---------------------------------------------------------------- cells with approximate stationary points

  /** On [lo, hi] the derivative by the log rate is at most eps, and eps is too small for the value to move by
      more than the tolerance across the interval. */
  ghost predicate SlopeWithin(n: seq<Term>, m: RateMaps, s: SolverSettings, lo: real, hi: real, eps: real)
    requires s.daysPerYear > 0.0
  {
    && eps >= 0.0
    && (forall x :: lo <= x <= hi ==> Abs(Evaluate(DerivativeTerms(n, s.daysPerYear), m)(x)) <= eps)
    && eps * s.daysPerYear * (m.dayDiscount(lo) - m.dayDiscount(hi))
       <= ScanControls(n, s).valueTolerance * m.dayDiscount(hi)
  }

  ghost predicate NearlyFlat(n: seq<Term>, m: RateMaps, s: SolverSettings, lo: real, hi: real)
    requires s.daysPerYear > 0.0
  {
    exists eps :: SlopeWithin(n, m, s, lo, hi, eps)
  }

  /** The derivative keeps its sign on the cell except next to its ends, where it is too small to matter. The
      exceptions leave room for stationary points that were themselves only bisected. */
  ghost predicate Qualifies(n: seq<Term>, m: RateMaps, s: SolverSettings, a: real, b: real)
    requires s.daysPerYear > 0.0
  {
    exists p, q :: a <= p <= q <= b && KeepsSign(Evaluate(DerivativeTerms(n, s.daysPerYear), m), p, q)
                   && NearlyFlat(n, m, s, a, p) && NearlyFlat(n, m, s, q, b)
  }

  lemma {:induction false} FlatAtPoint(n: seq<Term>, m: RateMaps, s: SolverSettings, x: real)
    requires Lawful(m) && s.daysPerYear > 0.0
    ensures NearlyFlat(n, m, s, x, x)
  {
    hide EvalTerms, DerivativeTerms, Evaluate;
    var eps := Abs(Evaluate(DerivativeTerms(n, s.daysPerYear), m)(x));
    PositiveTolerance(n, s);
    DiscountPositive(m, x);
    ProductNonNegative(ScanControls(n, s).valueTolerance, m.dayDiscount(x));
    ZeroWidth(eps * s.daysPerYear, m.dayDiscount(x));
    assert SlopeWithin(n, m, s, x, x, eps);
  }

  lemma {:induction false} ZeroWidth(k: real, d: real)
    ensures k * (d - d) == 0.0
  {
  }

  /** A cell on which the derivative keeps its sign throughout qualifies. */
  lemma {:induction false} SignKeptQualifies(n: seq<Term>, m: RateMaps, s: SolverSettings, a: real, b: real)
    requires Lawful(m) && s.daysPerYear > 0.0 && a <= b
    requires KeepsSign(Evaluate(DerivativeTerms(n, s.daysPerYear), m), a, b)
    ensures Qualifies(n, m, s, a, b)
  {
    hide NearlyFlat, KeepsSign, Evaluate, DerivativeTerms, Lawful;
    FlatAtPoint(n, m, s, a);
    FlatAtPoint(n, m, s, b);
  }

  /** Next to a stationary point the derivative is flat up to a candidate whose own residual is within eps, if it is
      monotone in between and the gap is narrow for that eps. */
  lemma {:induction false} StationaryCandidateFlat(n: seq<Term>, m: RateMaps, s: SolverSettings, lo: real, hi: real, eps: real)
    requires Lawful(m) && s.daysPerYear > 0.0 && lo <= hi
    requires var g := Evaluate(DerivativeTerms(n, s.daysPerYear), m);
             MonotoneOn(g, lo, hi) && Abs(g(lo)) <= eps && Abs(g(hi)) <= eps
    requires eps * s.daysPerYear * (m.dayDiscount(lo) - m.dayDiscount(hi))
             <= ScanControls(n, s).valueTolerance * m.dayDiscount(hi)
    ensures NearlyFlat(n, m, s, lo, hi)
  {
    hide EvalTerms, DerivativeTerms, Evaluate, Lawful;
    var g := Evaluate(DerivativeTerms(n, s.daysPerYear), m);
    forall x | lo <= x <= hi ensures Abs(g(x)) <= eps {
      assert g(lo) <= g(x) <= g(hi) || g(hi) <= g(x) <= g(lo);
    }
    assert SlopeWithin(n, m, s, lo, hi, eps);
  }

  lemma {:induction false} DerivativeSizeAt(n: seq<Term>, daysPerYear: real, y: real, eps: real, low: real)
    requires Ordered(n) && daysPerYear > 0.0 && 0.0 < low <= y && eps >= 0.0
    requires Abs(EvalTerms(DerivativeTerms(n, daysPerYear), y)) <= eps
    ensures Abs(EvalDerivative(Dense(n, 0), y)) <= eps * daysPerYear / low
  {
    hide *;
    DerivativeValue(n, daysPerYear, y);
    ScaledSize(y, daysPerYear, EvalDerivative(Dense(n, 0), y), EvalTerms(DerivativeTerms(n, daysPerYear), y), eps, low);
  }

  lemma {:induction false} ScaledSize(y: real, a: real, d: real, g: real, eps: real, low: real)
    requires a > 0.0 && 0.0 < low <= y && eps >= 0.0 && g == -(y / a) * d && Abs(g) <= eps
    ensures Abs(d) <= eps * a / low
  {
    var u, r, r0 := Abs(d), y / a, low / a;
    RatiosOrdered(low, y, a);
    AbsOfProduct(r, d, g);
    MulMonotone(r0, r, u);
    RatioCancels(eps, a, low);
    CancelAtMost(u, eps * a / low, r0);
  }

  lemma {:induction false} RatiosOrdered(low: real, y: real, a: real)
    requires a > 0.0 && 0.0 < low <= y
    ensures 0.0 < low / a <= y / a
  {
    var p, q := low / a, y / a;
    assert p * a == low && q * a == y;
    if q < p {
      MulStrictlyMonotone(q, p, a);
    }
  }

  lemma {:induction false} AbsOfProduct(r: real, d: real, g: real)
    requires r > 0.0 && g == -r * d
    ensures r * Abs(d) == Abs(g)
  {
    assert r * -d == -r * d;
    if d < 0.0 {
      assert r * -d > 0.0;
    } else {
      assert r * d >= 0.0;
    }
  }

  lemma {:induction false} RatioCancels(eps: real, a: real, low: real)
    requires a > 0.0 && low > 0.0
    ensures (eps * a / low) * (low / a) == eps
  {
    var q, r := eps * a / low, low / a;
    assert q * low == eps * a && r * a == low;
    MulAssociative(q, r, a);
    assert (q * r) * a == eps * a;
  }

  lemma {:induction false} CancelAtMost(u: real, q: real, r: real)
    requires r > 0.0 && r * u <= q * r
    ensures u <= q
  {
    if u > q {
      MulStrictlyMonotone(q, u, r);
    }
  }

  /** Across a nearly flat interval the value moves by at most the tolerance. */
  lemma {:induction false} FlatMove(n: seq<Term>, m: RateMaps, s: SolverSettings, lo: real, hi: real, x: real, z: real)
    requires Ordered(n) && Lawful(m) && s.daysPerYear > 0.0 && lo <= x <= z <= hi
    requires NearlyFlat(n, m, s, lo, hi)
    ensures Abs(Evaluate(n, m)(x) - Evaluate(n, m)(z)) <= ScanControls(n, s).valueTolerance
  {
    hide Lawful, Ordered, EvalTerms, Eval, EvalDerivative, Dense, DerivativeTerms, ScanControls, Evaluate, SlopeWithin;
    var eps :| SlopeWithin(n, m, s, lo, hi, eps);
    DiscountPositive(m, hi);
    PairInLog(n, m, lo, x, z, hi);
    SlopeWithinUnfolded(n, m, s, lo, hi, eps);
    SlopeOnRange(n, m, s, lo, hi, eps);
    DenseMove(Dense(n, 0), m.dayDiscount(hi), m.dayDiscount(z), m.dayDiscount(x), m.dayDiscount(lo),
              eps * s.daysPerYear, ScanControls(n, s).valueTolerance);
  }

  lemma {:induction false} SlopeWithinUnfolded(n: seq<Term>, m: RateMaps, s: SolverSettings, lo: real, hi: real, eps: real)
    requires s.daysPerYear > 0.0 && SlopeWithin(n, m, s, lo, hi, eps)
    ensures eps * s.daysPerYear >= 0.0
    ensures eps * s.daysPerYear * (m.dayDiscount(lo) - m.dayDiscount(hi))
         <= ScanControls(n, s).valueTolerance * m.dayDiscount(hi)
  {
    ProductNonNegative(eps, s.daysPerYear);
  }

  lemma {:induction false} DenseMove(p: seq<real>, low: real, z: real, x: real, high: real, k: real, tol: real)
    requires k >= 0.0 && low > 0.0 && low <= z <= x <= high && k * (high - low) <= tol * low
    requires SlopeAtMost(p, low, high, k / low)
    ensures Abs(Eval(p, x) - Eval(p, z)) <= tol
  {
    hide Eval, EvalDerivative;
    SmallSlopeBound(p, z, x, k / low);
    MoveBound(k, low, high, x, z, tol);
  }

  lemma {:induction false} SlopeOnRange(n: seq<Term>, m: RateMaps, s: SolverSettings, lo: real, hi: real, eps: real)
    requires Ordered(n) && Lawful(m) && s.daysPerYear > 0.0 && lo <= hi && m.dayDiscount(hi) > 0.0
    requires SlopeWithin(n, m, s, lo, hi, eps)
    ensures SlopeAtMost(Dense(n, 0), m.dayDiscount(hi), m.dayDiscount(lo), eps * s.daysPerYear / m.dayDiscount(hi))
  {
    hide Lawful, Ordered, EvalTerms, EvalDerivative, Dense, DerivativeTerms, ScanControls;
    forall y | m.dayDiscount(hi) <= y <= m.dayDiscount(lo)
      ensures Abs(EvalDerivative(Dense(n, 0), y)) <= eps * s.daysPerYear / m.dayDiscount(hi)
    {
      LogWithin(m, lo, hi, y);
      assert Abs(Evaluate(DerivativeTerms(n, s.daysPerYear), m)(m.discountLog(y))) <= eps;
      DerivativeSizeAt(n, s.daysPerYear, y, eps, m.dayDiscount(hi));
    }
  }

  lemma {:induction false} MoveBound(k: real, low: real, high: real, x: real, z: real, tol: real)
    requires k >= 0.0 && low > 0.0 && low <= z <= x <= high && k * (high - low) <= tol * low
    ensures k / low * (x - z) <= tol
  {
    var q := k / low;
    assert q * low == k && q >= 0.0;
    MulMonotone(x - z, high - low, q);
    assert q * (high - low) * low == k * (high - low);
    if q * (high - low) > tol {
      MulStrictlyMonotone(tol, q * (high - low), low);
    }
  }

  /** In a qualified cell that holds a root an end is within tolerance, or the ends do not share a strict side. */
  lemma {:induction false} RootShowsAtEnds(n: seq<Term>, m: RateMaps, s: SolverSettings, a: real, b: real, z: real)
    requires Ordered(n) && Lawful(m) && s.daysPerYear > 0.0 && a <= z <= b && Qualifies(n, m, s, a, b)
    requires Evaluate(n, m)(z) == 0.0
    ensures var f, tol := Evaluate(n, m), ScanControls(n, s).valueTolerance;
            !SameSide(f(a), f(b)) || Abs(f(a)) <= tol || Abs(f(b)) <= tol
  {
    hide Lawful, Ordered, Evaluate, KeepsSign, NearlyFlat, ScanControls, DerivativeTerms;
    var p, q :| a <= p <= q <= b && KeepsSign(Evaluate(DerivativeTerms(n, s.daysPerYear), m), p, q)
                && NearlyFlat(n, m, s, a, p) && NearlyFlat(n, m, s, q, b);
    FlatMove(n, m, s, a, p, a, if z <= p then z else p);
    FlatMove(n, m, s, q, b, if z >= q then z else q, b);
    if p < z < q {
      MonotoneCell(n, m, s.daysPerYear, p, q);
    }
  }

  /** No root is missed: the isolation reports a candidate for the qualified cell of every root. */
  lemma {:induction false} NoRootMissedByIsolation(n: seq<Term>, m: RateMaps, s: SolverSettings, points: seq<real>, z: real, i: nat)
    requires Ordered(n) && |n| > 1 && n[0].days == 0 && ValidSettings(s) && Lawful(m) && HasDayZero(n)
    requires CoefficientSignChanges(Coefficients(n)) <= 1 || |n| <= MAX_UNIQUENESS_TERMS
    requires points == SortedPoints(Partition(n, m, s))
    requires i + 1 < |points| && points[i] <= z <= points[i + 1]
    requires Qualifies(n, m, s, points[i], points[i + 1])
    requires Evaluate(n, m)(z) == 0.0
    ensures CellDetected(Evaluate(n, m), points[i], points[i + 1], ScanControls(n, s), Isolate(n, m, s))
  {
    hide Lawful, Isolate, ScanMonotonicPartitions, Evaluate, Qualifies, CellDetected, Ordered, SameSide, Partition,
         CoefficientSignChanges, Coefficients, ScanControls;
    var f, partition, c := Evaluate(n, m), Partition(n, m, s), ScanControls(n, s);
    RootShowsAtEnds(n, m, s, points[i], points[i + 1], z);
    PositiveTolerance(n, s);
    ScanDetectsCell(f, partition, c, i);
    IsolateScansPartition(n, m, s);
    SameCandidatesDetect(f, points[i], points[i + 1], c, ScanMonotonicPartitions(f, partition, c), Isolate(n, m, s));
  }

  lemma {:induction false} PositiveTolerance(n: seq<Term>, s: SolverSettings)
    ensures ScanControls(n, s).valueTolerance >= 0.0
  {
  }
}
