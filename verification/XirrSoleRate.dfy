/** Flows with one sign change have one rate of return. This module says exactly when the solver reports it. */
module XirrSoleRate {
  import opened Wrappers
  import opened RealArithmetic
  import opened Polynomials
  import opened Calculus
  import opened ExponentialTerms
  import opened OneSignChange
  import opened Bisection
  import opened RootScanning
  import opened RootDetection
  import opened XirrFlows
  import opened Xirr
  import opened XirrTheorems
  import opened XirrReporting

  /** The points at which f is within tolerance, in order. */
  function PointsWithin(f: real -> real, points: seq<real>, tolerance: real): (r: seq<real>)
    ensures forall p :: p in r <==> p in points && Abs(f(p)) <= tolerance
  {
    if points == [] then []
    else
      var n := |points| - 1;
      assert points == points[..n] + [points[n]];
      if Abs(f(points[n])) <= tolerance then PointsWithin(f, points[..n], tolerance) + [points[n]]
      else PointsWithin(f, points[..n], tolerance)
  }

  lemma {:induction false} PointsWithinIncrease(f: real -> real, points: seq<real>, tolerance: real)
    requires StrictlyIncreasing(points)
    ensures StrictlyIncreasing(PointsWithin(f, points, tolerance))
  {
    if points != [] {
      var n := |points| - 1;
      PointsWithinIncrease(f, points[..n], tolerance);
      var r := PointsWithin(f, points[..n], tolerance);
      forall i | 0 <= i < |r| ensures r[i] < points[n] {
        assert r[i] in points[..n];
      }
    }
  }

  predicate AllClose(points: seq<real>, p: real) {
    forall i :: 0 <= i < |points| ==> Close(points[i], p)
  }

  lemma {:induction false} ExactStep(f: real -> real, roots: seq<RootCandidate>, within: seq<real>, p: real)
    requires (roots == [] <==> within == [])
    requires within != [] ==> roots[0] == Converged(f, within[0], 0) && (|roots| == 1 <==> AllClose(within, within[0]))
    ensures var after, all := AppendedDistinct(roots, Converged(f, p, 0)), within + [p];
            after != [] && after[0] == Converged(f, all[0], 0) && (|after| == 1 <==> AllClose(all, all[0]))
  {
    var after, all := AppendedDistinct(roots, Converged(f, p, 0)), within + [p];
    assert all[|within|] == p;
    if AllClose(all, all[0]) && within != [] {
      assert forall i :: 0 <= i < |within| ==> all[i] == within[i];
      assert AllClose(within, within[0]);
    }
  }

  /** The first root found stays first, and it is the only one exactly when every point within tolerance is close
      to it. */
  lemma {:induction false} SoleExactRoot(f: real -> real, points: seq<real>, tolerance: real)
    ensures var roots, within := ExactPartitionRoots(f, points, tolerance), PointsWithin(f, points, tolerance);
      && (roots == [] <==> within == [])
      && (within != [] ==> roots[0] == Converged(f, within[0], 0) && (|roots| == 1 <==> AllClose(within, within[0])))
  {
    hide AppendedDistinct, AllClose, Converged;
    if points != [] {
      var n := |points| - 1;
      SoleExactRoot(f, points[..n], tolerance);
      if Abs(f(points[n])) <= tolerance {
        ExactStep(f, ExactPartitionRoots(f, points[..n], tolerance), PointsWithin(f, points[..n], tolerance), points[n]);
      }
    }
  }

  lemma {:induction false} SpreadDecides(within: seq<real>)
    requires within != [] && StrictlyIncreasing(within)
    ensures AllClose(within, within[0]) <==> within[|within| - 1] - within[0] <= DISTINCT_ROOT_TOLERANCE
  {
    var n := |within| - 1;
    assert Close(within[n], within[0]) <==> within[n] - within[0] <= DISTINCT_ROOT_TOLERANCE;
    forall i | 0 <= i < |within| ensures within[0] <= within[i] <= within[n] {
    }
  }

  // ---------------------------------------------------------------- at most one bracket

  /** Once sigma * f is nonnegative it is positive everywhere before. */
  ghost predicate DropsOnce(f: real -> real, sigma: real) {
    forall x, y :: x < y && sigma * f(y) >= 0.0 ==> sigma * f(x) > 0.0
  }

  lemma {:induction false} OppositeUnderSign(sigma: real, a: real, b: real)
    requires sigma == 1.0 || sigma == -1.0
    ensures a * b < 0.0 <==> (sigma * a < 0.0 < sigma * b || sigma * b < 0.0 < sigma * a)
  {
    ProductSign(a, b);
  }

  lemma {:induction false} AtMostOneBracket(f: real -> real, points: seq<real>, c: Controls, sigma: real)
    requires StrictlyIncreasing(points) && DropsOnce(f, sigma) && (sigma == 1.0 || sigma == -1.0)
    ensures var roots := BracketedPartitionRoots(f, points, c);
            |roots| <= 1 && (points != [] && sigma * f(points[|points| - 1]) >= 0.0 ==> roots == [])
  {
    if |points| >= 2 {
      var n := |points| - 1;
      AtMostOneBracket(f, points[..n], c, sigma);
      OppositeUnderSign(sigma, f(points[n - 1]), f(points[n]));
      assert points[n - 1] < points[n];
    }
  }

  lemma {:induction false} OneSignChangeDropsOnce(ts: seq<Term>, m: RateMaps) returns (sigma: real)
    requires Ordered(ts) && Lawful(m) && AdjacentSignFlips(Coefficients(ts)) == 1
    ensures (sigma == 1.0 || sigma == -1.0) && DropsOnce(Evaluate(ts, m), sigma)
  {
    hide EvalTerms, Lawful, SplitAt, Evaluate, Ordered, AdjacentSignFlips, Coefficients;
    var split, side := SplitExists(ts);
    SideIsSign(ts, split, side);
    sigma := side as real;
    forall x, y | x < y && sigma * Evaluate(ts, m)(y) >= 0.0 ensures sigma * Evaluate(ts, m)(x) > 0.0 {
      DropsBetween(ts, m, split, side, x, y);
    }
  }

  lemma {:induction false} SideIsSign(ts: seq<Term>, split: nat, side: int)
    requires SplitAt(ts, split, side)
    ensures side == 1 || side == -1
  {
  }

  lemma {:induction false} DropsBetween(ts: seq<Term>, m: RateMaps, split: nat, side: int, x: real, y: real)
    requires ts != [] && SplitAt(ts, split, side) && ts[0].days < split && Lawful(m)
    requires x < y && side as real * Evaluate(ts, m)(y) >= 0.0
    ensures side as real * Evaluate(ts, m)(x) > 0.0
  {
    hide EvalTerms, Lawful, SplitAt;
    DiscountOrder(m, x, y);
    Crossing(ts, split, side, m.dayDiscount(y), m.dayDiscount(x));
  }

  // ---------------------------------------------------------------- when the scan has one converged candidate

  /** The grid points within tolerance span at most the merge tolerance and the bracketed candidate, if there is one,
      merges into them; or no grid point is within tolerance and the bracketed candidate converged. */
  predicate Singles(f: real -> real, points: seq<real>, c: Controls) {
    var within, bracketed := PointsWithin(f, points, c.valueTolerance), BracketedPartitionRoots(f, points, c);
    if within != [] then
      && within[|within| - 1] - within[0] <= DISTINCT_ROOT_TOLERANCE
      && (bracketed != [] ==> Close(bracketed[0].value, within[0]))
    else bracketed != [] && bracketed[0].converged
  }

  lemma {:induction false} MergeOne(roots: seq<RootCandidate>, b: RootCandidate)
    ensures roots == [] ==> Merged(roots, [b]) == [b]
    ensures roots != [] && roots[0].converged ==>
      (|Merged(roots, [b])| == 1 <==> |roots| == 1 && Close(b.value, roots[0].value))
    ensures roots != [] && roots[0].converged && Close(b.value, roots[0].value) ==> Merged(roots, [b]) == roots
  {
    assert [b][1..] == [];
    assert Merged(roots, [b]) == Merged(AppendedDistinct(roots, b), []);
    assert Merged(AppendedDistinct(roots, b), []) == AppendedDistinct(roots, b);
  }

  lemma {:induction false} SinglesIff(f: real -> real, points: seq<real>, c: Controls, sigma: real)
    requires StrictlyIncreasing(points) && DropsOnce(f, sigma) && (sigma == 1.0 || sigma == -1.0)
    ensures var roots := MergedRoots(f, points, c); |roots| == 1 && roots[0].converged <==> Singles(f, points, c)
  {
    hide AppendedDistinct, ExactPartitionRoots, BracketedPartitionRoots, PointsWithin, AllClose, Close, Merged, DropsOnce;
    var exact, bracketed := ExactPartitionRoots(f, points, c.valueTolerance), BracketedPartitionRoots(f, points, c);
    var within := PointsWithin(f, points, c.valueTolerance);
    SoleExactRoot(f, points, c.valueTolerance);
    AtMostOneBracket(f, points, c, sigma);
    PointsWithinIncrease(f, points, c.valueTolerance);
    if within != [] {
      SpreadDecides(within);
    }
    if bracketed == [] {
      MergeNone(exact);
    } else {
      assert bracketed == [bracketed[0]];
      MergeOne(exact, bracketed[0]);
    }
  }

  lemma {:induction false} MergeNone(roots: seq<RootCandidate>)
    ensures Merged(roots, []) == roots
  {
  }

  lemma {:induction false} ScanIsSole(f: real -> real, partition: seq<real>, c: Controls)
    ensures var roots, scan := MergedRoots(f, SortedPoints(partition), c), ScanMonotonicPartitions(f, partition, c);
      (|scan.candidates| == 1 && scan.candidates[0].converged && scan.failureReason == None)
      <==> (|roots| == 1 && roots[0].converged)
  {
    hide MergedRoots, SortedPoints;
    var roots := MergedRoots(f, SortedPoints(partition), c);
    if |roots| == 1 {
      var sorted := SortedByValue(roots);
      assert sorted[0] in sorted;
      assert FirstFailureReason(roots[1..]) == None;
    }
  }

  lemma {:induction false} RateFromIsolation(ts: seq<Term>, m: RateMaps, s: SolverSettings)
    requires ValidSettings(s)
    ensures ResultFromRoots(ScanRates(ts, m, s)).Rate? <==> ResultFromRoots(Isolate(ts, m, s)).Rate?
  {
    hide Isolate;
    var scan, rates := Isolate(ts, m, s), ScanRates(ts, m, s);
    RateReportedIff(scan);
    RateReportedIff(rates);
  }

  lemma {:induction false} IsolationSingles(ts: seq<Term>, m: RateMaps, s: SolverSettings)
    requires Ordered(ts) && ts != [] && ts[0].days == 0 && Lawful(m) && ValidSettings(s)
    requires CoefficientSignChanges(Coefficients(ts)) == 1
    ensures ResultFromRoots(Isolate(ts, m, s)).Rate? <==> Singles(Evaluate(ts, m), Grid(s), ScanControls(ts, s))
  {
    hide Lawful, Isolate, Evaluate, Linspace, SortedPoints, Ordered, CoefficientSignChanges, Coefficients, ScanControls,
         AdjacentSignFlips, Singles, DropsOnce, MergedRoots, ScanMonotonicPartitions;
    var grid := Linspace(s.lower, s.upper, s.steps);
    OneFlip(ts, s);
    var sigma := OneSignChangeDropsOnce(ts, m);
    IsolateWithoutStationary(ts, m, s);
    RateReportedIff(Isolate(ts, m, s));
    ScanIsSole(Evaluate(ts, m), grid, ScanControls(ts, s));
    SinglesIff(Evaluate(ts, m), SortedPoints(grid), ScanControls(ts, s), sigma);
  }

  /** For flows with one sign change the solver reports a rate if and only if its controls and bounds are valid and
      the scan of its grid is left with a single converged candidate. */
  lemma {:induction false} OneSignChangeRateIff(netted: seq<Flow>, m: RateMaps, c: XirrControls, daysPerYear: real)
    requires Netted(netted) && netted != [] && daysPerYear > 0.0 && Lawful(m)
    requires CoefficientSignChanges(Coefficients(Terms(netted))) == 1
    ensures SolveXirr(netted, m, c, daysPerYear).Rate? <==>
      && ValidControls(c) && ValidBounds(c)
      && var ts, s := Terms(netted), Settings(m, c, daysPerYear);
         ValidSettings(s) && Singles(Evaluate(ts, m), Grid(s), ScanControls(ts, s))
  {
    hide Isolate, Lawful, Netted, OneSided, GrossFlow, Ordered, CoefficientSignChanges, Coefficients, Singles, Grid,
         ScanRates, ResultFromRoots, ScanControls, Evaluate, ValidControls, ValidBounds;
    NettedTermsOrdered(netted);
    SignChangeHasContent(netted);
    LogBoundsOrdered(m, c);
    if ValidControls(c) && ValidBounds(c) {
      SettingsValid(m, c, daysPerYear);
      RateFromIsolation(Terms(netted), m, Settings(m, c, daysPerYear));
      IsolationSingles(Terms(netted), m, Settings(m, c, daysPerYear));
    }
  }

  /** Two points of the grid at which the present value is within tolerance, further apart than merging reaches. */
  ghost predicate DistantPoints(ts: seq<Term>, m: RateMaps, s: SolverSettings, p: real, q: real) {
    && s.steps >= 2 && p in Grid(s) && q in Grid(s) && p + DISTINCT_ROOT_TOLERANCE < q
    && Abs(Evaluate(ts, m)(p)) <= ScanControls(ts, s).valueTolerance
    && Abs(Evaluate(ts, m)(q)) <= ScanControls(ts, s).valueTolerance
  }

  /** Two grid points within tolerance that are further apart than the merge tolerance never yield a rate. */
  lemma {:induction false} DistantPointsNoRate(netted: seq<Flow>, m: RateMaps, c: XirrControls, daysPerYear: real,
                                               p: real, q: real)
    requires Netted(netted) && netted != [] && daysPerYear > 0.0 && Lawful(m)
    requires CoefficientSignChanges(Coefficients(Terms(netted))) == 1 && ValidControls(c) && ValidBounds(c)
    ensures SolveXirr(netted, m, c, daysPerYear).Rate?
        ==> !DistantPoints(Terms(netted), m, Settings(m, c, daysPerYear), p, q)
  {
    hide Isolate, Lawful, Netted, Ordered, CoefficientSignChanges, Coefficients, SortedPoints, SolveXirr, Settings,
         Terms, ScanControls, Evaluate, ValidControls, ValidBounds, Singles;
    OneSignChangeRateIff(netted, m, c, daysPerYear);
    var ts, s := Terms(netted), Settings(m, c, daysPerYear);
    if DistantPoints(ts, m, s, p, q) {
      SpreadOut(Evaluate(ts, m), Grid(s), ScanControls(ts, s), p, q);
    }
  }

  lemma {:induction false} SpreadOut(f: real -> real, points: seq<real>, c: Controls, p: real, q: real)
    requires StrictlyIncreasing(points) && p in points && q in points && p + DISTINCT_ROOT_TOLERANCE < q
    requires Abs(f(p)) <= c.valueTolerance && Abs(f(q)) <= c.valueTolerance
    ensures !Singles(f, points, c)
  {
    hide BracketedPartitionRoots;
    var within := PointsWithin(f, points, c.valueTolerance);
    PointsWithinIncrease(f, points, c.valueTolerance);
    var i :| 0 <= i < |within| && within[i] == p;
    var j :| 0 <= j < |within| && within[j] == q;
    assert within[0] <= within[i] && within[j] <= within[|within| - 1];
  }

  // ---------------------------------------------------------------- controls under which a rate is reported

  /** f moves by at most slope times the distance. */
  ghost predicate SlopeBound(f: real -> real, lo: real, hi: real, slope: real) {
    slope >= 0.0 && forall x, y :: lo <= x <= y <= hi ==> Abs(f(x) - f(y)) <= slope * (y - x)
  }

  /** The slope over half the rate tolerance is within the value tolerance, and the iterations suffice to halve the
      given width down to the rate tolerance. */
  predicate ControlsSuffice(c: Controls, slope: real, width: real) {
    && c.valueTolerance >= 0.0 && c.rateTolerance > 0.0
    && slope * (c.rateTolerance / 2.0) <= c.valueTolerance
    && width <= c.rateTolerance * Pow(2.0, c.maxIter)
  }

  lemma {:induction false} NarrowEnough(w: real, p: real, d: real, t: real)
    requires p > 0.0 && w * p == d && d <= t * p
    ensures w <= t
  {
    if w > t {
      MulStrictlyMonotone(t, w, p);
    }
  }

  lemma {:induction false} NearRootWithin(f: real -> real, lo: real, hi: real, slope: real, mid: real, z: real, t: real, tol: real)
    requires SlopeBound(f, lo, hi, slope) && lo <= mid <= hi && lo <= z <= hi && f(z) == 0.0
    requires Abs(mid - z) <= t && slope * t <= tol
    ensures Abs(f(mid)) <= tol
  {
    if mid <= z {
      assert Abs(f(mid) - f(z)) <= slope * (z - mid);
      MoveAtMost(slope, z - mid, t, tol);
    } else {
      assert Abs(f(z) - f(mid)) <= slope * (mid - z);
      MoveAtMost(slope, mid - z, t, tol);
    }
  }

  lemma {:induction false} MoveAtMost(slope: real, d: real, t: real, tol: real)
    requires slope >= 0.0 && 0.0 <= d <= t && slope * t <= tol
    ensures slope * d <= tol
  {
    MulMonotone(d, t, slope);
  }

  /** Such controls make the bisection of a crossing converge. */
  lemma {:induction false} BisectionConverges(f: real -> real, a: real, b: real, c: Controls, z: real, slope: real)
    requires a <= z <= b && Opposite(f(a), f(b)) && CrossesOnceAt(f, a, b, z) && f(z) == 0.0
    requires SlopeBound(f, a, b, slope) && ControlsSuffice(c, slope, b - a)
    ensures BisectFrom(f, a, b, c, 0).converged
  {
    hide Pow, BisectFrom, SlopeBound;
    var r := BisectFrom(f, a, b, c, 0);
    BisectFromClassified(f, a, b, c, 0);
    var lo, hi, n := BracketHalves(f, a, b, c, 0);
    assert lo <= z <= hi;
    if r.terminationReason == IterationLimit {
      PowPositive(2.0, c.maxIter);
      NarrowEnough(hi - lo, Pow(2.0, c.maxIter), b - a, c.rateTolerance);
    }
    if r.terminationReason != ResidualTolerance {
      NearRootWithin(f, a, b, slope, r.value, z, c.rateTolerance / 2.0, c.valueTolerance);
    }
  }

  lemma {:induction false} CrossesInCell(ts: seq<Term>, m: RateMaps, x: real, a: real, b: real)
    requires Ordered(ts) && Lawful(m) && AdjacentSignFlips(Coefficients(ts)) == 1
    requires EvalTerms(ts, m.dayDiscount(x)) == 0.0 && a < x < b
    ensures Opposite(Evaluate(ts, m)(a), Evaluate(ts, m)(b)) && CrossesOnceAt(Evaluate(ts, m), a, b, x)
  {
    hide EvalTerms, Lawful, Ordered, AdjacentSignFlips, Coefficients, Evaluate;
    var f := Evaluate(ts, m);
    CrossesAtRoot(ts, m, x, a, b);
    forall y | a <= y < x ensures SameSide(f(y), f(a)) {
      CrossesAtRoot(ts, m, x, y, b);
    }
    forall y | x < y <= b ensures SameSide(f(y), f(b)) {
      CrossesAtRoot(ts, m, x, a, y);
    }
  }

  lemma {:induction false} SubSlope(f: real -> real, lo: real, hi: real, slope: real, a: real, b: real)
    requires SlopeBound(f, lo, hi, slope) && lo <= a <= b <= hi
    ensures SlopeBound(f, a, b, slope)
  {
  }

  lemma {:induction false} GridWithin(s: SolverSettings, i: nat)
    requires ValidSettings(s) && i < |Grid(s)|
    ensures s.lower <= Grid(s)[i] <= s.upper
  {
    hide SortedPoints, Linspace;
    GridEnds(s, Grid(s));
  }

  /** The value at x is zero: the root cell of the grid gives one converged candidate. */
  lemma {:induction false} SmoothSingles(ts: seq<Term>, m: RateMaps, s: SolverSettings, x: real, slope: real)
    requires Ordered(ts) && ts != [] && ts[0].days == 0 && Lawful(m) && ValidSettings(s)
    requires CoefficientSignChanges(Coefficients(ts)) == 1
    requires s.lower <= x <= s.upper && EvalTerms(ts, m.dayDiscount(x)) == 0.0
    requires PointsWithin(Evaluate(ts, m), Grid(s), ScanControls(ts, s).valueTolerance) == []
    requires SlopeBound(Evaluate(ts, m), s.lower, s.upper, slope)
    requires ControlsSuffice(ScanControls(ts, s), slope, s.upper - s.lower)
    ensures Singles(Evaluate(ts, m), Grid(s), ScanControls(ts, s))
  {
    hide EvalTerms, Lawful, Linspace, SortedPoints, Ordered, CoefficientSignChanges, AdjacentSignFlips, Coefficients,
         ScanControls, SlopeBound, Pow, BracketedPartitionRoots, DropsOnce, BisectFrom;
    OneFlip(ts, s);
    GridEnds(s, Grid(s));
    var i := CellOf(Grid(s), x);
    GridWithin(s, i);
    GridWithin(s, i + 1);
    var sigma := OneSignChangeDropsOnce(ts, m);
    CellSingles(ts, m, s, x, slope, Grid(s), i, ScanControls(ts, s), sigma);
  }

  lemma {:induction false} CellSingles(ts: seq<Term>, m: RateMaps, s: SolverSettings, x: real, slope: real, grid: seq<real>,
                                       i: nat, c: Controls, sigma: real)
    requires Ordered(ts) && Lawful(m) && AdjacentSignFlips(Coefficients(ts)) == 1 && StrictlyIncreasing(grid)
    requires EvalTerms(ts, m.dayDiscount(x)) == 0.0 && i + 1 < |grid| && grid[i] <= x <= grid[i + 1]
    requires s.lower <= grid[i] && grid[i + 1] <= s.upper
    requires PointsWithin(Evaluate(ts, m), grid, c.valueTolerance) == []
    requires SlopeBound(Evaluate(ts, m), s.lower, s.upper, slope) && ControlsSuffice(c, slope, s.upper - s.lower)
    requires DropsOnce(Evaluate(ts, m), sigma) && (sigma == 1.0 || sigma == -1.0)
    ensures Singles(Evaluate(ts, m), grid, c)
  {
    hide EvalTerms, Lawful, Ordered, AdjacentSignFlips, Coefficients, SlopeBound, DropsOnce, PointsWithin, Evaluate,
         ControlsSuffice, Opposite, Bisect, BracketedPartitionRoots;
    var f, a, b := Evaluate(ts, m), grid[i], grid[i + 1];
    NotWithin(f, grid, c.valueTolerance, i);
    NotWithin(f, grid, c.valueTolerance, i + 1);
    SubSlope(f, s.lower, s.upper, slope, a, b);
    NarrowerSuffices(c, slope, s.upper - s.lower, b - a);
    CellConverges(ts, m, x, slope, a, b, c);
    CellBracketed(f, grid, c, i);
    AtMostOneBracket(f, grid, c, sigma);
  }

  lemma {:induction false} CellConverges(ts: seq<Term>, m: RateMaps, x: real, slope: real, a: real, b: real, c: Controls)
    requires Ordered(ts) && Lawful(m) && AdjacentSignFlips(Coefficients(ts)) == 1
    requires EvalTerms(ts, m.dayDiscount(x)) == 0.0 && a <= x <= b
    requires Abs(Evaluate(ts, m)(a)) > c.valueTolerance && Abs(Evaluate(ts, m)(b)) > c.valueTolerance
    requires SlopeBound(Evaluate(ts, m), a, b, slope) && ControlsSuffice(c, slope, b - a)
    ensures Opposite(Evaluate(ts, m)(a), Evaluate(ts, m)(b)) && Bisect(Evaluate(ts, m), a, b, c).converged
  {
    hide EvalTerms, Lawful, Ordered, AdjacentSignFlips, Coefficients, SlopeBound, BisectFrom, Opposite, CrossesOnceAt,
         ControlsSuffice;
    RootIsWithin(ts, m, x, c, slope, b - a);
    CrossesInCell(ts, m, x, a, b);
    BisectionConverges(Evaluate(ts, m), a, b, c, x, slope);
  }

  lemma {:induction false} RootIsWithin(ts: seq<Term>, m: RateMaps, x: real, c: Controls, slope: real, width: real)
    requires EvalTerms(ts, m.dayDiscount(x)) == 0.0 && ControlsSuffice(c, slope, width)
    ensures Evaluate(ts, m)(x) == 0.0 && Abs(Evaluate(ts, m)(x)) <= c.valueTolerance
  {
    hide EvalTerms, Pow;
  }

  lemma {:induction false} NarrowerSuffices(c: Controls, slope: real, width: real, narrower: real)
    requires ControlsSuffice(c, slope, width) && narrower <= width
    ensures ControlsSuffice(c, slope, narrower)
  {
    hide Pow;
  }

  lemma {:induction false} NotWithin(f: real -> real, points: seq<real>, tolerance: real, i: nat)
    requires i < |points| && PointsWithin(f, points, tolerance) == []
    ensures Abs(f(points[i])) > tolerance
  {
    assert points[i] in points;
    assert points[i] !in PointsWithin(f, points, tolerance);
  }

  /** A condition on the controls before the call: with one sign change, a rate in bounds and no grid point within
      tolerance, a slope bound small enough for the tolerances and enough iterations, the rate is reported. */
  lemma {:induction false} SmoothRateReported(netted: seq<Flow>, m: RateMaps, c: XirrControls, daysPerYear: real, z: real,
                                              slope: real)
    requires Netted(netted) && netted != [] && daysPerYear > 0.0 && Lawful(m)
    requires CoefficientSignChanges(Coefficients(Terms(netted))) == 1
    requires ValidControls(c) && ValidBounds(c)
    requires c.rateLowerBound <= z <= c.rateUpperBound && Npv(Terms(netted), m, z) == 0.0
    requires Smooth(Terms(netted), m, Settings(m, c, daysPerYear), slope)
    ensures SolveXirr(netted, m, c, daysPerYear).Rate?
  {
    hide Isolate, Lawful, Npv, Netted, Ordered, CoefficientSignChanges, Coefficients, EvalTerms, SolveXirr, Singles,
         Evaluate, ScanControls, Grid, SlopeBound, ControlsSuffice, PointsWithin;
    var ts := Terms(netted);
    NettedTermsOrdered(netted);
    SettingsValid(m, c, daysPerYear);
    var x := LogOfRate(ts, m, c.rateLowerBound, z, c.rateUpperBound);
    SmoothSingles(ts, m, Settings(m, c, daysPerYear), x, slope);
    OneSignChangeRateIff(netted, m, c, daysPerYear);
  }

  ghost predicate Smooth(ts: seq<Term>, m: RateMaps, s: SolverSettings, slope: real) {
    && s.steps >= 2
    && PointsWithin(Evaluate(ts, m), Grid(s), ScanControls(ts, s).valueTolerance) == []
    && SlopeBound(Evaluate(ts, m), s.lower, s.upper, slope)
    && ControlsSuffice(ScanControls(ts, s), slope, s.upper - s.lower)
  }

  // ---------------------------------------------------------------- a rate that is not reported

  /** Four billionths out on one day and back on the next: the rate of return is zero. */
  const TINY_FLOWS: seq<Flow> := [Flow(-0.000000004, 0), Flow(0.000000004, 1)]

  lemma {:induction false} TinyTerms()
    ensures Netted(TINY_FLOWS)
    ensures Terms(TINY_FLOWS) == [Term(-0.000000004, 0), Term(0.000000004, 1)]
    ensures CoefficientSignChanges(Coefficients(Terms(TINY_FLOWS))) == 1
  {
    var ts, cs := Terms(TINY_FLOWS), Coefficients(Terms(TINY_FLOWS));
    assert cs == [-0.000000004, 0.000000004];
    assert cs[1..] == [0.000000004] && cs[1..][1..] == [];
    NonZeroIdentity(cs);
    assert AdjacentSignFlips(cs[1..]) == 0;
    assert AdjacentSignFlips(cs) == 1;
  }

  lemma {:induction false} TinyValue(y: real)
    ensures EvalTerms([Term(-0.000000004, 0), Term(0.000000004, 1)], y) == 0.000000004 * (y - 1.0)
  {
    hide EvalTerms;
    var ts := [Term(-0.000000004, 0), Term(0.000000004, 1)];
    var rest := [Term(0.000000004, 1)];
    assert ts[1..] == rest && rest[1..] == [];
    TermsUnfolded(ts, y);
    TermsUnfolded(rest, y);
    EmptyValues(y);
    PowZero(y);
    assert Pow(y, 1) == y * Pow(y, 0);
  }

  lemma {:induction false} TinyWithin(m: RateMaps, s: SolverSettings, x: real)
    requires 0.0 < m.dayDiscount(x) <= 2.0
    ensures var ts := [Term(-0.000000004, 0), Term(0.000000004, 1)];
            Abs(Evaluate(ts, m)(x)) <= ScanControls(ts, s).valueTolerance
  {
    TinyValue(m.dayDiscount(x));
  }

  /** The tiny flows have a rate of return, but the ends of the bounds are both within the value tolerance: no bounds
      wider than the merge tolerance report it, as long as the daily discount factor in them is at most 2. */
  lemma {:induction false} TinyFlowsUnreported(m: RateMaps, c: XirrControls, daysPerYear: real, z: real)
    requires daysPerYear > 0.0 && Lawful(m) && ValidControls(c) && ValidBounds(c)
    requires m.dayDiscount(m.logRate(c.rateLowerBound)) <= 2.0
    requires m.logRate(c.rateLowerBound) + DISTINCT_ROOT_TOLERANCE < m.logRate(c.rateUpperBound)
    requires m.rateDiscount(z) == 1.0
    ensures Netted(TINY_FLOWS) && Npv(Terms(TINY_FLOWS), m, z) == 0.0
    ensures !SolveXirr(TINY_FLOWS, m, c, daysPerYear).Rate?
  {
    hide Lawful, Netted, CoefficientSignChanges, Coefficients, SolveXirr, Evaluate, ValidControls, ValidBounds,
         DistantPoints, Terms;
    TinyTerms();
    TinyValue(1.0);
    LogBoundsOrdered(m, c);
    TinyPoints(m, c, daysPerYear);
    DistantPointsNoRate(TINY_FLOWS, m, c, daysPerYear, m.logRate(c.rateLowerBound), m.logRate(c.rateUpperBound));
  }

  lemma {:induction false} TinyPoints(m: RateMaps, c: XirrControls, daysPerYear: real)
    requires daysPerYear > 0.0 && Lawful(m) && ValidControls(c) && ValidBounds(c)
    requires m.dayDiscount(m.logRate(c.rateLowerBound)) <= 2.0
    requires m.logRate(c.rateLowerBound) + DISTINCT_ROOT_TOLERANCE < m.logRate(c.rateUpperBound)
    ensures DistantPoints([Term(-0.000000004, 0), Term(0.000000004, 1)], m, Settings(m, c, daysPerYear),
                          m.logRate(c.rateLowerBound), m.logRate(c.rateUpperBound))
  {
    hide Lawful, Evaluate, ScanControls, ValidControls, ValidBounds, SortedPoints, Linspace, EvalTerms;
    var s := Settings(m, c, daysPerYear);
    SettingsValid(m, c, daysPerYear);
    GridEnds(s, Grid(s));
    assert Grid(s)[0] in Grid(s) && Grid(s)[|Grid(s)| - 1] in Grid(s);
    DiscountPositive(m, s.lower);
    DiscountOrder(m, s.lower, s.upper);
    TinyWithin(m, s, s.lower);
    TinyWithin(m, s, s.upper);
  }
}
