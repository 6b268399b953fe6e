/** The stationary candidates the solver finds qualify the cells that end at them. */
module XirrStationary {
  import opened Wrappers
  import opened RealArithmetic
  import opened Polynomials
  import opened Calculus
  import opened ExponentialTerms
  import opened Bisection
  import opened RootScanning
  import opened RootDetection
  import opened Xirr
  import opened XirrTheorems
  import opened XirrReporting

  lemma {:induction false} PowMonotone(a: real, b: real, k: nat)
    requires 0.0 < a <= b
    ensures 0.0 < Pow(a, k) <= Pow(b, k)
  {
    if k > 0 {
      PowMonotone(a, b, k - 1);
      MulMonotone(a, b, Pow(a, k - 1));
      MulMonotone(Pow(a, k - 1), Pow(b, k - 1), b);
      PowPositive(a, k);
    }
  }

  /** The derivative terms the stationary scan isolates. */
  function Derivative(n: seq<Term>, s: SolverSettings): seq<Term>
    requires s.daysPerYear > 0.0
  {
    DerivativeTerms(n, s.daysPerYear)
  }

  /** How far from zero the derivative can be at a converged stationary candidate x: the tolerance of its normalised
      terms, scaled back by the power of the discount factor that normalising divides out. */
  function StationaryTolerance(n: seq<Term>, m: RateMaps, s: SolverSettings, x: real): real
    requires s.daysPerYear > 0.0
  {
    var d := Derivative(n, s);
    if d == [] then 0.0 else Pow(m.dayDiscount(x), MinDays(d)) * ScanControls(Normalized(d), s).valueTolerance
  }

  lemma {:induction false} DerivativeRetained(n: seq<Term>, s: SolverSettings)
    requires s.daysPerYear > 0.0
    ensures Retained(Derivative(n, s)) == Derivative(n, s)
  {
    RetainedIdentity(Derivative(n, s));
  }

  lemma {:induction false} NormalizedDerivativeValue(n: seq<Term>, s: SolverSettings, y: real)
    requires s.daysPerYear > 0.0 && Derivative(n, s) != []
    ensures EvalTerms(Derivative(n, s), y) == Pow(y, MinDays(Derivative(n, s))) * EvalTerms(Normalized(Derivative(n, s)), y)
  {
    hide EvalTerms, Pow, Derivative, Retained, MinDays, Shifted;
    DerivativeRetained(n, s);
    ShiftedValue(Derivative(n, s), MinDays(Derivative(n, s)), y);
  }

  lemma {:induction false} StationaryIsIsolation(n: seq<Term>, m: RateMaps, s: SolverSettings, e: RootCandidate)
    requires ValidSettings(s) && HasDayZero(n) && e in StationaryScan(n, m, s).candidates
    ensures e in Isolate(Derivative(n, s), m, s).candidates && Derivative(n, s) != []
  {
    hide ScanMonotonicPartitions, Linspace, CoefficientSignChanges, DerivativeTerms, Evaluate, Isolate;
    NothingIsolated(m, s);
  }

  lemma {:induction false} NothingIsolated(m: RateMaps, s: SolverSettings)
    requires ValidSettings(s)
    ensures Isolate([], m, s).candidates == []
  {
    hide ScanMonotonicPartitions, Linspace;
    assert Normalized([]) == [];
  }

  lemma {:induction false} ScaledResidual(p: real, v: real, e: real, tol: real)
    requires p > 0.0 && v == p * e && Abs(e) <= tol
    ensures Abs(v) <= p * tol
  {
    ProductBound(p, e, p, tol);
  }

  /** A converged candidate of the stationary scan lies in the bounds, and the derivative is as close to zero there as
      the solver asked for. */
  lemma {:induction false} StationaryCandidateResidual(n: seq<Term>, m: RateMaps, s: SolverSettings, e: RootCandidate)
    requires ValidSettings(s) && HasDayZero(n) && Lawful(m)
    requires e in StationaryScan(n, m, s).candidates && e.converged
    ensures s.lower <= e.value <= s.upper
    ensures Abs(Evaluate(Derivative(n, s), m)(e.value)) <= StationaryTolerance(n, m, s, e.value)
  {
    hide Lawful, Isolate, EvalTerms, Pow, Derivative, MinDays, StationaryScan, Normalized, ScanControls;
    var d := Derivative(n, s);
    StationaryIsIsolation(n, m, s, e);
    IsolatedWithin(d, m, s);
    DiscountPositive(m, e.value);
    PowPositive(m.dayDiscount(e.value), MinDays(d));
    NormalizedDerivativeValue(n, s, m.dayDiscount(e.value));
    ControlsTolerance(Normalized(d), s);
    ScaledResidual(Pow(m.dayDiscount(e.value), MinDays(d)), EvalTerms(d, m.dayDiscount(e.value)),
                   EvalTerms(Normalized(d), m.dayDiscount(e.value)), ScanControls(Normalized(d), s).valueTolerance);
  }

  lemma {:induction false} ControlsTolerance(n: seq<Term>, s: SolverSettings)
    ensures ScanControls(n, s).valueTolerance >= 0.0
  {
  }

  /** The bound at the lower end of the interval holds everywhere in it. */
  lemma {:induction false} ToleranceAtLower(n: seq<Term>, m: RateMaps, s: SolverSettings, x: real)
    requires Lawful(m) && s.daysPerYear > 0.0 && s.lower <= x
    ensures 0.0 <= StationaryTolerance(n, m, s, x) <= StationaryTolerance(n, m, s, s.lower)
  {
    hide Lawful, Pow, Derivative, MinDays, Normalized, ScanControls;
    var d := Derivative(n, s);
    if d != [] {
      WeakDiscountOrder(m, s.lower, x);
      DiscountPositive(m, x);
      PowMonotone(m.dayDiscount(x), m.dayDiscount(s.lower), MinDays(d));
      ControlsTolerance(Normalized(d), s);
      MulMonotone(Pow(m.dayDiscount(x), MinDays(d)), Pow(m.dayDiscount(s.lower), MinDays(d)),
                  ScanControls(Normalized(d), s).valueTolerance);
      ProductNonNegative(Pow(m.dayDiscount(x), MinDays(d)), ScanControls(Normalized(d), s).valueTolerance);
    }
  }

  // ---------------------------------------------------------------- a grid fine enough for the tolerances

  /** Across [u, v] a derivative within the stationary tolerance moves the value by at most the value tolerance. */
  predicate FineBetween(n: seq<Term>, m: RateMaps, s: SolverSettings, u: real, v: real)
    requires s.daysPerYear > 0.0
  {
    StationaryTolerance(n, m, s, s.lower) * s.daysPerYear * (m.dayDiscount(u) - m.dayDiscount(v))
      <= ScanControls(n, s).valueTolerance * m.dayDiscount(v)
  }

  /** The steps of the scan grid are that fine: a condition on flows and controls before the solver runs. */
  predicate FineGrid(n: seq<Term>, m: RateMaps, s: SolverSettings)
    requires s.daysPerYear > 0.0 && s.steps >= 2
  {
    forall i :: 0 <= i < |Grid(s)| - 1 ==> FineBetween(n, m, s, Grid(s)[i], Grid(s)[i + 1])
  }

  lemma {:induction false} NarrowerAlgebra(k: real, tol: real, du: real, dv: real, dl: real, dh: real)
    requires k >= 0.0 && tol >= 0.0 && dv <= dh <= dl <= du && k * (du - dv) <= tol * dv
    ensures k * (dl - dh) <= tol * dh
  {
    MulMonotone(dl - dh, du - dv, k);
    MulMonotone(dv, dh, tol);
    assert (dl - dh) * k == k * (dl - dh) && (du - dv) * k == k * (du - dv);
  }

  lemma {:induction false} FineInside(n: seq<Term>, m: RateMaps, s: SolverSettings, u: real, v: real, lo: real, hi: real)
    requires Lawful(m) && s.daysPerYear > 0.0 && u <= lo <= hi <= v && FineBetween(n, m, s, u, v)
    ensures FineBetween(n, m, s, lo, hi)
  {
    hide Lawful, StationaryTolerance, ScanControls;
    ToleranceAtLower(n, m, s, s.lower);
    WeakDiscountOrder(m, u, lo);
    WeakDiscountOrder(m, lo, hi);
    WeakDiscountOrder(m, hi, v);
    ControlsTolerance(n, s);
    ProductNonNegative(StationaryTolerance(n, m, s, s.lower), s.daysPerYear);
    NarrowerAlgebra(StationaryTolerance(n, m, s, s.lower) * s.daysPerYear, ScanControls(n, s).valueTolerance,
                    m.dayDiscount(u), m.dayDiscount(v), m.dayDiscount(lo), m.dayDiscount(hi));
  }

  lemma {:induction false} StrictCellOf(points: seq<real>, z: real) returns (i: nat)
    requires |points| >= 2 && points[0] <= z < points[|points| - 1]
    ensures i + 1 < |points| && points[i] <= z < points[i + 1]
  {
    i := 0;
    while z >= points[i + 1]
      invariant i + 1 < |points| && points[i] <= z
      decreases |points| - i
    {
      i := i + 1;
    }
  }

  /** The partition refines the grid, so each of its cells lies in a grid cell. */
  lemma {:induction false} CellInGrid(n: seq<Term>, m: RateMaps, s: SolverSettings, points: seq<real>, j: nat)
    returns (i: nat)
    requires ValidSettings(s) && HasDayZero(n) && points == SortedPoints(Partition(n, m, s)) && j + 1 < |points|
    ensures i + 1 < |Grid(s)| && Grid(s)[i] <= points[j] && points[j + 1] <= Grid(s)[i + 1]
  {
    hide Isolate, Linspace, StationaryScan, SortedPoints;
    var grid := Grid(s);
    GridEnds(s, grid);
    PartitionEnds(n, m, s, points);
    i := StrictCellOf(grid, points[j]);
    assert grid[i + 1] in Linspace(s.lower, s.upper, s.steps);
    assert grid[i + 1] in Partition(n, m, s);
    var k :| 0 <= k < |points| && points[k] == grid[i + 1];
  }

  // ---------------------------------------------------------------- settled cells qualify

  /** x is a converged stationary candidate, p the exact stationary point it stands for, and the derivative is monotone
      between the two. */
  ghost predicate SettledEnd(n: seq<Term>, m: RateMaps, s: SolverSettings, x: real, p: real)
    requires ValidSettings(s) && HasDayZero(n)
  {
    var g := Evaluate(Derivative(n, s), m);
    && (exists e :: e in StationaryScan(n, m, s).candidates && e.converged && e.value == x)
    && g(p) == 0.0
    && MonotoneOn(g, if x <= p then x else p, if x <= p then p else x)
  }

  /** Between a and b the derivative keeps its sign, up to the exact stationary points whose candidates the ends are. */
  ghost predicate Settled(n: seq<Term>, m: RateMaps, s: SolverSettings, a: real, b: real)
    requires ValidSettings(s) && HasDayZero(n)
  {
    exists p, q :: a <= p <= q <= b && KeepsSign(Evaluate(Derivative(n, s), m), p, q)
                   && (p == a || SettledEnd(n, m, s, a, p)) && (q == b || SettledEnd(n, m, s, b, q))
  }

  lemma {:induction false} SettledEndFlat(n: seq<Term>, m: RateMaps, s: SolverSettings, x: real, p: real, lo: real, hi: real)
    requires ValidSettings(s) && HasDayZero(n) && Lawful(m) && SettledEnd(n, m, s, x, p)
    requires lo <= hi && ((lo == x && hi == p) || (lo == p && hi == x)) && FineBetween(n, m, s, lo, hi)
    ensures NearlyFlat(n, m, s, lo, hi)
  {
    hide Lawful, StationaryScan, Evaluate, StationaryTolerance, ScanControls, MonotoneOn, NearlyFlat, DerivativeTerms;
    var e :| e in StationaryScan(n, m, s).candidates && e.converged && e.value == x;
    StationaryCandidateResidual(n, m, s, e);
    ToleranceAtLower(n, m, s, x);
    StationaryCandidateFlat(n, m, s, lo, hi, StationaryTolerance(n, m, s, s.lower));
  }

  lemma {:induction false} EndFlat(n: seq<Term>, m: RateMaps, s: SolverSettings, x: real, p: real, lo: real, hi: real)
    requires ValidSettings(s) && HasDayZero(n) && Lawful(m) && (p == x || SettledEnd(n, m, s, x, p))
    requires lo <= hi && ((lo == x && hi == p) || (lo == p && hi == x)) && FineBetween(n, m, s, lo, hi)
    ensures NearlyFlat(n, m, s, lo, hi)
  {
    hide Lawful, SettledEnd, NearlyFlat, FineBetween;
    if p == x {
      FlatAtPoint(n, m, s, x);
    } else {
      SettledEndFlat(n, m, s, x, p, lo, hi);
    }
  }

  /** On a fine grid, a settled cell of the partition qualifies. */
  lemma {:induction false} SettledQualifies(n: seq<Term>, m: RateMaps, s: SolverSettings, points: seq<real>, j: nat)
    requires ValidSettings(s) && HasDayZero(n) && Lawful(m) && FineGrid(n, m, s)
    requires points == SortedPoints(Partition(n, m, s)) && j + 1 < |points|
    requires Settled(n, m, s, points[j], points[j + 1])
    ensures Qualifies(n, m, s, points[j], points[j + 1])
  {
    hide Lawful, SettledEnd, NearlyFlat, FineBetween, KeepsSign, Evaluate, Partition, SortedPoints, DerivativeTerms;
    var a, b := points[j], points[j + 1];
    var p, q :| a <= p <= q <= b && KeepsSign(Evaluate(Derivative(n, s), m), p, q)
                && (p == a || SettledEnd(n, m, s, a, p)) && (q == b || SettledEnd(n, m, s, b, q));
    var i := CellInGrid(n, m, s, points, j);
    FineInside(n, m, s, Grid(s)[i], Grid(s)[i + 1], a, p);
    FineInside(n, m, s, Grid(s)[i], Grid(s)[i + 1], q, b);
    EndFlat(n, m, s, a, p, a, p);
    EndFlat(n, m, s, b, q, q, b);
  }

  /** So a fine grid with settled cells meets the hypothesis under which a reported rate accounts for every root. */
  lemma {:induction false} SettledCellsQualify(n: seq<Term>, m: RateMaps, s: SolverSettings)
    requires ValidSettings(s) && HasDayZero(n) && Lawful(m) && FineGrid(n, m, s)
    requires var points := SortedPoints(Partition(n, m, s));
             forall j :: 0 <= j < |points| - 1 ==> Settled(n, m, s, points[j], points[j + 1])
    ensures CellsQualify(n, m, s)
  {
    hide Lawful, Settled, Qualifies, FineGrid, Partition, SortedPoints;
    var points := SortedPoints(Partition(n, m, s));
    forall j | 0 <= j < |points| - 1 ensures Qualifies(n, m, s, points[j], points[j + 1]) {
      SettledQualifies(n, m, s, points, j);
    }
  }

  // ---------------------------------------------------------------- where the stationary scan looks

  lemma {:induction false} OppositeSigns(a: real, b: real, c: real, d: real)
    requires Sign(a) == Sign(c) && Sign(b) == Sign(d) && Opposite(a, b)
    ensures Opposite(c, d)
  {
  }

  lemma {:induction false} NormalizedOpposite(ts: seq<Term>, m: RateMaps, u: real, v: real)
    requires Lawful(m) && Opposite(Evaluate(ts, m)(u), Evaluate(ts, m)(v))
    ensures Opposite(Evaluate(Normalized(ts), m)(u), Evaluate(Normalized(ts), m)(v))
  {
    hide Lawful, EvalTerms, Normalized, Opposite;
    DiscountPositive(m, u);
    DiscountPositive(m, v);
    NormalizedSign(ts, m.dayDiscount(u));
    NormalizedSign(ts, m.dayDiscount(v));
    OppositeSigns(EvalTerms(ts, m.dayDiscount(u)), EvalTerms(ts, m.dayDiscount(v)),
                  EvalTerms(Normalized(ts), m.dayDiscount(u)), EvalTerms(Normalized(ts), m.dayDiscount(v)));
  }

  lemma {:induction false} OneTermKeepsSign(n: seq<Term>, x: real, y: real)
    requires x > 0.0 && y > 0.0
    ensures |n| <= 1 ==> !Opposite(EvalTerms(n, x), EvalTerms(n, y))
  {
    hide Pow;
    if |n| == 1 {
      assert n[1..] == [];
      PowPositive(x, n[0].days);
      PowPositive(y, n[0].days);
      SameFactorSign(n[0].coefficient, Pow(x, n[0].days), Pow(y, n[0].days));
    }
  }

  lemma {:induction false} SameFactorSign(c: real, p: real, q: real)
    requires p > 0.0 && q > 0.0
    ensures !Opposite(c * p + 0.0, c * q + 0.0)
  {
    if c > 0.0 {
      assert c * p > 0.0 && c * q > 0.0;
    } else if c < 0.0 {
      assert c * p < 0.0 && c * q < 0.0;
    }
  }

  /** Between two points of opposite signs some cell does not keep a strict side. */
  lemma {:induction false} CellBetween(f: real -> real, points: seq<real>, a: nat, b: nat) returns (j: nat)
    requires a < b < |points| && Opposite(f(points[a]), f(points[b]))
    ensures a <= j < b && !SameSide(f(points[j]), f(points[j + 1]))
    decreases b - a
  {
    j := a;
    if SameSide(f(points[a]), f(points[a + 1])) {
      j := CellBetween(f, points, a + 1, b);
    }
  }

  lemma {:induction false} ScanSeesCrossing(f: real -> real, partition: seq<real>, c: Controls, u: real, v: real)
    returns (e: RootCandidate)
    requires u in partition && v in partition && u < v && Opposite(f(u), f(v)) && c.valueTolerance >= 0.0
    ensures e in ScanMonotonicPartitions(f, partition, c).candidates
    ensures u - DISTINCT_ROOT_TOLERANCE <= e.value <= v + DISTINCT_ROOT_TOLERANCE
  {
    hide ScanMonotonicPartitions, SortedPoints, Opposite, SameSide, BisectFrom;
    var points := SortedPoints(partition);
    var a :| 0 <= a < |points| && points[a] == u;
    var b :| 0 <= b < |points| && points[b] == v;
    assert a < b;
    var j := CellBetween(f, points, a, b);
    ScanDetectsCell(f, partition, c, j);
    BisectFromClassified(f, points[j], points[j + 1], c, 0);
    assert u <= points[j] <= points[j + 1] <= v;
    e := CandidateInCell(f, points[j], points[j + 1], c, ScanMonotonicPartitions(f, partition, c));
  }

  lemma {:induction false} CandidateInCell(f: real -> real, a: real, b: real, c: Controls, scan: RootScan)
    returns (e: RootCandidate)
    requires a <= b && CellDetected(f, a, b, c, scan) && a <= BisectFrom(f, a, b, c, 0).value <= b
    ensures e in scan.candidates && a - DISTINCT_ROOT_TOLERANCE <= e.value <= b + DISTINCT_ROOT_TOLERANCE
  {
    hide BisectFrom, Opposite, Close;
    var v := BisectFrom(f, a, b, c, 0).value;
    e :| e in scan.candidates && (Close(e.value, a) || Close(e.value, b) || Close(e.value, v));
    CloseBounds(e.value, a);
    CloseBounds(e.value, b);
    CloseBounds(e.value, v);
  }

  lemma {:induction false} CloseBounds(x: real, w: real)
    ensures Close(x, w) <==> w - DISTINCT_ROOT_TOLERANCE <= x <= w + DISTINCT_ROOT_TOLERANCE
  {
  }

  /** Either branch of the isolation that scans does so over a partition that holds the grid. */
  lemma {:induction false} IsolationSeesCrossing(ts: seq<Term>, m: RateMaps, s: SolverSettings, i: nat)
    returns (e: RootCandidate)
    requires ValidSettings(s) && Lawful(m) && i + 1 < |Grid(s)|
    requires Opposite(Evaluate(ts, m)(Grid(s)[i]), Evaluate(ts, m)(Grid(s)[i + 1]))
    ensures e in Isolate(ts, m, s).candidates
    ensures Grid(s)[i] - DISTINCT_ROOT_TOLERANCE <= e.value <= Grid(s)[i + 1] + DISTINCT_ROOT_TOLERANCE
  {
    hide Lawful, Normalized, Linspace, EvalTerms, ScanMonotonicPartitions, SortedPoints, StationaryScan, Opposite,
         CoefficientSignChanges, ScanControls;
    var n, u, v := Normalized(ts), Grid(s)[i], Grid(s)[i + 1];
    NormalizedHasDayZero(ts);
    NormalizedOpposite(ts, m, u, v);
    DiscountPositive(m, u);
    DiscountPositive(m, v);
    OneTermKeepsSign(n, m.dayDiscount(u), m.dayDiscount(v));
    ControlsTolerance(n, s);
    var grid := Linspace(s.lower, s.upper, s.steps);
    assert u in grid && v in grid;
    if CoefficientSignChanges(Coefficients(n)) > 1 && |n| > MAX_UNIQUENESS_TERMS {
      e := ScanSeesCrossing(Evaluate(n, m), grid, ScanControls(n, s), u, v);
    } else {
      e := ScanSeesCrossing(Evaluate(n, m), Partition(n, m, s), ScanControls(n, s), u, v);
    }
  }

  /** With more than one sign change, every grid cell at whose ends the derivative has opposite signs puts a stationary
      candidate, at most the merge tolerance outside it, into the partition that is scanned for roots. */
  lemma {:induction false} DerivativeSignChangeSeen(n: seq<Term>, m: RateMaps, s: SolverSettings, i: nat)
    returns (e: RootCandidate)
    requires ValidSettings(s) && HasDayZero(n) && Lawful(m) && i + 1 < |Grid(s)|
    requires CoefficientSignChanges(Coefficients(n)) > 1
    requires Opposite(Evaluate(Derivative(n, s), m)(Grid(s)[i]), Evaluate(Derivative(n, s), m)(Grid(s)[i + 1]))
    ensures e in StationaryScan(n, m, s).candidates && e.value in Partition(n, m, s)
    ensures Grid(s)[i] - DISTINCT_ROOT_TOLERANCE <= e.value <= Grid(s)[i + 1] + DISTINCT_ROOT_TOLERANCE
  {
    hide Lawful, Isolate, Linspace, EvalTerms, SortedPoints, Opposite, CoefficientSignChanges, DerivativeTerms;
    e := IsolationSeesCrossing(Derivative(n, s), m, s, i);
    var stationary := StationaryScan(n, m, s).candidates;
    var k :| 0 <= k < |stationary| && stationary[k] == e;
    assert Values(stationary)[k] == e.value;
  }
}
