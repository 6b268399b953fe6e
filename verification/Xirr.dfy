/** The XIRR solver: recursive isolation of the roots of the net present value in the log rate, and the
    decision whether a rate may be reported. */
module Xirr {
  import opened Wrappers
  import opened RealArithmetic
  import opened Polynomials
  import opened Calculus
  import opened ExponentialTerms
  import opened Bisection
  import opened RootScanning
  import opened XirrFlows

  const MAX_UNIQUENESS_TERMS: nat := 64
  const MAX_SCAN_STEPS: nat := 2048
  const MAX_ITERATIONS: nat := 512
  const MAX_WORK_UNITS: nat := 409600

  /** The transcendental maps the solver uses, for one day-count denominator:
      dayDiscount(x) = exp(-x / daysPerYear) with inverse discountLog, rateOf(x) = exp(x) - 1, logRate(r) = log(1 + r) and
      rateDiscount(r) = (1 + r)^(-1 / daysPerYear). */
  datatype RateMaps = RateMaps(
    dayDiscount: real -> real,
    discountLog: real -> real,
    rateOf: real -> real,
    logRate: real -> real,
    rateDiscount: real -> real)

  predicate DiscountPositiveAt(m: RateMaps, x: real) { m.dayDiscount(x) > 0.0 }
  predicate DiscountDropsAt(m: RateMaps, x: real, y: real) { x < y ==> m.dayDiscount(y) < m.dayDiscount(x) }
  predicate DiscountInverseAt(m: RateMaps, d: real) { d > 0.0 ==> m.dayDiscount(m.discountLog(d)) == d }
  predicate RateInverseAt(m: RateMaps, r: real) { r > -1.0 ==> m.rateOf(m.logRate(r)) == r }
  predicate LogInverseAt(m: RateMaps, x: real) { m.rateOf(x) > -1.0 && m.logRate(m.rateOf(x)) == x }
  predicate LogGrowsAt(m: RateMaps, r: real, s: real) { -1.0 < r < s ==> m.logRate(r) < m.logRate(s) }
  predicate DiscountOfRateAt(m: RateMaps, x: real) { m.rateDiscount(m.rateOf(x)) == m.dayDiscount(x) }

  /** The laws of the maps, each at every argument. */
  ghost predicate Lawful(m: RateMaps) {
    && (forall x :: DiscountPositiveAt(m, x))
    && (forall x, y :: DiscountDropsAt(m, x, y))
    && (forall d :: DiscountInverseAt(m, d))
    && (forall r :: RateInverseAt(m, r))
    && (forall x :: LogInverseAt(m, x))
    && (forall r, s :: LogGrowsAt(m, r, s))
    && (forall x :: DiscountOfRateAt(m, x))
  }

  datatype SolverSettings = SolverSettings(
    lower: real,
    upper: real,
    steps: nat,
    tolerance: real,
    maxIter: nat,
    daysPerYear: real)

  predicate ValidSettings(s: SolverSettings) {
    s.steps >= 2 && s.daysPerYear > 0.0 && s.lower < s.upper && s.tolerance > 0.0
  }

  function Evaluate(ts: seq<Term>, m: RateMaps): real -> real {
    x => EvalTerms(ts, m.dayDiscount(x))
  }

  function GrossAmount(ts: seq<Term>): real {
    if ts == [] then 0.0 else Abs(ts[0].coefficient) + GrossAmount(ts[1..])
  }

  function Max(a: real, b: real): real { if a >= b then a else b }

  function ValueTolerance(ts: seq<Term>, tolerance: real): (t: real)
    ensures t > 0.0
  {
    Max(tolerance * Max(GrossAmount(ts), 1.0), 0.00000001)
  }

  /** steps evenly spaced points from lower to upper. */
  function Linspace(lower: real, upper: real, steps: nat): (points: seq<real>)
    requires steps >= 2
    ensures |points| == steps
    ensures points[0] == lower && points[steps - 1] == upper
  {
    seq(steps, i => if i == steps - 1 then upper else lower + i as real * ((upper - lower) / (steps - 1) as real))
  }

  function Values(candidates: seq<RootCandidate>): (vs: seq<real>)
    ensures |vs| == |candidates| && forall i :: 0 <= i < |vs| ==> vs[i] == candidates[i].value
  {
    seq(|candidates|, i requires 0 <= i < |candidates| => candidates[i].value)
  }

  predicate HasStationaryRoot(candidates: seq<RootCandidate>, stationary: seq<RootCandidate>) {
    exists i, j :: 0 <= i < |stationary| && 0 <= j < |candidates| && stationary[i].converged
                   && Close(candidates[j].value, stationary[i].value)
  }

  function FirstReason(a: Option<FailureReason>, b: Option<FailureReason>): Option<FailureReason> {
    if a.Some? then a else b
  }

  /** Candidates of the stationary-point scan; skipped when at most one sign change rules out a second root. */
  function StationaryScan(n: seq<Term>, m: RateMaps, s: SolverSettings): RootScan
    requires ValidSettings(s) && HasDayZero(n)
    decreases |n|, 0
  {
    if CoefficientSignChanges(Coefficients(n)) <= 1 then RootScan([], true, None, false)
    else
      DerivativeLosesTerm(n, s.daysPerYear);
      Isolate(DerivativeTerms(n, s.daysPerYear), m, s)
  }

  function ScanControls(n: seq<Term>, s: SolverSettings): Controls {
    Controls(ValueTolerance(n, s.tolerance), s.tolerance, s.maxIter)
  }

  /** Root isolation; each level recurses on the derivative, which has fewer terms. */
  function Isolate(ts: seq<Term>, m: RateMaps, s: SolverSettings): RootScan
    requires ValidSettings(s)
    decreases |ts|, 1
  {
    var n := Normalized(ts);
    NormalizedHasDayZero(ts);
    var grid := Linspace(s.lower, s.upper, s.steps);
    if |n| <= 1 then RootScan([], true, None, false)
    else if CoefficientSignChanges(Coefficients(n)) > 1 && |n| > MAX_UNIQUENESS_TERMS then
      RootScan(ScanMonotonicPartitions(Evaluate(n, m), grid, ScanControls(n, s)).candidates,
               false, Some(UniquenessNotSupported), false)
    else
      var stationary := StationaryScan(n, m, s);
      var scan := ScanMonotonicPartitions(Evaluate(n, m), grid + Values(stationary.candidates), ScanControls(n, s));
      RootScan(
        scan.candidates,
        stationary.uniquenessSupported && scan.uniquenessSupported,
        FirstReason(stationary.failureReason, scan.failureReason),
        HasStationaryRoot(scan.candidates, stationary.candidates))
  }

  // ---------------------------------------------------------------- reporting

  datatype ReasonCode =
    | Solver(reason: FailureReason)
    | NoRootFound
    | NonSimpleRootDetected
    | MultipleRootsDetected
    | InvalidSolverControls
    | NoEconomicContent
    | NoPositiveAndNegativeCashFlow
    | InvalidSolverBounds

  datatype XirrResult = Rate(rate: real, candidate: RootCandidate) | NoRate(code: ReasonCode)

  function ResultFromRoots(roots: RootScan): XirrResult {
    if roots.failureReason.Some? then NoRate(Solver(roots.failureReason.value))
    else if !roots.uniquenessSupported then NoRate(Solver(UniquenessNotSupported))
    else if roots.candidates == [] then NoRate(NoRootFound)
    else if roots.nonSimpleRootDetected && |roots.candidates| == 1 then NoRate(NonSimpleRootDetected)
    else if |roots.candidates| > 1 then NoRate(MultipleRootsDetected)
    else if !roots.candidates[0].converged then NoRate(Solver(CandidateFailureReason(roots.candidates[0])))
    else Rate(roots.candidates[0].value, roots.candidates[0])
  }

  /** Net present value of the elapsed flows at a rate. */
  function Npv(ts: seq<Term>, m: RateMaps, rate: real): real {
    EvalTerms(ts, m.rateDiscount(rate))
  }

  function RateCandidate(ts: seq<Term>, m: RateMaps, c: RootCandidate): RootCandidate {
    var rate := m.rateOf(c.value);
    RootCandidate(rate, c.iterations, Npv(ts, m, rate), c.terminationReason, c.converged)
  }

  /** The log-rate scan with its candidates projected to rates and their residuals taken in rates. */
  function ScanRates(ts: seq<Term>, m: RateMaps, s: SolverSettings): (r: RootScan)
    requires ValidSettings(s)
  {
    var scan := Isolate(ts, m, s);
    scan.(candidates := seq(|scan.candidates|,
      i requires 0 <= i < |scan.candidates| => RateCandidate(ts, m, scan.candidates[i])))
  }

  datatype XirrControls = XirrControls(
    rateLowerBound: real,
    rateUpperBound: real,
    rootScanSteps: int,
    tolerance: real,
    maxIter: int)

  predicate ValidControls(c: XirrControls) {
    && 2 <= c.rootScanSteps <= MAX_SCAN_STEPS
    && c.tolerance > 0.0
    && 1 <= c.maxIter <= MAX_ITERATIONS
    && c.rootScanSteps * c.maxIter <= MAX_WORK_UNITS
  }

  predicate ValidBounds(c: XirrControls) {
    -1.0 < c.rateLowerBound < c.rateUpperBound
  }

  predicate OneSided(flows: seq<Flow>) {
    || (forall i :: 0 <= i < |flows| ==> flows[i].amount >= 0.0)
    || (forall i :: 0 <= i < |flows| ==> flows[i].amount <= 0.0)
  }

  function GrossFlow(flows: seq<Flow>): real {
    if flows == [] then 0.0 else Abs(flows[0].amount) + GrossFlow(flows[1..])
  }

  function Settings(m: RateMaps, c: XirrControls, daysPerYear: real): (s: SolverSettings)
    requires ValidControls(c) && ValidBounds(c)
  {
    SolverSettings(
      m.logRate(c.rateLowerBound),
      m.logRate(c.rateUpperBound),
      if c.rootScanSteps >= 32 then c.rootScanSteps else 32,
      c.tolerance,
      c.maxIter,
      daysPerYear)
  }

  function Terms(netted: seq<Flow>): seq<Term>
    requires Netted(netted) && netted != []
  {
    NettedTermsOrdered(netted);
    ElapsedTerms(netted, netted[0].date)
  }

  /** The solver on netted flows. */
  function SolveXirr(netted: seq<Flow>, m: RateMaps, c: XirrControls, daysPerYear: real): XirrResult
    requires Netted(netted) && daysPerYear > 0.0 && Lawful(m)
  {
    if !ValidControls(c) then NoRate(InvalidSolverControls)
    else if netted == [] || GrossFlow(netted) == 0.0 then NoRate(NoEconomicContent)
    else if OneSided(netted) then NoRate(NoPositiveAndNegativeCashFlow)
    else if !ValidBounds(c) then NoRate(InvalidSolverBounds)
    else
      assert LogGrowsAt(m, c.rateLowerBound, c.rateUpperBound);
      ResultFromRoots(ScanRates(Terms(netted), m, Settings(m, c, daysPerYear)))
  }
}
