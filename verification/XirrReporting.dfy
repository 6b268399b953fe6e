/** What a reported rate, or its absence, says about the rates of return of the flows. */
module XirrReporting {
  import opened Wrappers
  import opened RealArithmetic
  import opened Polynomials
  import opened Calculus
  import opened ExponentialTerms
  import opened OneSignChange
  import opened Bisection
  import opened RootScanning
  import opened RootDetection
  import opened XirrFlows
  import opened Xirr
  import opened XirrTheorems

  // ---------------------------------------------------------------- the sole candidate and its cell

  /** w is the candidate the cell (a, b) produces, up to the merge tolerance: an end within the value tolerance, or
      the bisected crossing of ends with opposite signs. */
  predicate CandidateOfCell(f: real -> real, a: real, b: real, c: Controls, w: real) {
    || (Abs(f(a)) <= c.valueTolerance && Close(w, a))
    || (Abs(f(b)) <= c.valueTolerance && Close(w, b))
    || (Opposite(f(a), f(b)) && Close(w, BisectFrom(f, a, b, c, 0).value))
  }

  lemma {:induction false} SoleCandidateOfCell(f: real -> real, a: real, b: real, c: Controls, scan: RootScan)
    requires CellDetected(f, a, b, c, scan) && |scan.candidates| == 1
    ensures CandidateOfCell(f, a, b, c, scan.candidates[0].value)
  {
    hide Close, Opposite, BisectFrom;
    assert forall e :: e in scan.candidates ==> e == scan.candidates[0];
  }

  /** Such a candidate lies within the merge tolerance of a point of its cell. */
  lemma {:induction false} CandidateNearCell(f: real -> real, a: real, b: real, c: Controls, w: real)
    requires a <= b && CandidateOfCell(f, a, b, c, w)
    ensures a - DISTINCT_ROOT_TOLERANCE <= w <= b + DISTINCT_ROOT_TOLERANCE
  {
    BisectFromClassified(f, a, b, c, 0);
  }

  // ---------------------------------------------------------------- a reported rate accounts for every root

  /** Every cell of the scanned partition qualifies. */
  ghost predicate CellsQualify(n: seq<Term>, m: RateMaps, s: SolverSettings) {
    && ValidSettings(s) && HasDayZero(n)
    && var points := SortedPoints(Partition(n, m, s));
       forall i :: 0 <= i < |points| - 1 ==> Qualifies(n, m, s, points[i], points[i + 1])
  }

  lemma {:induction false} PartitionEnds(n: seq<Term>, m: RateMaps, s: SolverSettings, points: seq<real>)
    requires ValidSettings(s) && HasDayZero(n) && points == SortedPoints(Partition(n, m, s))
    ensures |points| >= 2 && points[0] == s.lower && points[|points| - 1] == s.upper
  {
    hide Isolate, Linspace, StationaryScan, SortedPoints, Within;
    var all := Partition(n, m, s);
    StationaryWithin(n, m, s);
    assert all[0] == s.lower && all[s.steps - 1] == s.upper;
    EndsOfSorted(all, s.lower, s.upper);
  }

  lemma {:induction false} CandidatesNeedTwoTerms(ts: seq<Term>, m: RateMaps, s: SolverSettings)
    requires Ordered(ts) && ts != [] && ts[0].days == 0 && ValidSettings(s)
    requires Isolate(ts, m, s).candidates != [] && Isolate(ts, m, s).uniquenessSupported
    ensures |ts| > 1 && (CoefficientSignChanges(Coefficients(ts)) <= 1 || |ts| <= MAX_UNIQUENESS_TERMS)
  {
    hide Normalized, ScanMonotonicPartitions, StationaryScan, Linspace, CoefficientSignChanges, Ordered;
    TermsNormalized(ts);
  }

  /** Points i and i + 1 of a partition enclose x, and w is the candidate of the cell between them. */
  predicate EnclosedWithCandidate(f: real -> real, points: seq<real>, i: nat, c: Controls, x: real, w: real) {
    i + 1 < |points| && points[i] <= x <= points[i + 1] && CandidateOfCell(f, points[i], points[i + 1], c, w)
  }

  lemma {:induction false} EnclosedNearCell(f: real -> real, points: seq<real>, i: nat, c: Controls, x: real, w: real)
    requires EnclosedWithCandidate(f, points, i, c, x, w)
    ensures i + 1 < |points|
    ensures points[i] - DISTINCT_ROOT_TOLERANCE <= w <= points[i + 1] + DISTINCT_ROOT_TOLERANCE
  {
    CandidateNearCell(f, points[i], points[i + 1], c, w);
  }

  lemma {:induction false} RootInReportedCell(ts: seq<Term>, m: RateMaps, s: SolverSettings, x: real) returns (i: nat)
    requires Ordered(ts) && ts != [] && ts[0].days == 0 && Lawful(m) && CellsQualify(ts, m, s)
    requires Isolate(ts, m, s).uniquenessSupported && |Isolate(ts, m, s).candidates| == 1
    requires s.lower <= x <= s.upper && EvalTerms(ts, m.dayDiscount(x)) == 0.0
    ensures EnclosedWithCandidate(Evaluate(ts, m), SortedPoints(Partition(ts, m, s)), i, ScanControls(ts, s), x,
                                  Isolate(ts, m, s).candidates[0].value)
  {
    hide Lawful, Isolate, Partition, SortedPoints, EvalTerms, Qualifies, CellDetected, Ordered, CandidateOfCell,
         CoefficientSignChanges, Coefficients, ScanControls;
    var points := SortedPoints(Partition(ts, m, s));
    CandidatesNeedTwoTerms(ts, m, s);
    PartitionEnds(ts, m, s, points);
    i := CellOf(points, x);
    NoRootMissedByIsolation(ts, m, s, points, x, i);
    SoleCandidateOfCell(Evaluate(ts, m), points[i], points[i + 1], ScanControls(ts, s), Isolate(ts, m, s));
  }

  /** A reported rate accounts for every internal rate of return in the bounds, however often the flows change
      sign: the reported log rate is the candidate of the partition cell that holds the root. */
  lemma {:induction false} ReportedRateAccountsForEveryRoot(netted: seq<Flow>, m: RateMaps, c: XirrControls,
                                                            daysPerYear: real, z: real) returns (i: nat)
    requires Netted(netted) && daysPerYear > 0.0 && Lawful(m)
    requires SolveXirr(netted, m, c, daysPerYear).Rate?
    requires CellsQualify(Terms(netted), m, Settings(m, c, daysPerYear))
    requires c.rateLowerBound <= z <= c.rateUpperBound && Npv(Terms(netted), m, z) == 0.0
    ensures var ts, s := Terms(netted), Settings(m, c, daysPerYear);
            EnclosedWithCandidate(Evaluate(ts, m), SortedPoints(Partition(ts, m, s)), i, ScanControls(ts, s),
                                  m.logRate(z), m.logRate(SolveXirr(netted, m, c, daysPerYear).rate))
    ensures var points := SortedPoints(Partition(Terms(netted), m, Settings(m, c, daysPerYear)));
            points[i] - DISTINCT_ROOT_TOLERANCE <= m.logRate(SolveXirr(netted, m, c, daysPerYear).rate)
            <= points[i + 1] + DISTINCT_ROOT_TOLERANCE
  {
    hide Isolate, Lawful, Npv, Netted, OneSided, GrossFlow, CellsQualify, Ordered, EvalTerms, EnclosedWithCandidate,
         Partition, SortedPoints, ScanControls;
    var ts, s := Terms(netted), Settings(m, c, daysPerYear);
    NettedTermsOrdered(netted);
    LogBoundsOrdered(m, c);
    var x := LogOfRate(ts, m, c.rateLowerBound, z, c.rateUpperBound);
    var scan, rates := Isolate(ts, m, s), ScanRates(ts, m, s);
    RateReportedIff(rates);
    assert rates.candidates[0] == RateCandidate(ts, m, scan.candidates[0]);
    LogOfRateOf(m, scan.candidates[0].value);
    i := RootInReportedCell(ts, m, s, x);
    EnclosedNearCell(Evaluate(ts, m), SortedPoints(Partition(ts, m, s)), i, ScanControls(ts, s), x,
                     scan.candidates[0].value);
  }

  // ---------------------------------------------------------------- one sign change

  lemma {:induction false} NoFlipsWhenOneSided(ts: seq<Term>)
    requires Ordered(ts)
    requires (forall i :: 0 <= i < |ts| ==> ts[i].coefficient >= 0.0) || (forall i :: 0 <= i < |ts| ==> ts[i].coefficient <= 0.0)
    ensures AdjacentSignFlips(Coefficients(ts)) == 0
  {
    if |ts| > 1 {
      assert Coefficients(ts)[1..] == Coefficients(ts[1..]);
      NoFlipsWhenOneSided(ts[1..]);
    }
  }

  /** Flows with a sign change pass the preflight checks on their content. */
  lemma {:induction false} SignChangeHasContent(netted: seq<Flow>)
    requires Netted(netted) && netted != []
    requires CoefficientSignChanges(Coefficients(Terms(netted))) == 1
    ensures !OneSided(netted) && GrossFlow(netted) != 0.0
  {
    hide CoefficientSignChanges;
    var ts := Terms(netted);
    NettedTermsOrdered(netted);
    FlipsOfOrdered(ts);
    if OneSided(netted) {
      NoFlipsWhenOneSided(ts);
    }
    GrossNonNegative(netted[1..]);
  }

  lemma {:induction false} FlipsOfOrdered(ts: seq<Term>)
    requires Ordered(ts)
    ensures CoefficientSignChanges(Coefficients(ts)) == AdjacentSignFlips(Coefficients(ts))
  {
    NonZeroIdentity(Coefficients(ts));
  }

  lemma {:induction false} GrossNonNegative(flows: seq<Flow>)
    ensures GrossFlow(flows) >= 0.0
  {
    if flows != [] {
      GrossNonNegative(flows[1..]);
    }
  }

  /** The scan grid and the function scanned, for flows with one sign change. */
  function Grid(s: SolverSettings): seq<real>
    requires s.steps >= 2
  {
    SortedPoints(Linspace(s.lower, s.upper, s.steps))
  }

  /** Cell i of the grid holds the root x. The solver found it, closing in on it by n halvings if the ends have
      opposite signs. */
  ghost predicate RootFound(f: real -> real, points: seq<real>, i: nat, n: nat, c: Controls, x: real, scan: RootScan) {
    && i + 1 < |points| && points[i] <= x <= points[i + 1]
    && CellDetected(f, points[i], points[i + 1], c, scan)
    && (Opposite(f(points[i]), f(points[i + 1])) ==> Located(f, points[i], points[i + 1], c, x, n))
  }

  lemma {:induction false} CellLocated(ts: seq<Term>, m: RateMaps, c: Controls, x: real, a: real, b: real)
    returns (n: nat)
    requires Ordered(ts) && Lawful(m) && AdjacentSignFlips(Coefficients(ts)) == 1 && c.valueTolerance >= 0.0
    requires EvalTerms(ts, m.dayDiscount(x)) == 0.0 && a <= x <= b
    ensures Opposite(Evaluate(ts, m)(a), Evaluate(ts, m)(b)) ==> Located(Evaluate(ts, m), a, b, c, x, n)
  {
    hide EvalTerms, Lawful, Ordered, Located, AdjacentSignFlips, Coefficients;
    n := 0;
    if a < x < b {
      n := OneSignChangeLocated(ts, m, c, x, a, b);
    }
  }

  lemma {:induction false} OneSignChangeCell(ts: seq<Term>, m: RateMaps, s: SolverSettings, x: real)
    returns (i: nat, n: nat)
    requires Ordered(ts) && ts != [] && ts[0].days == 0 && Lawful(m) && ValidSettings(s)
    requires CoefficientSignChanges(Coefficients(ts)) == 1
    requires s.lower <= x <= s.upper && EvalTerms(ts, m.dayDiscount(x)) == 0.0
    ensures RootFound(Evaluate(ts, m), Grid(s), i, n, ScanControls(ts, s), x, Isolate(ts, m, s))
    ensures Isolate(ts, m, s).candidates != [] && !Isolate(ts, m, s).nonSimpleRootDetected
  {
    hide EvalTerms, Lawful, Isolate, Linspace, SortedPoints, CellDetected, Ordered, CoefficientSignChanges, Located,
         ScanControls, AdjacentSignFlips, Coefficients, Evaluate, Opposite;
    OneFlip(ts, s);
    i := OneSignChangeRootFound(ts, m, s, x);
    n := CellLocated(ts, m, ScanControls(ts, s), x, Grid(s)[i], Grid(s)[i + 1]);
  }

  /** The solver found the root x in cell i of its grid and answers accordingly. */
  ghost predicate AnswersRoot(ts: seq<Term>, m: RateMaps, s: SolverSettings, x: real, i: nat, n: nat, r: XirrResult)
    requires ValidSettings(s)
  {
    && RootFound(Evaluate(ts, m), Grid(s), i, n, ScanControls(ts, s), x, Isolate(ts, m, s))
    && r != NoRate(NoRootFound) && r != NoRate(NonSimpleRootDetected)
    && (r.Rate? ==>
         CandidateOfCell(Evaluate(ts, m), Grid(s)[i], Grid(s)[i + 1], ScanControls(ts, s), m.logRate(r.rate)))
  }

  lemma {:induction false} ScannedRootAnswered(ts: seq<Term>, m: RateMaps, s: SolverSettings, x: real)
    returns (i: nat, n: nat)
    requires Ordered(ts) && ts != [] && ts[0].days == 0 && Lawful(m) && ValidSettings(s)
    requires CoefficientSignChanges(Coefficients(ts)) == 1
    requires s.lower <= x <= s.upper && EvalTerms(ts, m.dayDiscount(x)) == 0.0
    ensures AnswersRoot(ts, m, s, x, i, n, ResultFromRoots(ScanRates(ts, m, s)))
  {
    hide Isolate, Lawful, Npv, Ordered, CandidateOfCell, CellDetected, Grid, CoefficientSignChanges, Coefficients,
         EvalTerms, ScanControls, Evaluate, Located, Opposite;
    i, n := OneSignChangeCell(ts, m, s, x);
    var scan, rates := Isolate(ts, m, s), ScanRates(ts, m, s);
    RateReportedIff(rates);
    if ResultFromRoots(rates).Rate? {
      SoleCandidateOfCell(Evaluate(ts, m), Grid(s)[i], Grid(s)[i + 1], ScanControls(ts, s), scan);
      assert rates.candidates[0] == RateCandidate(ts, m, scan.candidates[0]);
      LogOfRateOf(m, scan.candidates[0].value);
    }
  }

  lemma {:induction false} SettingsValid(m: RateMaps, c: XirrControls, daysPerYear: real)
    requires Lawful(m) && daysPerYear > 0.0 && ValidControls(c) && ValidBounds(c)
    ensures ValidSettings(Settings(m, c, daysPerYear))
  {
    assert LogGrowsAt(m, c.rateLowerBound, c.rateUpperBound);
  }

  /** End to end: for flows with one sign change whose rate of return z lies in the bounds, the grid cell of z is
      found and bisection closes in on z in it; the solver never answers "no root found" nor "non-simple root",
      and a rate it does report is the candidate of that cell. */
  lemma {:induction false} OneSignChangeOutcome(netted: seq<Flow>, m: RateMaps, c: XirrControls, daysPerYear: real,
                                                z: real) returns (i: nat, n: nat)
    requires Netted(netted) && netted != [] && daysPerYear > 0.0 && Lawful(m)
    requires CoefficientSignChanges(Coefficients(Terms(netted))) == 1
    requires ValidControls(c) && ValidBounds(c)
    requires c.rateLowerBound <= z <= c.rateUpperBound && Npv(Terms(netted), m, z) == 0.0
    ensures ValidSettings(Settings(m, c, daysPerYear))
    ensures AnswersRoot(Terms(netted), m, Settings(m, c, daysPerYear), m.logRate(z), i, n,
                        SolveXirr(netted, m, c, daysPerYear))
  {
    hide Isolate, Lawful, Npv, Netted, OneSided, GrossFlow, Ordered, CoefficientSignChanges, Coefficients, EvalTerms,
         AnswersRoot, ScanRates, ResultFromRoots;
    var ts := Terms(netted);
    NettedTermsOrdered(netted);
    SignChangeHasContent(netted);
    LogBoundsOrdered(m, c);
    SettingsValid(m, c, daysPerYear);
    var x := LogOfRate(ts, m, c.rateLowerBound, z, c.rateUpperBound);
    i, n := ScannedRootAnswered(ts, m, Settings(m, c, daysPerYear), x);
  }

  /** When the ends of the cell are not themselves within tolerance, the candidate is off the root by at most half the
      last bracket plus the merge tolerance. */
  lemma {:induction false} ReportedRateError(f: real -> real, points: seq<real>, i: nat, n: nat, c: Controls, x: real,
                                             scan: RootScan, w: real)
    requires RootFound(f, points, i, n, c, x, scan) && CandidateOfCell(f, points[i], points[i + 1], c, w)
    requires Abs(f(points[i])) > c.valueTolerance && Abs(f(points[i + 1])) > c.valueTolerance
    ensures (Abs(w - x) - DISTINCT_ROOT_TOLERANCE) * Pow(2.0, n + 1) <= points[i + 1] - points[i]
  {
    hide Pow, BisectFrom, CellDetected;
    var v := BisectFrom(f, points[i], points[i + 1], c, 0).value;
    PowPositive(2.0, n + 1);
    MulMonotone(Abs(w - x) - DISTINCT_ROOT_TOLERANCE, Abs(v - x), Pow(2.0, n + 1));
  }
}
