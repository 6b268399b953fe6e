/** A rate is reported only where the present value has no stationary point: repeated roots are refused. */
module XirrRepeatedRoots {
  import opened Wrappers
  import opened RealArithmetic
  import opened Polynomials
  import opened Calculus
  import opened ExponentialTerms
  import opened OneSignChange
  import opened Bisection
  import opened RootScanning
  import opened RootDetection
  import opened XirrFlows
  import opened Xirr
  import opened XirrTheorems
  import opened XirrReporting

  /** No converged stationary candidate lies within 1e-8 of the log rate w. */
  predicate AwayFromStationary(ts: seq<Term>, m: RateMaps, s: SolverSettings, w: real)
    requires ValidSettings(s) && HasDayZero(ts)
  {
    forall e :: e in StationaryScan(ts, m, s).candidates && e.converged ==>
      e.value < w - 0.00000001 || w + 0.00000001 < e.value
  }

  /** What the isolation has to leave for a rate: one converged candidate, away from every stationary candidate, and a
      complete qualification. */
  predicate SoleSimpleCandidate(ts: seq<Term>, m: RateMaps, s: SolverSettings)
    requires ValidSettings(s) && HasDayZero(ts)
  {
    var scan := Isolate(ts, m, s);
    && |scan.candidates| == 1 && scan.candidates[0].converged
    && scan.uniquenessSupported && scan.failureReason == None
    && AwayFromStationary(ts, m, s, scan.candidates[0].value)
  }

  lemma {:induction false} CloseWritten(a: real, b: real)
    ensures Close(a, b) <==> !(b < a - 0.00000001 || a + 0.00000001 < b)
  {
  }

  lemma {:induction false} FlagOfSole(candidates: seq<RootCandidate>, stationary: seq<RootCandidate>)
    requires |candidates| == 1
    ensures !HasStationaryRoot(candidates, stationary) <==>
      forall e :: e in stationary && e.converged ==>
        e.value < candidates[0].value - 0.00000001 || candidates[0].value + 0.00000001 < e.value
  {
    hide Close;
    forall e: RootCandidate
      ensures Close(candidates[0].value, e.value)
         <==> !(e.value < candidates[0].value - 0.00000001 || candidates[0].value + 0.00000001 < e.value)
    {
      CloseWritten(candidates[0].value, e.value);
    }
    if HasStationaryRoot(candidates, stationary) {
      var i, j :| 0 <= i < |stationary| && 0 <= j < |candidates| && stationary[i].converged
                  && Close(candidates[j].value, stationary[i].value);
      assert stationary[i] in stationary && candidates[j] == candidates[0];
    }
  }

  lemma {:induction false} IsolationFlag(ts: seq<Term>, m: RateMaps, s: SolverSettings)
    requires Ordered(ts) && ts != [] && ts[0].days == 0 && ValidSettings(s)
    requires |Isolate(ts, m, s).candidates| == 1 && Isolate(ts, m, s).uniquenessSupported
    ensures HasDayZero(ts)
    ensures !Isolate(ts, m, s).nonSimpleRootDetected <==> AwayFromStationary(ts, m, s, Isolate(ts, m, s).candidates[0].value)
  {
    hide Normalized, ScanMonotonicPartitions, StationaryScan, Linspace, CoefficientSignChanges, Ordered, HasStationaryRoot;
    TermsNormalized(ts);
    FlagOfSole(Isolate(ts, m, s).candidates, StationaryScan(ts, m, s).candidates);
  }

  lemma {:induction false} ReportedIffSoleSimple(ts: seq<Term>, m: RateMaps, s: SolverSettings)
    requires Ordered(ts) && ts != [] && ts[0].days == 0 && ValidSettings(s)
    ensures HasDayZero(ts)
    ensures ResultFromRoots(ScanRates(ts, m, s)).Rate? <==> SoleSimpleCandidate(ts, m, s)
    ensures ResultFromRoots(ScanRates(ts, m, s)).Rate? ==>
      ResultFromRoots(ScanRates(ts, m, s)).rate == m.rateOf(Isolate(ts, m, s).candidates[0].value)
  {
    hide Isolate, Ordered, AwayFromStationary;
    TermsNormalized(ts);
    var scan, rates := Isolate(ts, m, s), ScanRates(ts, m, s);
    RateReportedIff(rates);
    if |scan.candidates| == 1 {
      assert rates.candidates[0] == RateCandidate(ts, m, scan.candidates[0]);
      if scan.uniquenessSupported {
        IsolationFlag(ts, m, s);
      }
    }
  }

  /** The flows have amounts of both signs. */
  predicate BothSigns(netted: seq<Flow>) {
    && (exists i :: 0 <= i < |netted| && netted[i].amount > 0.0)
    && (exists i :: 0 <= i < |netted| && netted[i].amount < 0.0)
  }

  lemma {:induction false} BothSignsIff(netted: seq<Flow>)
    requires Netted(netted)
    ensures BothSigns(netted) <==> netted != [] && GrossFlow(netted) != 0.0 && !OneSided(netted)
  {
    if BothSigns(netted) {
      GrossNonNegative(netted[1..]);
    }
  }

  /** The solver reports a rate if and only if the flows have both signs, controls and bounds are valid, and the
      isolation is left with one converged candidate that is no stationary point; the rate is that candidate. */
  lemma {:induction false} RateIffSoleSimple(netted: seq<Flow>, m: RateMaps, c: XirrControls, daysPerYear: real)
    requires Netted(netted) && daysPerYear > 0.0 && Lawful(m)
    ensures netted != [] && ValidControls(c) && ValidBounds(c) ==>
      ValidSettings(Settings(m, c, daysPerYear)) && HasDayZero(Terms(netted))
    ensures SolveXirr(netted, m, c, daysPerYear).Rate? <==>
      BothSigns(netted) && ValidControls(c) && ValidBounds(c)
      && SoleSimpleCandidate(Terms(netted), m, Settings(m, c, daysPerYear))
    ensures SolveXirr(netted, m, c, daysPerYear).Rate? ==>
      var w := m.logRate(SolveXirr(netted, m, c, daysPerYear).rate);
      w == Isolate(Terms(netted), m, Settings(m, c, daysPerYear)).candidates[0].value
      && AwayFromStationary(Terms(netted), m, Settings(m, c, daysPerYear), w)
  {
    hide Isolate, Lawful, Netted, OneSided, GrossFlow, Ordered, AwayFromStationary, ResultFromRoots, ScanRates,
         ValidControls, BothSigns;
    BothSignsIff(netted);
    if netted != [] && ValidControls(c) && ValidBounds(c) {
      NettedTermsOrdered(netted);
      LogBoundsOrdered(m, c);
      SettingsValid(m, c, daysPerYear);
      var ts, s := Terms(netted), Settings(m, c, daysPerYear);
      ReportedIffSoleSimple(ts, m, s);
      if SoleSimpleCandidate(ts, m, s) {
        LogOfRateOf(m, Isolate(ts, m, s).candidates[0].value);
      }
    }
  }

  // ---------------------------------------------------------------- a stationary point that is a root

  /** A converged stationary candidate at which the present value is within tolerance excludes a rate. */
  lemma {:induction false} StationaryRootUnreported(ts: seq<Term>, m: RateMaps, s: SolverSettings, e: RootCandidate)
    requires Ordered(ts) && ts != [] && ts[0].days == 0 && ValidSettings(s) && HasDayZero(ts)
    requires e in StationaryScan(ts, m, s).candidates && e.converged
    requires Abs(Evaluate(ts, m)(e.value)) <= ScanControls(ts, s).valueTolerance
    ensures !SoleSimpleCandidate(ts, m, s)
  {
    hide Isolate, Ordered, StationaryScan, Evaluate, ScanControls, CoefficientSignChanges, Close, Detected,
         ScanMonotonicPartitions, Partition, SortedPoints;
    if SoleSimpleCandidate(ts, m, s) {
      CandidatesNeedTwoTerms(ts, m, s);
      IsolateScansPartition(ts, m, s);
      StationaryInPartition(ts, m, s, e);
      PartitionRootDetected(Evaluate(ts, m), Partition(ts, m, s), ScanControls(ts, s), e.value);
      SoleDetected(ScanMonotonicPartitions(Evaluate(ts, m), Partition(ts, m, s), ScanControls(ts, s)), e.value);
      CloseWritten(Isolate(ts, m, s).candidates[0].value, e.value);
    }
  }

  lemma {:induction false} StationaryInPartition(ts: seq<Term>, m: RateMaps, s: SolverSettings, e: RootCandidate)
    requires ValidSettings(s) && HasDayZero(ts) && e in StationaryScan(ts, m, s).candidates
    ensures e.value in Partition(ts, m, s)
  {
    hide Isolate, StationaryScan, Linspace;
    var stationary := StationaryScan(ts, m, s).candidates;
    var k :| 0 <= k < |stationary| && stationary[k] == e;
    assert Values(stationary)[k] == e.value;
  }

  lemma {:induction false} PartitionRootDetected(f: real -> real, partition: seq<real>, c: Controls, p: real)
    requires p in partition && Abs(f(p)) <= c.valueTolerance
    ensures Detected(ScanMonotonicPartitions(f, partition, c), p)
  {
    hide Detected, MergedRoots, ScanMonotonicPartitions;
    MergedDetects(f, SortedPoints(partition), c);
    DetectedInMerged(f, partition, c, p);
  }

  lemma {:induction false} SoleDetected(scan: RootScan, p: real)
    requires Detected(scan, p) && |scan.candidates| == 1
    ensures Close(scan.candidates[0].value, p)
  {
    hide Close;
    assert forall e :: e in scan.candidates ==> e == scan.candidates[0];
  }

  // ---------------------------------------------------------------- failure reasons

  /** The reason of a scan is that of its first unconverged candidate, in the order they were merged. */
  lemma {:induction false} FirstFailureMeans(roots: seq<RootCandidate>)
    ensures FirstFailureReason(roots) == None <==> forall c :: c in roots ==> c.converged
    ensures FirstFailureReason(roots).Some? ==> exists k ::
      0 <= k < |roots| && !roots[k].converged && (forall j :: 0 <= j < k ==> roots[j].converged)
      && (FirstFailureReason(roots) == Some(SolverIterationLimitReached) <==> roots[k].terminationReason == IterationLimit)
  {
    if roots != [] && roots[0].converged {
      FirstFailureMeans(roots[1..]);
      if FirstFailureReason(roots).Some? {
        var k :| 0 <= k < |roots| - 1 && !roots[1..][k].converged && (forall j :: 0 <= j < k ==> roots[1..][j].converged)
          && (FirstFailureReason(roots) == Some(SolverIterationLimitReached) <==> roots[1..][k].terminationReason == IterationLimit);
        assert !roots[k + 1].converged;
        assert forall j :: 0 <= j < k + 1 ==> roots[j].converged by {
          forall j | 0 <= j < k + 1 ensures roots[j].converged {
            if j > 0 {
              assert roots[1..][j - 1].converged;
            }
          }
        }
      }
    }
  }

  lemma {:induction false} NoFailureAllConverged(ts: seq<Term>, m: RateMaps, s: SolverSettings)
    requires ValidSettings(s) && Isolate(ts, m, s).failureReason == None
    ensures forall e :: e in Isolate(ts, m, s).candidates ==> e.converged
  {
    hide Normalized, Linspace, StationaryScan, MergedRoots, FirstFailureReason, SortedPoints, CoefficientSignChanges;
    var n := Normalized(ts);
    NormalizedHasDayZero(ts);
    if |n| > 1 && !(CoefficientSignChanges(Coefficients(n)) > 1 && |n| > MAX_UNIQUENESS_TERMS) {
      FirstFailureMeans(MergedRoots(Evaluate(n, m), SortedPoints(Partition(n, m, s)), ScanControls(n, s)));
    }
  }

  lemma {:induction false} StationaryFailureCarries(ts: seq<Term>, m: RateMaps, s: SolverSettings)
    requires Ordered(ts) && ts != [] && ts[0].days == 0 && ValidSettings(s)
    requires Isolate(ts, m, s).failureReason == None && Isolate(ts, m, s).candidates != []
    ensures HasDayZero(ts) && StationaryScan(ts, m, s).failureReason == None
  {
    hide Normalized, Linspace, StationaryScan, ScanMonotonicPartitions, CoefficientSignChanges, Ordered;
    TermsNormalized(ts);
  }

  // ---------------------------------------------------------------- a repeated root

  /** 100 out, 220 back after days, 121 out after as many again: in w, the discount over that time, the present value is
      -(11 w - 10)^2. With one year each way the repeated rate is 10 %. */
  function RepeatedRootFlows(days: nat): seq<Flow> {
    [Flow(-100.0, 0), Flow(220.0, days), Flow(-121.0, 2 * days)]
  }

  function RepeatedRootTerms(days: nat): seq<Term> {
    [Term(-100.0, 0), Term(220.0, days), Term(-121.0, 2 * days)]
  }

  function SlopeTerms(days: nat): seq<Term> { [Term(-220.0, days), Term(242.0, 2 * days)] }

  function NormalSlopeTerms(days: nat): seq<Term> { [Term(-220.0, 0), Term(242.0, days)] }

  lemma {:induction false} RepeatedTerms(days: nat)
    requires days > 0
    ensures Netted(RepeatedRootFlows(days)) && Terms(RepeatedRootFlows(days)) == RepeatedRootTerms(days)
    ensures BothSigns(RepeatedRootFlows(days)) && Ordered(RepeatedRootTerms(days)) && HasDayZero(RepeatedRootTerms(days))
    ensures CoefficientSignChanges(Coefficients(RepeatedRootTerms(days))) == 2
  {
    var ts := RepeatedRootTerms(days);
    var cs := Coefficients(ts);
    assert RepeatedRootFlows(days)[0].amount < 0.0 && RepeatedRootFlows(days)[1].amount > 0.0;
    assert ts[0].days == 0;
    assert cs == [-100.0, 220.0, -121.0];
    NonZeroIdentity(cs);
    assert cs[1..] == [220.0, -121.0] && cs[1..][1..] == [-121.0];
    assert AdjacentSignFlips(cs[1..][1..]) == 0 && AdjacentSignFlips(cs[1..]) == 1;
  }

  lemma {:induction false} SlopeOfTerms(days: nat)
    requires days > 0
    ensures DerivativeTerms(RepeatedRootTerms(days), days as real) == SlopeTerms(days)
  {
    var a := days as real;
    var d := Differentiated(RepeatedRootTerms(days), a);
    DifferentiatedAtZero(RepeatedRootTerms(days), a, 0);
    assert a / a == 1.0 && (2 * days) as real / a == 2.0 by {
      TwiceOver(days);
    }
    assert d[0].coefficient == 0.0 && d[1] == Term(-220.0, days) && d[2] == Term(242.0, 2 * days);
    assert d[1..] == SlopeTerms(days) && d[1..][1..] == [Term(242.0, 2 * days)] && d[1..][1..][1..] == [];
    RetainedIdentity(SlopeTerms(days));
  }

  lemma {:induction false} TwiceOver(days: nat)
    requires days > 0
    ensures days as real / days as real == 1.0 && (2 * days) as real / days as real == 2.0
  {
    var b := (2 * days) as real;
    Doubled(days as real, b);
  }

  lemma {:induction false} Doubled(a: real, b: real)
    requires a > 0.0 && b == a + a
    ensures a / a == 1.0 && b / a == 2.0
  {
    var q := b / a;
    assert q * a == b;
    if q > 2.0 {
      MulStrictlyMonotone(2.0, q, a);
    } else if q < 2.0 {
      MulStrictlyMonotone(q, 2.0, a);
    }
  }

  lemma {:induction false} NormalSlope(days: nat)
    requires days > 0
    ensures Normalized(SlopeTerms(days)) == NormalSlopeTerms(days)
    ensures Ordered(NormalSlopeTerms(days)) && CoefficientSignChanges(Coefficients(NormalSlopeTerms(days))) == 1
  {
    var d := SlopeTerms(days);
    RetainedIdentity(d);
    var k := MinDays(d);
    assert d[0] in d && d[1] in d;
    assert k == days;
    assert Shifted(d, k) == NormalSlopeTerms(days);
    var cs := Coefficients(NormalSlopeTerms(days));
    assert cs == [-220.0, 242.0];
    NonZeroIdentity(cs);
    assert cs[1..] == [242.0] && AdjacentSignFlips(cs[1..]) == 0;
  }

  lemma {:induction false} RepeatedValues(days: nat, y: real, w: real)
    requires w == Pow(y, days)
    ensures EvalTerms(RepeatedRootTerms(days), y) == -((11.0 * w - 10.0) * (11.0 * w - 10.0))
    ensures EvalTerms(NormalSlopeTerms(days), y) == 22.0 * (11.0 * w - 10.0)
  {
    hide EvalTerms, Pow;
    var ts, n := RepeatedRootTerms(days), NormalSlopeTerms(days);
    TermsUnfolded(ts, y);
    TermsUnfolded(ts[1..], y);
    TermsUnfolded(ts[1..][1..], y);
    TermsUnfolded(n, y);
    TermsUnfolded(n[1..], y);
    EmptyValues(y);
    PowZero(y);
    PowAdd(y, days, days);
    assert days + days == 2 * days;
    assert ts[1..][1..][1..] == [] && n[1..][1..] == [];
    Square11(w);
  }

  lemma {:induction false} Square11(w: real)
    ensures -100.0 + (220.0 * w + -121.0 * (w * w)) == -((11.0 * w - 10.0) * (11.0 * w - 10.0))
  {
  }

  lemma {:induction false} IsolateOfNormalized(ts: seq<Term>, m: RateMaps, s: SolverSettings)
    requires ValidSettings(s) && Ordered(ts) && ts != []
    ensures Isolate(ts, m, s) == Isolate(Normalized(ts), m, s)
  {
    hide Linspace, ScanMonotonicPartitions, StationaryScan, CoefficientSignChanges, Normalized;
    NormalizedOrdered(ts);
    TermsNormalized(Normalized(ts));
  }

  lemma {:induction false} ToleranceOf(ts: seq<Term>, tolerance: real, gross: real)
    requires GrossAmount(ts) == gross && gross >= 1.0
    ensures ValueTolerance(ts, tolerance) == if tolerance * gross >= 0.00000001 then tolerance * gross else 0.00000001
  {
  }

  lemma {:induction false} RepeatedGross(days: nat)
    ensures GrossAmount(RepeatedRootTerms(days)) == 441.0 && GrossAmount(NormalSlopeTerms(days)) == 462.0
  {
    var ts, n := RepeatedRootTerms(days), NormalSlopeTerms(days);
    assert ts[1..][1..][1..] == [] && n[1..][1..] == [];
    assert GrossAmount(ts[1..][1..]) == 121.0 && GrossAmount(ts[1..]) == 341.0;
    assert GrossAmount(n[1..]) == 242.0;
  }

  lemma {:induction false} SquareWithin(v: real, t: real, big: real)
    requires Abs(22.0 * v) <= big && 0.0 < t <= 1.0
    requires big == if t * 462.0 >= 0.00000001 then t * 462.0 else 0.00000001
    ensures v * v <= if t * 441.0 >= 0.00000001 then t * 441.0 else 0.00000001
  {
    var b := big / 22.0;
    assert Abs(v) <= b;
    ProductBound(v, v, b, b);
    if t * 462.0 >= 0.00000001 {
      SquareOfTolerance(b, t);
    } else {
      MulMonotone(b, 1.0, b);
    }
  }

  lemma {:induction false} SquareOfTolerance(b: real, t: real)
    requires b == 21.0 * t && 0.0 < t <= 1.0
    ensures b * b <= t * 441.0
  {
    SquareBelow(t, t * t);
    Square21(t, t * t);
  }

  lemma {:induction false} SquareBelow(t: real, q: real)
    requires 0.0 < t <= 1.0 && q == t * t
    ensures q <= t
  {
    ProductNonNegative(t, 1.0 - t);
    assert t * (1.0 - t) == t - t * t;
  }

  lemma {:induction false} Square21(t: real, q: real)
    requires q == t * t
    ensures (21.0 * t) * (21.0 * t) == 441.0 * q
  {
  }

  lemma {:induction false} SlopeCandidateValue(days: nat, m: RateMaps, s: SolverSettings, e: RootCandidate, w: real)
    requires days > 0 && ValidSettings(s) && w == Pow(m.dayDiscount(e.value), days)
    requires e in Isolate(SlopeTerms(days), m, s).candidates && e.converged
    ensures Abs(22.0 * (11.0 * w - 10.0)) <= ValueTolerance(NormalSlopeTerms(days), s.tolerance)
  {
    hide Isolate, EvalTerms, Pow, ValueTolerance, Normalized, SlopeTerms, NormalSlopeTerms, Abs;
    NormalSlope(days);
    IsolatedWithin(SlopeTerms(days), m, s);
    RepeatedValues(days, m.dayDiscount(e.value), w);
  }

  lemma {:induction false} SlopeCandidateIsRoot(days: nat, m: RateMaps, s: SolverSettings, e: RootCandidate)
    requires days > 0 && ValidSettings(s) && s.daysPerYear == days as real && s.tolerance <= 1.0
    requires e in Isolate(SlopeTerms(days), m, s).candidates && e.converged
    ensures Abs(Evaluate(RepeatedRootTerms(days), m)(e.value)) <= ScanControls(RepeatedRootTerms(days), s).valueTolerance
  {
    hide Isolate, EvalTerms, Pow, ValueTolerance, Normalized, GrossAmount, SlopeTerms, NormalSlopeTerms, RepeatedRootTerms;
    var y := m.dayDiscount(e.value);
    SlopeCandidateValue(days, m, s, e, Pow(y, days));
    RepeatedValues(days, y, Pow(y, days));
    RepeatedGross(days);
    ToleranceOf(RepeatedRootTerms(days), s.tolerance, 441.0);
    ToleranceOf(NormalSlopeTerms(days), s.tolerance, 462.0);
    RootWithin(11.0 * Pow(y, days) - 10.0, s.tolerance, ValueTolerance(NormalSlopeTerms(days), s.tolerance),
               EvalTerms(RepeatedRootTerms(days), y));
  }

  lemma {:induction false} RootWithin(v: real, t: real, big: real, f: real)
    requires Abs(22.0 * v) <= big && 0.0 < t <= 1.0 && f == -(v * v)
    requires big == if t * 462.0 >= 0.00000001 then t * 462.0 else 0.00000001
    ensures Abs(f) <= if t * 441.0 >= 0.00000001 then t * 441.0 else 0.00000001
  {
    SquareWithin(v, t, big);
    NegatedSquare(v);
  }

  lemma {:induction false} NegatedSquare(v: real)
    ensures Abs(-(v * v)) == v * v
  {
    assert v * v >= 0.0;
  }

  lemma {:induction false} RepeatedRootRefused(days: nat, m: RateMaps, s: SolverSettings, x: real)
    requires days > 0 && ValidSettings(s) && s.daysPerYear == days as real && s.tolerance <= 1.0 && Lawful(m)
    requires s.lower <= x <= s.upper && 11.0 * Pow(m.dayDiscount(x), days) == 10.0
    requires HasDayZero(RepeatedRootTerms(days))
    ensures !SoleSimpleCandidate(RepeatedRootTerms(days), m, s)
  {
    hide Isolate, EvalTerms, Pow, Normalized, Lawful, Evaluate, ScanControls, CoefficientSignChanges, Coefficients,
         AwayFromStationary, DerivativeTerms, CellDetected, SortedPoints, Linspace;
    var ts, d, n := RepeatedRootTerms(days), SlopeTerms(days), NormalSlopeTerms(days);
    RepeatedTerms(days);
    SlopeOfTerms(days);
    NormalSlope(days);
    RepeatedValues(days, m.dayDiscount(x), Pow(m.dayDiscount(x), days));
    if SoleSimpleCandidate(ts, m, s) {
      IsolateOfNormalized(d, m, s);
      var i := OneSignChangeRootFound(n, m, s, x);
      StationaryFailureCarries(ts, m, s);
      NoFailureAllConverged(d, m, s);
      var e := Isolate(d, m, s).candidates[0];
      SlopeCandidateIsRoot(days, m, s, e);
      StationaryRootUnreported(ts, m, s, e);
    }
  }

  /** The three flows have a rate of return, a repeated one, and no controls with a tolerance of at most 1 and no bounds
      around it make the solver report a rate. */
  lemma {:induction false} RepeatedRootUnreported(days: nat, m: RateMaps, c: XirrControls, z: real)
    requires days > 0 && Lawful(m) && ValidControls(c) && ValidBounds(c) && c.tolerance <= 1.0
    requires c.rateLowerBound <= z <= c.rateUpperBound && 11.0 * Pow(m.rateDiscount(z), days) == 10.0
    ensures Netted(RepeatedRootFlows(days)) && Npv(Terms(RepeatedRootFlows(days)), m, z) == 0.0
    ensures !SolveXirr(RepeatedRootFlows(days), m, c, days as real).Rate?
  {
    hide Lawful, Netted, ValidControls, Pow, EvalTerms, SoleSimpleCandidate, SolveXirr, BothSigns, Terms;
    RepeatedTerms(days);
    RepeatedValues(days, m.rateDiscount(z), Pow(m.rateDiscount(z), days));
    RateIffSoleSimple(RepeatedRootFlows(days), m, c, days as real);
    LogBoundsOrdered(m, c);
    SettingsValid(m, c, days as real);
    var x := LogOfRate(RepeatedRootTerms(days), m, c.rateLowerBound, z, c.rateUpperBound);
    DiscountAtLog(m, z);
    RepeatedRootRefused(days, m, Settings(m, c, days as real), x);
  }

  lemma {:induction false} DiscountAtLog(m: RateMaps, z: real)
    requires Lawful(m) && z > -1.0
    ensures m.rateDiscount(z) == m.dayDiscount(m.logRate(z))
  {
    assert RateInverseAt(m, z) && DiscountOfRateAt(m, m.logRate(z));
  }

  // ---------------------------------------------------------------- every answer

  /** The answers given before any scan: bad controls first, then no content, then flows of one sign, then bad bounds. */
  lemma {:induction false} PreflightAnswers(netted: seq<Flow>, m: RateMaps, c: XirrControls, daysPerYear: real)
    requires Netted(netted) && daysPerYear > 0.0 && Lawful(m)
    ensures var r := SolveXirr(netted, m, c, daysPerYear);
      var admitted := 2 <= c.rootScanSteps <= 2048 && c.tolerance > 0.0 && 1 <= c.maxIter <= 512
                      && c.rootScanSteps * c.maxIter <= 409600;
      && (r == NoRate(InvalidSolverControls) <==> !admitted)
      && (r == NoRate(NoEconomicContent) <==> admitted && netted == [])
      && (r == NoRate(NoPositiveAndNegativeCashFlow) <==> admitted && netted != [] && !BothSigns(netted))
      && (r == NoRate(InvalidSolverBounds) <==>
            admitted && BothSigns(netted) && !(-1.0 < c.rateLowerBound < c.rateUpperBound))
  {
    hide Lawful, Netted, OneSided, GrossFlow, BothSigns, ScanRates, Isolate;
    BothSignsIff(netted);
    NettedHasContent(netted);
    if netted != [] && ValidControls(c) && ValidBounds(c) {
      NettedTermsOrdered(netted);
      LogBoundsOrdered(m, c);
    }
  }

  lemma {:induction false} NettedHasContent(netted: seq<Flow>)
    requires Netted(netted)
    ensures GrossFlow(netted) == 0.0 <==> netted == []
    ensures BothSigns(netted) ==> netted != []
  {
    if netted != [] {
      GrossNonNegative(netted[1..]);
    }
  }

  /** The other answers, from what the isolation is left with. */
  lemma {:induction false} ScanAnswers(netted: seq<Flow>, m: RateMaps, c: XirrControls, daysPerYear: real)
    requires Netted(netted) && daysPerYear > 0.0 && Lawful(m) && BothSigns(netted) && ValidControls(c) && ValidBounds(c)
    ensures netted != [] && ValidSettings(Settings(m, c, daysPerYear)) && HasDayZero(Terms(netted))
    ensures var r, scan := SolveXirr(netted, m, c, daysPerYear), Isolate(Terms(netted), m, Settings(m, c, daysPerYear));
      if scan.failureReason.Some? then r == NoRate(Solver(scan.failureReason.value))
      else if !scan.uniquenessSupported then r == NoRate(Solver(UniquenessNotSupported))
      else if scan.candidates == [] then r == NoRate(NoRootFound)
      else if |scan.candidates| > 1 then r == NoRate(MultipleRootsDetected)
      else if !AwayFromStationary(Terms(netted), m, Settings(m, c, daysPerYear), scan.candidates[0].value) then
        r == NoRate(NonSimpleRootDetected)
      else r.Rate? && r.rate == m.rateOf(scan.candidates[0].value)
  {
    hide Lawful, Netted, OneSided, GrossFlow, Isolate, AwayFromStationary, ValidControls, BothSigns, Ordered;
    BothSignsIff(netted);
    NettedTermsOrdered(netted);
    LogBoundsOrdered(m, c);
    SettingsValid(m, c, daysPerYear);
    var ts, s := Terms(netted), Settings(m, c, daysPerYear);
    TermsNormalized(ts);
    var scan := Isolate(ts, m, s);
    if scan.failureReason == None {
      NoFailureAllConverged(ts, m, s);
    }
    if |scan.candidates| == 1 {
      assert ScanRates(ts, m, s).candidates[0] == RateCandidate(ts, m, scan.candidates[0]);
      if scan.uniquenessSupported {
        IsolationFlag(ts, m, s);
      }
    }
  }

  /** Uniqueness is supported unless the normalised terms have more than one sign change and are more than 64: no deeper
      level of the recursion can lose it. */
  lemma {:induction false} SupportedIff(ts: seq<Term>, m: RateMaps, s: SolverSettings)
    requires ValidSettings(s)
    ensures var n, scan := Normalized(ts), Isolate(ts, m, s);
      && (scan.uniquenessSupported <==> |n| <= 64 || CoefficientSignChanges(Coefficients(n)) <= 1)
      && (!scan.uniquenessSupported ==> scan.failureReason == Some(UniquenessNotSupported) && !scan.nonSimpleRootDetected)
      && (|n| <= 1 ==> scan == RootScan([], true, None, false))
    decreases |ts|
  {
    hide Linspace, CoefficientSignChanges, Normalized, DerivativeTerms, HasStationaryRoot, MergedRoots, SortedPoints;
    var n := Normalized(ts);
    NormalizedHasDayZero(ts);
    if 1 < |n| <= 64 && CoefficientSignChanges(Coefficients(n)) > 1 {
      DerivativeLosesTerm(n, s.daysPerYear);
      var d := DerivativeTerms(n, s.daysPerYear);
      NormalizedHasDayZero(d);
      SupportedIff(d, m, s);
    }
  }

  // ---------------------------------------------------------------- the scan's own numbers

  /** The grid has at least 32 points, evenly spaced in the log rate from bound to bound. */
  lemma {:induction false} GridSpacing(m: RateMaps, c: XirrControls, daysPerYear: real, i: nat)
    requires ValidControls(c) && ValidBounds(c)
    ensures var s := Settings(m, c, daysPerYear);
      && s.steps >= 32 && (c.rootScanSteps >= 32 ==> s.steps == c.rootScanSteps) && (c.rootScanSteps < 32 ==> s.steps == 32)
      && var grid := Linspace(m.logRate(c.rateLowerBound), m.logRate(c.rateUpperBound), s.steps);
         i < s.steps ==>
           (grid[i] - m.logRate(c.rateLowerBound)) * (s.steps - 1) as real
           == i as real * (m.logRate(c.rateUpperBound) - m.logRate(c.rateLowerBound))
  {
    var s := Settings(m, c, daysPerYear);
    if i < s.steps {
      SpacingAlgebra(i as real, m.logRate(c.rateUpperBound) - m.logRate(c.rateLowerBound), (s.steps - 1) as real);
    }
  }

  lemma {:induction false} SpacingAlgebra(i: real, w: real, n: real)
    requires n > 0.0
    ensures i * (w / n) * n == i * w
  {
    assert w / n * n == w;
  }

  lemma {:induction false} GrossOfTerms(flows: seq<Flow>, anchor: nat)
    requires forall f :: f in flows ==> anchor <= f.date
    ensures GrossAmount(ElapsedTerms(flows, anchor)) == GrossFlow(flows)
  {
    if flows != [] {
      GrossOfTerms(flows[1..], anchor);
      assert ElapsedTerms(flows, anchor)[1..] == ElapsedTerms(flows[1..], anchor);
    }
  }

  /** The value tolerance is the largest of 1e-8, the tolerance, and the tolerance times the gross amount of the flows. */
  lemma {:induction false} ValueToleranceMeans(netted: seq<Flow>, m: RateMaps, s: SolverSettings)
    requires Netted(netted) && netted != [] && ValidSettings(s)
    ensures var t := ScanControls(Terms(netted), s).valueTolerance;
      && t >= 0.00000001 && t >= s.tolerance && t >= s.tolerance * GrossFlow(netted)
      && (t == 0.00000001 || t == s.tolerance || t == s.tolerance * GrossFlow(netted))
    ensures ScanControls(Terms(netted), s).rateTolerance == s.tolerance && ScanControls(Terms(netted), s).maxIter == s.maxIter
  {
    hide Netted, GrossAmount, GrossFlow;
    NettedTermsOrdered(netted);
    GrossOfTerms(netted, netted[0].date);
    assert GrossAmount(Terms(netted)) == GrossFlow(netted);
    LargestOfThree(s.tolerance, GrossFlow(netted), Max(s.tolerance * Max(GrossFlow(netted), 1.0), 0.00000001));
  }

  lemma {:induction false} LargestOfThree(tolerance: real, gross: real, t: real)
    requires tolerance > 0.0 && t == Max(tolerance * Max(gross, 1.0), 0.00000001)
    ensures t >= 0.00000001 && t >= tolerance && t >= tolerance * gross
    ensures t == 0.00000001 || t == tolerance || t == tolerance * gross
  {
    if gross <= 1.0 {
      MulMonotone(gross, 1.0, tolerance);
      assert gross * tolerance == tolerance * gross;
    } else {
      MulMonotone(1.0, gross, tolerance);
      assert gross * tolerance == tolerance * gross;
    }
  }
}
