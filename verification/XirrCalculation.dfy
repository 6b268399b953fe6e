/** The XIRR call on the flows of the caller: what its answer says about them, in any order. */
module XirrCalculation {
  import opened Wrappers
  import opened RealArithmetic
  import opened Polynomials
  import opened Calculus
  import opened ExponentialTerms
  import opened XirrFlows
  import opened Xirr
  import opened XirrTheorems
  import opened XirrReporting
  import opened XirrDistance
  import opened XirrRepeatedRoots

  // ---------------------------------------------------------------- netting does not widen the tolerance

  function GrossOn(flows: seq<Flow>, d: nat): real {
    if flows == [] then 0.0 else (if flows[0].date == d then Abs(flows[0].amount) else 0.0) + GrossOn(flows[1..], d)
  }

  lemma {:induction false} SplitGross(flows: seq<Flow>, d: nat)
    ensures GrossFlow(flows) == GrossOn(flows, d) + GrossFlow(Without(flows, d))
    ensures Abs(NetAmount(flows, d)) <= GrossOn(flows, d)
  {
    if flows != [] {
      SplitGross(flows[1..], d);
      if flows[0].date != d {
        assert Without(flows, d)[1..] == Without(flows[1..], d);
      }
    }
  }

  /** Cancellation within a date can only lower the gross amount. */
  lemma {:induction false} NettingLowersGross(netted: seq<Flow>, flows: seq<Flow>)
    requires Netted(netted) && SameNetAmounts(netted, flows)
    ensures GrossFlow(netted) <= GrossFlow(flows)
    decreases |netted|
  {
    if netted == [] {
      GrossNonNegative(flows);
    } else {
      var d, rest := netted[0].date, Without(flows, netted[0].date);
      NetAmountBefore(netted[1..], d);
      SplitGross(flows, d);
      assert NetAmount(netted, d) == NetAmount(flows, d);
      forall e ensures NetAmount(netted[1..], e) == NetAmount(rest, e) {
        WithoutNet(flows, d, e);
        assert NetAmount(netted, e) == NetAmount(flows, e);
      }
      NettingLowersGross(netted[1..], rest);
    }
  }

  /** The value tolerance in the amounts the caller gave. */
  function FlowTolerance(flows: seq<Flow>, tolerance: real): real {
    Max(tolerance * Max(GrossFlow(flows), 1.0), 0.00000001)
  }

  lemma {:induction false} ToleranceOfFlows(netted: seq<Flow>, flows: seq<Flow>, tolerance: real)
    requires Netted(netted) && netted != [] && SameNetAmounts(netted, flows) && tolerance > 0.0
    ensures ValueTolerance(Terms(netted), tolerance) <= FlowTolerance(flows, tolerance)
  {
    hide GrossAmount, GrossFlow, Netted, SameNetAmounts;
    NettedTermsOrdered(netted);
    GrossOfTerms(netted, netted[0].date);
    NettingLowersGross(netted, flows);
    TighterTolerance(tolerance, GrossFlow(netted), GrossFlow(flows));
    assert GrossAmount(Terms(netted)) == GrossFlow(netted);
  }

  lemma {:induction false} TighterTolerance(tolerance: real, a: real, b: real)
    requires a <= b && tolerance > 0.0
    ensures Max(tolerance * Max(a, 1.0), 0.00000001) <= Max(tolerance * Max(b, 1.0), 0.00000001)
  {
    MulMonotone(Max(a, 1.0), Max(b, 1.0), tolerance);
  }

  // ---------------------------------------------------------------- the answer in terms of the caller's flows

  /** The first date whose flows do not cancel. */
  ghost predicate FirstNetDate(flows: seq<Flow>, anchor: nat) {
    NetAmount(flows, anchor) != 0.0 && forall d: nat :: d < anchor ==> NetAmount(flows, d) == 0.0
  }

  /** At the daily discount factor y, the flows discounted to the anchor date are worth at most the tolerance. */
  predicate Balances(flows: seq<Flow>, y: real, anchor: nat, tolerance: real) {
    y > 0.0 && Abs(PresentValue(flows, y)) <= Pow(y, anchor) * FlowTolerance(flows, tolerance)
  }

  lemma {:induction false} NettedAnchor(netted: seq<Flow>, flows: seq<Flow>)
    requires Netted(netted) && netted != [] && SameNetAmounts(netted, flows)
    ensures FirstNetDate(flows, netted[0].date)
  {
    var anchor := netted[0].date;
    NetAmountBefore(netted[1..], anchor);
    assert NetAmount(netted, anchor) == NetAmount(flows, anchor);
    forall d: nat | d < anchor ensures NetAmount(flows, d) == 0.0 {
      NetAmountBefore(netted, d);
      assert NetAmount(netted, d) == NetAmount(flows, d);
    }
  }

  lemma {:induction false} ScaledBound(v: real, p: real, e: real, t: real, u: real)
    requires p > 0.0 && v == p * e && Abs(e) <= t <= u
    ensures Abs(v) <= p * u
  {
    MulMonotone(Abs(e), u, p);
    assert Abs(v) == p * Abs(e) by {
      ProductBound(p, e, p, Abs(e));
      if e < 0.0 {
        assert p * -e == -(p * e);
      }
    }
  }

  /** A reported rate lies in the bounds and balances the flows the caller gave. */
  lemma {:induction false} ReportedRateBalances(netted: seq<Flow>, flows: seq<Flow>, m: RateMaps, c: XirrControls,
                                                daysPerYear: real)
    requires Netted(netted) && SameNetAmounts(netted, flows) && daysPerYear > 0.0 && Lawful(m)
    requires SolveXirr(netted, m, c, daysPerYear).Rate?
    ensures var rate := SolveXirr(netted, m, c, daysPerYear).rate;
      && c.rateLowerBound <= rate <= c.rateUpperBound
      && netted != [] && FirstNetDate(flows, netted[0].date)
      && Balances(flows, m.rateDiscount(rate), netted[0].date, c.tolerance)
  {
    hide Lawful, Netted, SameNetAmounts, PresentValue, Pow, EvalTerms, FlowTolerance, ValueTolerance, Isolate, OneSided,
         GrossFlow, FirstNetDate, ScanRates, ResultFromRoots;
    LogBoundsOrdered(m, c);
    var rate := SolveXirr(netted, m, c, daysPerYear).rate;
    ReportedRateSound(netted, m, c, daysPerYear);
    NettedTermsOrdered(netted);
    NettedAnchor(netted, flows);
    RateDiscountPositive(m, rate);
    var y, anchor := m.rateDiscount(rate), netted[0].date;
    ValueFromNetAmounts(netted, flows, y);
    AnchoredValue(netted, anchor, y);
    PowPositive(y, anchor);
    ToleranceOfFlows(netted, flows, c.tolerance);
    ScaledBound(PresentValue(flows, y), Pow(y, anchor), EvalTerms(Terms(netted), y),
                ValueTolerance(Terms(netted), c.tolerance), FlowTolerance(flows, c.tolerance));
  }

  /** r answers the XIRR question for the flows, with their same-day amounts netted. */
  ghost predicate Answers(flows: seq<Flow>, m: RateMaps, c: XirrControls, daysPerYear: real, r: XirrResult)
    requires daysPerYear > 0.0 && Lawful(m)
  {
    exists netted :: Netted(netted) && SameNetAmounts(netted, flows) && r == SolveXirr(netted, m, c, daysPerYear)
  }

  lemma {:induction false} NettingUnique(a: seq<Flow>, b: seq<Flow>, flows: seq<Flow>)
    requires Netted(a) && Netted(b) && SameNetAmounts(a, flows) && SameNetAmounts(b, flows)
    ensures a == b
  {
    forall d ensures NetAmount(a, d) == NetAmount(b, d) {
      assert NetAmount(a, d) == NetAmount(flows, d);
    }
    NettedUnique(a, b);
  }

  /** A rate is due: the flows have both signs, controls and bounds are valid, and one converged candidate is left that
      is no stationary point. */
  predicate RateDue(netted: seq<Flow>, m: RateMaps, c: XirrControls, daysPerYear: real)
    requires Netted(netted) && daysPerYear > 0.0 && Lawful(m)
  {
    && BothSigns(netted) && ValidControls(c) && ValidBounds(c)
    && (NettedHasContent(netted); RateIffSoleSimple(netted, m, c, daysPerYear);
        SoleSimpleCandidate(Terms(netted), m, Settings(m, c, daysPerYear)))
  }

  method XirrRate(flows: seq<Flow>, m: RateMaps, c: XirrControls, daysPerYear: real) returns (r: XirrResult)
    requires daysPerYear > 0.0 && Lawful(m)
    ensures Answers(flows, m, c, daysPerYear, r)
    ensures r.Rate? <==>
      exists netted :: Netted(netted) && SameNetAmounts(netted, flows) && RateDue(netted, m, c, daysPerYear)
    ensures r.Rate? ==> c.rateLowerBound <= r.rate <= c.rateUpperBound
    ensures r.Rate? ==> exists anchor ::
      FirstNetDate(flows, anchor) && Balances(flows, m.rateDiscount(r.rate), anchor, c.tolerance)
  {
    hide Lawful, Netted, SameNetAmounts, FirstNetDate, Balances, SolveXirr, BothSigns, SoleSimpleCandidate;
    LogBoundsOrdered(m, c);
    var netted := NetSameDayFlows(flows);
    r := SolveXirr(netted, m, c, daysPerYear);
    RateIffSoleSimple(netted, m, c, daysPerYear);
    forall other | Netted(other) && SameNetAmounts(other, flows) ensures other == netted {
      NettingUnique(netted, other, flows);
    }
    if r.Rate? {
      ReportedRateBalances(netted, flows, m, c, daysPerYear);
    }
  }

  /** The answer is one and the same for every order of the flows. */
  lemma {:induction false} AnswerIgnoresOrder(a: seq<Flow>, b: seq<Flow>, m: RateMaps, c: XirrControls,
                                              daysPerYear: real, r: XirrResult, q: XirrResult)
    requires daysPerYear > 0.0 && Lawful(m) && multiset(a) == multiset(b)
    requires Answers(a, m, c, daysPerYear, r) && Answers(b, m, c, daysPerYear, q)
    ensures r == q
  {
    hide Lawful, Netted, SameNetAmounts, SolveXirr;
    LogBoundsOrdered(m, c);
    var nettedA :| Netted(nettedA) && SameNetAmounts(nettedA, a) && r == SolveXirr(nettedA, m, c, daysPerYear);
    var nettedB :| Netted(nettedB) && SameNetAmounts(nettedB, b) && q == SolveXirr(nettedB, m, c, daysPerYear);
    NettingIgnoresOrder(a, b, nettedA, nettedB);
  }
}
