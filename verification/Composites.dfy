/** Asset-weighted composite time-weighted returns. */
module Composites {
  import opened Wrappers
  import opened RealArithmetic
  import opened Sums
  import opened NumericalBoundary

  /** A member return fact; ids of portfolios are ordered like their names. */
  datatype Fact = Fact(
    compositeId: string,
    portfolioId: int,
    period: (int, int),
    returnValue: real,
    beginningMv: real,
    endingMv: Option<real>,
    returnView: string,
    reportingCurrency: string,
    ready: bool)

  datatype BlockReason =
    | NoReadyMemberReturnFacts
    | NonpositiveBeginningAssets
    | MixedMemberReturnViews
    | MixedMemberReportingCurrencies

  datatype PeriodStatus = Ready | Degraded | Blocked(reason: BlockReason)

  /** Unquantised outcome of one period. */
  datatype Outcome = Outcome(status: PeriodStatus, weightedReturn: real, memberCount: nat, excludedCount: nat)

  datatype PeriodResult = PeriodResult(
    period: (int, int),
    status: PeriodStatus,
    returnValue: Option<real>,
    cumulativeReturn: Option<real>,
    memberCount: nat,
    excludedCount: nat)

  datatype CompositeStatus = CompositeReady | CompositeDegraded | CompositeBlocked

  datatype CompositeResult = CompositeResult(
    status: CompositeStatus,
    periodResults: seq<PeriodResult>,
    cumulativeReturn: Option<real>)

  datatype CompositeError = EndingAssetsUnavailable

  function BeginningMv(f: Fact): real { f.beginningMv }

  function ReadyFacts(facts: seq<Fact>): (r: seq<Fact>)
    ensures forall f :: f in r ==> f in facts && f.ready
  {
    if facts == [] then [] else (if facts[0].ready then [facts[0]] else []) + ReadyFacts(facts[1..])
  }

  function ExcludedFacts(facts: seq<Fact>): seq<Fact> {
    if facts == [] then [] else (if facts[0].ready then [] else [facts[0]]) + ExcludedFacts(facts[1..])
  }

  /** Return contribution of a member for the given total assets. */
  function MemberContribution(assets: real): Fact -> real
    requires assets != 0.0
  {
    (f: Fact) => f.returnValue * (f.beginningMv / assets)
  }

  function MemberWeight(assets: real): Fact -> real
    requires assets != 0.0
  {
    (f: Fact) => f.beginningMv / assets
  }

  function Views(facts: seq<Fact>): set<string> { set f | f in facts :: f.returnView }
  function Currencies(facts: seq<Fact>): set<string> { set f | f in facts :: f.reportingCurrency }

  /** The block policies, in their order. */
  function BlockOf(ready: seq<Fact>): Option<BlockReason> {
    if ready == [] then Some(NoReadyMemberReturnFacts)
    else if SumBy(ready, BeginningMv) <= 0.0 then Some(NonpositiveBeginningAssets)
    else if |Views(ready)| > 1 then Some(MixedMemberReturnViews)
    else if |Currencies(ready)| > 1 then Some(MixedMemberReportingCurrencies)
    else None
  }

  /** Ready members sorted by portfolio id, stable for equal ids. */
  function InsertedById(members: seq<Fact>, f: Fact): (r: seq<Fact>)
    ensures multiset(r) == multiset(members) + multiset{f}
  {
    if members == [] then [f]
    else if f.portfolioId <= members[0].portfolioId then [f] + members
    else
      assert members == [members[0]] + members[1..];
      [members[0]] + InsertedById(members[1..], f)
  }

  function SortedById(members: seq<Fact>): (r: seq<Fact>)
    ensures multiset(r) == multiset(members)
  {
    if members == [] then []
    else
      assert members == [members[0]] + members[1..];
      InsertedById(SortedById(members[1..]), members[0])
  }

  method WeightedReturn(ready: seq<Fact>, assets: real) returns (weightedReturn: real)
    requires assets != 0.0
    ensures weightedReturn == SumBy(ready, MemberContribution(assets))
  {
    hide SumBy, SortedById;
    weightedReturn := 0.0;
    var members := SortedById(ready);
    SumByUnfolded(members[..0], MemberContribution(assets));
    for k := 0 to |members|
      invariant weightedReturn == SumBy(members[..k], MemberContribution(assets))
    {
      SumByAppend(members[..k], members[k], MemberContribution(assets));
      assert members[..k + 1] == members[..k] + [members[k]];
      var weight := members[k].beginningMv / assets;
      weightedReturn := weightedReturn + members[k].returnValue * weight;
    }
    assert members[..|members|] == members;
    SumByPermutation(members, ready, MemberContribution(assets));
  }

  predicate EndingAssetsKnown(facts: seq<Fact>) {
    forall f :: f in ReadyFacts(facts) ==> f.endingMv.Some?
  }

  function OutcomeOf(facts: seq<Fact>): Outcome {
    var ready, excluded := ReadyFacts(facts), ExcludedFacts(facts);
    match BlockOf(ready)
    case Some(reason) => Outcome(Blocked(reason), 0.0, |ready|, |excluded|)
    case None =>
      Outcome(if excluded == [] then Ready else Degraded,
              SumBy(ready, MemberContribution(SumBy(ready, BeginningMv))), |ready|, |excluded|)
  }

  method CalculatePeriod(facts: seq<Fact>) returns (r: Result<Outcome, CompositeError>)
    ensures r.Success? <==> EndingAssetsKnown(facts)
    ensures r.Success? ==> r.value == OutcomeOf(facts)
  {
    var ready, excluded := ReadyFacts(facts), ExcludedFacts(facts);
    if exists f :: f in ready && f.endingMv.None? {
      return Failure(EndingAssetsUnavailable);
    }
    match BlockOf(ready)
    case Some(reason) => r := Success(Outcome(Blocked(reason), 0.0, |ready|, |excluded|));
    case None =>
      var weighted := WeightedReturn(ready, SumBy(ready, BeginningMv));
      r := Success(Outcome(if excluded == [] then Ready else Degraded, weighted, |ready|, |excluded|));
  }

  // ---------------------------------------------------------------- grouping into periods

  predicate InPeriod(f: Fact, id: string, period: (int, int)) { f.compositeId == id && f.period == period }

  function PeriodFacts(facts: seq<Fact>, id: string, period: (int, int)): seq<Fact> {
    if facts == [] then []
    else (if InPeriod(facts[0], id, period) then [facts[0]] else []) + PeriodFacts(facts[1..], id, period)
  }

  lemma {:induction false} PeriodFactsAppend(facts: seq<Fact>, f: Fact, id: string, period: (int, int))
    ensures PeriodFacts(facts + [f], id, period)
         == PeriodFacts(facts, id, period) + if InPeriod(f, id, period) then [f] else []
  {
    hide InPeriod;
    if facts != [] {
      PeriodFactsAppend(facts[1..], f, id, period);
      assert (facts + [f])[1..] == facts[1..] + [f];
      PeriodFactsUnfolded(facts + [f], facts[0], facts[1..] + [f], id, period);
    } else {
      PeriodFactsUnfolded(facts + [f], f, [], id, period);
    }
  }

  lemma {:induction false} PeriodFactsUnfolded(facts: seq<Fact>, first: Fact, rest: seq<Fact>, id: string, period: (int, int))
    requires facts == [first] + rest
    ensures PeriodFacts(facts, id, period)
         == (if InPeriod(first, id, period) then [first] else []) + PeriodFacts(rest, id, period)
  {
    assert facts[1..] == rest;
  }

  function GroupedFacts(groups: map<(int, int), seq<Fact>>, period: (int, int)): seq<Fact> {
    if period in groups then groups[period] else []
  }

  method GroupByPeriod(facts: seq<Fact>, id: string) returns (groups: map<(int, int), seq<Fact>>)
    ensures forall p :: GroupedFacts(groups, p) == PeriodFacts(facts, id, p)
    ensures forall p :: p in groups ==> groups[p] != []
  {
    groups := map[];
    for k := 0 to |facts|
      invariant forall p :: GroupedFacts(groups, p) == PeriodFacts(facts[..k], id, p)
      invariant forall p :: p in groups ==> groups[p] != []
    {
      var f := facts[k];
      assert facts[..k + 1] == facts[..k] + [f];
      forall p { PeriodFactsAppend(facts[..k], f, id, p); }
      if f.compositeId == id {
        groups := groups[f.period := GroupedFacts(groups, f.period) + [f]];
      }
    }
    assert facts[..|facts|] == facts;
  }

  predicate Before(a: (int, int), b: (int, int)) {
    a.0 < b.0 || (a.0 == b.0 && a.1 < b.1)
  }

  predicate Ordered(periods: seq<(int, int)>) {
    forall i, j :: 0 <= i < j < |periods| ==> Before(periods[i], periods[j])
  }

  /** The periods that have facts of the composite, in order. */
  ghost predicate PeriodsOf(facts: seq<Fact>, id: string, periods: seq<(int, int)>) {
    Ordered(periods) && forall p :: p in periods <==> PeriodFacts(facts, id, p) != []
  }

  lemma {:induction false} FirstPeriodExists(s: set<(int, int)>) returns (m: (int, int))
    requires s != {}
    ensures m in s && forall p :: p in s ==> p == m || Before(m, p)
  {
    m :| m in s;
    if s != {m} {
      var n := FirstPeriodExists(s - {m});
      forall p | p in s ensures p == m || p == n || Before(n, p) {
        if p != m {
          assert p in s - {m};
        }
      }
      m := if Before(n, m) then n else m;
    }
  }

  method SortedPeriods(pending: set<(int, int)>) returns (periods: seq<(int, int)>)
    ensures Ordered(periods) && forall p :: p in periods <==> p in pending
  {
    periods := [];
    var left := pending;
    while left != {}
      invariant left <= pending && Ordered(periods)
      invariant forall p :: p in periods <==> p in pending - left
      invariant forall i, p :: 0 <= i < |periods| && p in left ==> Before(periods[i], p)
      decreases |left|
    {
      ghost var first := FirstPeriodExists(left);
      var next :| next in left && forall p :: p in left ==> p == next || Before(next, p);
      periods := periods + [next];
      left := left - {next};
    }
  }

  // ---------------------------------------------------------------- linking the periods

  function PeriodOutcome(facts: seq<Fact>, id: string, period: (int, int)): Outcome {
    OutcomeOf(PeriodFacts(facts, id, period))
  }

  /** Unquantised growth: calculated periods multiply in, blocked periods leave it. */
  function GrowthAfter(facts: seq<Fact>, id: string, periods: seq<(int, int)>): real {
    if periods == [] then 1.0
    else
      var n := |periods| - 1;
      var outcome := PeriodOutcome(facts, id, periods[n]);
      if outcome.status.Blocked? then GrowthAfter(facts, id, periods[..n])
      else GrowthAfter(facts, id, periods[..n]) * (1.0 + outcome.weightedReturn)
  }

  function ResultOfPeriod(period: (int, int), outcome: Outcome, growth: real): PeriodResult {
    if outcome.status.Blocked? then
      PeriodResult(period, outcome.status, None, None, outcome.memberCount, outcome.excludedCount)
    else
      PeriodResult(period, outcome.status,
                   Some(Quantize(outcome.weightedReturn, COMPOSITE_RETURN_PLACES)),
                   Some(Quantize(growth - 1.0, COMPOSITE_RETURN_PLACES)),
                   outcome.memberCount, outcome.excludedCount)
  }

  function PeriodResults(facts: seq<Fact>, id: string, periods: seq<(int, int)>): (r: seq<PeriodResult>)
    ensures |r| == |periods|
  {
    if periods == [] then []
    else
      var n := |periods| - 1;
      PeriodResults(facts, id, periods[..n])
      + [ResultOfPeriod(periods[n], PeriodOutcome(facts, id, periods[n]), GrowthAfter(facts, id, periods))]
  }

  /** The last cumulative return present. */
  function TerminalCumulative(results: seq<PeriodResult>): Option<real> {
    if results == [] then None
    else
      var last := results[|results| - 1];
      if last.cumulativeReturn.Some? then last.cumulativeReturn else TerminalCumulative(results[..|results| - 1])
  }

  function StatusOf(results: seq<PeriodResult>): CompositeStatus {
    if results == [] then CompositeBlocked
    else if forall i :: 0 <= i < |results| ==> results[i].status == Ready then CompositeReady
    else if exists i :: 0 <= i < |results| && !results[i].status.Blocked? then CompositeDegraded
    else CompositeBlocked
  }

  lemma {:induction false} NoPeriods(facts: seq<Fact>, id: string)
    ensures PeriodResults(facts, id, []) == [] && GrowthAfter(facts, id, []) == 1.0
  {
  }

  lemma {:induction false} NextPeriod(facts: seq<Fact>, id: string, periods: seq<(int, int)>, k: nat)
    requires k < |periods|
    ensures var outcome := PeriodOutcome(facts, id, periods[k]);
      var growth := GrowthAfter(facts, id, periods[..k + 1]);
      && growth == (if outcome.status.Blocked? then GrowthAfter(facts, id, periods[..k])
                    else GrowthAfter(facts, id, periods[..k]) * (1.0 + outcome.weightedReturn))
      && PeriodResults(facts, id, periods[..k + 1])
         == PeriodResults(facts, id, periods[..k]) + [ResultOfPeriod(periods[k], outcome, growth)]
  {
    hide ResultOfPeriod, PeriodOutcome;
    assert periods[..k + 1][..k] == periods[..k];
  }

  lemma {:induction false} KeysArePeriods(facts: seq<Fact>, id: string, groups: map<(int, int), seq<Fact>>, periods: seq<(int, int)>)
    requires forall p :: GroupedFacts(groups, p) == PeriodFacts(facts, id, p)
    requires forall p :: p in groups ==> groups[p] != []
    requires Ordered(periods) && forall p :: p in periods <==> p in groups.Keys
    ensures PeriodsOf(facts, id, periods)
  {
    hide PeriodFacts, Ordered;
    forall p ensures p in periods <==> PeriodFacts(facts, id, p) != [] {
      assert GroupedFacts(groups, p) == PeriodFacts(facts, id, p);
    }
  }

  method CalculateComposite(facts: seq<Fact>, id: string)
    returns (r: Result<CompositeResult, CompositeError>, periods: seq<(int, int)>)
    ensures PeriodsOf(facts, id, periods)
    ensures r.Success? <==>
      forall i :: 0 <= i < |periods| ==> EndingAssetsKnown(PeriodFacts(facts, id, periods[i]))
    ensures r.Success? ==>
      var results := PeriodResults(facts, id, periods);
      r.value == CompositeResult(StatusOf(results), results, TerminalCumulative(results))
  {
    hide PeriodResults, GrowthAfter, ResultOfPeriod, StatusOf, TerminalCumulative, PeriodFacts, OutcomeOf,
         EndingAssetsKnown, Ordered;
    var groups := GroupByPeriod(facts, id);
    periods := SortedPeriods(groups.Keys);
    KeysArePeriods(facts, id, groups, periods);
    NoPeriods(facts, id);
    var results: seq<PeriodResult> := [];
    var growth := 1.0;
    for k := 0 to |periods|
      invariant results == PeriodResults(facts, id, periods[..k])
      invariant growth == GrowthAfter(facts, id, periods[..k])
      invariant forall i :: 0 <= i < k ==> EndingAssetsKnown(PeriodFacts(facts, id, periods[i]))
    {
      NextPeriod(facts, id, periods, k);
      assert GroupedFacts(groups, periods[k]) == PeriodFacts(facts, id, periods[k]);
      assert periods[k] in periods;
      var outcome := CalculatePeriod(groups[periods[k]]);
      if outcome.Failure? {
        return Failure(outcome.error), periods;
      }
      if !outcome.value.status.Blocked? {
        growth := growth * (1.0 + outcome.value.weightedReturn);
      }
      assert outcome.value == PeriodOutcome(facts, id, periods[k]);
      assert growth == GrowthAfter(facts, id, periods[..k + 1]);
      results := results + [ResultOfPeriod(periods[k], outcome.value, growth)];
    }
    assert periods[..|periods|] == periods;
    r := Success(CompositeResult(StatusOf(results), results, TerminalCumulative(results)));
  }

  // ---------------------------------------------------------------- what the result means

  predicate AnyCalculated(facts: seq<Fact>, id: string, periods: seq<(int, int)>) {
    exists i :: 0 <= i < |periods| && !PeriodOutcome(facts, id, periods[i]).status.Blocked?
  }

  /** The reported cumulative return is the product of one plus the weighted returns of the calculated periods,
      less one, rounded once at the end; it is absent exactly when no period was calculated. */
  lemma {:induction false} TerminalIsCompoundedReturn(facts: seq<Fact>, id: string, periods: seq<(int, int)>)
    ensures TerminalCumulative(PeriodResults(facts, id, periods)) ==
      if AnyCalculated(facts, id, periods)
      then Some(Quantize(GrowthAfter(facts, id, periods) - 1.0, COMPOSITE_RETURN_PLACES)) else None
  {
    hide Quantize, PeriodOutcome;
    if periods != [] {
      var n := |periods| - 1;
      var results := PeriodResults(facts, id, periods);
      TerminalIsCompoundedReturn(facts, id, periods[..n]);
      assert results[..n] == PeriodResults(facts, id, periods[..n]);
      if PeriodOutcome(facts, id, periods[n]).status.Blocked? {
        assert AnyCalculated(facts, id, periods) <==> AnyCalculated(facts, id, periods[..n]);
      }
    }
  }

  /** Unquantised member weights add up to one. */
  lemma {:induction false} WeightsSumToOne(ready: seq<Fact>)
    requires SumBy(ready, BeginningMv) != 0.0
    ensures SumBy(ready, MemberWeight(SumBy(ready, BeginningMv))) == 1.0
  {
    hide SumBy;
    var assets := SumBy(ready, BeginningMv);
    forall f: Fact ensures MemberWeight(assets)(f) == (1.0 / assets) * BeginningMv(f) {
      assert f.beginningMv / assets == (1.0 / assets) * f.beginningMv;
    }
    SumByScaled(ready, MemberWeight(assets), 1.0 / assets, BeginningMv);
  }

  /** With nonnegative members the period return lies between any bounds of the member returns. */
  lemma {:induction false} ContributionBounds(members: seq<Fact>, assets: real, low: real, high: real)
    requires assets > 0.0
    requires forall f :: f in members ==> f.beginningMv >= 0.0 && low <= f.returnValue <= high
    ensures low * SumBy(members, MemberWeight(assets)) <= SumBy(members, MemberContribution(assets))
         <= high * SumBy(members, MemberWeight(assets))
  {
    hide SumBy;
    SumByUnfolded(members, MemberWeight(assets));
    SumByUnfolded(members, MemberContribution(assets));
    if members != [] {
      ContributionBounds(members[1..], assets, low, high);
      assert members[0] in members;
      var w := members[0].beginningMv / assets;
      WeightedBetween(low, members[0].returnValue, high, w);
      Distribute(low, w, SumBy(members[1..], MemberWeight(assets)), SumBy(members, MemberWeight(assets)));
      Distribute(high, w, SumBy(members[1..], MemberWeight(assets)), SumBy(members, MemberWeight(assets)));
    } else {
      assert low * 0.0 == 0.0 && high * 0.0 == 0.0;
    }
  }

  lemma {:induction false} WeightedBetween(low: real, x: real, high: real, w: real)
    requires low <= x <= high && w >= 0.0
    ensures low * w <= x * w <= high * w
  {
    MulMonotone(low, x, w);
    MulMonotone(x, high, w);
  }

  lemma {:induction false} PeriodReturnBetweenMembers(facts: seq<Fact>, low: real, high: real)
    requires !OutcomeOf(facts).status.Blocked?
    requires forall f :: f in ReadyFacts(facts) ==> f.beginningMv >= 0.0 && low <= f.returnValue <= high
    ensures low <= OutcomeOf(facts).weightedReturn <= high
  {
    var ready := ReadyFacts(facts);
    var assets := SumBy(ready, BeginningMv);
    WeightsSumToOne(ready);
    ContributionBounds(ready, assets, low, high);
  }

  // ---------------------------------------------------------------- what a period reports

  function WeightedMember(f: Fact): real { f.returnValue * f.beginningMv }

  /** The weighted return times the assets is the sum of the member returns times their own assets. */
  lemma {:induction false} AssetWeighting(ready: seq<Fact>)
    requires SumBy(ready, BeginningMv) != 0.0
    ensures SumBy(ready, MemberContribution(SumBy(ready, BeginningMv))) * SumBy(ready, BeginningMv)
         == SumBy(ready, WeightedMember)
  {
    hide SumBy;
    var assets := SumBy(ready, BeginningMv);
    forall f: Fact ensures MemberContribution(assets)(f) == (1.0 / assets) * WeightedMember(f) {
      ShareOfAssets(f.returnValue, f.beginningMv, assets);
    }
    SumByScaled(ready, MemberContribution(assets), 1.0 / assets, WeightedMember);
    assert (1.0 / assets) * SumBy(ready, WeightedMember) * assets == SumBy(ready, WeightedMember);
  }

  lemma {:induction false} ShareOfAssets(r: real, v: real, assets: real)
    requires assets != 0.0
    ensures r * (v / assets) == (1.0 / assets) * (r * v)
  {
    assert v / assets == (1.0 / assets) * v;
  }

  /** Why a period is blocked, in the order the policies are asked. */
  lemma {:induction false} BlockMeans(facts: seq<Fact>)
    ensures OutcomeOf(facts).status == Blocked(NoReadyMemberReturnFacts) <==> forall f :: f in facts ==> !f.ready
    ensures OutcomeOf(facts).status == Blocked(NonpositiveBeginningAssets) <==>
      (exists f :: f in facts && f.ready) && SumBy(ReadyFacts(facts), BeginningMv) <= 0.0
    ensures OutcomeOf(facts).status == Blocked(MixedMemberReturnViews) <==>
      SumBy(ReadyFacts(facts), BeginningMv) > 0.0 && Differ(facts, (f: Fact) => f.returnView)
    ensures OutcomeOf(facts).status == Blocked(MixedMemberReportingCurrencies) <==>
      && SumBy(ReadyFacts(facts), BeginningMv) > 0.0 && !Differ(facts, (f: Fact) => f.returnView)
      && Differ(facts, (f: Fact) => f.reportingCurrency)
  {
    hide SumBy;
    ReadyMembers(facts);
    NoneReady(facts);
    ViewsDiffer(facts);
    CurrenciesDiffer(facts);
  }

  /** Two ready facts differ in the given attribute. */
  predicate Differ(facts: seq<Fact>, attribute: Fact -> string) {
    exists f, g :: f in facts && g in facts && f.ready && g.ready && attribute(f) != attribute(g)
  }

  lemma {:induction false} ReadyMembers(facts: seq<Fact>)
    ensures forall f :: f in ReadyFacts(facts) <==> f in facts && f.ready
    ensures forall f :: f in ExcludedFacts(facts) <==> f in facts && !f.ready
  {
    if facts != [] {
      ReadyMembers(facts[1..]);
    }
  }

  lemma {:induction false} NoneReady(facts: seq<Fact>)
    ensures ReadyFacts(facts) == [] ==> SumBy(ReadyFacts(facts), BeginningMv) == 0.0
    ensures ReadyFacts(facts) == [] <==> forall f :: f in facts ==> !f.ready
  {
    ReadyMembers(facts);
    if ReadyFacts(facts) != [] {
      assert ReadyFacts(facts)[0] in ReadyFacts(facts);
    }
  }

  lemma {:induction false} ManyIffTwo(s: set<string>)
    ensures |s| > 1 <==> exists x, y :: x in s && y in s && x != y
  {
    if |s| > 1 {
      var x :| x in s;
      assert |s - {x}| > 0;
      var y :| y in s - {x};
      assert x in s && y in s && x != y;
    }
    if exists x, y :: x in s && y in s && x != y {
      var x, y :| x in s && y in s && x != y;
      assert {x, y} <= s;
      SubsetSmaller({x, y}, s);
    }
  }

  lemma {:induction false} SubsetSmaller(a: set<string>, b: set<string>)
    requires a <= b
    ensures |a| <= |b|
  {
    assert b == a + (b - a);
  }

  lemma {:induction false} ViewsDiffer(facts: seq<Fact>)
    ensures |Views(ReadyFacts(facts))| > 1 <==> Differ(facts, (f: Fact) => f.returnView)
  {
    var view := (f: Fact) => f.returnView;
    var views := Views(ReadyFacts(facts));
    ReadyMembers(facts);
    ManyIffTwo(views);
    if |views| > 1 {
      var x, y :| x in views && y in views && x != y;
      var f :| f in ReadyFacts(facts) && f.returnView == x;
      var g :| g in ReadyFacts(facts) && g.returnView == y;
      assert view(f) != view(g);
    }
    if Differ(facts, view) {
      var f, g :| f in facts && g in facts && f.ready && g.ready && view(f) != view(g);
      assert f.returnView in views && g.returnView in views;
    }
  }

  lemma {:induction false} CurrenciesDiffer(facts: seq<Fact>)
    ensures |Currencies(ReadyFacts(facts))| > 1 <==> Differ(facts, (f: Fact) => f.reportingCurrency)
  {
    var currency := (f: Fact) => f.reportingCurrency;
    var currencies := Currencies(ReadyFacts(facts));
    ReadyMembers(facts);
    ManyIffTwo(currencies);
    if |currencies| > 1 {
      var x, y :| x in currencies && y in currencies && x != y;
      var f :| f in ReadyFacts(facts) && f.reportingCurrency == x;
      var g :| g in ReadyFacts(facts) && g.reportingCurrency == y;
      assert currency(f) != currency(g);
    }
    if Differ(facts, currency) {
      var f, g :| f in facts && g in facts && f.ready && g.ready && currency(f) != currency(g);
      assert f.reportingCurrency in currencies && g.reportingCurrency in currencies;
    }
  }

  lemma {:induction false} ResultAt(facts: seq<Fact>, id: string, periods: seq<(int, int)>, k: nat)
    requires k < |periods|
    ensures PeriodResults(facts, id, periods)[k]
         == ResultOfPeriod(periods[k], PeriodOutcome(facts, id, periods[k]), GrowthAfter(facts, id, periods[..k + 1]))
  {
    hide ResultOfPeriod, PeriodOutcome, GrowthAfter;
    var n := |periods| - 1;
    if k < n {
      ResultAt(facts, id, periods[..n], k);
      assert periods[..n][..k + 1] == periods[..k + 1];
    } else {
      assert periods[..k + 1] == periods;
    }
  }

  /** What each period reports: its counts, and unless it is blocked its own asset-weighted return and the growth so far
      less one, both rounded to 12 places. */
  lemma {:induction false} PeriodReports(facts: seq<Fact>, id: string, periods: seq<(int, int)>, k: nat) returns (x: real)
    requires k < |periods|
    ensures var r, own := PeriodResults(facts, id, periods)[k], PeriodFacts(facts, id, periods[k]);
      && r.period == periods[k] && r.status == OutcomeOf(own).status
      && r.memberCount == |ReadyFacts(own)| && r.excludedCount == |ExcludedFacts(own)|
      && (r.status.Blocked? ==> r.returnValue == None && r.cumulativeReturn == None)
      && (!r.status.Blocked? ==>
            && x * SumBy(ReadyFacts(own), BeginningMv) == SumBy(ReadyFacts(own), WeightedMember)
            && SumBy(ReadyFacts(own), BeginningMv) > 0.0
            && r.returnValue == Some(Quantize(x, 12))
            && r.cumulativeReturn == Some(Quantize(GrowthAfter(facts, id, periods[..k + 1]) - 1.0, 12))
            && GrowthAfter(facts, id, periods[..k + 1]) == GrowthAfter(facts, id, periods[..k]) * (1.0 + x))
      && (r.status == Ready <==> !r.status.Blocked? && forall f :: f in own ==> f.ready)
  {
    hide SumBy, Quantize, PeriodResults, GrowthAfter, ReadyFacts, ExcludedFacts, PeriodFacts;
    var own := PeriodFacts(facts, id, periods[k]);
    ResultAt(facts, id, periods, k);
    NextPeriod(facts, id, periods, k);
    ReadyMembers(own);
    if !OutcomeOf(own).status.Blocked? {
      AssetWeighting(ReadyFacts(own));
    }
    if ExcludedFacts(own) != [] {
      assert ExcludedFacts(own)[0] in ExcludedFacts(own);
    }
    x := OutcomeOf(own).weightedReturn;
  }

  /** A composite is ready when it has periods and all are, degraded when some but not all are calculated in full,
      and blocked when none is calculated. */
  lemma {:induction false} CompositeStatusMeans(results: seq<PeriodResult>)
    ensures StatusOf(results) == CompositeBlocked <==> forall r :: r in results ==> r.status.Blocked?
    ensures StatusOf(results) == CompositeReady <==> results != [] && forall r :: r in results ==> r.status == Ready
  {
    if results != [] {
      assert results[0] in results;
    }
  }

  // ---------------------------------------------------------------- independence of order and of other composites

  lemma {:induction false} ReadyCounts(facts: seq<Fact>, f: Fact)
    ensures multiset(ReadyFacts(facts))[f] == if f.ready then multiset(facts)[f] else 0
  {
    if facts != [] {
      ReadyCounts(facts[1..], f);
      assert facts == [facts[0]] + facts[1..];
    }
  }

  lemma {:induction false} ExcludedCounts(facts: seq<Fact>, f: Fact)
    ensures multiset(ExcludedFacts(facts))[f] == if f.ready then 0 else multiset(facts)[f]
  {
    if facts != [] {
      ExcludedCounts(facts[1..], f);
      assert facts == [facts[0]] + facts[1..];
    }
  }

  lemma {:induction false} PeriodCounts(facts: seq<Fact>, id: string, period: (int, int), f: Fact)
    ensures multiset(PeriodFacts(facts, id, period))[f] == if InPeriod(f, id, period) then multiset(facts)[f] else 0
  {
    if facts != [] {
      PeriodCounts(facts[1..], id, period, f);
      assert facts == [facts[0]] + facts[1..];
    }
  }

  lemma {:induction false} SameMultisetSameSets(a: seq<Fact>, b: seq<Fact>)
    requires multiset(a) == multiset(b)
    ensures Views(a) == Views(b) && Currencies(a) == Currencies(b) && |a| == |b|
  {
    assert forall f :: f in a <==> f in multiset(a);
    assert forall f :: f in b <==> f in multiset(b);
    assert |multiset(a)| == |a| && |multiset(b)| == |b|;
  }

  /** The outcome of a period depends on the multiset of its facts only. */
  lemma {:induction false} OutcomeIgnoresOrder(a: seq<Fact>, b: seq<Fact>)
    requires multiset(a) == multiset(b)
    ensures OutcomeOf(a) == OutcomeOf(b)
  {
    forall f ensures multiset(ReadyFacts(a))[f] == multiset(ReadyFacts(b))[f]
      ensures multiset(ExcludedFacts(a))[f] == multiset(ExcludedFacts(b))[f]
    {
      ReadyCounts(a, f);
      ReadyCounts(b, f);
      ExcludedCounts(a, f);
      ExcludedCounts(b, f);
    }
    assert multiset(ReadyFacts(a)) == multiset(ReadyFacts(b));
    assert multiset(ExcludedFacts(a)) == multiset(ExcludedFacts(b));
    SameMultisetSameSets(ReadyFacts(a), ReadyFacts(b));
    SameMultisetSameSets(ExcludedFacts(a), ExcludedFacts(b));
    SumByPermutation(ReadyFacts(a), ReadyFacts(b), BeginningMv);
    if BlockOf(ReadyFacts(a)) == None {
      SumByPermutation(ReadyFacts(a), ReadyFacts(b), MemberContribution(SumBy(ReadyFacts(a), BeginningMv)));
    }
  }

  /** Two inputs that hold the same facts of the composite, in any order and among any other facts. */
  ghost predicate SameCompositeFacts(a: seq<Fact>, b: seq<Fact>, id: string) {
    forall f: Fact :: f.compositeId == id ==> multiset(a)[f] == multiset(b)[f]
  }

  lemma {:induction false} PeriodFactsAgree(a: seq<Fact>, b: seq<Fact>, id: string, period: (int, int))
    requires SameCompositeFacts(a, b, id)
    ensures multiset(PeriodFacts(a, id, period)) == multiset(PeriodFacts(b, id, period))
  {
    forall f: Fact
      ensures multiset(PeriodFacts(a, id, period))[f] == multiset(PeriodFacts(b, id, period))[f]
    {
      PeriodCounts(a, id, period, f);
      PeriodCounts(b, id, period, f);
    }
  }

  lemma {:induction false} ResultsAgree(a: seq<Fact>, b: seq<Fact>, id: string, periods: seq<(int, int)>)
    requires SameCompositeFacts(a, b, id)
    ensures GrowthAfter(a, id, periods) == GrowthAfter(b, id, periods)
    ensures PeriodResults(a, id, periods) == PeriodResults(b, id, periods)
  {
    hide SameCompositeFacts, Quantize, OutcomeOf, PeriodFacts;
    if periods != [] {
      var n := |periods| - 1;
      ResultsAgree(a, b, id, periods[..n]);
      PeriodFactsAgree(a, b, id, periods[n]);
      OutcomeIgnoresOrder(PeriodFacts(a, id, periods[n]), PeriodFacts(b, id, periods[n]));
    }
  }

  lemma {:induction false} FirstIsMember(q: seq<(int, int)>)
    ensures q != [] ==> q[0] in q
  {
  }

  lemma {:induction false} OrderedUnique(p: seq<(int, int)>, q: seq<(int, int)>)
    requires Ordered(p) && Ordered(q) && forall x :: x in p <==> x in q
    ensures p == q
    decreases |p|
  {
    if p == [] {
      FirstIsMember(q);
    } else {
      assert p[0] in q;
      assert q[0] in p;
      assert p[0] == q[0];
      forall x ensures x in p[1..] <==> x in q[1..] {
        assert x in p <==> x == p[0] || x in p[1..];
        assert x in q <==> x == q[0] || x in q[1..];
      }
      OrderedUnique(p[1..], q[1..]);
      assert p == [p[0]] + p[1..] && q == [q[0]] + q[1..];
    }
  }

  /** Facts of other composites and the order of the input change no period and no result. */
  lemma {:induction false} CompositeIgnoresOrderAndOthers(a: seq<Fact>, b: seq<Fact>, id: string, p: seq<(int, int)>, q: seq<(int, int)>)
    requires SameCompositeFacts(a, b, id) && PeriodsOf(a, id, p) && PeriodsOf(b, id, q)
    ensures p == q && PeriodResults(a, id, p) == PeriodResults(b, id, q)
  {
    hide SameCompositeFacts, PeriodFacts;
    forall x ensures x in p <==> x in q {
      PeriodFactsAgree(a, b, id, x);
      assert |multiset(PeriodFacts(a, id, x))| == |PeriodFacts(a, id, x)|;
      assert |multiset(PeriodFacts(b, id, x))| == |PeriodFacts(b, id, x)|;
    }
    OrderedUnique(p, q);
    ResultsAgree(a, b, id, p);
  }
}
