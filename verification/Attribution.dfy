/** Brinson attribution: single-period effects, top-down linking and hierarchy levels. */
module Attribution {
  import opened Wrappers
  import opened RealArithmetic
  import opened Calculus
  import opened Sums

  datatype Model = BrinsonFachler | BrinsonHoodBeebower

  datatype LinkingMethod = NoLinking | TopDown

  datatype LinkingStatus = NotRequested | InvalidReturnChain | ScalingSkipped | Linked

  /** One aligned group of one period. Keys are the group_by values; None is a missing value. */
  datatype Observation = Observation(
    date: int,
    keys: seq<Option<string>>,
    wp: real,
    wb: real,
    rp: real,
    rb: real)

  datatype EffectRow = EffectRow(
    obs: Observation,
    rbTotal: real,
    allocation: real,
    selection: real,
    interaction: real)

  function DateKey(o: Observation): Option<int> { Some(o.date) }
  function BenchmarkPart(o: Observation): real { o.wb * o.rb }
  function PortfolioPart(o: Observation): real { o.wp * o.rp }
  function PortfolioWeight(o: Observation): real { o.wp }
  function BenchmarkWeight(o: Observation): real { o.wb }

  function PeriodOf(obs: seq<Observation>, date: int): seq<Observation> {
    Group(obs, DateKey, date)
  }

  /** Benchmark return of a period, over its groups. */
  function BenchmarkReturn(obs: seq<Observation>, date: int): real {
    SumBy(PeriodOf(obs, date), BenchmarkPart)
  }

  function PortfolioReturn(obs: seq<Observation>, date: int): real {
    SumBy(PeriodOf(obs, date), PortfolioPart)
  }

  function ActiveReturn(obs: seq<Observation>, date: int): real {
    PortfolioReturn(obs, date) - BenchmarkReturn(obs, date)
  }

  function Effects(o: Observation, rbTotal: real, model: Model): EffectRow {
    match model
    case BrinsonFachler =>
      EffectRow(o, rbTotal, (o.wp - o.wb) * (o.rb - rbTotal), o.wb * (o.rp - o.rb), (o.wp - o.wb) * (o.rp - o.rb))
    case BrinsonHoodBeebower =>
      EffectRow(o, rbTotal, (o.wp - o.wb) * o.rb, o.wp * (o.rp - o.rb), 0.0)
  }

  function TotalEffect(e: EffectRow): real { e.allocation + e.selection + e.interaction }

  /** The effects frame, whose effect columns are assigned in place. */
  class EffectsFrame {
    var rows: seq<EffectRow>

    constructor (obs: seq<Observation>)
      ensures |rows| == |obs|
      ensures forall i :: 0 <= i < |obs| ==>
        rows[i] == EffectRow(obs[i], BenchmarkReturn(obs, obs[i].date), 0.0, 0.0, 0.0)
    {
      rows := seq(|obs|, i requires 0 <= i < |obs| =>
        EffectRow(obs[i], BenchmarkReturn(obs, obs[i].date), 0.0, 0.0, 0.0));
    }

    method CalculateSinglePeriodEffects(model: Model)
      modifies this
      ensures |rows| == |old(rows)|
      ensures forall i :: 0 <= i < |rows| ==> rows[i] == Effects(old(rows)[i].obs, old(rows)[i].rbTotal, model)
    {
      for k := 0 to |rows|
        invariant |rows| == |old(rows)|
        invariant forall i :: 0 <= i < k ==> rows[i] == Effects(old(rows)[i].obs, old(rows)[i].rbTotal, model)
        invariant forall i :: k <= i < |rows| ==> rows[i] == old(rows)[i]
      {
        rows := rows[k := Effects(rows[k].obs, rows[k].rbTotal, model)];
      }
    }

    /** Multiplies the effect columns by the linking factor. */
    method Scale(factor: real)
      modifies this
      ensures |rows| == |old(rows)|
      ensures forall i :: 0 <= i < |rows| ==> rows[i] == Scaled(old(rows)[i], factor)
    {
      for k := 0 to |rows|
        invariant |rows| == |old(rows)|
        invariant forall i :: 0 <= i < k ==> rows[i] == Scaled(old(rows)[i], factor)
        invariant forall i :: k <= i < |rows| ==> rows[i] == old(rows)[i]
      {
        rows := rows[k := Scaled(rows[k], factor)];
      }
    }
  }

  function Scaled(e: EffectRow, factor: real): EffectRow {
    e.(allocation := e.allocation * factor, selection := e.selection * factor, interaction := e.interaction * factor)
  }

  /** Rows of the effects of a model over the observations of a panel. */
  ghost predicate EffectsOf(rows: seq<EffectRow>, obs: seq<Observation>, model: Model) {
    |rows| == |obs| && forall i :: 0 <= i < |obs| ==>
      rows[i] == Effects(obs[i], BenchmarkReturn(obs, obs[i].date), model)
  }

  // ---------------------------------------------------------------- one period reconciles

  function EffectIn(rbTotal: real, model: Model): Observation -> real {
    (o: Observation) => TotalEffect(Effects(o, rbTotal, model))
  }

  lemma {:induction false} EffectAlgebra(o: Observation, rbTotal: real)
    ensures TotalEffect(Effects(o, rbTotal, BrinsonHoodBeebower)) == o.wp * o.rp - o.wb * o.rb
    ensures TotalEffect(Effects(o, rbTotal, BrinsonFachler))
         == (o.wp * o.rp - o.wb * o.rb) - rbTotal * (o.wp - o.wb)
  {
    var d := o.wp - o.wb;
    assert d * (o.rb - rbTotal) == d * o.rb - rbTotal * d;
    assert d * o.rb == o.wp * o.rb - o.wb * o.rb;
    assert d * (o.rp - o.rb) == d * o.rp - d * o.rb;
    assert d * o.rp == o.wp * o.rp - o.wb * o.rp;
  }

  function ActivePart(o: Observation): real { o.wp * o.rp - o.wb * o.rb }
  function WeightGap(o: Observation): real { o.wp - o.wb }

  lemma {:induction false} ActiveAndGapSums(period: seq<Observation>)
    ensures SumBy(period, ActivePart) == SumBy(period, PortfolioPart) - SumBy(period, BenchmarkPart)
    ensures SumBy(period, WeightGap) == SumBy(period, PortfolioWeight) - SumBy(period, BenchmarkWeight)
  {
    hide SumBy;
    SumByLinear(period, ActivePart, 1.0, PortfolioPart, -1.0, BenchmarkPart);
    SumByLinear(period, WeightGap, 1.0, PortfolioWeight, -1.0, BenchmarkWeight);
  }

  /** BHB effects add up to the active return of their period; BF effects fall short of it by the benchmark
      return times the difference of the weight totals, so they are exact when the totals agree. */
  lemma {:induction false} PeriodEffectsReconcile(obs: seq<Observation>, date: int, model: Model)
    ensures var rb := BenchmarkReturn(obs, date);
            var period := PeriodOf(obs, date);
            SumBy(period, EffectIn(rb, model)) == ActiveReturn(obs, date)
              - if model == BrinsonFachler
                then rb * (SumBy(period, PortfolioWeight) - SumBy(period, BenchmarkWeight)) else 0.0
  {
    hide SumBy, Effects, TotalEffect;
    var rb, period := BenchmarkReturn(obs, date), PeriodOf(obs, date);
    ActiveAndGapSums(period);
    forall o: Observation
      ensures EffectIn(rb, BrinsonHoodBeebower)(o) == ActivePart(o)
      ensures EffectIn(rb, BrinsonFachler)(o) == 1.0 * ActivePart(o) + (-rb) * WeightGap(o)
    {
      EffectAlgebra(o, rb);
    }
    if model == BrinsonFachler {
      SumByLinear(period, EffectIn(rb, model), 1.0, ActivePart, -rb, WeightGap);
    } else {
      SumByEqual(period, EffectIn(rb, model), ActivePart);
    }
  }

  // ---------------------------------------------------------------- all periods

  function Periods(obs: seq<Observation>): seq<int> { KeysOf(obs, DateKey) }

  function ArithmeticActive(obs: seq<Observation>, dates: seq<int>): real {
    if dates == [] then 0.0 else ActiveReturn(obs, dates[0]) + ArithmeticActive(obs, dates[1..])
  }

  function ActiveScale(obs: seq<Observation>, dates: seq<int>): real {
    if dates == [] then 0.0 else Abs(ActiveReturn(obs, dates[0])) + ActiveScale(obs, dates[1..])
  }

  function PortfolioGrowth(obs: seq<Observation>, dates: seq<int>): real {
    if dates == [] then 1.0 else (1.0 + PortfolioReturn(obs, dates[0])) * PortfolioGrowth(obs, dates[1..])
  }

  function BenchmarkGrowth(obs: seq<Observation>, dates: seq<int>): real {
    if dates == [] then 1.0 else (1.0 + BenchmarkReturn(obs, dates[0])) * BenchmarkGrowth(obs, dates[1..])
  }

  function GeometricActive(obs: seq<Observation>): real {
    PortfolioGrowth(obs, Periods(obs)) - 1.0 - (BenchmarkGrowth(obs, Periods(obs)) - 1.0)
  }

  /** Square root of the float64 machine epsilon. */
  const LINKING_TOLERANCE: real := 1.0 / 67108864.0

  predicate IllConditioned(arithmetic: real, scale: real) {
    arithmetic == 0.0 || Abs(arithmetic) <= LINKING_TOLERANCE * Abs(scale)
  }

  predicate InvalidChain(obs: seq<Observation>) {
    var dates := Periods(obs);
    exists i :: 0 <= i < |dates| && (PortfolioReturn(obs, dates[i]) <= -1.0 || BenchmarkReturn(obs, dates[i]) <= -1.0)
  }

  function Status(obs: seq<Observation>, linking: LinkingMethod): LinkingStatus {
    if linking == NoLinking then NotRequested
    else if InvalidChain(obs) then InvalidReturnChain
    else if IllConditioned(ArithmeticActive(obs, Periods(obs)), ActiveScale(obs, Periods(obs))) then ScalingSkipped
    else Linked
  }

  /** The active return the effects are reconciled with. */
  function ReportedActive(obs: seq<Observation>, linking: LinkingMethod): real {
    match Status(obs, linking)
    case NotRequested | InvalidReturnChain => ArithmeticActive(obs, Periods(obs))
    case ScalingSkipped | Linked => GeometricActive(obs)
  }

  function LinkFactor(obs: seq<Observation>): real
    requires ArithmeticActive(obs, Periods(obs)) != 0.0
  {
    GeometricActive(obs) / ArithmeticActive(obs, Periods(obs))
  }

  /** Linked effects: every row scaled by the geometric over the arithmetic active return. */
  ghost predicate LinkedRows(rows: seq<EffectRow>, obs: seq<Observation>, model: Model)
    requires ArithmeticActive(obs, Periods(obs)) != 0.0
  {
    |rows| == |obs| && forall i :: 0 <= i < |obs| ==>
      rows[i] == Scaled(Effects(obs[i], BenchmarkReturn(obs, obs[i].date), model), LinkFactor(obs))
  }

  /** The effects an aggregation starts from: linked ones if the status says so, else those of the periods. */
  ghost predicate AggregatedRows(rows: seq<EffectRow>, obs: seq<Observation>, model: Model, linking: LinkingMethod) {
    if Status(obs, linking) == Linked then LinkedRows(rows, obs, model)
    else EffectsOf(rows, obs, model)
  }

  /** Effects of the panel, scaled when the linking status says so. */
  method BuildAggregationBase(obs: seq<Observation>, model: Model, linking: LinkingMethod)
    returns (rows: seq<EffectRow>, status: LinkingStatus, active: real)
    ensures status == Status(obs, linking) && active == ReportedActive(obs, linking)
    ensures AggregatedRows(rows, obs, model, linking)
  {
    var frame := new EffectsFrame(obs);
    frame.CalculateSinglePeriodEffects(model);
    status := Status(obs, linking);
    active := ReportedActive(obs, linking);
    if status == Linked {
      frame.Scale(LinkFactor(obs));
    }
    rows := frame.rows;
  }

  // ---------------------------------------------------------------- reconciliation over all periods

  /** What the BF effects miss of the arithmetic active return; nothing for BHB. */
  function WeightResidual(obs: seq<Observation>, dates: seq<int>, model: Model): real {
    if dates == [] then 0.0
    else PeriodResidual(obs, dates[0], model) + WeightResidual(obs, dates[1..], model)
  }

  function PeriodResidual(obs: seq<Observation>, date: int, model: Model): real {
    var period := PeriodOf(obs, date);
    if model == BrinsonFachler
    then BenchmarkReturn(obs, date) * (SumBy(period, PortfolioWeight) - SumBy(period, BenchmarkWeight)) else 0.0
  }

  function EffectAt(obs: seq<Observation>, model: Model): Observation -> real {
    (o: Observation) => TotalEffect(Effects(o, BenchmarkReturn(obs, o.date), model))
  }

  lemma {:induction false} PeriodEffectSum(obs: seq<Observation>, date: int, model: Model)
    ensures SumBy(Group(obs, DateKey, date), EffectAt(obs, model))
         == ActiveReturn(obs, date) - PeriodResidual(obs, date, model)
  {
    PeriodEffectsReconcile(obs, date, model);
    hide SumBy, Effects, TotalEffect;
    SumByEqual(PeriodOf(obs, date), EffectAt(obs, model), EffectIn(BenchmarkReturn(obs, date), model));
  }

  lemma {:induction false} PeriodsAddUp(obs: seq<Observation>, dates: seq<int>, model: Model)
    ensures SumOfGroups(dates, obs, DateKey, EffectAt(obs, model))
         == ArithmeticActive(obs, dates) - WeightResidual(obs, dates, model)
  {
    hide SumBy, Effects, TotalEffect, Group, ActiveReturn, PeriodResidual;
    if dates != [] {
      PeriodsAddUp(obs, dates[1..], model);
      PeriodEffectSum(obs, dates[0], model);
    }
  }

  /** The effects of all periods add up to the arithmetic active return less the weight residual. */
  lemma {:induction false} EffectsReconcile(rows: seq<EffectRow>, obs: seq<Observation>, model: Model)
    requires EffectsOf(rows, obs, model)
    ensures SumBy(rows, TotalEffect)
         == ArithmeticActive(obs, Periods(obs)) - WeightResidual(obs, Periods(obs), model)
  {
    hide SumBy, Effects, TotalEffect, Group, WeightResidual, ArithmeticActive;
    SumByPointwise(rows, TotalEffect, obs, EffectAt(obs, model));
    GroupsCoverKeyed(Periods(obs), obs, DateKey, EffectAt(obs, model));
    AllKeyed(obs, DateKey);
    PeriodsAddUp(obs, Periods(obs), model);
  }

  /** Linking multiplies the total effect, and with it the residual, by the geometric over the arithmetic
      active return: the linked effects miss the geometric active return by the scaled weight residual. */
  lemma {:induction false} LinkingScalesResidual(linked: seq<EffectRow>, obs: seq<Observation>, model: Model)
    requires ArithmeticActive(obs, Periods(obs)) != 0.0 && LinkedRows(linked, obs, model)
    ensures GeometricActive(obs) - SumBy(linked, TotalEffect)
         == LinkFactor(obs) * WeightResidual(obs, Periods(obs), model)
  {
    hide SumBy, Effects, WeightResidual, ArithmeticActive, GeometricActive, BenchmarkReturn, Periods;
    var rows := seq(|obs|, i requires 0 <= i < |obs| => Effects(obs[i], BenchmarkReturn(obs, obs[i].date), model));
    EffectsReconcile(rows, obs, model);
    ScaledSum(linked, rows, LinkFactor(obs));
    FactorAlgebra(GeometricActive(obs), ArithmeticActive(obs, Periods(obs)), LinkFactor(obs),
                  WeightResidual(obs, Periods(obs), model), SumBy(rows, TotalEffect));
  }

  lemma {:induction false} ScaledSum(linked: seq<EffectRow>, rows: seq<EffectRow>, f: real)
    requires |linked| == |rows| && forall i :: 0 <= i < |rows| ==> linked[i] == Scaled(rows[i], f)
    ensures SumBy(linked, TotalEffect) == f * SumBy(rows, TotalEffect)
  {
    if rows != [] {
      ScaledSum(linked[1..], rows[1..], f);
      ScaledTotalEffect(rows[0], f);
      Distribute(f, TotalEffect(rows[0]), SumBy(rows[1..], TotalEffect), SumBy(rows, TotalEffect));
    }
  }

  lemma {:induction false} ScaledTotalEffect(e: EffectRow, f: real)
    ensures TotalEffect(Scaled(e, f)) == f * TotalEffect(e)
  {
    assert f * (e.allocation + e.selection + e.interaction)
        == e.allocation * f + e.selection * f + e.interaction * f;
  }

  lemma {:induction false} FactorAlgebra(g: real, a: real, f: real, w: real, total: real)
    requires a != 0.0 && f == g / a && total == a - w
    ensures g - f * total == f * w
  {
    assert f * a == g;
    assert f * total == f * a - f * w;
  }

  predicate WeightTotalsAgree(obs: seq<Observation>, dates: seq<int>) {
    forall i :: 0 <= i < |dates| ==>
      SumBy(PeriodOf(obs, dates[i]), PortfolioWeight) == SumBy(PeriodOf(obs, dates[i]), BenchmarkWeight)
  }

  lemma {:induction false} NoWeightResidual(obs: seq<Observation>, dates: seq<int>, model: Model)
    requires model == BrinsonHoodBeebower || WeightTotalsAgree(obs, dates)
    ensures WeightResidual(obs, dates, model) == 0.0
  {
    hide SumBy, Group, BenchmarkReturn, PeriodOf;
    if dates != [] {
      if model == BrinsonFachler {
        assert forall i :: 0 <= i < |dates| - 1 ==> dates[1..][i] == dates[i + 1];
        ZeroGap(BenchmarkReturn(obs, dates[0]), SumBy(PeriodOf(obs, dates[0]), PortfolioWeight),
                SumBy(PeriodOf(obs, dates[0]), BenchmarkWeight));
      }
      NoWeightResidual(obs, dates[1..], model);
    }
  }

  lemma {:induction false} ZeroGap(r: real, a: real, b: real)
    requires a == b
    ensures r * (a - b) == 0.0
  {
  }

  /** Linked BHB effects, and linked BF effects under agreeing weight totals, add up to the geometric active
      return without residual. */
  lemma {:induction false} LinkedEffectsExact(linked: seq<EffectRow>, obs: seq<Observation>, model: Model)
    requires ArithmeticActive(obs, Periods(obs)) != 0.0 && LinkedRows(linked, obs, model)
    requires model == BrinsonHoodBeebower || WeightTotalsAgree(obs, Periods(obs))
    ensures SumBy(linked, TotalEffect) == GeometricActive(obs)
  {
    LinkingScalesResidual(linked, obs, model);
    NoWeightResidual(obs, Periods(obs), model);
  }

  /** Linked effects are exact if and only if there was no weight residual to scale or the geometric active
      return is zero. */
  lemma {:induction false} LinkedExactIff(linked: seq<EffectRow>, obs: seq<Observation>, model: Model)
    requires ArithmeticActive(obs, Periods(obs)) != 0.0 && LinkedRows(linked, obs, model)
    ensures SumBy(linked, TotalEffect) == GeometricActive(obs)
       <==> WeightResidual(obs, Periods(obs), model) == 0.0 || GeometricActive(obs) == 0.0
  {
    hide SumBy, Effects, WeightResidual, ArithmeticActive, GeometricActive, BenchmarkReturn, Periods;
    LinkingScalesResidual(linked, obs, model);
    ZeroProductIff(GeometricActive(obs), ArithmeticActive(obs, Periods(obs)), LinkFactor(obs),
                   WeightResidual(obs, Periods(obs), model));
  }

  lemma {:induction false} ZeroProductIff(g: real, a: real, f: real, w: real)
    requires a != 0.0 && f == g / a
    ensures f * w == 0.0 <==> g == 0.0 || w == 0.0
  {
    assert f * a == g;
    if f != 0.0 && w != 0.0 {
      assert f * w != 0.0;
    }
  }

  /** What the effects miss of the reported active return: the weight residual, scaled when linked; when scaling is
      skipped also the difference between the geometric return reported and the arithmetic return explained. */
  function ReportGap(obs: seq<Observation>, model: Model, linking: LinkingMethod): real {
    var residual := WeightResidual(obs, Periods(obs), model);
    match Status(obs, linking)
    case NotRequested | InvalidReturnChain => residual
    case ScalingSkipped => GeometricActive(obs) - ArithmeticActive(obs, Periods(obs)) + residual
    case Linked => LinkFactor(obs) * residual
  }

  lemma {:induction false} LinkedIsNonzero(obs: seq<Observation>, linking: LinkingMethod)
    ensures Status(obs, linking) == Linked ==> ArithmeticActive(obs, Periods(obs)) != 0.0
  {
  }

  lemma {:induction false} AggregationGap(rows: seq<EffectRow>, obs: seq<Observation>, model: Model, linking: LinkingMethod)
    requires AggregatedRows(rows, obs, model, linking)
    ensures ReportedActive(obs, linking) - SumBy(rows, TotalEffect) == ReportGap(obs, model, linking)
  {
    hide SumBy, WeightResidual, ArithmeticActive, GeometricActive, Periods, Status, LinkedRows, EffectsOf, LinkFactor;
    LinkedIsNonzero(obs, linking);
    if Status(obs, linking) == Linked {
      LinkingScalesResidual(rows, obs, model);
    } else {
      EffectsReconcile(rows, obs, model);
    }
  }

  // ---------------------------------------------------------------- instruments into groups

  /** One instrument on one date with its group values. */
  datatype Instrument = Instrument(date: int, keys: seq<string>, weight: real, ret: real)

  datatype InstrumentGroup = InstrumentGroup(date: int, keys: seq<string>, weight: real, ret: real)

  function InstrumentKey(x: Instrument): Option<(int, seq<string>)> { Some((x.date, x.keys)) }
  function InstrumentWeight(x: Instrument): real { x.weight }
  function WeightedReturn(x: Instrument): real { x.weight * x.ret }
  function GroupWeightedReturn(g: InstrumentGroup): real { g.weight * g.ret }

  /** Weights add up; the group return is the weighted mean, and 0 when the weights cancel. */
  function InstrumentGroupOf(xs: seq<Instrument>, key: (int, seq<string>)): InstrumentGroup {
    var g := Group(xs, InstrumentKey, key);
    var w := SumBy(g, InstrumentWeight);
    InstrumentGroup(key.0, key.1, w, if w != 0.0 then SumBy(g, WeightedReturn) / w else 0.0)
  }

  function InstrumentGroupsFor(xs: seq<Instrument>, keys: seq<(int, seq<string>)>): seq<InstrumentGroup> {
    if keys == [] then [] else [InstrumentGroupOf(xs, keys[0])] + InstrumentGroupsFor(xs, keys[1..])
  }

  function InstrumentGroups(xs: seq<Instrument>): seq<InstrumentGroup> {
    InstrumentGroupsFor(xs, KeysOf(xs, InstrumentKey))
  }

  /** Weighted returns of the groups whose weights cancel. */
  function CancelledReturn(xs: seq<Instrument>, keys: seq<(int, seq<string>)>): real {
    if keys == [] then 0.0
    else
      var g := Group(xs, InstrumentKey, keys[0]);
      (if SumBy(g, InstrumentWeight) == 0.0 then SumBy(g, WeightedReturn) else 0.0) + CancelledReturn(xs, keys[1..])
  }

  lemma {:induction false} GroupedReturnFor(xs: seq<Instrument>, keys: seq<(int, seq<string>)>)
    ensures SumBy(InstrumentGroupsFor(xs, keys), GroupWeightedReturn)
         == SumOfGroups(keys, xs, InstrumentKey, WeightedReturn) - CancelledReturn(xs, keys)
  {
    hide Group;
    if keys != [] {
      GroupedReturnFor(xs, keys[1..]);
      assert InstrumentGroupsFor(xs, keys)[1..] == InstrumentGroupsFor(xs, keys[1..]);
    }
  }

  /** A group keeps the weighted return of its instruments if and only if its weights do not cancel or that
      return is 0 anyway. */
  lemma {:induction false} InstrumentGroupExactIff(xs: seq<Instrument>, key: (int, seq<string>))
    ensures var g := Group(xs, InstrumentKey, key);
            (GroupWeightedReturn(InstrumentGroupOf(xs, key)) == SumBy(g, WeightedReturn))
            <==> (SumBy(g, InstrumentWeight) != 0.0 || SumBy(g, WeightedReturn) == 0.0)
  {
    hide SumBy, Group;
    var g := Group(xs, InstrumentKey, key);
    QuotientTimes(SumBy(g, InstrumentWeight), SumBy(g, WeightedReturn));
  }

  /** A group has its instruments' date, keys and total weight, and a return of 0 when the weights cancel. */
  lemma {:induction false} InstrumentGroupMeans(xs: seq<Instrument>, t: InstrumentGroup)
    requires t in InstrumentGroups(xs)
    ensures var g := Group(xs, InstrumentKey, (t.date, t.keys));
      && g != [] && t.weight == SumBy(g, InstrumentWeight)
      && (if t.weight != 0.0 then t.ret * t.weight == SumBy(g, WeightedReturn) else t.ret == 0.0)
  {
    hide SumBy, Group;
    InstrumentGroupListed(xs, KeysOf(xs, InstrumentKey), t);
    var key := (t.date, t.keys);
    var x :| x in xs && InstrumentKey(x) == Some(key);
    assert x in Group(xs, InstrumentKey, key);
    QuotientTimes(SumBy(Group(xs, InstrumentKey, key), InstrumentWeight), SumBy(Group(xs, InstrumentKey, key), WeightedReturn));
  }

  lemma {:induction false} InstrumentGroupListed(xs: seq<Instrument>, keys: seq<(int, seq<string>)>, t: InstrumentGroup)
    requires t in InstrumentGroupsFor(xs, keys)
    ensures (t.date, t.keys) in keys && t == InstrumentGroupOf(xs, (t.date, t.keys))
  {
    hide SumBy, Group;
    if t != InstrumentGroupOf(xs, keys[0]) {
      InstrumentGroupListed(xs, keys[1..], t);
    } else {
      assert (t.date, t.keys) == keys[0];
    }
  }

  lemma {:induction false} QuotientTimes(w: real, r: real)
    ensures w != 0.0 ==> w * (r / w) == r
    ensures w * 0.0 == 0.0
  {
  }

  /** A long and a short position of the same size in one group: their return of 2.5 % is dropped. */
  lemma {:induction false} CancelledGroupDropsReturn()
    ensures var xs := [Instrument(1, ["A"], 0.5, 0.1), Instrument(1, ["A"], -0.5, 0.05)];
            GroupWeightedReturn(InstrumentGroupOf(xs, (1, ["A"]))) != SumBy(xs, WeightedReturn)
  {
    var x, y := Instrument(1, ["A"], 0.5, 0.1), Instrument(1, ["A"], -0.5, 0.05);
    var xs := [x, y];
    assert xs[1..] == [y] && [y][1..] == [];
    assert Group([y], InstrumentKey, (1, ["A"])) == [y];
    assert Group(xs, InstrumentKey, (1, ["A"])) == xs;
    assert SumBy([y], InstrumentWeight) == -0.5 && SumBy([y], WeightedReturn) == -0.025;
    assert SumBy(xs, InstrumentWeight) == 0.0 && SumBy(xs, WeightedReturn) == 0.025;
  }

  /** Grouping keeps the weighted return of the instruments except in groups whose weights cancel, whose
      return it drops. */
  lemma {:induction false} InstrumentGroupsKeepReturn(xs: seq<Instrument>)
    ensures SumBy(InstrumentGroups(xs), GroupWeightedReturn)
         == SumBy(xs, WeightedReturn) - CancelledReturn(xs, KeysOf(xs, InstrumentKey))
  {
    GroupedReturnFor(xs, KeysOf(xs, InstrumentKey));
    GroupsCoverKeyed(KeysOf(xs, InstrumentKey), xs, InstrumentKey, WeightedReturn);
    AllKeyed(xs, InstrumentKey);
  }
}
