/** Hierarchy levels of linked attribution effects. */
module AttributionLevels {
  import opened Wrappers
  import opened Sums
  import opened GroupKeys
  import opened Attribution

  function FullKey(groupBy: nat): EffectRow -> Option<seq<string>> {
    (e: EffectRow) => Prefix(e.obs.keys, groupBy)
  }

  /** Effect totals of one group. */
  datatype GroupTotal = GroupTotal(key: seq<string>, allocation: real, selection: real, interaction: real)

  datatype Column = Allocation | Selection | Interaction

  function ColumnOf(e: EffectRow, c: Column): real {
    match c case Allocation => e.allocation case Selection => e.selection case Interaction => e.interaction
  }

  function EffectColumn(c: Column): EffectRow -> real {
    (e: EffectRow) => ColumnOf(e, c)
  }

  function TotalColumn(c: Column): GroupTotal -> real {
    (g: GroupTotal) => match c case Allocation => g.allocation case Selection => g.selection case Interaction => g.interaction
  }

  function GranularTotal(rows: seq<EffectRow>, groupBy: nat, key: seq<string>): GroupTotal {
    var g := Group(rows, FullKey(groupBy), key);
    GroupTotal(key, SumBy(g, EffectColumn(Allocation)), SumBy(g, EffectColumn(Selection)), SumBy(g, EffectColumn(Interaction)))
  }

  function GranularFor(rows: seq<EffectRow>, groupBy: nat, keys: seq<seq<string>>): seq<GroupTotal> {
    if keys == [] then [] else [GranularTotal(rows, groupBy, keys[0])] + GranularFor(rows, groupBy, keys[1..])
  }

  /** groupby(group_by) sums of the effect columns; rows with a missing key value are dropped. */
  function GranularTotals(rows: seq<EffectRow>, groupBy: nat): seq<GroupTotal> {
    GranularFor(rows, groupBy, KeysOf(rows, FullKey(groupBy)))
  }

  /** The first n key values of a granular group. */
  function Ancestor(n: nat): GroupTotal -> Option<seq<string>> {
    (g: GroupTotal) => if n <= |g.key| then Some(g.key[..n]) else None
  }

  function LevelGroup(granular: seq<GroupTotal>, n: nat, key: seq<string>): GroupTotal {
    var g := Group(granular, Ancestor(n), key);
    GroupTotal(key, SumBy(g, TotalColumn(Allocation)), SumBy(g, TotalColumn(Selection)), SumBy(g, TotalColumn(Interaction)))
  }

  function LevelFor(granular: seq<GroupTotal>, n: nat, keys: seq<seq<string>>): seq<GroupTotal> {
    if keys == [] then [] else [LevelGroup(granular, n, keys[0])] + LevelFor(granular, n, keys[1..])
  }

  /** What is reported of a group, in percent. */
  datatype GroupResult = GroupResult(key: seq<string>, allocation: real, selection: real, interaction: real,
                                     totalEffect: real)

  function ResultOf(g: GroupTotal): GroupResult {
    GroupResult(g.key, g.allocation * 100.0, g.selection * 100.0, g.interaction * 100.0,
                (g.allocation + g.selection + g.interaction) * 100.0)
  }

  function GroupResults(groups: seq<GroupTotal>): (r: seq<GroupResult>)
    ensures |r| == |groups| && forall i :: 0 <= i < |groups| ==> r[i] == ResultOf(groups[i])
  {
    seq(|groups|, i requires 0 <= i < |groups| => ResultOf(groups[i]))
  }

  datatype Level = Level(groups: seq<GroupResult>, allocation: real, selection: real, interaction: real, totalEffect: real)

  /** Level n groups by the first n keys; its totals are the sums over its groups, in percent. */
  function LevelOf(granular: seq<GroupTotal>, n: nat): Level {
    var groups := LevelFor(granular, n, KeysOf(granular, Ancestor(n)));
    var a, s, i := SumBy(groups, TotalColumn(Allocation)), SumBy(groups, TotalColumn(Selection)),
                   SumBy(groups, TotalColumn(Interaction));
    Level(GroupResults(groups), a * 100.0, s * 100.0, i * 100.0, (a + s + i) * 100.0)
  }

  function Reversed<T>(xs: seq<T>): (r: seq<T>)
    ensures |r| == |xs| && forall i :: 0 <= i < |xs| ==> r[i] == xs[|xs| - 1 - i]
  {
    if xs == [] then [] else Reversed(xs[1..]) + [xs[0]]
  }

  /** Levels are built from the finest to the coarsest and then reversed. */
  method BuildAttributionLevels(granular: seq<GroupTotal>, groupBy: nat) returns (levels: seq<Level>)
    ensures |levels| == groupBy
    ensures forall i :: 0 <= i < groupBy ==> levels[i] == LevelOf(granular, i + 1)
  {
    hide LevelOf;
    levels := [];
    var index := groupBy;
    while index > 0
      invariant 0 <= index <= groupBy && |levels| == groupBy - index
      invariant forall i :: 0 <= i < |levels| ==> levels[i] == LevelOf(granular, groupBy - i)
    {
      levels := levels + [LevelOf(granular, index)];
      index := index - 1;
    }
    levels := Reversed(levels);
  }

  lemma {:induction false} GranularSums(rows: seq<EffectRow>, groupBy: nat, keys: seq<seq<string>>, c: Column)
    ensures SumBy(GranularFor(rows, groupBy, keys), TotalColumn(c))
         == SumOfGroups(keys, rows, FullKey(groupBy), EffectColumn(c))
  {
    if keys != [] {
      GranularSums(rows, groupBy, keys[1..], c);
      assert GranularFor(rows, groupBy, keys)[1..] == GranularFor(rows, groupBy, keys[1..]);
    }
  }

  lemma {:induction false} LevelSums(granular: seq<GroupTotal>, n: nat, keys: seq<seq<string>>, c: Column)
    ensures SumBy(LevelFor(granular, n, keys), TotalColumn(c))
         == SumOfGroups(keys, granular, Ancestor(n), TotalColumn(c))
  {
    if keys != [] {
      LevelSums(granular, n, keys[1..], c);
      assert LevelFor(granular, n, keys)[1..] == LevelFor(granular, n, keys[1..]);
    }
  }

  lemma {:induction false} PrefixLength(keys: seq<Option<string>>, n: nat)
    ensures Prefix(keys, n).Some? ==> |Prefix(keys, n).value| == n
    decreases n
  {
    if n > 0 && keys != [] {
      PrefixLength(keys[1..], n - 1);
    }
  }

  lemma {:induction false} GranularKeyLengths(rows: seq<EffectRow>, groupBy: nat, keys: seq<seq<string>>)
    requires forall k :: k in keys ==> |k| == groupBy
    ensures forall g :: g in GranularFor(rows, groupBy, keys) ==> |g.key| == groupBy
  {
    if keys != [] {
      GranularKeyLengths(rows, groupBy, keys[1..]);
    }
  }

  lemma {:induction false} GranularKeysFull(rows: seq<EffectRow>, groupBy: nat)
    ensures forall g :: g in GranularTotals(rows, groupBy) ==> |g.key| == groupBy
  {
    forall k | k in KeysOf(rows, FullKey(groupBy)) ensures |k| == groupBy {
      var e :| e in rows && FullKey(groupBy)(e) == Some(k);
      PrefixLength(e.obs.keys, groupBy);
    }
    GranularKeyLengths(rows, groupBy, KeysOf(rows, FullKey(groupBy)));
  }

  function LevelTotal(granular: seq<GroupTotal>, n: nat, c: Column): real {
    SumBy(LevelFor(granular, n, KeysOf(granular, Ancestor(n))), TotalColumn(c))
  }

  /** The column totals of the groups of any level are those of the rows whose keys are all present. */
  lemma {:induction false} LevelColumnTotal(rows: seq<EffectRow>, groupBy: nat, n: nat, c: Column)
    requires n <= groupBy
    ensures LevelTotal(GranularTotals(rows, groupBy), n, c) == SumBy(Keyed(rows, FullKey(groupBy)), EffectColumn(c))
  {
    var granular := GranularTotals(rows, groupBy);
    GranularSums(rows, groupBy, KeysOf(rows, FullKey(groupBy)), c);
    GroupsCoverKeyed(KeysOf(rows, FullKey(groupBy)), rows, FullKey(groupBy), EffectColumn(c));
    GranularKeysFull(rows, groupBy);
    LevelSums(granular, n, KeysOf(granular, Ancestor(n)), c);
    GroupsCoverKeyed(KeysOf(granular, Ancestor(n)), granular, Ancestor(n), TotalColumn(c));
    AllKeyed(granular, Ancestor(n));
  }

  /** Every hierarchy level reports the same totals, and without missing keys they are the totals of all
      effects, in percent. */
  lemma {:induction false} LevelsShareTotals(rows: seq<EffectRow>, groupBy: nat, n: nat)
    requires 1 <= n <= groupBy
    ensures var granular := GranularTotals(rows, groupBy);
      var level, top := LevelOf(granular, n), LevelOf(granular, 1);
      && level.allocation == top.allocation && level.selection == top.selection
      && level.interaction == top.interaction && level.totalEffect == top.totalEffect
    ensures (forall e :: e in rows ==> FullKey(groupBy)(e).Some?) ==>
      LevelOf(GranularTotals(rows, groupBy), n).totalEffect == SumBy(rows, TotalEffect) * 100.0
  {
    hide SumBy, GranularTotals, LevelFor, Keyed, FullKey;
    LevelColumnTotal(rows, groupBy, n, Allocation);
    LevelColumnTotal(rows, groupBy, n, Selection);
    LevelColumnTotal(rows, groupBy, n, Interaction);
    LevelColumnTotal(rows, groupBy, 1, Allocation);
    LevelColumnTotal(rows, groupBy, 1, Selection);
    LevelColumnTotal(rows, groupBy, 1, Interaction);
    if forall e :: e in rows ==> FullKey(groupBy)(e).Some? {
      AllKeyed(rows, FullKey(groupBy));
      ColumnsAddUp(rows);
    }
  }

  lemma {:induction false} ColumnsAddUp(rows: seq<EffectRow>)
    ensures SumBy(rows, TotalEffect) == SumBy(rows, EffectColumn(Allocation)) + SumBy(rows, EffectColumn(Selection))
                                        + SumBy(rows, EffectColumn(Interaction))
  {
    if rows != [] {
      ColumnsAddUp(rows[1..]);
    }
  }

  // ---------------------------------------------------------------- the report as a whole

  lemma {:induction false} LevelTotalEffect(rows: seq<EffectRow>, groupBy: nat, n: nat)
    requires n <= groupBy
    ensures LevelOf(GranularTotals(rows, groupBy), n).totalEffect == SumBy(Keyed(rows, FullKey(groupBy)), TotalEffect) * 100.0
  {
    hide SumBy, GranularTotals, LevelFor, Keyed, FullKey;
    LevelColumnTotal(rows, groupBy, n, Allocation);
    LevelColumnTotal(rows, groupBy, n, Selection);
    LevelColumnTotal(rows, groupBy, n, Interaction);
    ColumnsAddUp(Keyed(rows, FullKey(groupBy)));
  }

  /** The residual of the report: any level's total effect misses the reported active return by the gap of its
      linking status plus the effects of the rows with a missing key. */
  lemma {:induction false} ReportResidual(rows: seq<EffectRow>, obs: seq<Observation>, model: Model, linking: LinkingMethod,
                                          groupBy: nat, n: nat)
    requires AggregatedRows(rows, obs, model, linking) && n <= groupBy
    ensures ReportedActive(obs, linking) * 100.0 - LevelOf(GranularTotals(rows, groupBy), n).totalEffect
         == (ReportGap(obs, model, linking) + SumBy(Unkeyed(rows, FullKey(groupBy)), TotalEffect)) * 100.0
  {
    hide SumBy, GranularTotals, LevelOf, Keyed, Unkeyed, ReportGap, ReportedActive, AggregatedRows;
    LevelTotalEffect(rows, groupBy, n);
    KeyedAndUnkeyed(rows, FullKey(groupBy), TotalEffect);
    AggregationGap(rows, obs, model, linking);
  }

  /** When scaling is skipped, the effects explain the reported active return if and only if the geometric return
      exceeds the arithmetic one by just what the weight totals cost. */
  lemma {:induction false} SkippedScalingExactIff(rows: seq<EffectRow>, obs: seq<Observation>, model: Model)
    requires AggregatedRows(rows, obs, model, TopDown) && Status(obs, TopDown) == ScalingSkipped
    ensures SumBy(rows, TotalEffect) == ReportedActive(obs, TopDown)
       <==> GeometricActive(obs) + WeightResidual(obs, Periods(obs), model) == ArithmeticActive(obs, Periods(obs))
  {
    hide SumBy, WeightResidual, ArithmeticActive, GeometricActive, Periods, Status, AggregatedRows;
    AggregationGap(rows, obs, model, TopDown);
  }

  /** The same for the total of any level, with the effects of the rows that have a missing key. */
  lemma {:induction false} SkippedLevelExactIff(rows: seq<EffectRow>, obs: seq<Observation>, model: Model, groupBy: nat, n: nat)
    requires AggregatedRows(rows, obs, model, TopDown) && Status(obs, TopDown) == ScalingSkipped && n <= groupBy
    ensures LevelOf(GranularTotals(rows, groupBy), n).totalEffect == ReportedActive(obs, TopDown) * 100.0
       <==> GeometricActive(obs) + WeightResidual(obs, Periods(obs), model) + SumBy(Unkeyed(rows, FullKey(groupBy)), TotalEffect)
            == ArithmeticActive(obs, Periods(obs))
  {
    hide SumBy, WeightResidual, ArithmeticActive, GeometricActive, Periods, Status, AggregatedRows, GranularTotals,
         LevelOf, Unkeyed;
    ReportResidual(rows, obs, model, TopDown, groupBy, n);
  }

  // ---------------------------------------------------------------- a report that does not reconcile

  /** A portfolio of one group that gains 20 % and nothing, against a benchmark that gains 10 % twice. */
  const FIRST_PERIOD: Observation := Observation(1, [Some("A")], 1.0, 1.0, 0.2, 0.1)
  const SECOND_PERIOD: Observation := Observation(2, [Some("A")], 1.0, 1.0, 0.0, 0.1)

  lemma {:induction false} TwoPeriodGroups(obs: seq<Observation>)
    requires obs == [FIRST_PERIOD, SECOND_PERIOD]
    ensures Periods(obs) == [1, 2]
    ensures PeriodOf(obs, 1) == [FIRST_PERIOD] && PeriodOf(obs, 2) == [SECOND_PERIOD]
  {
    var rest := [SECOND_PERIOD];
    assert obs[1..] == rest && rest[1..] == [];
    assert KeysOf(rest, DateKey) == [2];
    assert Group(rest, DateKey, 1) == [] && Group(rest, DateKey, 2) == rest;
  }

  lemma {:induction false} OneObservationSums(o: Observation)
    ensures SumBy([o], PortfolioPart) == o.wp * o.rp && SumBy([o], BenchmarkPart) == o.wb * o.rb
  {
    assert [o][1..] == [];
  }

  lemma {:induction false} TwoPeriodReturns(obs: seq<Observation>)
    requires obs == [FIRST_PERIOD, SECOND_PERIOD]
    ensures Periods(obs) == [1, 2]
    ensures PortfolioReturn(obs, 1) == 0.2 && BenchmarkReturn(obs, 1) == 0.1
    ensures PortfolioReturn(obs, 2) == 0.0 && BenchmarkReturn(obs, 2) == 0.1
  {
    hide SumBy, PeriodOf, Periods;
    TwoPeriodGroups(obs);
    OneObservationSums(FIRST_PERIOD);
    OneObservationSums(SECOND_PERIOD);
  }

  lemma {:induction false} TwoPeriodLinking(obs: seq<Observation>)
    requires obs == [FIRST_PERIOD, SECOND_PERIOD]
    ensures ArithmeticActive(obs, Periods(obs)) == 0.0 && GeometricActive(obs) == -0.01
    ensures Status(obs, TopDown) == ScalingSkipped
  {
    hide PortfolioReturn, BenchmarkReturn, Periods;
    TwoPeriodReturns(obs);
    var dates := [1, 2];
    assert dates[1..] == [2] && [2][1..] == [];
    assert ArithmeticActive(obs, [2]) == -0.1;
    assert PortfolioGrowth(obs, [2]) == 1.0 && BenchmarkGrowth(obs, [2]) == 1.1;
    assert PortfolioGrowth(obs, dates) == 1.2 && BenchmarkGrowth(obs, dates) == 1.21;
  }

  /** The period differences cancel, so nothing is scaled: the effects add up to 0 while -1 % is reported. */
  lemma {:induction false} SkippedScalingMisses(rows: seq<EffectRow>)
    requires AggregatedRows(rows, [FIRST_PERIOD, SECOND_PERIOD], BrinsonHoodBeebower, TopDown)
    ensures ReportedActive([FIRST_PERIOD, SECOND_PERIOD], TopDown) == -0.01 && SumBy(rows, TotalEffect) == 0.0
  {
    hide SumBy, ArithmeticActive, GeometricActive, Periods, Status, WeightResidual, AggregatedRows;
    var obs := [FIRST_PERIOD, SECOND_PERIOD];
    TwoPeriodLinking(obs);
    AggregationGap(rows, obs, BrinsonHoodBeebower, TopDown);
    NoWeightResidual(obs, Periods(obs), BrinsonHoodBeebower);
  }
}
