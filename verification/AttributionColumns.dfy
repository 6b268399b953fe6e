/** Allocation, selection and interaction each on their own, from weights and returns to the reported levels. */
module AttributionColumns {
  import opened Wrappers
  import opened RealArithmetic
  import opened Sums
  import opened GroupKeys
  import opened Attribution
  import opened AttributionLevels

  /** Portfolio weights at benchmark returns, and benchmark weights at portfolio returns. */
  function WeightsAtBenchmark(o: Observation): real { o.wp * o.rb }
  function BenchmarkAtReturns(o: Observation): real { o.wb * o.rp }

  /** One effect column of a period, from the sums of its weights and returns. */
  function PeriodColumn(obs: seq<Observation>, date: int, model: Model, c: Column): real {
    var g := PeriodOf(obs, date);
    var pp, pb, bp, bb := SumBy(g, PortfolioPart), SumBy(g, WeightsAtBenchmark), SumBy(g, BenchmarkAtReturns),
                          SumBy(g, BenchmarkPart);
    match model
    case BrinsonHoodBeebower => (
      match c
      case Allocation => pb - bb
      case Selection => pp - pb
      case Interaction => 0.0)
    case BrinsonFachler => (
      match c
      case Allocation => pb - bb - bb * (SumBy(g, PortfolioWeight) - SumBy(g, BenchmarkWeight))
      case Selection => bp - bb
      case Interaction => pp - pb - bp + bb)
  }

  function ColumnIn(rbTotal: real, model: Model, c: Column): Observation -> real {
    (o: Observation) => ColumnOf(Effects(o, rbTotal, model), c)
  }

  lemma {:induction false} BeebowerColumns(o: Observation, r: real)
    ensures ColumnOf(Effects(o, r, BrinsonHoodBeebower), Allocation) == 1.0 * WeightsAtBenchmark(o) + -1.0 * BenchmarkPart(o)
    ensures ColumnOf(Effects(o, r, BrinsonHoodBeebower), Selection) == 1.0 * PortfolioPart(o) + -1.0 * WeightsAtBenchmark(o)
    ensures ColumnOf(Effects(o, r, BrinsonHoodBeebower), Interaction) == 0.0 * BenchmarkPart(o)
  {
    BeebowerAlgebra(o.wp, o.wb, o.rp, o.rb);
  }

  lemma {:induction false} BeebowerAlgebra(p: real, b: real, x: real, y: real)
    ensures (p - b) * y == 1.0 * (p * y) + -1.0 * (b * y)
    ensures p * (x - y) == 1.0 * (p * x) + -1.0 * (p * y)
  {
  }

  lemma {:induction false} FachlerColumns(o: Observation, r: real)
    ensures ColumnOf(Effects(o, r, BrinsonFachler), Allocation) == 1.0 * AllocationPart(o) + -r * WeightGap(o)
    ensures ColumnOf(Effects(o, r, BrinsonFachler), Selection) == 1.0 * BenchmarkAtReturns(o) + -1.0 * BenchmarkPart(o)
    ensures ColumnOf(Effects(o, r, BrinsonFachler), Interaction) == 1.0 * SelectionAtWeights(o) + -1.0 * SelectionAtBenchmark(o)
  {
    FachlerAlgebra(o.wp, o.wb, o.rp, o.rb, r);
  }

  lemma {:induction false} FachlerAlgebra(p: real, b: real, x: real, y: real, r: real)
    ensures (p - b) * (y - r) == 1.0 * (p * y - b * y) + -r * (p - b)
    ensures b * (x - y) == 1.0 * (b * x) + -1.0 * (b * y)
    ensures (p - b) * (x - y) == 1.0 * (p * x - p * y) + -1.0 * (b * x - b * y)
  {
  }

  function AllocationPart(o: Observation): real { o.wp * o.rb - o.wb * o.rb }
  function SelectionAtWeights(o: Observation): real { o.wp * o.rp - o.wp * o.rb }
  function SelectionAtBenchmark(o: Observation): real { o.wb * o.rp - o.wb * o.rb }

  lemma {:induction false} PartSums(g: seq<Observation>)
    ensures SumBy(g, AllocationPart) == SumBy(g, WeightsAtBenchmark) - SumBy(g, BenchmarkPart)
    ensures SumBy(g, SelectionAtWeights) == SumBy(g, PortfolioPart) - SumBy(g, WeightsAtBenchmark)
    ensures SumBy(g, SelectionAtBenchmark) == SumBy(g, BenchmarkAtReturns) - SumBy(g, BenchmarkPart)
    ensures SumBy(g, WeightGap) == SumBy(g, PortfolioWeight) - SumBy(g, BenchmarkWeight)
  {
    hide SumBy;
    SumByLinear(g, AllocationPart, 1.0, WeightsAtBenchmark, -1.0, BenchmarkPart);
    SumByLinear(g, SelectionAtWeights, 1.0, PortfolioPart, -1.0, WeightsAtBenchmark);
    SumByLinear(g, SelectionAtBenchmark, 1.0, BenchmarkAtReturns, -1.0, BenchmarkPart);
    SumByLinear(g, WeightGap, 1.0, PortfolioWeight, -1.0, BenchmarkWeight);
  }

  lemma {:induction false} BeebowerSums(g: seq<Observation>, r: real)
    ensures SumBy(g, ColumnIn(r, BrinsonHoodBeebower, Allocation)) == SumBy(g, WeightsAtBenchmark) - SumBy(g, BenchmarkPart)
    ensures SumBy(g, ColumnIn(r, BrinsonHoodBeebower, Selection)) == SumBy(g, PortfolioPart) - SumBy(g, WeightsAtBenchmark)
    ensures SumBy(g, ColumnIn(r, BrinsonHoodBeebower, Interaction)) == 0.0
  {
    hide SumBy, Effects, ColumnOf, WeightsAtBenchmark, BenchmarkPart, PortfolioPart;
    forall o: Observation
      ensures ColumnIn(r, BrinsonHoodBeebower, Allocation)(o) == 1.0 * WeightsAtBenchmark(o) + -1.0 * BenchmarkPart(o)
      ensures ColumnIn(r, BrinsonHoodBeebower, Selection)(o) == 1.0 * PortfolioPart(o) + -1.0 * WeightsAtBenchmark(o)
      ensures ColumnIn(r, BrinsonHoodBeebower, Interaction)(o) == 0.0 * BenchmarkPart(o)
    {
      BeebowerColumns(o, r);
    }
    SumByLinear(g, ColumnIn(r, BrinsonHoodBeebower, Allocation), 1.0, WeightsAtBenchmark, -1.0, BenchmarkPart);
    SumByLinear(g, ColumnIn(r, BrinsonHoodBeebower, Selection), 1.0, PortfolioPart, -1.0, WeightsAtBenchmark);
    SumByScaled(g, ColumnIn(r, BrinsonHoodBeebower, Interaction), 0.0, BenchmarkPart);
  }

  lemma {:induction false} FachlerSums(g: seq<Observation>, r: real)
    ensures SumBy(g, ColumnIn(r, BrinsonFachler, Allocation)) == SumBy(g, AllocationPart) - r * SumBy(g, WeightGap)
    ensures SumBy(g, ColumnIn(r, BrinsonFachler, Selection)) == SumBy(g, BenchmarkAtReturns) - SumBy(g, BenchmarkPart)
    ensures SumBy(g, ColumnIn(r, BrinsonFachler, Interaction)) == SumBy(g, SelectionAtWeights) - SumBy(g, SelectionAtBenchmark)
  {
    hide SumBy, Effects, ColumnOf, AllocationPart, WeightGap, BenchmarkAtReturns, BenchmarkPart, SelectionAtWeights,
         SelectionAtBenchmark;
    forall o: Observation
      ensures ColumnIn(r, BrinsonFachler, Allocation)(o) == 1.0 * AllocationPart(o) + -r * WeightGap(o)
      ensures ColumnIn(r, BrinsonFachler, Selection)(o) == 1.0 * BenchmarkAtReturns(o) + -1.0 * BenchmarkPart(o)
      ensures ColumnIn(r, BrinsonFachler, Interaction)(o) == 1.0 * SelectionAtWeights(o) + -1.0 * SelectionAtBenchmark(o)
    {
      FachlerColumns(o, r);
    }
    SumByLinear(g, ColumnIn(r, BrinsonFachler, Allocation), 1.0, AllocationPart, -r, WeightGap);
    SumByLinear(g, ColumnIn(r, BrinsonFachler, Selection), 1.0, BenchmarkAtReturns, -1.0, BenchmarkPart);
    SumByLinear(g, ColumnIn(r, BrinsonFachler, Interaction), 1.0, SelectionAtWeights, -1.0, SelectionAtBenchmark);
  }

  /** Every effect column of a period is what its weights and returns make it. */
  lemma {:induction false} PeriodColumnSums(obs: seq<Observation>, date: int, model: Model, c: Column)
    ensures SumBy(PeriodOf(obs, date), ColumnIn(BenchmarkReturn(obs, date), model, c)) == PeriodColumn(obs, date, model, c)
  {
    hide SumBy, PeriodOf, ColumnIn;
    var g, r := PeriodOf(obs, date), BenchmarkReturn(obs, date);
    BeebowerSums(g, r);
    FachlerSums(g, r);
    PartSums(g);
  }

  // ---------------------------------------------------------------- all periods, linking and levels

  function ColumnTotal(obs: seq<Observation>, dates: seq<int>, model: Model, c: Column): real {
    if dates == [] then 0.0 else PeriodColumn(obs, dates[0], model, c) + ColumnTotal(obs, dates[1..], model, c)
  }

  function ColumnAt(obs: seq<Observation>, model: Model, c: Column): Observation -> real {
    (o: Observation) => ColumnOf(Effects(o, BenchmarkReturn(obs, o.date), model), c)
  }

  lemma {:induction false} DateColumn(obs: seq<Observation>, date: int, model: Model, c: Column)
    ensures SumBy(Group(obs, DateKey, date), ColumnAt(obs, model, c)) == PeriodColumn(obs, date, model, c)
  {
    hide SumBy, Effects, ColumnOf, PeriodColumn;
    PeriodColumnSums(obs, date, model, c);
    SumByEqual(PeriodOf(obs, date), ColumnAt(obs, model, c), ColumnIn(BenchmarkReturn(obs, date), model, c));
  }

  lemma {:induction false} DatesAddUp(obs: seq<Observation>, dates: seq<int>, model: Model, c: Column)
    ensures SumOfGroups(dates, obs, DateKey, ColumnAt(obs, model, c)) == ColumnTotal(obs, dates, model, c)
  {
    hide SumBy, Group, PeriodColumn, ColumnAt;
    if dates != [] {
      DatesAddUp(obs, dates[1..], model, c);
      DateColumn(obs, dates[0], model, c);
    }
  }

  lemma {:induction false} EffectColumnSum(rows: seq<EffectRow>, obs: seq<Observation>, model: Model, c: Column)
    requires EffectsOf(rows, obs, model)
    ensures SumBy(rows, EffectColumn(c)) == ColumnTotal(obs, Periods(obs), model, c)
  {
    hide SumBy, Effects, ColumnOf, Group, ColumnTotal;
    SumByPointwise(rows, EffectColumn(c), obs, ColumnAt(obs, model, c));
    GroupsCoverKeyed(Periods(obs), obs, DateKey, ColumnAt(obs, model, c));
    AllKeyed(obs, DateKey);
    DatesAddUp(obs, Periods(obs), model, c);
  }

  lemma {:induction false} ScaledColumn(e: EffectRow, f: real, c: Column)
    ensures EffectColumn(c)(Scaled(e, f)) == f * EffectColumn(c)(e)
  {
  }

  lemma {:induction false} ScaledColumnSum(linked: seq<EffectRow>, rows: seq<EffectRow>, f: real, c: Column)
    requires |linked| == |rows| && forall i :: 0 <= i < |rows| ==> linked[i] == Scaled(rows[i], f)
    ensures SumBy(linked, EffectColumn(c)) == f * SumBy(rows, EffectColumn(c))
  {
    hide EffectColumn, Scaled;
    if rows != [] {
      ScaledColumnSum(linked[1..], rows[1..], f, c);
      ScaledColumn(rows[0], f, c);
      Distribute(f, EffectColumn(c)(rows[0]), SumBy(rows[1..], EffectColumn(c)), SumBy(rows, EffectColumn(c)));
    } else {
      assert f * 0.0 == 0.0;
    }
  }

  lemma {:induction false} LinkedColumn(rows: seq<EffectRow>, obs: seq<Observation>, model: Model, c: Column)
    requires ArithmeticActive(obs, Periods(obs)) != 0.0 && LinkedRows(rows, obs, model)
    ensures SumBy(rows, EffectColumn(c)) * ArithmeticActive(obs, Periods(obs))
         == ColumnTotal(obs, Periods(obs), model, c) * GeometricActive(obs)
  {
    hide SumBy, Effects, EffectColumn, ColumnTotal, ArithmeticActive, GeometricActive, Periods, BenchmarkReturn;
    var plain := seq(|obs|, i requires 0 <= i < |obs| => Effects(obs[i], BenchmarkReturn(obs, obs[i].date), model));
    EffectColumnSum(plain, obs, model, c);
    ScaledColumnSum(rows, plain, LinkFactor(obs), c);
    LinkAlgebra(GeometricActive(obs), ArithmeticActive(obs, Periods(obs)), LinkFactor(obs), SumBy(plain, EffectColumn(c)));
  }

  lemma {:induction false} LinkAlgebra(g: real, a: real, f: real, x: real)
    requires a != 0.0 && f == g / a
    ensures f * x * a == x * g
  {
    assert f * a == g;
    assert f * x * a == f * a * x;
  }

  /** Each effect column of an aggregation: the sum over the periods of what weights and returns make it, scaled by the
      geometric over the arithmetic active return when the effects are linked. */
  lemma {:induction false} AggregatedColumn(rows: seq<EffectRow>, obs: seq<Observation>, model: Model, linking: LinkingMethod,
                                            c: Column)
    requires AggregatedRows(rows, obs, model, linking)
    ensures if Status(obs, linking) == Linked then
        SumBy(rows, EffectColumn(c)) * ArithmeticActive(obs, Periods(obs))
          == ColumnTotal(obs, Periods(obs), model, c) * GeometricActive(obs)
      else SumBy(rows, EffectColumn(c)) == ColumnTotal(obs, Periods(obs), model, c)
  {
    hide SumBy, ColumnTotal, ArithmeticActive, GeometricActive, Periods, Status, LinkedRows, EffectsOf, EffectColumn;
    LinkedIsNonzero(obs, linking);
    if Status(obs, linking) == Linked {
      LinkedColumn(rows, obs, model, c);
    } else {
      EffectColumnSum(rows, obs, model, c);
    }
  }

  function LevelColumn(level: Level, c: Column): real {
    match c case Allocation => level.allocation case Selection => level.selection case Interaction => level.interaction
  }

  /** A reported column of a level, in percent, is that of the rows, less the rows with a missing key. */
  lemma {:induction false} LevelColumnReported(rows: seq<EffectRow>, groupBy: nat, n: nat, c: Column)
    requires n <= groupBy
    ensures LevelColumn(LevelOf(GranularTotals(rows, groupBy), n), c)
         == (SumBy(rows, EffectColumn(c)) - SumBy(Unkeyed(rows, FullKey(groupBy)), EffectColumn(c))) * 100.0
    ensures LevelOf(GranularTotals(rows, groupBy), n).totalEffect
         == LevelColumn(LevelOf(GranularTotals(rows, groupBy), n), Allocation)
          + LevelColumn(LevelOf(GranularTotals(rows, groupBy), n), Selection)
          + LevelColumn(LevelOf(GranularTotals(rows, groupBy), n), Interaction)
  {
    hide SumBy, GranularTotals, LevelFor, Keyed, Unkeyed, FullKey, EffectColumn;
    LevelColumnTotal(rows, groupBy, n, c);
    KeyedAndUnkeyed(rows, FullKey(groupBy), EffectColumn(c));
  }

  // ---------------------------------------------------------------- the groups of a level

  predicate AllPresent(keys: seq<Option<string>>, n: nat) {
    n <= |keys| && forall i :: 0 <= i < n ==> keys[i].Some?
  }

  /** A column on the rows whose first groupBy keys are present and begin with the key of a group. */
  function Under(groupBy: nat, key: seq<string>, c: Column): EffectRow -> real {
    (e: EffectRow) => if AllPresent(e.obs.keys, groupBy) && StartsWith(e.obs.keys, key) then ColumnOf(e, c) else 0.0
  }

  lemma {:induction false} PrefixPresent(keys: seq<Option<string>>, n: nat)
    ensures Prefix(keys, n).Some? <==> AllPresent(keys, n)
  {
    if Prefix(keys, n).Some? {
      PrefixMeans(keys, n, Prefix(keys, n).value);
    }
    if AllPresent(keys, n) {
      PrefixMeans(keys, n, seq(n, i requires 0 <= i < n => keys[i].value));
    }
  }

  lemma {:induction false} NothingToSum(rows: seq<EffectRow>, f: EffectRow -> real)
    requires forall e :: e in rows ==> f(e) == 0.0
    ensures SumBy(rows, f) == 0.0
  {
    if rows != [] {
      NothingToSum(rows[1..], f);
    }
  }

  lemma {:induction false} UnderKey(e: EffectRow, groupBy: nat, k: seq<string>, key: seq<string>, c: Column)
    requires Prefix(e.obs.keys, groupBy) == Some(k) && |key| <= groupBy == |k|
    ensures Under(groupBy, key, c)(e) == if k[..|key|] == key then EffectColumn(c)(e) else 0.0
  {
    hide Prefix;
    PrefixMeans(e.obs.keys, groupBy, k);
    if k[..|key|] == key {
      assert forall i :: 0 <= i < |key| ==> k[..|key|][i] == k[i];
    } else {
      var i :| 0 <= i < |key| && k[..|key|][i] != key[i];
    }
  }

  lemma {:induction false} UnderGroup(rows: seq<EffectRow>, groupBy: nat, k: seq<string>, key: seq<string>, c: Column)
    requires |key| <= groupBy == |k|
    ensures SumBy(Group(rows, FullKey(groupBy), k), Under(groupBy, key, c))
         == if k[..|key|] == key then SumBy(Group(rows, FullKey(groupBy), k), EffectColumn(c)) else 0.0
  {
    hide SumBy, Under, EffectColumn, Prefix;
    var g := Group(rows, FullKey(groupBy), k);
    forall e | e in g ensures Under(groupBy, key, c)(e) == if k[..|key|] == key then EffectColumn(c)(e) else 0.0 {
      UnderKey(e, groupBy, k, key, c);
    }
    if k[..|key|] == key {
      SumByEqual(g, Under(groupBy, key, c), EffectColumn(c));
    } else {
      NothingToSum(g, Under(groupBy, key, c));
    }
  }

  lemma {:induction false} GranularColumn(rows: seq<EffectRow>, groupBy: nat, k: seq<string>, c: Column)
    ensures TotalColumn(c)(GranularTotal(rows, groupBy, k)) == SumBy(Group(rows, FullKey(groupBy), k), EffectColumn(c))
    ensures GranularTotal(rows, groupBy, k).key == k
  {
    hide SumBy, Group;
  }

  lemma {:induction false} UnderGranular(rows: seq<EffectRow>, groupBy: nat, keys: seq<seq<string>>, key: seq<string>, c: Column)
    requires |key| <= groupBy && forall k :: k in keys ==> |k| == groupBy
    ensures SumBy(Group(GranularFor(rows, groupBy, keys), Ancestor(|key|), key), TotalColumn(c))
         == SumOfGroups(keys, rows, FullKey(groupBy), Under(groupBy, key, c))
  {
    hide GranularTotal, TotalColumn, Under, EffectColumn, FullKey;
    if keys != [] {
      assert keys[0] in keys;
      UnderGranular(rows, groupBy, keys[1..], key, c);
      UnderGroup(rows, groupBy, keys[0], key, c);
      GranularColumn(rows, groupBy, keys[0], c);
      var all := GranularFor(rows, groupBy, keys);
      assert all[0] == GranularTotal(rows, groupBy, keys[0]) && all[1..] == GranularFor(rows, groupBy, keys[1..]);
      var g, rest := Group(all, Ancestor(|key|), key), Group(all[1..], Ancestor(|key|), key);
      assert g == if keys[0][..|key|] == key then [all[0]] + rest else rest;
      if keys[0][..|key|] == key {
        assert g[0] == all[0] && g[1..] == rest;
      }
    }
  }

  lemma {:induction false} UnderTotal(rows: seq<EffectRow>, groupBy: nat, key: seq<string>, c: Column)
    requires |key| <= groupBy
    ensures SumBy(Group(GranularTotals(rows, groupBy), Ancestor(|key|), key), TotalColumn(c))
         == SumBy(rows, Under(groupBy, key, c))
  {
    hide SumBy, Group, GranularFor, Prefix, TotalColumn, Ancestor;
    var keys := KeysOf(rows, FullKey(groupBy));
    forall k | k in keys ensures |k| == groupBy {
      var e :| e in rows && FullKey(groupBy)(e) == Some(k);
      PrefixLength(e.obs.keys, groupBy);
    }
    UnderGranular(rows, groupBy, keys, key, c);
    GroupsCoverKeyed(keys, rows, FullKey(groupBy), Under(groupBy, key, c));
    forall e: EffectRow ensures FullKey(groupBy)(e).Some? <==> AllPresent(e.obs.keys, groupBy) {
      PrefixPresent(e.obs.keys, groupBy);
    }
    KeyedIsMasked(rows, FullKey(groupBy), Under(groupBy, key, c), Under(groupBy, key, c));
  }

  lemma {:induction false} LevelGroupAt(granular: seq<GroupTotal>, n: nat, keys: seq<seq<string>>, j: nat)
    requires j < |LevelFor(granular, n, keys)|
    ensures |LevelFor(granular, n, keys)| == |keys| && LevelFor(granular, n, keys)[j] == LevelGroup(granular, n, keys[j])
  {
    hide LevelGroup;
    if j > 0 {
      LevelGroupAt(granular, n, keys[1..], j - 1);
    } else if keys != [] && LevelFor(granular, n, keys[1..]) != [] {
      LevelGroupAt(granular, n, keys[1..], 0);
    } else {
      NoMoreGroups(granular, n, keys[1..]);
    }
  }

  lemma {:induction false} NoMoreGroups(granular: seq<GroupTotal>, n: nat, keys: seq<seq<string>>)
    requires LevelFor(granular, n, keys) == []
    ensures keys == []
  {
  }

  function ResultColumn(g: GroupResult, c: Column): real {
    match c case Allocation => g.allocation case Selection => g.selection case Interaction => g.interaction
  }

  lemma {:induction false} GroupColumn(granular: seq<GroupTotal>, n: nat, key: seq<string>, c: Column)
    ensures ResultColumn(ResultOf(LevelGroup(granular, n, key)), c)
         == SumBy(Group(granular, Ancestor(n), key), TotalColumn(c)) * 100.0
    ensures ResultOf(LevelGroup(granular, n, key)).key == key
  {
    hide SumBy, Group;
  }

  lemma {:induction false} LevelKeyLength(granular: seq<GroupTotal>, n: nat, key: seq<string>)
    requires key in KeysOf(granular, Ancestor(n))
    ensures |key| == n
  {
    var g :| g in granular && Ancestor(n)(g) == Some(key);
  }

  /** A reported group of level n, in percent: in each column the sum of the effects whose keys are all present and begin
      with its key; no two groups have one key, and the total effect is the sum of the columns. */
  lemma {:induction false} LevelGroupMeans(rows: seq<EffectRow>, groupBy: nat, n: nat, j: nat, c: Column)
    requires n <= groupBy && j < |LevelOf(GranularTotals(rows, groupBy), n).groups|
    ensures var all := LevelOf(GranularTotals(rows, groupBy), n).groups;
      && |all[j].key| == n && (forall i :: 0 <= i < |all| && all[i].key == all[j].key ==> i == j)
      && ResultColumn(all[j], c) == SumBy(rows, Under(groupBy, all[j].key, c)) * 100.0
      && all[j].totalEffect == all[j].allocation + all[j].selection + all[j].interaction
  {
    hide SumBy, Group, GranularTotals, Ancestor, TotalColumn, Under, LevelFor, LevelGroup, ResultColumn;
    var granular := GranularTotals(rows, groupBy);
    var keys := KeysOf(granular, Ancestor(n));
    var all := LevelOf(granular, n).groups;
    LevelGroupAt(granular, n, keys, j);
    assert |all| == |keys|;
    forall i | 0 <= i < |all|
      ensures all[i] == ResultOf(LevelGroup(granular, n, keys[i])) && all[i].key == keys[i]
    {
      LevelGroupAt(granular, n, keys, i);
      GroupColumn(granular, n, keys[i], c);
    }
    LevelKeyLength(granular, n, keys[j]);
    UnderTotal(rows, groupBy, keys[j], c);
    GroupColumn(granular, n, keys[j], c);
  }

  // ---------------------------------------------------------------- which linking outcome

  /** Scaling is done exactly when it is asked for, no period of either side loses everything, and the arithmetic active
      return is more than 2^-26 of the sum of the absolute period differences. */
  lemma {:induction false} StatusMeans(obs: seq<Observation>, linking: LinkingMethod)
    ensures Status(obs, linking) == NotRequested <==> linking == NoLinking
    ensures Status(obs, linking) == InvalidReturnChain <==>
      linking == TopDown && exists d :: d in Periods(obs) && (PortfolioReturn(obs, d) <= -1.0 || BenchmarkReturn(obs, d) <= -1.0)
    ensures Status(obs, linking) == Linked <==>
      && linking == TopDown
      && (forall d :: d in Periods(obs) ==> PortfolioReturn(obs, d) > -1.0 && BenchmarkReturn(obs, d) > -1.0)
      && Magnitude(ArithmeticActive(obs, Periods(obs))) * 67108864.0 > ActiveScale(obs, Periods(obs))
  {
    hide PortfolioReturn, BenchmarkReturn, Periods, ArithmeticActive, ActiveScale;
    ScaleNonNegative(obs, Periods(obs));
    if InvalidChain(obs) {
      var dates := Periods(obs);
      var i :| 0 <= i < |dates| && (PortfolioReturn(obs, dates[i]) <= -1.0 || BenchmarkReturn(obs, dates[i]) <= -1.0);
      assert dates[i] in dates;
    }
  }

  function Magnitude(x: real): real { if x >= 0.0 then x else -x }

  lemma {:induction false} ScaleNonNegative(obs: seq<Observation>, dates: seq<int>)
    ensures ActiveScale(obs, dates) >= 0.0
  {
    hide ActiveReturn;
    if dates != [] {
      ScaleNonNegative(obs, dates[1..]);
    }
  }
}
