/** Position totals, the Carino residual allocation and the hierarchy levels of contribution. */
module Contribution {
  import opened Wrappers
  import opened RealArithmetic
  import opened Calculus
  import opened Sums
  import opened CarinoSmoothing

  const RESIDUAL_DENOMINATOR_TOLERANCE: real := 0.000000000001

  datatype PositionTotal = PositionTotal(
    positionId: string,
    contribution: real,
    localContribution: real,
    fxContribution: real,
    weightAvg: real)

  function PositionKey(row: DailyRow): Option<string> { Some(row.positionId) }
  function SmoothedLocal(row: DailyRow): real { row.smoothedLocal }
  function SmoothedFx(row: DailyRow): real { row.smoothedFx }
  function DailyWeight(row: DailyRow): real { row.dailyWeight }

  function TotalContribution(t: PositionTotal): real { t.contribution }
  function TotalLocal(t: PositionTotal): real { t.localContribution }
  function TotalFx(t: PositionTotal): real { t.fxContribution }
  function AverageWeight(t: PositionTotal): real { t.weightAvg }

  function PositionTotalOf(rows: seq<DailyRow>, id: string): PositionTotal
    requires Group(rows, PositionKey, id) != []
  {
    var g := Group(rows, PositionKey, id);
    PositionTotal(id, SumBy(g, Smoothed), SumBy(g, SmoothedLocal), SumBy(g, SmoothedFx),
                  SumBy(g, DailyWeight) / |g| as real)
  }

  function TotalsFor(rows: seq<DailyRow>, ids: seq<string>): (ts: seq<PositionTotal>)
    requires forall id :: id in ids ==> Group(rows, PositionKey, id) != []
    ensures |ts| == |ids| && forall i :: 0 <= i < |ts| ==> ts[i] == PositionTotalOf(rows, ids[i])
  {
    if ids == [] then [] else [PositionTotalOf(rows, ids[0])] + TotalsFor(rows, ids[1..])
  }

  /** groupby("position_id") sums of the smoothed columns. */
  function PositionTotals(rows: seq<DailyRow>): seq<PositionTotal> {
    EveryIdHasRows(rows);
    TotalsFor(rows, KeysOf(rows, PositionKey))
  }

  lemma {:induction false} EveryIdHasRows(rows: seq<DailyRow>)
    ensures forall id :: id in KeysOf(rows, PositionKey) ==> Group(rows, PositionKey, id) != []
  {
    forall id | id in KeysOf(rows, PositionKey) ensures Group(rows, PositionKey, id) != [] {
      var x :| x in rows && PositionKey(x) == Some(id);
      assert x in Group(rows, PositionKey, id);
    }
  }

  lemma {:induction false} TotalsAreGroupSums(rows: seq<DailyRow>, ids: seq<string>)
    requires forall id :: id in ids ==> Group(rows, PositionKey, id) != []
    ensures SumBy(TotalsFor(rows, ids), TotalContribution) == SumOfGroups(ids, rows, PositionKey, Smoothed)
    ensures SumBy(TotalsFor(rows, ids), TotalLocal) == SumOfGroups(ids, rows, PositionKey, SmoothedLocal)
    ensures SumBy(TotalsFor(rows, ids), TotalFx) == SumOfGroups(ids, rows, PositionKey, SmoothedFx)
  {
    if ids != [] {
      TotalsAreGroupSums(rows, ids[1..]);
      assert TotalsFor(rows, ids)[1..] == TotalsFor(rows, ids[1..]);
    }
  }

  /** Grouping by position loses no contribution, local or FX. */
  lemma {:induction false} PositionTotalsConserve(rows: seq<DailyRow>)
    ensures SumBy(PositionTotals(rows), TotalContribution) == SumBy(rows, Smoothed)
    ensures SumBy(PositionTotals(rows), TotalLocal) == SumBy(rows, SmoothedLocal)
    ensures SumBy(PositionTotals(rows), TotalFx) == SumBy(rows, SmoothedFx)
  {
    hide SumBy, SumOfGroups;
    EveryIdHasRows(rows);
    TotalsAreGroupSums(rows, KeysOf(rows, PositionKey));
    GroupsCoverKeyed(KeysOf(rows, PositionKey), rows, PositionKey, Smoothed);
    GroupsCoverKeyed(KeysOf(rows, PositionKey), rows, PositionKey, SmoothedLocal);
    GroupsCoverKeyed(KeysOf(rows, PositionKey), rows, PositionKey, SmoothedFx);
    AllKeyed(rows, PositionKey);
  }

  lemma {:induction false} TotalListed(rows: seq<DailyRow>, t: PositionTotal)
    requires t in PositionTotals(rows)
    ensures Group(rows, PositionKey, t.positionId) != [] && t == PositionTotalOf(rows, t.positionId)
  {
    hide PositionTotalOf, Group;
    EveryIdHasRows(rows);
    var ids := KeysOf(rows, PositionKey);
    var i :| 0 <= i < |ids| && TotalsFor(rows, ids)[i] == t;
    IdOfTotal(rows, ids[i]);
  }

  lemma {:induction false} IdOfTotal(rows: seq<DailyRow>, id: string)
    requires Group(rows, PositionKey, id) != []
    ensures PositionTotalOf(rows, id).positionId == id
  {
  }

  /** Each total sums its own position's rows column by column, with the mean of their weights; every position with rows
      has exactly one. */
  lemma {:induction false} PositionTotalMeans(rows: seq<DailyRow>, t: PositionTotal)
    requires t in PositionTotals(rows)
    ensures var g := Group(rows, PositionKey, t.positionId);
      && g != []
      && t.contribution == SumBy(g, Smoothed) && t.localContribution == SumBy(g, SmoothedLocal)
      && t.fxContribution == SumBy(g, SmoothedFx) && t.weightAvg * |g| as real == SumBy(g, DailyWeight)
  {
    hide SumBy, Group, PositionTotals, PositionTotalOf;
    TotalListed(rows, t);
    TotalOfGroup(rows, t.positionId);
  }

  lemma {:induction false} TotalOfGroup(rows: seq<DailyRow>, id: string)
    requires Group(rows, PositionKey, id) != []
    ensures var g, t := Group(rows, PositionKey, id), PositionTotalOf(rows, id);
      && t.contribution == SumBy(g, Smoothed) && t.localContribution == SumBy(g, SmoothedLocal)
      && t.fxContribution == SumBy(g, SmoothedFx) && t.weightAvg * |g| as real == SumBy(g, DailyWeight)
  {
    hide SumBy, Group;
    var g := Group(rows, PositionKey, id);
    MeanTimes(SumBy(g, DailyWeight), |g| as real);
  }

  lemma {:induction false} MeanTimes(x: real, n: real)
    requires n != 0.0
    ensures x / n * n == x
  {
  }

  // ---------------------------------------------------------------- residual allocation

  function ResidualProportions(local: real, fx: real, total: real): (real, real) {
    if Abs(total) > RESIDUAL_DENOMINATOR_TOLERANCE then (local / total, fx / total)
    else if Abs(local) + Abs(fx) <= RESIDUAL_DENOMINATOR_TOLERANCE then (1.0, 0.0)
    else (Abs(local) / (Abs(local) + Abs(fx)), 1.0 - Abs(local) / (Abs(local) + Abs(fx)))
  }

  lemma {:induction false} ProportionsSumToOne(local: real, fx: real, total: real)
    requires total == local + fx
    ensures ResidualProportions(local, fx, total).0 + ResidualProportions(local, fx, total).1 == 1.0
  {
    if Abs(total) > RESIDUAL_DENOMINATOR_TOLERANCE {
      assert local / total + fx / total == (local + fx) / total;
    }
  }

  function Allocated(t: PositionTotal, totalWeight: real, residual: real, proportions: (real, real)): PositionTotal
    requires totalWeight != 0.0
  {
    var share := t.weightAvg / totalWeight;
    t.(contribution := t.contribution + residual * share,
       localContribution := t.localContribution + residual * proportions.0 * share,
       fxContribution := t.fxContribution + residual * proportions.1 * share)
  }

  /** The residual and its local and FX proportions before the allocation. */
  function Residual(ts: seq<PositionTotal>, portfolioReturn: real): real {
    portfolioReturn - SumBy(ts, TotalContribution)
  }

  function Proportions(ts: seq<PositionTotal>): (real, real) {
    ResidualProportions(SumBy(ts, TotalLocal), SumBy(ts, TotalFx), SumBy(ts, TotalContribution))
  }

  predicate Allocates(ts: seq<PositionTotal>, carino: bool) {
    SumBy(ts, AverageWeight) != 0.0 && carino
  }

  ghost predicate AllocatedRows(before: seq<PositionTotal>, portfolioReturn: real, after: seq<PositionTotal>)
    requires SumBy(before, AverageWeight) != 0.0
  {
    && |after| == |before|
    && forall i :: 0 <= i < |before| ==>
         after[i] == Allocated(before[i], SumBy(before, AverageWeight), Residual(before, portfolioReturn), Proportions(before))
  }

  /** The totals frame, whose contribution columns the allocation updates in place. */
  class TotalsFrame {
    var rows: seq<PositionTotal>

    constructor (rows: seq<PositionTotal>)
      ensures this.rows == rows
    {
      this.rows := rows;
    }

    method ApplyCarinoResidualAllocation(portfolioReturn: real, carino: bool)
      modifies this
      ensures !Allocates(old(rows), carino) ==> rows == old(rows)
      ensures Allocates(old(rows), carino) ==> AllocatedRows(old(rows), portfolioReturn, rows)
    {
      var totalWeight := SumBy(rows, AverageWeight);
      if totalWeight == 0.0 || !carino {
        return;
      }
      var residual, proportions := Residual(rows, portfolioReturn), Proportions(rows);
      for k := 0 to |rows|
        invariant |rows| == |old(rows)|
        invariant forall i :: 0 <= i < k ==> rows[i] == Allocated(old(rows)[i], totalWeight, residual, proportions)
        invariant forall i :: k <= i < |rows| ==> rows[i] == old(rows)[i]
      {
        rows := rows[k := Allocated(rows[k], totalWeight, residual, proportions)];
      }
    }
  }

  lemma {:induction false} ShareAlgebra(c: real, r: real, w: real, total: real)
    requires total != 0.0
    ensures c + r * (w / total) == 1.0 * c + (r / total) * w
  {
    assert w / total == w * (1.0 / total) && r / total == r * (1.0 / total);
    assert r * (w * (1.0 / total)) == r * (1.0 / total) * w;
  }

  /** After the allocation the position contributions add up to the portfolio return. */
  lemma {:induction false} AllocationReachesReturn(before: seq<PositionTotal>, portfolioReturn: real, after: seq<PositionTotal>)
    requires SumBy(before, AverageWeight) != 0.0 && AllocatedRows(before, portfolioReturn, after)
    ensures SumBy(after, TotalContribution) == portfolioReturn
  {
    hide SumBy;
    var w, r := SumBy(before, AverageWeight), Residual(before, portfolioReturn);
    var f := (t: PositionTotal) => 1.0 * t.contribution + (r / w) * t.weightAvg;
    forall i | 0 <= i < |before| ensures TotalContribution(after[i]) == f(before[i]) {
      ShareAlgebra(before[i].contribution, r, before[i].weightAvg, w);
    }
    SumByPointwise(after, TotalContribution, before, f);
    SumByLinear(before, f, 1.0, TotalContribution, r / w, AverageWeight);
    assert (r / w) * w == r;
  }

  /** A position whose local and FX parts made up its contribution keeps that property. */
  lemma {:induction false} AllocationKeepsCurrencySplit(before: seq<PositionTotal>, portfolioReturn: real, after: seq<PositionTotal>)
    requires SumBy(before, AverageWeight) != 0.0 && AllocatedRows(before, portfolioReturn, after)
    requires forall t :: t in before ==> t.contribution == t.localContribution + t.fxContribution
    ensures forall t :: t in after ==> t.contribution == t.localContribution + t.fxContribution
  {
    hide SumBy, ResidualProportions;
    SumByLinear(before, TotalContribution, 1.0, TotalLocal, 1.0, TotalFx);
    ProportionsSumToOne(SumBy(before, TotalLocal), SumBy(before, TotalFx), SumBy(before, TotalContribution));
    var p, r := Proportions(before), Residual(before, portfolioReturn);
    forall i | 0 <= i < |before|
      ensures after[i].contribution == after[i].localContribution + after[i].fxContribution
    {
      var share := before[i].weightAvg / SumBy(before, AverageWeight);
      assert before[i] in before;
      SplitAlgebra(r, p.0, p.1, share);
    }
  }

  lemma {:induction false} ColumnAlgebra(c: real, r: real, w: real, total: real)
    requires total != 0.0
    ensures c + r * (w / total) == 1.0 * c + (r / total) * w
  {
    ShareAlgebra(c, r, w, total);
  }

  /** The allocation raises the local total by the local share of the residual, and the FX total by the FX share. */
  lemma {:induction false} AllocatedSum(before: seq<PositionTotal>, after: seq<PositionTotal>, f: PositionTotal -> real,
                                        r: real, w: real)
    requires |after| == |before| && w == SumBy(before, AverageWeight) != 0.0
    requires forall i :: 0 <= i < |before| ==> f(after[i]) == f(before[i]) + r * (before[i].weightAvg / w)
    ensures SumBy(after, f) == SumBy(before, f) + r
  {
    hide SumBy;
    var g := (t: PositionTotal) => 1.0 * f(t) + (r / w) * t.weightAvg;
    forall i | 0 <= i < |before| ensures f(after[i]) == g(before[i]) {
      ColumnAlgebra(f(before[i]), r, before[i].weightAvg, w);
    }
    SumByPointwise(after, f, before, g);
    SumByLinear(before, g, 1.0, f, r / w, AverageWeight);
    assert (r / w) * w == r;
  }

  /** The allocation raises the local total by the local share of the residual, and the FX total by the FX share. */
  lemma {:induction false} AllocatedColumnSums(before: seq<PositionTotal>, portfolioReturn: real, after: seq<PositionTotal>)
    requires SumBy(before, AverageWeight) != 0.0 && AllocatedRows(before, portfolioReturn, after)
    ensures SumBy(after, TotalLocal) == SumBy(before, TotalLocal) + Residual(before, portfolioReturn) * Proportions(before).0
    ensures SumBy(after, TotalFx) == SumBy(before, TotalFx) + Residual(before, portfolioReturn) * Proportions(before).1
  {
    hide SumBy, Proportions, Residual;
    var w, r, p := SumBy(before, AverageWeight), Residual(before, portfolioReturn), Proportions(before);
    AllocatedSum(before, after, TotalLocal, r * p.0, w);
    AllocatedSum(before, after, TotalFx, r * p.1, w);
  }

  lemma {:induction false} ShareOfTotal(l: real, t: real, r: real, p: real)
    requires t != 0.0 && p == l / t
    ensures (l + (r - t) * p) * t == l * r
  {
    assert p * t == l;
    assert (r - t) * p * t == (r - t) * l;
  }

  lemma {:induction false} ShareOfParts(l: real, parts: real, d: real, p: real)
    requires parts != 0.0 && p == l / parts
    ensures d * p * parts == d * l
  {
    assert p * parts == l;
  }

  /** Where the residual goes: with a total contribution, in proportion to local and FX, so that both keep their ratio to
      the total; with vanishing parts, to local; otherwise by the sizes of the parts. */
  lemma {:induction false} ResidualGoesTo(before: seq<PositionTotal>, portfolioReturn: real, after: seq<PositionTotal>)
    requires SumBy(before, AverageWeight) != 0.0 && AllocatedRows(before, portfolioReturn, after)
    ensures var total, local, fx := SumBy(before, TotalContribution), SumBy(before, TotalLocal), SumBy(before, TotalFx);
      var newLocal, newFx := SumBy(after, TotalLocal), SumBy(after, TotalFx);
      if Abs(total) > 0.000000000001 then
        newLocal * total == local * portfolioReturn && newFx * total == fx * portfolioReturn
      else if Abs(local) + Abs(fx) <= 0.000000000001 then
        newLocal == local + (portfolioReturn - total) && newFx == fx
      else
        && (newLocal - local) * (Abs(local) + Abs(fx)) == (portfolioReturn - total) * Abs(local)
        && (newLocal - local) + (newFx - fx) == portfolioReturn - total
  {
    hide SumBy, AllocatedRows, Abs;
    AllocatedColumnSums(before, portfolioReturn, after);
    var total, local, fx := SumBy(before, TotalContribution), SumBy(before, TotalLocal), SumBy(before, TotalFx);
    var p := Proportions(before);
    if Abs(total) > 0.000000000001 {
      NonZeroTotal(total);
      ShareOfTotal(local, total, portfolioReturn, p.0);
      ShareOfTotal(fx, total, portfolioReturn, p.1);
    } else if Abs(local) + Abs(fx) > 0.000000000001 {
      ShareOfParts(Abs(local), Abs(local) + Abs(fx), portfolioReturn - total, p.0);
      assert (portfolioReturn - total) * p.0 + (portfolioReturn - total) * (1.0 - p.0) == portfolioReturn - total;
    }
  }

  lemma {:induction false} NonZeroTotal(x: real)
    requires Abs(x) > 0.000000000001
    ensures x != 0.0
  {
  }

  /** Every position takes its weight's part of the changes, and nothing else of it changes. */
  lemma {:induction false} PositionTakesShare(before: seq<PositionTotal>, portfolioReturn: real, after: seq<PositionTotal>, i: nat)
    requires SumBy(before, AverageWeight) != 0.0 && AllocatedRows(before, portfolioReturn, after) && i < |before|
    ensures after[i].positionId == before[i].positionId && after[i].weightAvg == before[i].weightAvg
    ensures (after[i].contribution - before[i].contribution) * SumBy(before, AverageWeight)
         == (portfolioReturn - SumBy(before, TotalContribution)) * before[i].weightAvg
    ensures (after[i].localContribution - before[i].localContribution) * SumBy(before, AverageWeight)
         == (SumBy(after, TotalLocal) - SumBy(before, TotalLocal)) * before[i].weightAvg
    ensures (after[i].fxContribution - before[i].fxContribution) * SumBy(before, AverageWeight)
         == (SumBy(after, TotalFx) - SumBy(before, TotalFx)) * before[i].weightAvg
  {
    hide SumBy, Proportions;
    AllocatedColumnSums(before, portfolioReturn, after);
    var w, r, p := SumBy(before, AverageWeight), Residual(before, portfolioReturn), Proportions(before);
    ShareTimes(r, before[i].weightAvg, w);
    ShareTimes(r * p.0, before[i].weightAvg, w);
    ShareTimes(r * p.1, before[i].weightAvg, w);
  }

  lemma {:induction false} ShareTimes(r: real, v: real, w: real)
    requires w != 0.0
    ensures r * (v / w) * w == r * v
  {
    assert v / w * w == v;
  }

  lemma {:induction false} SplitAlgebra(r: real, a: real, b: real, s: real)
    requires a + b == 1.0
    ensures r * a * s + r * b * s == r * s
  {
    assert r * a * s + r * b * s == r * s * (a + b);
  }
}
