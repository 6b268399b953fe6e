/** What the daily and the compounded returns mean for the capital they are measured on. */
module CapitalGrowth {
  import opened RealArithmetic
  import opened Calculus
  import opened DailyReturns
  import opened CumulativeReturns

  function Opening(r: Row): real { r.beginMv + r.bodCf }

  /** Capital at the close before the closing flow, with fees restored on the net basis. */
  function Closing(r: Row, basis: MetricBasis): real {
    r.endMv - r.eodCf + if basis == Net then r.mgmtFees else 0.0
  }

  predicate OnLeg(r: Row, leg: Leg) {
    r.perfDate >= r.effectiveStart && if leg == Long then Opening(r) > 0.0 else Opening(r) < 0.0
  }

  function DailyRor(r: Row, basis: MetricBasis): real { LocalReturn(r, basis) * 100.0 }

  lemma {:induction false} LongAlgebra(o: real, n: real)
    requires o > 0.0
    ensures o * (1.0 + n / o) == o + n
  {
    assert o * (n / o) == n;
  }

  lemma {:induction false} ShortAlgebra(o: real, n: real)
    requires o < 0.0
    ensures o * (1.0 - n / -o) == o + n
  {
    assert -o * (n / -o) == n;
  }

  /** The growth factor of its leg turns a day's opening capital into its closing capital, for positive and for
      negative capital: the short leg subtracts the return because the return is measured on the absolute value. */
  lemma {:induction false} DayGrowth(r: Row, basis: MetricBasis, leg: Leg)
    requires OnLeg(r, leg)
    ensures Opening(r) * GrowthFactor(DailyRor(r, basis), leg) == Closing(r, basis)
  {
    var n := Numerator(r, basis);
    assert DailyRor(r, basis) / 100.0 == n / Denominator(r);
    assert Opening(r) + n == Closing(r, basis);
    if leg == Long {
      LongAlgebra(Opening(r), n);
    } else {
      ShortAlgebra(Opening(r), n);
    }
  }

  /** Days lo to i lie on one leg and in one block, and no capital enters or leaves between them. */
  predicate Held(rows: seq<Row>, basis: MetricBasis, leg: Leg, sign: seq<int>, starts: seq<bool>, lo: nat, i: nat) {
    && lo <= i < |rows| == |sign| == |starts|
    && (lo == 0 || starts[lo])
    && (forall k :: lo <= k <= i ==> OnLeg(rows[k], leg) && sign[k] == if leg == Long then 1 else -1)
    && (forall k :: lo < k <= i ==> !starts[k])
    && (forall k :: lo <= k < i ==> Opening(rows[k + 1]) == Closing(rows[k], basis))
  }

  function DailyColumn(rows: seq<Row>, basis: MetricBasis): (r: seq<real>)
    ensures |r| == |rows| && forall k :: 0 <= k < |rows| ==> r[k] == DailyRor(rows[k], basis)
  {
    seq(|rows|, k requires 0 <= k < |rows| => DailyRor(rows[k], basis))
  }

  lemma {:induction false} GrowthStep(rows: seq<Row>, basis: MetricBasis, leg: Leg, sign: seq<int>, starts: seq<bool>,
                                      lo: nat, i: nat)
    requires Held(rows, basis, leg, sign, starts, lo, i)
    ensures var factors := GrowthFactors(DailyColumn(rows, basis), LegDays(sign, leg), leg);
      && i < |factors| == |starts| == |rows|
      && Opening(rows[i]) * factors[i] == Closing(rows[i], basis)
      && GrowthOnDay(factors, starts, i) == if i == lo then factors[i] else GrowthOnDay(factors, starts, i - 1) * factors[i]
  {
    hide OnLeg, Opening, Closing, DailyRor, GrowthFactor;
    DayGrowth(rows[i], basis, leg);
  }

  lemma {:induction false} HeldRows(rows: seq<Row>, basis: MetricBasis, leg: Leg, sign: seq<int>,
                                    starts: seq<bool>, lo: nat, i: nat)
    requires Held(rows, basis, leg, sign, starts, lo, i)
    ensures lo <= i < |rows| == |sign| == |starts|
  {
  }

  lemma {:induction false} HeldDayBefore(rows: seq<Row>, basis: MetricBasis, leg: Leg, sign: seq<int>,
                                         starts: seq<bool>, lo: nat, i: nat)
    requires Held(rows, basis, leg, sign, starts, lo, i) && lo < i
    ensures Held(rows, basis, leg, sign, starts, lo, i - 1) && Opening(rows[i]) == Closing(rows[i - 1], basis)
  {
    hide OnLeg, Opening, Closing, LegDays;
    var k := i - 1;
    assert Opening(rows[k + 1]) == Closing(rows[k], basis);
  }

  /** Compounding a held position multiplies its first opening capital up to its last closing capital. */
  lemma {:induction false} HeldGrowth(rows: seq<Row>, basis: MetricBasis, leg: Leg, sign: seq<int>, starts: seq<bool>,
                                      lo: nat, i: nat)
    requires Held(rows, basis, leg, sign, starts, lo, i)
    ensures Opening(rows[lo]) * GrowthOnDay(GrowthFactors(DailyColumn(rows, basis), LegDays(sign, leg), leg), starts, i)
         == Closing(rows[i], basis)
  {
    hide OnLeg, Opening, Closing, GrowthOnDay, GrowthFactors, LegDays, DailyColumn, Held;
    HeldRows(rows, basis, leg, sign, starts, lo, i);
    var factors := GrowthFactors(DailyColumn(rows, basis), LegDays(sign, leg), leg);
    GrowthStep(rows, basis, leg, sign, starts, lo, i);
    if lo < i {
      HeldDayBefore(rows, basis, leg, sign, starts, lo, i);
      HeldGrowth(rows, basis, leg, sign, starts, lo, i - 1);
      MulAssociative(Opening(rows[lo]), GrowthOnDay(factors, starts, i - 1), factors[i]);
    }
  }

  /** The relative gain of a position since its block began, in percent: closing over opening capital less 1 on the
      long leg, 1 less closing over opening on the short leg. */
  function GainPercent(leg: Leg, opening: real, closing: real): real
    requires opening != 0.0
  {
    match leg
    case Long => (closing / opening - 1.0) * 100.0
    case Short => (1.0 - closing / opening) * 100.0
  }

  /** The column the engine reports for a held position is that gain. */
  lemma {:induction false} HeldPositionReturn(rows: seq<Row>, basis: MetricBasis, leg: Leg, sign: seq<int>,
                                              starts: seq<bool>, lo: nat, i: nat)
    requires Held(rows, basis, leg, sign, starts, lo, i) && starts[0]
    ensures Opening(rows[lo]) != 0.0
    ensures CompoundRor(DailyColumn(rows, basis), sign, leg, starts)[i]
         == GainPercent(leg, Opening(rows[lo]), Closing(rows[i], basis))
  {
    hide Closing, GrowthOnDay, GrowthFactors, DailyColumn, CompoundRor;
    var daily := DailyColumn(rows, basis);
    CompoundIsMachine(daily, sign, leg, starts, i);
    assert LegDays(sign, leg)[i];
    HeldGrowth(rows, basis, leg, sign, starts, lo, i);
    assert OnLeg(rows[lo], leg);
    QuotientOf(Opening(rows[lo]), GrowthOnDay(GrowthFactors(daily, LegDays(sign, leg), leg), starts, i),
               Closing(rows[i], basis));
  }

  lemma {:induction false} QuotientOf(o: real, g: real, c: real)
    requires o != 0.0 && o * g == c
    ensures c / o == g
  {
  }
}
