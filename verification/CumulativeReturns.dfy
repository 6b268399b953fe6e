/** Cumulative long and short returns with resets and no-investment periods. Returns are percentages. */
module CumulativeReturns {
  import opened Wrappers
  import opened Columns
  import opened Rules
  import opened SodResets

  datatype Leg = Long | Short

  function LegDays(sign: seq<int>, leg: Leg): (r: seq<bool>)
    ensures |r| == |sign| && forall i :: 0 <= i < |r| ==> r[i] == (sign[i] == if leg == Long then 1 else -1)
  {
    seq(|sign|, i requires 0 <= i < |sign| => sign[i] == if leg == Long then 1 else -1)
  }

  function GrowthFactor(daily: real, leg: Leg): real {
    if leg == Long then 1.0 + daily / 100.0 else 1.0 - daily / 100.0
  }

  /** 1 on days that do not belong to the leg. */
  function GrowthFactors(daily: seq<real>, legDays: seq<bool>, leg: Leg): (r: seq<real>)
    requires |daily| == |legDays|
    ensures |r| == |daily|
    ensures forall i :: 0 <= i < |r| ==> r[i] == if legDays[i] then GrowthFactor(daily[i], leg) else 1.0
  {
    seq(|daily|, i requires 0 <= i < |daily| => if legDays[i] then GrowthFactor(daily[i], leg) else 1.0)
  }

  /** First row, change of effective start, and with resets the day after a reset. */
  function BlockStarts(effectiveStart: seq<int>, resets: seq<bool>): (r: seq<bool>)
    requires |effectiveStart| == |resets|
    ensures |r| == |resets|
    ensures forall i :: 0 <= i < |r| ==>
      (r[i] <==> i == 0 || effectiveStart[i] != effectiveStart[i - 1] || resets[i - 1])
  {
    var prev := ShiftDown(resets, false);
    seq(|resets|, i requires 0 <= i < |resets| =>
      i == 0 || effectiveStart[i] != effectiveStart[i - 1] || prev[i])
  }

  function LegReturn(growth: real, leg: Leg): real {
    if leg == Long then (growth - 1.0) * 100.0 else -((growth - 1.0) * 100.0)
  }

  function LegReturns(growth: seq<real>, leg: Leg): (r: seq<real>)
    ensures |r| == |growth| && forall i :: 0 <= i < |r| ==> r[i] == LegReturn(growth[i], leg)
  {
    seq(|growth|, i requires 0 <= i < |growth| => LegReturn(growth[i], leg))
  }

  /** The column form: cumulative product per block, masked to the leg's days, filled forward. */
  function CompoundRor(daily: seq<real>, sign: seq<int>, leg: Leg, starts: seq<bool>): (r: seq<real>)
    requires |daily| == |sign| == |starts|
    ensures |r| == |daily|
  {
    var legDays := LegDays(sign, leg);
    var growth := GroupCumProd(GrowthFactors(daily, legDays, leg), CumSum(starts));
    ForwardFill(Where(LegReturns(growth, leg), legDays), 0.0)
  }

  // ---------------------------------------------------------------- the one-pass machine

  /** Growth restarts at the factor of a block's first day. */
  function GrowthOnDay(factors: seq<real>, starts: seq<bool>, i: nat): real
    requires i < |factors| == |starts|
  {
    if i == 0 || starts[i] then factors[i] else GrowthOnDay(factors, starts, i - 1) * factors[i]
  }

  /** A leg day reports its growth; other days repeat the last leg day, or 0 before any. */
  function LegOnDay(daily: seq<real>, sign: seq<int>, leg: Leg, starts: seq<bool>, i: nat): real
    requires i < |daily| == |sign| == |starts|
  {
    var legDays := LegDays(sign, leg);
    if legDays[i] then LegReturn(GrowthOnDay(GrowthFactors(daily, legDays, leg), starts, i), leg)
    else if i == 0 then 0.0
    else LegOnDay(daily, sign, leg, starts, i - 1)
  }

  lemma {:induction false} GroupProductIsGrowth(factors: seq<real>, starts: seq<bool>, i: nat)
    requires i < |factors| == |starts| && starts[0]
    ensures GroupCumProd(factors, CumSum(starts))[i] == GrowthOnDay(factors, starts, i)
  {
    var ids := CumSum(starts);
    if i == 0 || starts[i] {
      GroupProductBeforeStart(factors, starts, ids[i], i);
    } else {
      GroupProductIsGrowth(factors, starts, i - 1);
      assert ids[i] == ids[i - 1];
    }
  }

  lemma {:induction false} LastLegDay(daily: seq<real>, sign: seq<int>, leg: Leg, starts: seq<bool>, i: nat)
    requires i < |daily| == |sign| == |starts| && starts[0]
    ensures var legDays := LegDays(sign, leg);
            var growth := GroupCumProd(GrowthFactors(daily, legDays, leg), CumSum(starts));
            var v := LastPresent(Where(LegReturns(growth, leg), legDays), i + 1);
            LegOnDay(daily, sign, leg, starts, i) == if v.Some? then v.value else 0.0
  {
    var legDays := LegDays(sign, leg);
    if legDays[i] {
      GroupProductIsGrowth(GrowthFactors(daily, legDays, leg), starts, i);
    } else if i > 0 {
      LastLegDay(daily, sign, leg, starts, i - 1);
    }
  }

  /** Block-grouped cumulative product, mask and forward fill are the one-pass machine. */
  lemma {:induction false} CompoundIsMachine(daily: seq<real>, sign: seq<int>, leg: Leg, starts: seq<bool>, i: nat)
    requires i < |daily| == |sign| == |starts| && starts[0]
    ensures CompoundRor(daily, sign, leg, starts)[i] == LegOnDay(daily, sign, leg, starts, i)
  {
    LastLegDay(daily, sign, leg, starts, i);
  }

  // ---------------------------------------------------------------- Decimal cumulative product

  function ProductUpTo(s: seq<real>, n: nat): real
    requires n <= |s|
  {
    if n == 0 then 1.0 else ProductUpTo(s, n - 1) * s[n - 1]
  }

  /** The Decimal path: a copy of one block, multiplied up in place. */
  method DecimalCumProd(series: seq<real>) returns (result: seq<real>)
    ensures |result| == |series|
    ensures forall i :: 0 <= i < |series| ==> result[i] == ProductUpTo(series, i + 1)
  {
    result := series;
    var i := 1;
    while i < |series|
      invariant 1 <= i && |result| == |series|
      invariant forall k :: 0 <= k < i && k < |series| ==> result[k] == ProductUpTo(series, k + 1)
      invariant forall k :: i <= k < |series| ==> result[k] == series[k]
    {
      result := result[i := result[i - 1] * result[i]];
      i := i + 1;
    }
  }

  /** On the rows of one block the Decimal loop computes the machine's growth. */
  lemma {:induction false} DecimalPathAgrees(factors: seq<real>, starts: seq<bool>, lo: nat, i: nat, hi: nat)
    requires lo <= i < hi <= |factors| == |starts|
    requires (lo == 0 || starts[lo]) && forall k :: lo < k < hi ==> !starts[k]
    ensures ProductUpTo(factors[lo..hi], i - lo + 1) == GrowthOnDay(factors, starts, i)
  {
    if lo < i {
      DecimalPathAgrees(factors, starts, lo, i - 1, hi);
    } else {
      assert ProductUpTo(factors[lo..hi], 0) == 1.0;
    }
  }

  // ---------------------------------------------------------------- long-leg currency composition

  /** Daily base return composed of a local and an FX return, in percent. */
  function BaseReturn(local: real, fx: real): real {
    ((1.0 + local / 100.0) * (1.0 + fx / 100.0) - 1.0) * 100.0
  }

  /** Growth of factors that are products, day by day, is the product of the growths. */
  lemma {:induction false} GrowthOfProducts(b: seq<real>, l: seq<real>, f: seq<real>, starts: seq<bool>, i: nat)
    requires i < |b| == |l| == |f| == |starts|
    requires forall k :: 0 <= k < |b| ==> b[k] == l[k] * f[k]
    ensures GrowthOnDay(b, starts, i) == GrowthOnDay(l, starts, i) * GrowthOnDay(f, starts, i)
  {
    hide GrowthOnDay;
    GrowthUnfolded(b, starts, i);
    GrowthUnfolded(l, starts, i);
    GrowthUnfolded(f, starts, i);
    if i > 0 && !starts[i] {
      GrowthOfProducts(b, l, f, starts, i - 1);
      Interchange(GrowthOnDay(l, starts, i - 1), GrowthOnDay(f, starts, i - 1), l[i], f[i],
                  GrowthOnDay(b, starts, i - 1), b[i]);
    }
  }

  lemma {:induction false} GrowthUnfolded(factors: seq<real>, starts: seq<bool>, i: nat)
    requires i < |factors| == |starts|
    ensures i == 0 || starts[i] ==> GrowthOnDay(factors, starts, i) == factors[i]
    ensures i > 0 && !starts[i] ==> GrowthOnDay(factors, starts, i) == GrowthOnDay(factors, starts, i - 1) * factors[i]
  {
  }

  /** On the long leg the base growth of a block is the product of its local and FX growth. */
  lemma {:induction false} LongGrowthComposes(base: seq<real>, local: seq<real>, fx: seq<real>, days: seq<bool>, starts: seq<bool>, i: nat)
    requires i < |base| == |local| == |fx| == |days| == |starts|
    requires forall k :: 0 <= k < |base| ==> base[k] == BaseReturn(local[k], fx[k])
    ensures GrowthOnDay(GrowthFactors(base, days, Long), starts, i)
         == GrowthOnDay(GrowthFactors(local, days, Long), starts, i) * GrowthOnDay(GrowthFactors(fx, days, Long), starts, i)
  {
    hide BaseReturn, GrowthFactor, GrowthOnDay;
    var b, l, f := GrowthFactors(base, days, Long), GrowthFactors(local, days, Long), GrowthFactors(fx, days, Long);
    forall k | 0 <= k < |base| ensures b[k] == l[k] * f[k] {
      ComposedFactor(base[k], local[k], fx[k]);
    }
    GrowthOfProducts(b, l, f, starts, i);
  }

  lemma {:induction false} ComposedFactor(base: real, local: real, fx: real)
    requires base == BaseReturn(local, fx)
    ensures GrowthFactor(base, Long) == GrowthFactor(local, Long) * GrowthFactor(fx, Long)
  {
  }

  /** On the short leg a day's base growth is the product of its local and FX growth only if one of the two returns is
      zero: the growth 1 - base subtracts their product, the product of the growths adds it. */
  lemma {:induction false} ShortFactorComposesIff(local: real, fx: real)
    ensures GrowthFactor(BaseReturn(local, fx), Short) == GrowthFactor(local, Short) * GrowthFactor(fx, Short)
       <==> local == 0.0 || fx == 0.0
  {
    var l, f := local / 100.0, fx / 100.0;
    ShortAlgebra(l, f);
    assert BaseReturn(local, fx) / 100.0 == (1.0 + l) * (1.0 + f) - 1.0;
    if l != 0.0 && f != 0.0 {
      assert l * f != 0.0;
    }
  }

  lemma {:induction false} ShortAlgebra(l: real, f: real)
    ensures (1.0 - l) * (1.0 - f) - (1.0 - ((1.0 + l) * (1.0 + f) - 1.0)) == 2.0 * (l * f)
  {
  }

  /** 10 % local and 10 % FX: the short leg grows by 0.79, its local and FX legs by 0.81. */
  lemma {:induction false} ShortLegDoesNotCompose()
    ensures GrowthFactor(BaseReturn(10.0, 10.0), Short) == 0.79
    ensures GrowthFactor(10.0, Short) * GrowthFactor(10.0, Short) == 0.81
  {
  }

  lemma {:induction false} Interchange(a: real, b: real, c: real, d: real, p: real, q: real)
    requires p == a * b && q == c * d
    ensures p * q == (a * c) * (b * d)
  {
    assert (a * b) * (c * d) == (a * c) * (b * d);
  }
}
