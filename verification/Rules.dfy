/** Sign, no-investment-period and reset rules of the daily engine. Returns are percentages. */
module Rules {
  import opened Wrappers
  import opened Polynomials
  import opened Columns

  /** The monetary columns the rules read. */
  datatype Money = Money(beginMv: seq<real>, bodCf: seq<real>, eodCf: seq<real>, endMv: seq<real>)

  predicate Aligned(m: Money) {
    |m.beginMv| == |m.bodCf| == |m.eodCf| == |m.endMv|
  }

  function InitialSign(m: Money): (r: seq<int>)
    requires Aligned(m)
    ensures |r| == |m.bodCf|
    ensures forall i :: 0 <= i < |r| ==> r[i] == Sign(m.beginMv[i] + m.bodCf[i])
  {
    seq(|m.bodCf|, i requires 0 <= i < |m.bodCf| => Sign(m.beginMv[i] + m.bodCf[i]))
  }

  // ---------------------------------------------------------------- sign

  /** Rows at which the sign may change: the first row, an opening flow, a flow at the previous close or a
      reset of the previous day. */
  function FlipEvents(m: Money, perfReset: seq<bool>): (r: seq<bool>)
    requires Aligned(m) && |perfReset| == |m.bodCf|
    ensures |r| == |m.bodCf|
    ensures forall i :: 0 <= i < |r| ==>
      (r[i] <==> i == 0 || m.bodCf[i] != 0.0 || m.eodCf[i - 1] != 0.0 || perfReset[i - 1])
  {
    var prevEod, prevReset := ShiftDown(m.eodCf, 0.0), ShiftDown(perfReset, false);
    seq(|m.bodCf|, i requires 0 <= i < |m.bodCf| =>
      i == 0 || m.bodCf[i] != 0.0 || prevEod[i] != 0.0 || prevReset[i])
  }

  /** The vectorised rule: event signs, filled forward inside the groups the events number. */
  function CalculateSign(m: Money, perfReset: seq<bool>): (r: seq<int>)
    requires Aligned(m) && |perfReset| == |m.bodCf|
    ensures |r| == |m.bodCf|
  {
    var flips := FlipEvents(m, perfReset);
    FillMissing(GroupForwardFill(Where(InitialSign(m), flips), CumSum(flips)), 0)
  }

  /** The same rule one day at a time. */
  function SignOnDay(initial: seq<int>, flips: seq<bool>, i: nat): int
    requires i < |initial| == |flips|
  {
    if i == 0 || flips[i] then initial[i] else SignOnDay(initial, flips, i - 1)
  }

  lemma {:induction false} LastEventIsSign(initial: seq<int>, flips: seq<bool>, i: nat)
    requires i < |initial| == |flips| && flips[0]
    ensures var ids := CumSum(flips);
            LastInGroup(Where(initial, flips), ids, ids[i], i + 1) == Some(SignOnDay(initial, flips, i))
  {
    if i > 0 && !flips[i] {
      LastEventIsSign(initial, flips, i - 1);
      assert CumSum(flips)[i] == CumSum(flips)[i - 1];
    }
  }

  /** The column form and the day-by-day machine agree on every day. */
  lemma {:induction false} SignIsMachine(m: Money, perfReset: seq<bool>, i: nat)
    requires Aligned(m) && i < |perfReset| == |m.bodCf|
    ensures CalculateSign(m, perfReset)[i] == SignOnDay(InitialSign(m), FlipEvents(m, perfReset), i)
  {
    LastEventIsSign(InitialSign(m), FlipEvents(m, perfReset), i);
  }

  /** An opening flow on day k, or a flow at the close or a reset on the day before. */
  predicate SignEvent(m: Money, perfReset: seq<bool>, k: nat)
    requires Aligned(m) && 0 < k < |perfReset| == |m.bodCf|
  {
    m.bodCf[k] != 0.0 || m.eodCf[k - 1] != 0.0 || perfReset[k - 1]
  }

  /** The sign of a day is the raw sign of the latest event day at or before it; in between it is frozen. */
  lemma {:induction false} SignFrozenBetweenEvents(m: Money, perfReset: seq<bool>, i: nat) returns (e: nat)
    requires Aligned(m) && i < |perfReset| == |m.bodCf|
    ensures e <= i && CalculateSign(m, perfReset)[i] == Sign(m.beginMv[e] + m.bodCf[e])
    ensures forall k :: e < k <= i ==> !SignEvent(m, perfReset, k)
    ensures e == 0 || SignEvent(m, perfReset, e)
  {
    hide CalculateSign, SignOnDay;
    SignIsMachine(m, perfReset, i);
    e := LastEvent(InitialSign(m), FlipEvents(m, perfReset), i);
    forall k | e < k <= i ensures !SignEvent(m, perfReset, k) {
      assert !FlipEvents(m, perfReset)[k];
    }
  }

  lemma {:induction false} LastEvent(initial: seq<int>, flips: seq<bool>, i: nat) returns (e: nat)
    requires i < |initial| == |flips|
    ensures e <= i && SignOnDay(initial, flips, i) == initial[e]
    ensures forall k :: e < k <= i ==> !flips[k]
    ensures e == 0 || flips[e]
  {
    if i == 0 || flips[i] {
      e := i;
    } else {
      e := LastEvent(initial, flips, i - 1);
    }
  }

  // ---------------------------------------------------------------- no-investment periods

  predicate NipV1(beginMv: real, bodCf: real, eodCf: real, endMv: real) {
    beginMv + bodCf + endMv + eodCf == 0.0 && eodCf == -(Sign(bodCf) as real)
  }

  predicate NipV2(beginMv: real, bodCf: real, eodCf: real, endMv: real) {
    beginMv + bodCf == 0.0 && endMv + eodCf == 0.0
  }

  /** The first rule, case by case: the values cancel, and either nothing flows or one unit flows at the close against the
      sign of the opening flow. */
  lemma {:induction false} NipV1Cases(beginMv: real, bodCf: real, eodCf: real, endMv: real)
    ensures NipV1(beginMv, bodCf, eodCf, endMv) <==>
      && beginMv + endMv == -(bodCf + eodCf)
      && ((bodCf == 0.0 && eodCf == 0.0) || (bodCf > 0.0 && eodCf == -1.0) || (bodCf < 0.0 && eodCf == 1.0))
  {
  }

  /** Rule 2 does not depend on the monetary unit. Rule 1 compares a flow with a unit: on days with flows
      it survives a change of unit only when the unit stays the same. */
  lemma {:induction false} NipUnderRescaling(beginMv: real, bodCf: real, eodCf: real, endMv: real, k: real)
    requires k > 0.0
    ensures NipV2(k * beginMv, k * bodCf, k * eodCf, k * endMv) <==> NipV2(beginMv, bodCf, eodCf, endMv)
    ensures NipV1(beginMv, bodCf, eodCf, endMv) ==>
              (NipV1(k * beginMv, k * bodCf, k * eodCf, k * endMv) <==> k == 1.0 || bodCf == 0.0)
  {
    ScaledSum(k, beginMv, bodCf);
    ScaledSum(k, endMv, eodCf);
    ScaledSum(k, beginMv + bodCf, endMv + eodCf);
    assert Sign(k * bodCf) == Sign(bodCf);
  }

  /** A flow of one unit in and out is a no-investment day under rule 1, the same flow in cents is not. */
  lemma {:induction false} NipDependsOnUnit()
    ensures NipV1(0.0, 1.0, -1.0, 0.0) && !NipV1(0.0, 100.0, -100.0, 0.0)
  {
  }

  lemma {:induction false} ScaledSum(k: real, a: real, b: real)
    requires k > 0.0
    ensures k * a + k * b == k * (a + b)
    ensures k * (a + b) == 0.0 <==> a + b == 0.0
  {
  }

  // ---------------------------------------------------------------- NCTRL_1 to NCTRL_3

  /** The calendar columns of the reset gate; dates are day ordinals. */
  datatype Calendar = Calendar(perfDate: seq<int>, monthEnd: seq<bool>, reportEnd: int)

  predicate ResetGate(m: Money, cal: Calendar, i: nat)
    requires Aligned(m) && i < |m.bodCf| == |cal.perfDate| == |cal.monthEnd|
  {
    || m.bodCf[i] != 0.0
    || (i + 1 < |m.bodCf| && m.bodCf[i + 1] != 0.0)
    || m.eodCf[i] != 0.0
    || cal.monthEnd[i]
    || i == |m.bodCf| - 1
    || cal.perfDate[i + 1] > cal.reportEnd
  }

  predicate Breach1(long: real, short: real) { long < -100.0 }
  predicate Breach2(long: real, short: real) { short > 100.0 }
  predicate Breach3(long: real, short: real) { short < -100.0 && long != 0.0 }

  function BreachColumn(long: seq<real>, short: seq<real>, breach: (real, real) -> bool): (r: seq<bool>)
    requires |long| == |short|
    ensures |r| == |long|
    ensures forall i :: 0 <= i < |r| ==> r[i] == breach(long[i], short[i])
  {
    seq(|long|, i requires 0 <= i < |long| => breach(long[i], short[i]))
  }

  /** (cond & ~cond.shift(1)) & gate */
  function ThresholdResets(cond: seq<bool>, m: Money, cal: Calendar): (r: seq<bool>)
    requires Aligned(m) && |cond| == |m.bodCf| == |cal.perfDate| == |cal.monthEnd|
    ensures |r| == |cond|
  {
    var prev := ShiftDown(cond, false);
    seq(|cond|, i requires 0 <= i < |cond| => cond[i] && !prev[i] && ResetGate(m, cal, i))
  }

  /** Days lo to hi are a maximal run of the breach. */
  predicate MaximalRun(cond: seq<bool>, lo: nat, hi: nat) {
    && lo <= hi < |cond|
    && (forall k :: lo <= k <= hi ==> cond[k])
    && (lo > 0 ==> !cond[lo - 1])
    && (hi + 1 < |cond| ==> !cond[hi + 1])
  }

  /** Within a maximal run of a breach the reset fires on the first day exactly if that day passes the gate,
      and on no other day of the run; outside runs it never fires. */
  lemma {:induction false} OneResetPerRun(cond: seq<bool>, m: Money, cal: Calendar, lo: nat, hi: nat)
    requires Aligned(m) && |cond| == |m.bodCf| == |cal.perfDate| == |cal.monthEnd|
    requires MaximalRun(cond, lo, hi)
    ensures var fired := ThresholdResets(cond, m, cal);
      && (fired[lo] <==> ResetGate(m, cal, lo))
      && (forall k :: lo < k <= hi ==> !fired[k])
      && (forall k :: 0 <= k < |cond| && fired[k] ==> cond[k])
  {
    var fired := ThresholdResets(cond, m, cal);
    forall k | lo < k <= hi ensures !fired[k] {
      assert cond[k - 1];
    }
  }

  /** NCTRL_4: the previous cumulative state was on a collapse boundary and a flow starts a new episode. */
  function RecapitalisationResets(m: Money, long: seq<real>, short: seq<real>): (r: seq<bool>)
    requires Aligned(m) && |long| == |short| == |m.bodCf|
    ensures |r| == |long|
    ensures forall i :: 0 <= i < |r| ==>
      (r[i] <==> i > 0 && (long[i - 1] <= -100.0 || short[i - 1] >= 100.0)
                 && (m.bodCf[i] != 0.0 || m.eodCf[i - 1] != 0.0))
  {
    var prevLong, prevShort, prevEod := ShiftDown(long, 0.0), ShiftDown(short, 0.0), ShiftDown(m.eodCf, 0.0);
    seq(|long|, i requires 0 <= i < |long| =>
      (prevLong[i] <= -100.0 || prevShort[i] >= 100.0) && (m.bodCf[i] != 0.0 || prevEod[i] != 0.0))
  }
}
