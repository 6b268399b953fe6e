/** The cumulative return an account is left with after the whole pipeline, in terms of its capital. */
module HeldAccounts {
  import opened Wrappers
  import opened Columns
  import opened Rules
  import opened DailyReturns
  import opened CumulativeReturns
  import opened CapitalGrowth
  import opened ReturnFrames

  function Other(leg: Leg): Leg { if leg == Long then Short else Long }

  lemma {:induction false} FinalOfOneLeg(x: Inputs, leg: Leg, i: nat)
    requires WellFormed(x) && i < Rows(x) && LegState(x, 0, Other(leg))[i] == 0.0
    ensures FinalOnDay(x, i) == LegState(x, 0, leg)[i]
  {
    hide LegState;
  }

  /** On a day that is neither a reset nor a no-investment day, a position held since its block began on one leg, with
      nothing on the other, has its relative gain as the leg's and as the final cumulative return. */
  lemma {:induction false} HeldAccountReturn(x: Inputs, rows: seq<Row>, basis: MetricBasis, leg: Leg, lo: nat, i: nat)
    requires WellFormed(x) && x.components[0] == DailyColumn(rows, basis) && i < Rows(x) == |rows|
    requires Held(rows, basis, leg, x.sign, BlockStarts(x.effectiveStart, InitialResets(x)), lo, i)
    requires !x.nip[i] && !ActiveResets(x)[i] && LegState(x, 0, Other(leg))[i] == 0.0
    ensures Opening(rows[lo]) != 0.0
    ensures LegState(x, 0, leg)[i] == GainPercent(leg, Opening(rows[lo]), Closing(rows[i], basis))
    ensures FinalOnDay(x, i) == GainPercent(leg, Opening(rows[lo]), Closing(rows[i], basis))
  {
    hide LegState, InitialResets, ActiveResets, Compounded, CompoundRor, LegOnDay, Held, GainPercent;
    var starts := BlockStarts(x.effectiveStart, InitialResets(x));
    OtherDaysAreMachine(x, 0, leg, i);
    CompoundIsMachine(x.components[0], x.sign, leg, starts, i);
    HeldPositionReturn(rows, basis, leg, x.sign, starts, lo, i);
    FinalOfOneLeg(x, leg, i);
  }

  /** With both legs, the growths multiply. */
  lemma {:induction false} FinalCompoundsLegs(x: Inputs, i: nat)
    requires WellFormed(x) && i < Rows(x)
    ensures 1.0 + FinalOnDay(x, i) / 100.0 == (1.0 + LegState(x, 0, Long)[i] / 100.0) * (1.0 + LegState(x, 0, Short)[i] / 100.0)
  {
    hide LegState;
  }

  // ---------------------------------------------------------------- a short account

  /** Capital of -100 that closes at -90 gains 10 % for its holder. */
  const SHORT_ROW: Row := Row(1, 1, -100.0, 0.0, 0.0, 0.0, -90.0)

  lemma {:induction false} ShortAccountGains(basis: MetricBasis)
    ensures DailyRor(SHORT_ROW, basis) == 10.0
    ensures CompoundRor(DailyColumn([SHORT_ROW], basis), [-1], Short, [true])[0] == 10.0
  {
    hide CompoundRor;
    assert Held([SHORT_ROW], basis, Short, [-1], [true], 0, 0);
    HeldPositionReturn([SHORT_ROW], basis, Short, [-1], [true], 0, 0);
  }

  // ---------------------------------------------------------------- where the resets fire

  /** The gate, in the frame's own columns. */
  predicate GateOpen(x: Inputs, i: nat)
    requires WellFormed(x) && i < Rows(x)
  {
    || x.money.bodCf[i] != 0.0
    || x.money.eodCf[i] != 0.0
    || x.calendar.monthEnd[i]
    || i + 1 == Rows(x)
    || x.money.bodCf[i + 1] != 0.0
    || x.calendar.perfDate[i + 1] > x.calendar.reportEnd
  }

  function LongBefore(x: Inputs): seq<real>
    requires WellFormed(x)
  {
    Compounded(x, 0, Long, NoResets(Rows(x)))
  }

  function ShortBefore(x: Inputs): seq<real>
    requires WellFormed(x)
  {
    Compounded(x, 0, Short, NoResets(Rows(x)))
  }

  /** NCTRL_1 fires where the long leg falls below -100 %, NCTRL_2 where the short leg rises above 100 %, NCTRL_3 where
      the short leg is below -100 % beside a nonzero long leg: on the first day of such a state, if the gate is open. */
  lemma {:induction false} ThresholdResetsFire(x: Inputs, i: nat)
    requires WellFormed(x) && i < Rows(x)
    ensures ThresholdReset(x, Breach1)[i] <==>
      LongBefore(x)[i] < -100.0 && (i > 0 ==> LongBefore(x)[i - 1] >= -100.0) && GateOpen(x, i)
    ensures ThresholdReset(x, Breach2)[i] <==>
      ShortBefore(x)[i] > 100.0 && (i > 0 ==> ShortBefore(x)[i - 1] <= 100.0) && GateOpen(x, i)
    ensures ThresholdReset(x, Breach3)[i] <==>
      ShortBefore(x)[i] < -100.0 && LongBefore(x)[i] != 0.0
      && (i > 0 ==> ShortBefore(x)[i - 1] >= -100.0 || LongBefore(x)[i - 1] == 0.0) && GateOpen(x, i)
  {
    hide Compounded;
  }

  function LongAfter(x: Inputs): seq<real>
    requires WellFormed(x)
  {
    Compounded(x, 0, Long, InitialResets(x))
  }

  function ShortAfter(x: Inputs): seq<real>
    requires WellFormed(x)
  {
    Compounded(x, 0, Short, InitialResets(x))
  }

  /** NCTRL_4 fires where the legs compounded with the threshold resets had collapsed the day before and a flow opens the
      day or closed the one before; the active resets are the four together. */
  lemma {:induction false} ActiveResetsFire(x: Inputs, i: nat)
    requires WellFormed(x) && i < Rows(x)
    ensures Nctrl4(x)[i] <==>
      i > 0 && (LongAfter(x)[i - 1] <= -100.0 || ShortAfter(x)[i - 1] >= 100.0)
      && (x.money.bodCf[i] != 0.0 || x.money.eodCf[i - 1] != 0.0)
    ensures ActiveResets(x)[i] <==>
      ThresholdReset(x, Breach1)[i] || ThresholdReset(x, Breach2)[i] || ThresholdReset(x, Breach3)[i] || Nctrl4(x)[i]
  {
    hide Compounded, ThresholdReset;
  }
}
