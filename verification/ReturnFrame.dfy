/** The cumulative pipeline of the daily engine, updating the columns of one frame. */
module ReturnFrames {
  import opened Wrappers
  import opened Columns
  import opened Rules
  import opened SodResets
  import opened CumulativeReturns

  /** Legs of one component after its resets are zeroed and its no-investment days carried. */
  function StateOnDay(compounded: seq<real>, resets: seq<bool>, nip: seq<bool>, i: nat): real
    requires i < |compounded| == |resets| == |nip|
  {
    if nip[i] then (if i == 0 then 0.0 else StateOnDay(compounded, resets, nip, i - 1))
    else if resets[i] then 0.0
    else compounded[i]
  }

  function StateColumn(compounded: seq<real>, resets: seq<bool>, nip: seq<bool>): (r: seq<real>)
    requires |compounded| == |resets| == |nip|
    ensures |r| == |nip| && forall i :: 0 <= i < |r| ==> r[i] == StateOnDay(compounded, resets, nip, i)
  {
    seq(|nip|, i requires 0 <= i < |nip| => StateOnDay(compounded, resets, nip, i))
  }

  function Zeroed(col: seq<real>, mask: seq<bool>): (r: seq<real>)
    requires |col| == |mask|
    ensures |r| == |col| && forall i :: 0 <= i < |r| ==> r[i] == if mask[i] then 0.0 else col[i]
  {
    seq(|col|, i requires 0 <= i < |col| => if mask[i] then 0.0 else col[i])
  }

  function Not(mask: seq<bool>): (r: seq<bool>)
    ensures |r| == |mask| && forall i :: 0 <= i < |r| ==> r[i] == !mask[i]
  {
    seq(|mask|, i requires 0 <= i < |mask| => !mask[i])
  }

  /** Rows of the mask become missing and are filled forward, 0 before any present row. */
  function CarriedOver(col: seq<real>, mask: seq<bool>): (r: seq<real>)
    requires |col| == |mask|
    ensures |r| == |col|
  {
    ForwardFill(Where(col, Not(mask)), 0.0)
  }

  lemma {:induction false} LastPresentIsState(compounded: seq<real>, resets: seq<bool>, nip: seq<bool>, i: nat)
    requires i < |compounded| == |resets| == |nip|
    ensures var v := LastPresent(Where(Zeroed(compounded, resets), Not(nip)), i + 1);
            StateOnDay(compounded, resets, nip, i) == if v.Some? then v.value else 0.0
  {
    if nip[i] && i > 0 {
      LastPresentIsState(compounded, resets, nip, i - 1);
    }
  }

  /** Zeroing resets, then masking and filling no-investment days, is the day-by-day state. */
  lemma {:induction false} CarryIsState(compounded: seq<real>, resets: seq<bool>, nip: seq<bool>)
    requires |compounded| == |resets| == |nip|
    ensures CarriedOver(Zeroed(compounded, resets), nip) == StateColumn(compounded, resets, nip)
  {
    forall i | 0 <= i < |nip|
      ensures CarriedOver(Zeroed(compounded, resets), nip)[i] == StateOnDay(compounded, resets, nip, i)
    {
      LastPresentIsState(compounded, resets, nip, i);
    }
  }

  function FinalReturn(long: real, short: real): real {
    ((1.0 + long / 100.0) * (1.0 + short / 100.0) - 1.0) * 100.0
  }

  /** What the pipeline reads: daily_ror first, then local_ror and fx_ror where present. */
  datatype Inputs = Inputs(
    money: Money,
    calendar: Calendar,
    effectiveStart: seq<int>,
    sign: seq<int>,
    nip: seq<bool>,
    accountFlag: seq<bool>,
    components: seq<seq<real>>)

  predicate WellFormed(x: Inputs) {
    && Aligned(x.money)
    && |x.calendar.perfDate| == |x.calendar.monthEnd| == |x.effectiveStart| == |x.sign| == |x.nip|
       == |x.accountFlag| == |x.money.bodCf|
    && |x.components| > 0
    && forall k :: 0 <= k < |x.components| ==> |x.components[k]| == |x.money.bodCf|
  }

  function Rows(x: Inputs): nat { |x.money.bodCf| }

  function NoResets(n: nat): (r: seq<bool>)
    ensures |r| == n && forall i :: 0 <= i < n ==> !r[i]
  {
    seq(n, _ => false)
  }

  function Compounded(x: Inputs, k: nat, leg: Leg, resets: seq<bool>): (r: seq<real>)
    requires WellFormed(x) && k < |x.components| && |resets| == Rows(x)
    ensures |r| == Rows(x)
  {
    CompoundRor(x.components[k], x.sign, leg, BlockStarts(x.effectiveStart, resets))
  }

  /** NCTRL_1 to NCTRL_3 on the legs compounded without resets. */
  function ThresholdReset(x: Inputs, breach: (real, real) -> bool): (r: seq<bool>)
    requires WellFormed(x)
    ensures |r| == Rows(x)
  {
    var none := NoResets(Rows(x));
    ThresholdResets(BreachColumn(Compounded(x, 0, Long, none), Compounded(x, 0, Short, none), breach),
                    x.money, x.calendar)
  }

  function InitialResets(x: Inputs): (r: seq<bool>)
    requires WellFormed(x)
    ensures |r| == Rows(x)
  {
    Either(Either(ThresholdReset(x, Breach1), ThresholdReset(x, Breach2)), ThresholdReset(x, Breach3))
  }

  function Nctrl4(x: Inputs): (r: seq<bool>)
    requires WellFormed(x)
    ensures |r| == Rows(x)
  {
    var initial := InitialResets(x);
    RecapitalisationResets(x.money, Compounded(x, 0, Long, initial), Compounded(x, 0, Short, initial))
  }

  /** The resets that drive the cumulative state. */
  function ActiveResets(x: Inputs): (r: seq<bool>)
    requires WellFormed(x)
    ensures |r| == Rows(x)
  {
    Either(InitialResets(x), Nctrl4(x))
  }

  /** The cumulative leg of component k. Account and start-of-day resets do not enter it. */
  function LegState(x: Inputs, k: nat, leg: Leg): (r: seq<real>)
    requires WellFormed(x) && k < |x.components|
    ensures |r| == Rows(x)
  {
    CarriedOver(Zeroed(Compounded(x, k, leg, InitialResets(x)), ActiveResets(x)), x.nip)
  }

  function FinalOnDay(x: Inputs, i: nat): real
    requires WellFormed(x) && i < Rows(x)
  {
    FinalReturn(LegState(x, 0, Long)[i], LegState(x, 0, Short)[i])
  }

  function FinalColumn(long: seq<real>, short: seq<real>): (r: seq<real>)
    requires |long| == |short|
    ensures |r| == |long| && forall i :: 0 <= i < |r| ==> r[i] == FinalReturn(long[i], short[i])
  {
    seq(|long|, i requires 0 <= i < |long| => FinalReturn(long[i], short[i]))
  }

  class ReturnFrame {
    const x: Inputs
    var tempLong: seq<seq<real>>
    var tempShort: seq<seq<real>>
    var longCum: seq<seq<real>>
    var shortCum: seq<seq<real>>
    var nctrl1: seq<bool>
    var nctrl2: seq<bool>
    var nctrl3: seq<bool>
    var nctrl4: seq<bool>
    var perfReset: seq<bool>
    var accountReset: seq<bool>
    var sodReset: seq<bool>
    var finalCum: seq<real>

    constructor (x: Inputs)
      requires WellFormed(x)
      ensures this.x == x
    {
      this.x := x;
    }

    /** Compounds both legs of every component, restarting after the given resets. */
    method CompoundComponents(resets: seq<bool>) returns (long: seq<seq<real>>, short: seq<seq<real>>)
      requires WellFormed(x) && |resets| == Rows(x)
      ensures |long| == |short| == |x.components|
      ensures forall k :: 0 <= k < |x.components| ==>
        long[k] == Compounded(x, k, Long, resets) && short[k] == Compounded(x, k, Short, resets)
    {
      long, short := [], [];
      for k := 0 to |x.components|
        invariant |long| == |short| == k
        invariant forall j :: 0 <= j < k ==>
          long[j] == Compounded(x, j, Long, resets) && short[j] == Compounded(x, j, Short, resets)
      {
        long := long + [Compounded(x, k, Long, resets)];
        short := short + [Compounded(x, k, Short, resets)];
      }
    }

    method ZeroResetRows()
      requires |perfReset| == Rows(x) && |longCum| == |shortCum|
      requires forall k :: 0 <= k < |longCum| ==> |longCum[k]| == |shortCum[k]| == Rows(x)
      modifies this`longCum, this`shortCum
      ensures |longCum| == |shortCum| == |old(longCum)|
      ensures forall k :: 0 <= k < |longCum| ==>
        longCum[k] == Zeroed(old(longCum[k]), perfReset) && shortCum[k] == Zeroed(old(shortCum[k]), perfReset)
    {
      for k := 0 to |longCum|
        invariant |longCum| == |shortCum| == |old(longCum)|
        invariant forall j :: 0 <= j < k ==>
          longCum[j] == Zeroed(old(longCum[j]), perfReset) && shortCum[j] == Zeroed(old(shortCum[j]), perfReset)
        invariant forall j :: k <= j < |longCum| ==> longCum[j] == old(longCum[j]) && shortCum[j] == old(shortCum[j])
      {
        longCum := longCum[k := Zeroed(longCum[k], perfReset)];
        shortCum := shortCum[k := Zeroed(shortCum[k], perfReset)];
      }
    }

    method CarryNipRows()
      requires |x.nip| == Rows(x) && |longCum| == |shortCum|
      requires forall k :: 0 <= k < |longCum| ==> |longCum[k]| == |shortCum[k]| == Rows(x)
      modifies this`longCum, this`shortCum
      ensures |longCum| == |shortCum| == |old(longCum)|
      ensures forall k :: 0 <= k < |longCum| ==>
        longCum[k] == CarriedOver(old(longCum[k]), x.nip) && shortCum[k] == CarriedOver(old(shortCum[k]), x.nip)
    {
      for k := 0 to |longCum|
        invariant |longCum| == |shortCum| == |old(longCum)|
        invariant forall j :: 0 <= j < k ==>
          longCum[j] == CarriedOver(old(longCum[j]), x.nip) && shortCum[j] == CarriedOver(old(shortCum[j]), x.nip)
        invariant forall j :: k <= j < |longCum| ==> longCum[j] == old(longCum[j]) && shortCum[j] == old(shortCum[j])
      {
        longCum := longCum[k := CarriedOver(longCum[k], x.nip)];
        shortCum := shortCum[k := CarriedOver(shortCum[k], x.nip)];
      }
    }

    method CalculateResets()
      requires WellFormed(x)
      modifies this
      ensures nctrl1 == ThresholdReset(x, Breach1) && nctrl2 == ThresholdReset(x, Breach2)
      ensures nctrl3 == ThresholdReset(x, Breach3) && perfReset == InitialResets(x)
      ensures |longCum| == |shortCum| == |x.components|
      ensures forall k :: 0 <= k < |x.components| ==>
        longCum[k] == Compounded(x, k, Long, perfReset) && shortCum[k] == Compounded(x, k, Short, perfReset)
    {
      tempLong, tempShort := CompoundComponents(NoResets(Rows(x)));
      nctrl1 := ThresholdResets(BreachColumn(tempLong[0], tempShort[0], Breach1), x.money, x.calendar);
      nctrl2 := ThresholdResets(BreachColumn(tempLong[0], tempShort[0], Breach2), x.money, x.calendar);
      nctrl3 := ThresholdResets(BreachColumn(tempLong[0], tempShort[0], Breach3), x.money, x.calendar);
      perfReset := Either(Either(nctrl1, nctrl2), nctrl3);
      longCum, shortCum := CompoundComponents(perfReset);
    }

    method MarkResets()
      requires WellFormed(x) && perfReset == InitialResets(x) && |longCum| == |shortCum| == |x.components|
      requires longCum[0] == Compounded(x, 0, Long, perfReset) && shortCum[0] == Compounded(x, 0, Short, perfReset)
      modifies this`nctrl4, this`perfReset, this`accountReset, this`sodReset
      ensures nctrl4 == Nctrl4(x) && perfReset == ActiveResets(x) && accountReset == x.accountFlag
      ensures sodReset == SodColumn(ShiftUp(x.money.bodCf, 0.0), Either(ActiveResets(x), x.accountFlag))
    {
      nctrl4 := RecapitalisationResets(x.money, longCum[0], shortCum[0]);
      perfReset := Either(perfReset, nctrl4);
      accountReset := x.accountFlag;
      var base := Either(perfReset, accountReset);
      var mask := new bool[Rows(x)](i requires 0 <= i < Rows(x) => base[i]);
      assert mask[..] == base;
      sodReset := SodResetFlags(ShiftUp(x.money.bodCf, 0.0), mask);
    }

    method SettleLegs()
      requires WellFormed(x) && perfReset == ActiveResets(x) && |longCum| == |shortCum| == |x.components|
      requires forall k :: 0 <= k < |x.components| ==>
        longCum[k] == Compounded(x, k, Long, InitialResets(x)) && shortCum[k] == Compounded(x, k, Short, InitialResets(x))
      modifies this`longCum, this`shortCum
      ensures |longCum| == |shortCum| == |x.components|
      ensures forall k :: 0 <= k < |x.components| ==>
        longCum[k] == LegState(x, k, Long) && shortCum[k] == LegState(x, k, Short)
    {
      ZeroResetRows();
      CarryNipRows();
    }

    method CalculateCumulativeRor()
      requires WellFormed(x)
      modifies this
      ensures nctrl1 == ThresholdReset(x, Breach1) && nctrl2 == ThresholdReset(x, Breach2)
      ensures nctrl3 == ThresholdReset(x, Breach3) && nctrl4 == Nctrl4(x)
      ensures perfReset == ActiveResets(x) && accountReset == x.accountFlag
      ensures sodReset == SodColumn(ShiftUp(x.money.bodCf, 0.0), Either(ActiveResets(x), x.accountFlag))
      ensures |longCum| == |shortCum| == |x.components|
      ensures forall k :: 0 <= k < |x.components| ==>
        longCum[k] == LegState(x, k, Long) && shortCum[k] == LegState(x, k, Short)
      ensures |finalCum| == Rows(x)
      ensures forall i :: 0 <= i < Rows(x) ==> finalCum[i] == FinalOnDay(x, i)
    {
      CalculateResets();
      MarkResets();
      SettleLegs();
      finalCum := FinalColumn(longCum[0], shortCum[0]);
    }
  }

  // ---------------------------------------------------------------- what the pipeline leaves in the frame

  /** The day-by-day reading of the final leg columns. */
  lemma {:induction false} LegStateOnDay(x: Inputs, k: nat, leg: Leg, i: nat)
    requires WellFormed(x) && k < |x.components| && i < Rows(x)
    ensures LegState(x, k, leg)[i]
         == StateOnDay(Compounded(x, k, leg, InitialResets(x)), ActiveResets(x), x.nip, i)
  {
    CarryIsState(Compounded(x, k, leg, InitialResets(x)), ActiveResets(x), x.nip);
  }

  /** A no-investment day repeats the cumulative state of the day before, 0 on the first day. */
  lemma {:induction false} NipRepeatsPreviousDay(x: Inputs, k: nat, leg: Leg, i: nat)
    requires WellFormed(x) && k < |x.components| && i < Rows(x) && x.nip[i]
    ensures LegState(x, k, leg)[i] == if i == 0 then 0.0 else LegState(x, k, leg)[i - 1]
    ensures FinalOnDay(x, i) == if i == 0 then 0.0 else FinalOnDay(x, i - 1)
  {
    hide InitialResets, ActiveResets, Compounded, LegState;
    NipLeg(x, k, leg, i);
    NipLeg(x, 0, Long, i);
    NipLeg(x, 0, Short, i);
    assert FinalReturn(0.0, 0.0) == 0.0;
  }

  lemma {:induction false} NipLeg(x: Inputs, k: nat, leg: Leg, i: nat)
    requires WellFormed(x) && k < |x.components| && i < Rows(x) && x.nip[i]
    ensures LegState(x, k, leg)[i] == if i == 0 then 0.0 else LegState(x, k, leg)[i - 1]
  {
    hide InitialResets, ActiveResets, Compounded, LegState;
    LegStateOnDay(x, k, leg, i);
    if i > 0 {
      LegStateOnDay(x, k, leg, i - 1);
    }
  }

  /** A reset day with investments has every leg of every component, and the final return, at 0. */
  lemma {:induction false} ResetDayIsZero(x: Inputs, k: nat, leg: Leg, i: nat)
    requires WellFormed(x) && k < |x.components| && i < Rows(x) && !x.nip[i] && ActiveResets(x)[i]
    ensures LegState(x, k, leg)[i] == 0.0
    ensures FinalOnDay(x, i) == 0.0
  {
    hide InitialResets, ActiveResets, Compounded, LegState;
    LegStateOnDay(x, k, leg, i);
    LegStateOnDay(x, 0, Long, i);
    LegStateOnDay(x, 0, Short, i);
    assert FinalReturn(0.0, 0.0) == 0.0;
  }

  /** On any other day a leg is the one-pass machine that restarts the day after an NCTRL_1 to NCTRL_3 reset. */
  lemma {:induction false} OtherDaysAreMachine(x: Inputs, k: nat, leg: Leg, i: nat)
    requires WellFormed(x) && k < |x.components| && i < Rows(x) && !x.nip[i] && !ActiveResets(x)[i]
    ensures LegState(x, k, leg)[i]
         == LegOnDay(x.components[k], x.sign, leg, BlockStarts(x.effectiveStart, InitialResets(x)), i)
  {
    hide InitialResets, ActiveResets, LegState, CompoundRor, LegOnDay;
    LegStateOnDay(x, k, leg, i);
    CompoundIsMachine(x.components[k], x.sign, leg, BlockStarts(x.effectiveStart, InitialResets(x)), i);
  }
}
