/** The data-frame column operations the engine is written with. A group of `ids` is the set of rows with
    one id; None is a missing value. */
module Columns {
  import opened Wrappers

  /** shift(1): each row sees the row before it. */
  function ShiftDown<T>(col: seq<T>, fill: T): (r: seq<T>)
    ensures |r| == |col|
    ensures forall i :: 0 <= i < |col| ==> r[i] == if i == 0 then fill else col[i - 1]
  {
    seq(|col|, i requires 0 <= i < |col| => if i == 0 then fill else col[i - 1])
  }

  /** shift(-1): each row sees the row after it. */
  function ShiftUp<T>(col: seq<T>, fill: T): (r: seq<T>)
    ensures |r| == |col|
    ensures forall i :: 0 <= i < |col| ==> r[i] == if i == |col| - 1 then fill else col[i + 1]
  {
    seq(|col|, i requires 0 <= i < |col| => if i == |col| - 1 then fill else col[i + 1])
  }

  /** Rows of the mask that are set among the first n. */
  function CountSet(mask: seq<bool>, n: nat): nat
    requires n <= |mask|
  {
    if n == 0 then 0 else CountSet(mask, n - 1) + if mask[n - 1] then 1 else 0
  }

  function CumSum(mask: seq<bool>): (r: seq<nat>)
    ensures |r| == |mask|
    ensures forall i :: 0 <= i < |mask| ==> r[i] == CountSet(mask, i + 1)
  {
    seq(|mask|, i requires 0 <= i < |mask| => CountSet(mask, i + 1))
  }

  /** where(mask): rows outside the mask become missing. */
  function Where<T>(col: seq<T>, mask: seq<bool>): (r: seq<Option<T>>)
    requires |col| == |mask|
    ensures |r| == |col|
    ensures forall i :: 0 <= i < |col| ==> r[i] == if mask[i] then Some(col[i]) else None
  {
    seq(|col|, i requires 0 <= i < |col| => if mask[i] then Some(col[i]) else None)
  }

  /** The last value present in group g among the first n rows. */
  function LastInGroup<T>(col: seq<Option<T>>, ids: seq<nat>, g: nat, n: nat): Option<T>
    requires n <= |col| == |ids|
  {
    if n == 0 then None
    else if ids[n - 1] == g && col[n - 1].Some? then col[n - 1]
    else LastInGroup(col, ids, g, n - 1)
  }

  function GroupForwardFill<T>(col: seq<Option<T>>, ids: seq<nat>): (r: seq<Option<T>>)
    requires |col| == |ids|
    ensures |r| == |col|
    ensures forall i :: 0 <= i < |col| ==> r[i] == LastInGroup(col, ids, ids[i], i + 1)
  {
    seq(|col|, i requires 0 <= i < |col| => LastInGroup(col, ids, ids[i], i + 1))
  }

  function LastPresent<T>(col: seq<Option<T>>, n: nat): Option<T>
    requires n <= |col|
  {
    if n == 0 then None else if col[n - 1].Some? then col[n - 1] else LastPresent(col, n - 1)
  }

  /** ffill().fillna(fill) */
  function ForwardFill<T>(col: seq<Option<T>>, fill: T): (r: seq<T>)
    ensures |r| == |col|
    ensures forall i :: 0 <= i < |col| ==> r[i] == var v := LastPresent(col, i + 1); if v.Some? then v.value else fill
  {
    seq(|col|, i requires 0 <= i < |col| => var v := LastPresent(col, i + 1); if v.Some? then v.value else fill)
  }

  function FillMissing<T>(col: seq<Option<T>>, fill: T): (r: seq<T>)
    ensures |r| == |col|
    ensures forall i :: 0 <= i < |col| ==> r[i] == if col[i].Some? then col[i].value else fill
  {
    seq(|col|, i requires 0 <= i < |col| => if col[i].Some? then col[i].value else fill)
  }

  /** Product of the values of group g among the first n rows. */
  function GroupProduct(col: seq<real>, ids: seq<nat>, g: nat, n: nat): real
    requires n <= |col| == |ids|
  {
    if n == 0 then 1.0
    else if ids[n - 1] == g then GroupProduct(col, ids, g, n - 1) * col[n - 1]
    else GroupProduct(col, ids, g, n - 1)
  }

  /** groupby(ids).cumprod() */
  function GroupCumProd(col: seq<real>, ids: seq<nat>): (r: seq<real>)
    requires |col| == |ids|
    ensures |r| == |col|
    ensures forall i :: 0 <= i < |col| ==> r[i] == GroupProduct(col, ids, ids[i], i + 1)
  {
    seq(|col|, i requires 0 <= i < |col| => GroupProduct(col, ids, ids[i], i + 1))
  }

  lemma {:induction false} CountSetMonotone(mask: seq<bool>, m: nat, n: nat)
    requires m <= n <= |mask|
    ensures CountSet(mask, m) <= CountSet(mask, n)
  {
    if m < n {
      CountSetMonotone(mask, m, n - 1);
    }
  }

  /** Nothing of group g comes before the row that starts it. */
  lemma {:induction false} GroupProductBeforeStart(col: seq<real>, starts: seq<bool>, g: nat, n: nat)
    requires |col| == |starts| && n <= |col| && CountSet(starts, n) < g
    ensures GroupProduct(col, CumSum(starts), g, n) == 1.0
  {
    if n > 0 {
      CountSetMonotone(starts, n - 1, n);
      GroupProductBeforeStart(col, starts, g, n - 1);
    }
  }
}
