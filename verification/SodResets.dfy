/** Start-of-day resets: a day resets when the next day opens with a flow and is itself a reset day. */
module SodResets {
  import opened Columns

  /** The backward recurrence the rule stands for. */
  predicate SodOnDay(nextBodCf: seq<real>, base: seq<bool>, i: nat)
    requires |nextBodCf| == |base| && i < |base|
    decreases |base| - i
  {
    i + 1 < |base| && nextBodCf[i] != 0.0 && (base[i + 1] || SodOnDay(nextBodCf, base, i + 1))
  }

  function SodColumn(nextBodCf: seq<real>, base: seq<bool>): (r: seq<bool>)
    requires |nextBodCf| == |base|
    ensures |r| == |base| && forall i :: 0 <= i < |base| ==> r[i] == SodOnDay(nextBodCf, base, i)
  {
    seq(|base|, i requires 0 <= i < |base| => SodOnDay(nextBodCf, base, i))
  }

  function Either(a: seq<bool>, b: seq<bool>): (r: seq<bool>)
    requires |a| == |b|
    ensures |r| == |a| && forall i :: 0 <= i < |a| ==> r[i] == (a[i] || b[i])
  {
    seq(|a|, i requires 0 <= i < |a| => a[i] || b[i])
  }

  function MinFrom(v: seq<int>, k: nat): int
    requires k < |v|
    decreases |v| - k
  {
    if k == |v| - 1 || v[k] <= MinFrom(v, k + 1) then v[k] else MinFrom(v, k + 1)
  }

  /** minimum.accumulate over the reversed values, reversed back. */
  method RunningMinimumFromEnd(v: seq<int>) returns (r: seq<int>)
    ensures |r| == |v| && forall k :: 0 <= k < |v| ==> r[k] == MinFrom(v, k)
  {
    r := [];
    var i := |v|;
    while i > 0
      invariant 0 <= i <= |v| && |r| == |v| - i
      invariant forall k :: i <= k < |v| ==> r[k - i] == MinFrom(v, k)
    {
      i := i - 1;
      var least := if i == |v| - 1 || v[i] <= r[0] then v[i] else r[0];
      r := [least] + r;
    }
  }

  /** Row i where the mask holds, the row count elsewhere. */
  function PositionsWhere(mask: seq<bool>): (r: seq<int>)
    ensures |r| == |mask| && forall i :: 0 <= i < |mask| ==> r[i] == if mask[i] then i else |mask|
  {
    seq(|mask|, i requires 0 <= i < |mask| => if mask[i] then i else |mask|)
  }

  function OpensWithoutFlow(nextBodCf: seq<real>): (r: seq<bool>)
    ensures |r| == |nextBodCf| && forall i :: 0 <= i < |r| ==> r[i] == (nextBodCf[i] == 0.0)
  {
    seq(|nextBodCf|, i requires 0 <= i < |nextBodCf| => nextBodCf[i] == 0.0)
  }

  /** mask |= other */
  method MarkInto(mask: array<bool>, other: seq<bool>)
    requires mask.Length == |other|
    modifies mask
    ensures mask[..] == Either(old(mask[..]), other)
  {
    for k := 0 to mask.Length
      invariant forall j :: 0 <= j < mask.Length ==> mask[j] == (old(mask[j]) || (j < k && other[j]))
    {
      mask[k] := mask[k] || other[k];
    }
  }

  /** The array form of the engine, which also marks the resets it finds in the mask it is given. */
  method SodResetFlags(nextBodCf: seq<real>, canonicalReset: array<bool>) returns (sodReset: seq<bool>)
    requires |nextBodCf| == canonicalReset.Length
    modifies canonicalReset
    ensures sodReset == SodColumn(nextBodCf, old(canonicalReset[..]))
    ensures canonicalReset[..] == Either(old(canonicalReset[..]), sodReset)
  {
    var n := canonicalReset.Length;
    var base := canonicalReset[..];
    if n < 2 {
      sodReset := seq(n, _ => false);
      return;
    }
    var nextReset := RunningMinimumFromEnd(PositionsWhere(base));
    var nextBlock := RunningMinimumFromEnd(PositionsWhere(OpensWithoutFlow(nextBodCf)));
    forall i | 0 <= i < n - 1
      ensures (nextReset[i + 1] < n && nextReset[i + 1] <= nextBlock[i]) <==> SodOnDay(nextBodCf, base, i)
    {
      FirstPosition(base, i + 1);
      FirstPosition(OpensWithoutFlow(nextBodCf), i);
      FastFormIsRecurrence(nextBodCf, base, i);
    }
    sodReset := seq(n, i requires 0 <= i < n =>
      i + 1 < n && nextReset[i + 1] < n && nextReset[i + 1] <= nextBlock[i]);
    MarkInto(canonicalReset, sodReset);
  }

  /** Position of the first set row at or after i, or the length. */
  function NextSet(mask: seq<bool>, i: nat): (p: nat)
    requires i <= |mask|
    ensures i <= p <= |mask|
    decreases |mask| - i
  {
    if i == |mask| then i else if mask[i] then i else NextSet(mask, i + 1)
  }

  lemma {:induction false} FirstPosition(mask: seq<bool>, i: nat)
    requires i < |mask|
    ensures MinFrom(PositionsWhere(mask), i) == NextSet(mask, i)
    decreases |mask| - i
  {
    if i + 1 < |mask| {
      FirstPosition(mask, i + 1);
    }
  }

  /** A reset reaches back exactly as far as the openings carry flows. */
  lemma {:induction false} FastFormIsRecurrence(nextBodCf: seq<real>, base: seq<bool>, i: nat)
    requires |nextBodCf| == |base| && i + 1 < |base|
    ensures var reset, block := NextSet(base, i + 1), NextSet(OpensWithoutFlow(nextBodCf), i);
            reset < |base| && reset <= block <==> SodOnDay(nextBodCf, base, i)
    decreases |base| - i
  {
    if i + 2 < |base| {
      FastFormIsRecurrence(nextBodCf, base, i + 1);
    }
  }

  lemma {:induction false} SodOfUpdatedMask(nextBodCf: seq<real>, base: seq<bool>, i: nat)
    requires |nextBodCf| == |base| && i < |base|
    ensures SodOnDay(nextBodCf, Either(base, SodColumn(nextBodCf, base)), i) == SodOnDay(nextBodCf, base, i)
    decreases |base| - i
  {
    if i + 1 < |base| {
      SodOfUpdatedMask(nextBodCf, base, i + 1);
    }
  }

  /** Running the rule again on the mask it updated finds and marks nothing new. */
  lemma {:induction false} SodIdempotent(nextBodCf: seq<real>, base: seq<bool>)
    requires |nextBodCf| == |base|
    ensures var updated := Either(base, SodColumn(nextBodCf, base));
            SodColumn(nextBodCf, updated) == SodColumn(nextBodCf, base)
            && Either(updated, SodColumn(nextBodCf, updated)) == updated
  {
    forall i | 0 <= i < |base|
      ensures SodOnDay(nextBodCf, Either(base, SodColumn(nextBodCf, base)), i) == SodOnDay(nextBodCf, base, i)
    {
      SodOfUpdatedMask(nextBodCf, base, i);
    }
  }

  /** A day resets at the start of day exactly when some later base reset is joined to it by flows at every
      opening in between. */
  lemma {:induction false} SodReach(nextBodCf: seq<real>, base: seq<bool>, i: nat)
    requires |nextBodCf| == |base| && i < |base|
    ensures SodOnDay(nextBodCf, base, i) <==>
      exists j :: i < j < |base| && base[j] && forall k :: i <= k < j ==> nextBodCf[k] != 0.0
    decreases |base| - i
  {
    if i + 1 < |base| && nextBodCf[i] != 0.0 {
      SodReach(nextBodCf, base, i + 1);
      if SodOnDay(nextBodCf, base, i) && !base[i + 1] {
        var j :| i + 1 < j < |base| && base[j] && forall k :: i + 1 <= k < j ==> nextBodCf[k] != 0.0;
        assert forall k :: i <= k < j ==> nextBodCf[k] != 0.0;
      }
    }
  }
}
