/** The exact integer workspace: whole amounts small enough for int64 arithmetic without overflow. */
module IntegerWorkspace {
  import opened Wrappers
  import opened Polynomials
  import opened Calculus
  import opened DailyReturns
  import opened Rules

  const INT64_MAX: int := 0x7FFF_FFFF_FFFF_FFFF
  const LIMIT: int := INT64_MAX / 8

  /** Arithmetic on this type verifies only where no intermediate leaves the 64-bit range. */
  newtype int64 = v: int | -0x8000_0000_0000_0000 <= v <= 0x7FFF_FFFF_FFFF_FFFF

  datatype WholeRow = WholeRow(
    perfDate: int,
    effectiveStart: int,
    beginMv: int64,
    bodCf: int64,
    eodCf: int64,
    mgmtFees: int64,
    endMv: int64)

  predicate Fits(v: real) {
    v == v.Floor as real && -(LIMIT as real) <= v <= LIMIT as real
  }

  /** Eight times a whole amount that fits stays inside int64. */
  lemma {:induction false} FitsMeans(v: real)
    ensures Fits(v) <==> exists n: int :: v == n as real && -INT64_MAX <= 8 * n <= INT64_MAX
  {
    if Fits(v) {
      assert v == v.Floor as real && -INT64_MAX <= 8 * v.Floor <= INT64_MAX;
    }
  }

  predicate FitsRow(r: Row) {
    Fits(r.beginMv) && Fits(r.bodCf) && Fits(r.eodCf) && Fits(r.mgmtFees) && Fits(r.endMv)
  }

  predicate Bounded(v: int64) { -LIMIT <= v as int <= LIMIT }

  predicate BoundedRow(w: WholeRow) {
    Bounded(w.beginMv) && Bounded(w.bodCf) && Bounded(w.eodCf) && Bounded(w.mgmtFees) && Bounded(w.endMv)
  }

  function Whole(v: real): (n: int64)
    requires Fits(v)
    ensures Bounded(n) && n as int as real == v
  {
    v.Floor as int64
  }

  function WholeOf(r: Row): (w: WholeRow)
    requires FitsRow(r)
    ensures BoundedRow(w)
  {
    WholeRow(r.perfDate, r.effectiveStart, Whole(r.beginMv), Whole(r.bodCf), Whole(r.eodCf), Whole(r.mgmtFees),
             Whole(r.endMv))
  }

  /** The amounts of a whole row as Decimals. */
  function DecimalOf(w: WholeRow): Row {
    Row(w.perfDate, w.effectiveStart, w.beginMv as int as real, w.bodCf as int as real, w.eodCf as int as real,
        w.mgmtFees as int as real, w.endMv as int as real)
  }

  function IntSign(v: int64): int64 {
    if v > 0 then 1 else if v < 0 then -1 else 0
  }

  function IntNumerator(w: WholeRow, basis: MetricBasis): (n: int64)
    requires BoundedRow(w)
    ensures n as int as real == Numerator(DecimalOf(w), basis)
  {
    var n := w.endMv - w.bodCf - w.beginMv - w.eodCf;
    if basis == Net then n + w.mgmtFees else n
  }

  function IntDenominator(w: WholeRow): (d: int64)
    requires BoundedRow(w)
    ensures d as int as real == Denominator(DecimalOf(w))
  {
    var d := w.beginMv + w.bodCf;
    if d < 0 then -d else d
  }

  function IntReturn(w: WholeRow, basis: MetricBasis): real
    requires BoundedRow(w)
  {
    if IntDenominator(w) != 0 && w.perfDate >= w.effectiveStart
    then IntNumerator(w, basis) as int as real / IntDenominator(w) as int as real
    else 0.0
  }

  function IntInitialSign(w: WholeRow): int64
    requires BoundedRow(w)
  {
    IntSign(w.beginMv + w.bodCf)
  }

  predicate IntNipV1(w: WholeRow)
    requires BoundedRow(w)
  {
    w.beginMv + w.bodCf + w.endMv + w.eodCf == 0 && w.eodCf == -IntSign(w.bodCf)
  }

  predicate IntNipV2(w: WholeRow)
    requires BoundedRow(w)
  {
    w.beginMv + w.bodCf == 0 && w.endMv + w.eodCf == 0
  }

  /** Switches a frame to whole amounts when every amount of every row fits; strict mode never does. */
  method UseExactIntegerWorkspace(rows: seq<Row>, strictDecimal: bool) returns (whole: Option<seq<WholeRow>>)
    ensures whole.Some? <==> !strictDecimal && forall i :: 0 <= i < |rows| ==> FitsRow(rows[i])
    ensures whole.Some? ==> |whole.value| == |rows|
    ensures whole.Some? ==>
      forall i :: 0 <= i < |rows| ==> BoundedRow(whole.value[i]) && DecimalOf(whole.value[i]) == rows[i]
  {
    if strictDecimal {
      return None;
    }
    var converted: seq<WholeRow> := [];
    for k := 0 to |rows|
      invariant |converted| == k
      invariant forall i :: 0 <= i < k ==> FitsRow(rows[i])
      invariant forall i :: 0 <= i < k ==> BoundedRow(converted[i]) && DecimalOf(converted[i]) == rows[i]
    {
      if !FitsRow(rows[k]) {
        return None;
      }
      converted := converted + [WholeOf(rows[k])];
    }
    return Some(converted);
  }

  /** On a row that fits, the daily return, the sign and both no-investment rules of the integer path are
      those of the Decimal path. */
  lemma {:induction false} WorkspaceRefinesDecimal(r: Row, basis: MetricBasis)
    requires FitsRow(r)
    ensures var w := WholeOf(r);
      && DecimalOf(w) == r
      && IntReturn(w, basis) == LocalReturn(r, basis)
      && IntInitialSign(w) as int == Sign(r.beginMv + r.bodCf)
      && (IntNipV1(w) <==> NipV1(r.beginMv, r.bodCf, r.eodCf, r.endMv))
      && (IntNipV2(w) <==> NipV2(r.beginMv, r.bodCf, r.eodCf, r.endMv))
  {
    var w := WholeOf(r);
    assert DecimalOf(w) == r;
  }

  /** Whole-amount numerator before any width is imposed. */
  function WideNumerator(begin: int, bod: int, eod: int, fees: int, end: int): int {
    end - bod - begin - eod + fees
  }

  predicate Within(v: int, limit: int) { -limit <= v <= limit }

  /** A limit on the amounts keeps every net numerator inside int64 exactly when five times the limit does;
      the eightfold headroom of the engine is on the safe side. */
  lemma {:induction false} HeadroomNeeded(limit: int)
    requires limit >= 0
    ensures (forall begin, bod, eod, fees, end ::
               Within(begin, limit) && Within(bod, limit) && Within(eod, limit) && Within(fees, limit) && Within(end, limit)
               ==> -INT64_MAX - 1 <= WideNumerator(begin, bod, eod, fees, end) <= INT64_MAX)
            <==> 5 * limit <= INT64_MAX
    ensures 5 * LIMIT <= INT64_MAX
  {
    if 5 * limit > INT64_MAX {
      assert Within(limit, limit) && Within(-limit, limit);
      assert WideNumerator(-limit, -limit, -limit, limit, limit) == 5 * limit;
    }
  }
}
