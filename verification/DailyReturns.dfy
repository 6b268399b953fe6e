/** The local daily return of one valuation row. */
module DailyReturns {
  import opened Calculus

  datatype MetricBasis = Net | Gross

  datatype Row = Row(
    perfDate: int,
    effectiveStart: int,
    beginMv: real,
    bodCf: real,
    eodCf: real,
    mgmtFees: real,
    endMv: real)

  function Numerator(r: Row, basis: MetricBasis): real {
    var n := r.endMv - r.bodCf - r.beginMv - r.eodCf;
    if basis == Net then n + r.mgmtFees else n
  }

  function Denominator(r: Row): real {
    Abs(r.beginMv + r.bodCf)
  }

  /** A ratio; 0 before the effective start and on days without opening capital. */
  function LocalReturn(r: Row, basis: MetricBasis): real {
    if Denominator(r) != 0.0 && r.perfDate >= r.effectiveStart then Numerator(r, basis) / Denominator(r) else 0.0
  }
}
