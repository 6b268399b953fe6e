/** Carino smoothing of daily contributions, with the natural logarithm given by its laws. */
module CarinoSmoothing {
  import opened Wrappers
  import opened RealArithmetic
  import opened Calculus
  import opened Sums

  const ZERO_RETURN_TOLERANCE: real := 0.000000000001

  predicate ProductLaw(ln: real -> real, x: real, y: real) {
    x > 0.0 && y > 0.0 ==> ln(x * y) == ln(x) + ln(y)
  }

  predicate TangentLaw(ln: real -> real, x: real) {
    x > 0.0 && x != 1.0 ==> ln(x) < x - 1.0
  }

  ghost predicate LnLaws(ln: real -> real) {
    && ln(1.0) == 0.0
    && (forall x, y :: ProductLaw(ln, x, y))
    && (forall x :: TangentLaw(ln, x))
  }

  /** One day of the portfolio; the return is a percentage. */
  datatype PortfolioDay = PortfolioDay(date: int, dailyRor: real, nip: bool, perfReset: bool)

  datatype DailyRow = DailyRow(
    positionId: string,
    date: int,
    dailyWeight: real,
    rawLocal: real,
    rawFx: real,
    raw: real,
    smoothedLocal: real,
    smoothedFx: real,
    smoothed: real)

  function Ratio(d: PortfolioDay): real { d.dailyRor / 100.0 }

  function Growth(days: seq<PortfolioDay>): real {
    if days == [] then 1.0 else (1.0 + Ratio(days[0])) * Growth(days[1..])
  }

  function TotalReturn(days: seq<PortfolioDay>): real { Growth(days) - 1.0 }

  predicate DomainIsValid(days: seq<PortfolioDay>) {
    forall i :: 0 <= i < |days| ==> 1.0 + Ratio(days[i]) > 0.0
  }

  function CarinoFactor(r: real, ln: real -> real): real {
    if 1.0 + r <= 0.0 then 1.0
    else if Abs(r) <= ZERO_RETURN_TOLERANCE then 1.0
    else ln(1.0 + r) / r
  }

  predicate UniqueDates(days: seq<PortfolioDay>) {
    forall i, j :: 0 <= i < j < |days| ==> days[i].date != days[j].date
  }

  predicate HasDate(days: seq<PortfolioDay>, date: int) {
    exists i :: 0 <= i < |days| && days[i].date == date
  }

  function DayOf(days: seq<PortfolioDay>, date: int): (d: PortfolioDay)
    requires HasDate(days, date)
    ensures d in days && d.date == date
  {
    if days[0].date == date then days[0] else DayOf(days[1..], date)
  }

  lemma {:induction false} LogOfProduct(ln: real -> real, x: real, y: real, p: real)
    requires LnLaws(ln) && x > 0.0 && y > 0.0 && p == x * y
    ensures ln(p) == ln(x) + ln(y)
  {
    assert ProductLaw(ln, x, y);
  }

  lemma {:induction false} Reciprocal(x: real) returns (y: real)
    requires x > 0.0
    ensures y > 0.0 && x * y == 1.0 && (x > 1.0 ==> y < 1.0)
    ensures 1.0 - y == (x - 1.0) * y
  {
    y := 1.0 / x;
    assert x * y == 1.0;
  }

  /** The logarithm has the sign of the return and lies strictly below it. */
  lemma {:induction false} LogSign(ln: real -> real, r: real)
    requires LnLaws(ln) && r > -1.0 && r != 0.0
    ensures ln(1.0 + r) < r
    ensures r > 0.0 ==> ln(1.0 + r) > 0.0
  {
    assert TangentLaw(ln, 1.0 + r);
    if r > 0.0 {
      var y := Reciprocal(1.0 + r);
      LogOfProduct(ln, 1.0 + r, y, 1.0);
      assert TangentLaw(ln, y);
    }
  }

  lemma {:induction false} QuotientPositive(a: real, b: real)
    requires SameSide(a, b)
    ensures a / b > 0.0 && a / b * b == a
  {
  }

  lemma {:induction false} FactorPositive(ln: real -> real, r: real)
    requires LnLaws(ln)
    ensures CarinoFactor(r, ln) > 0.0
  {
    if r > -1.0 && Abs(r) > ZERO_RETURN_TOLERANCE {
      LogSign(ln, r);
      QuotientPositive(ln(1.0 + r), r);
    }
  }

  /** The factor times the return is its log, outside the tolerance band; in it and beyond a total loss the factor is 1. */
  lemma {:induction false} FactorMeans(ln: real -> real, r: real)
    ensures r > -1.0 && (r > 0.000000000001 || r < -0.000000000001) ==> CarinoFactor(r, ln) * r == ln(1.0 + r)
    ensures r <= -1.0 || -0.000000000001 <= r <= 0.000000000001 ==> CarinoFactor(r, ln) == 1.0
  {
  }

  /** k_t / K for the row's day. */
  function LinkingFactor(days: seq<PortfolioDay>, date: int, ln: real -> real): real
    requires LnLaws(ln) && HasDate(days, date)
  {
    FactorPositive(ln, TotalReturn(days));
    CarinoFactor(Ratio(DayOf(days, date)), ln) / CarinoFactor(TotalReturn(days), ln)
  }

  function SmoothedRow(row: DailyRow, days: seq<PortfolioDay>, carino: bool, ln: real -> real): DailyRow
    requires LnLaws(ln) && HasDate(days, row.date)
  {
    if !carino || !DomainIsValid(days) then
      row.(smoothedLocal := row.rawLocal, smoothedFx := row.rawFx, smoothed := row.raw)
    else
      var factor := LinkingFactor(days, row.date, ln);
      row.(smoothedLocal := row.rawLocal * factor,
           smoothedFx := row.raw * factor - row.rawLocal * factor,
           smoothed := row.raw * factor)
  }

  /** Days without investments and reset days contribute nothing. */
  function ClearedRow(row: DailyRow, days: seq<PortfolioDay>): DailyRow
    requires HasDate(days, row.date)
  {
    var d := DayOf(days, row.date);
    if d.nip || d.perfReset then row.(smoothedLocal := 0.0, smoothedFx := 0.0, smoothed := 0.0) else row
  }

  predicate Covered(rows: seq<DailyRow>, days: seq<PortfolioDay>) {
    forall i :: 0 <= i < |rows| ==> HasDate(days, rows[i].date)
  }

  /** The daily contribution frame, whose smoothed columns are assigned in place. */
  class ContributionFrame {
    var rows: seq<DailyRow>

    constructor (rows: seq<DailyRow>)
      ensures this.rows == rows
    {
      this.rows := rows;
    }

    method ApplySmoothing(days: seq<PortfolioDay>, carino: bool, ln: real -> real)
      requires LnLaws(ln) && Covered(rows, days)
      modifies this
      ensures |rows| == |old(rows)| && Covered(rows, days)
      ensures forall i :: 0 <= i < |rows| ==> rows[i] == SmoothedRow(old(rows)[i], days, carino, ln)
    {
      for k := 0 to |rows|
        invariant |rows| == |old(rows)| && Covered(rows, days)
        invariant forall i :: 0 <= i < k ==> rows[i] == SmoothedRow(old(rows)[i], days, carino, ln)
        invariant forall i :: k <= i < |rows| ==> rows[i] == old(rows)[i]
      {
        rows := rows[k := SmoothedRow(rows[k], days, carino, ln)];
      }
    }

    method ClearNipAndResetDays(days: seq<PortfolioDay>)
      requires Covered(rows, days)
      modifies this
      ensures |rows| == |old(rows)| && Covered(rows, days)
      ensures forall i :: 0 <= i < |rows| ==> rows[i] == ClearedRow(old(rows)[i], days)
    {
      for k := 0 to |rows|
        invariant |rows| == |old(rows)| && Covered(rows, days)
        invariant forall i :: 0 <= i < k ==> rows[i] == ClearedRow(old(rows)[i], days)
        invariant forall i :: k <= i < |rows| ==> rows[i] == old(rows)[i]
      {
        rows := rows[k := ClearedRow(rows[k], days)];
      }
    }
  }

  lemma {:induction false} FactorRatio(raw: real, k: real, total: real)
    requires total > 0.0
    ensures raw * (k / total) * total == raw * k
  {
    assert k / total * total == k;
  }

  /** Without Carino, or when some day loses everything, the smoothed columns are the raw ones. */
  lemma {:induction false} UnsmoothedRow(row: DailyRow, days: seq<PortfolioDay>, carino: bool, ln: real -> real)
    requires LnLaws(ln) && HasDate(days, row.date)
    requires !carino || exists i :: 0 <= i < |days| && days[i].dailyRor <= -100.0
    ensures var s := SmoothedRow(row, days, carino, ln);
      s.smoothedLocal == row.rawLocal && s.smoothedFx == row.rawFx && s.smoothed == row.raw
  {
    hide LnLaws, HasDate, LinkingFactor;
    if carino {
      var i :| 0 <= i < |days| && days[i].dailyRor <= -100.0;
      assert 1.0 + Ratio(days[i]) <= 0.0;
    }
  }

  /** Under Carino total and local contributions are scaled by the day's factor over the total's, and FX is the rest,
      which scales likewise where the raw parts made up the raw total. */
  lemma {:induction false} LinkedRow(row: DailyRow, days: seq<PortfolioDay>, ln: real -> real)
    requires LnLaws(ln) && HasDate(days, row.date)
    requires forall i :: 0 <= i < |days| ==> days[i].dailyRor > -100.0
    ensures var s := SmoothedRow(row, days, true, ln);
      var k, total := CarinoFactor(DayOf(days, row.date).dailyRor / 100.0, ln), CarinoFactor(TotalReturn(days), ln);
      && total > 0.0
      && s.smoothed * total == row.raw * k && s.smoothedLocal * total == row.rawLocal * k
      && s.smoothedFx == s.smoothed - s.smoothedLocal
      && (row.raw == row.rawLocal + row.rawFx ==> s.smoothedFx * total == row.rawFx * k)
  {
    hide LnLaws, HasDate, CarinoFactor, TotalReturn, DayOf;
    forall i | 0 <= i < |days| ensures 1.0 + Ratio(days[i]) > 0.0 {
      assert days[i].dailyRor > -100.0;
    }
    FactorPositive(ln, TotalReturn(days));
    var k, total := CarinoFactor(Ratio(DayOf(days, row.date)), ln), CarinoFactor(TotalReturn(days), ln);
    FactorRatio(row.raw, k, total);
    FactorRatio(row.rawLocal, k, total);
    FactorRatio(row.raw - row.rawLocal, k, total);
    Distribute(k / total, row.raw - row.rawLocal, row.rawLocal, row.raw);
  }

  /** On no-investment and reset days all three smoothed columns are zero, on other days nothing changes. */
  lemma {:induction false} ClearedRowMeans(row: DailyRow, days: seq<PortfolioDay>)
    requires HasDate(days, row.date)
    ensures var d, r := DayOf(days, row.date), ClearedRow(row, days);
      if d.nip || d.perfReset then r.smoothed == 0.0 && r.smoothedLocal == 0.0 && r.smoothedFx == 0.0 && r.raw == row.raw
      else r == row
  {
    hide HasDate, DayOf;
  }

  // ---------------------------------------------------------------- exactness of the linking

  function Raw(row: DailyRow): real { row.raw }
  function Smoothed(row: DailyRow): real { row.smoothed }
  function DateKey(row: DailyRow): Option<int> { Some(row.date) }

  /** Raw contributions of the rows of one day. */
  function DayRaw(rows: seq<DailyRow>, date: int): real {
    SumBy(Group(rows, DateKey, date), Raw)
  }

  /** A nonzero return that the tolerance treats as zero. */
  predicate InZeroBand(r: real) { r != 0.0 && Abs(r) <= ZERO_RETURN_TOLERANCE }

  /** What a factor misses of k * r == ln(1 + r). */
  function Defect(r: real, ln: real -> real): real { CarinoFactor(r, ln) * r - ln(1.0 + r) }

  lemma {:induction false} DefectOnlyInBand(r: real, ln: real -> real)
    requires LnLaws(ln) && r > -1.0
    ensures Defect(r, ln) >= 0.0
    ensures Defect(r, ln) == 0.0 <==> !InZeroBand(r)
  {
    if r != 0.0 {
      LogSign(ln, r);
      QuotientPositive(ln(1.0 + r), r);
    }
  }

  function LinkedSum(days: seq<PortfolioDay>, ln: real -> real): real {
    if days == [] then 0.0
    else CarinoFactor(Ratio(days[0]), ln) * Ratio(days[0]) + LinkedSum(days[1..], ln)
  }

  function DefectSum(days: seq<PortfolioDay>, ln: real -> real): real {
    if days == [] then 0.0 else Defect(Ratio(days[0]), ln) + DefectSum(days[1..], ln)
  }

  lemma {:induction false} LogOfOne(ln: real -> real)
    requires LnLaws(ln)
    ensures ln(1.0) == 0.0
  {
  }

  /** Logarithms of the daily growth factors add up to the logarithm of the compounded growth. */
  lemma {:induction false} LinkedSumIsLogGrowth(days: seq<PortfolioDay>, ln: real -> real)
    requires LnLaws(ln) && DomainIsValid(days)
    ensures Growth(days) > 0.0
    ensures LinkedSum(days, ln) == ln(Growth(days)) + DefectSum(days, ln)
  {
    hide LnLaws, CarinoFactor;
    LogOfOne(ln);
    if days != [] {
      var g, rest := 1.0 + Ratio(days[0]), Growth(days[1..]);
      LinkedSumIsLogGrowth(days[1..], ln);
      LogOfProduct(ln, g, rest, Growth(days));
      ProductSign(g, rest);
    }
  }

  lemma {:induction false} DefectSumZeroIff(days: seq<PortfolioDay>, ln: real -> real)
    requires LnLaws(ln) && DomainIsValid(days)
    ensures DefectSum(days, ln) >= 0.0
    ensures DefectSum(days, ln) == 0.0 <==> forall i :: 0 <= i < |days| ==> !InZeroBand(Ratio(days[i]))
  {
    if days != [] {
      DefectOnlyInBand(Ratio(days[0]), ln);
      DefectSumZeroIff(days[1..], ln);
      assert forall i :: 0 < i < |days| ==> days[i] == days[1..][i - 1];
    }
  }

  ghost function Weight(days: seq<PortfolioDay>, date: int, ln: real -> real): real {
    if LnLaws(ln) && HasDate(days, date) then LinkingFactor(days, date, ln) else 0.0
  }

  ghost function WeightedRaw(days: seq<PortfolioDay>, ln: real -> real): DailyRow -> real {
    (row: DailyRow) => Weight(days, row.date, ln) * row.raw
  }

  function Dates(days: seq<PortfolioDay>): (r: seq<int>)
    ensures |r| == |days| && forall i :: 0 <= i < |days| ==> r[i] == days[i].date
  {
    if days == [] then [] else [days[0].date] + Dates(days[1..])
  }

  lemma {:induction false} DayOfUnique(days: seq<PortfolioDay>, i: nat)
    requires UniqueDates(days) && i < |days|
    ensures HasDate(days, days[i].date) && DayOf(days, days[i].date) == days[i]
  {
    var d := DayOf(days, days[i].date);
  }

  /** Raw contributions add up to the portfolio return on each of the days. */
  predicate RawMatchesReturn(rows: seq<DailyRow>, days: seq<PortfolioDay>) {
    forall i :: 0 <= i < |days| ==> DayRaw(rows, days[i].date) == Ratio(days[i])
  }

  lemma {:induction false} WeightedDay(rows: seq<DailyRow>, days: seq<PortfolioDay>, ln: real -> real, date: int)
    ensures SumBy(Group(rows, DateKey, date), WeightedRaw(days, ln)) == Weight(days, date, ln) * DayRaw(rows, date)
  {
    hide Weight, SumBy;
    SumByScaled(Group(rows, DateKey, date), WeightedRaw(days, ln), Weight(days, date, ln), Raw);
  }

  predicate ShareOfDay(rows: seq<DailyRow>, d: PortfolioDay, ln: real -> real, k: real, f: DailyRow -> real) {
    k * SumBy(Group(rows, DateKey, d.date), f) == CarinoFactor(Ratio(d), ln) * Ratio(d)
  }

  /** One day's share of the linked sum. */
  lemma {:induction false} DayShare(rows: seq<DailyRow>, days: seq<PortfolioDay>, i: nat, ln: real -> real)
    requires LnLaws(ln) && UniqueDates(days) && RawMatchesReturn(rows, days) && i < |days|
    ensures ShareOfDay(rows, days[i], ln, CarinoFactor(TotalReturn(days), ln), WeightedRaw(days, ln))
  {
    hide LnLaws, CarinoFactor, RawMatchesReturn, TotalReturn, Ratio, Group, SumBy, DayRaw, Weight, WeightedRaw;
    WeightedDay(rows, days, ln, days[i].date);
    FactorPositive(ln, TotalReturn(days));
    MatchedDay(rows, days, i);
    WeightOfDay(days, i, ln);
    CancelFactor(CarinoFactor(TotalReturn(days), ln), CarinoFactor(Ratio(days[i]), ln), Ratio(days[i]),
                 Weight(days, days[i].date, ln));
  }

  lemma {:induction false} WeightOfDay(days: seq<PortfolioDay>, i: nat, ln: real -> real)
    requires LnLaws(ln) && UniqueDates(days) && i < |days| && CarinoFactor(TotalReturn(days), ln) > 0.0
    ensures Weight(days, days[i].date, ln)
         == CarinoFactor(Ratio(days[i]), ln) / CarinoFactor(TotalReturn(days), ln)
  {
    hide LnLaws, CarinoFactor, TotalReturn, Ratio;
    DayOfUnique(days, i);
  }

  lemma {:induction false} MatchedDay(rows: seq<DailyRow>, days: seq<PortfolioDay>, i: nat)
    requires RawMatchesReturn(rows, days) && i < |days|
    ensures DayRaw(rows, days[i].date) == Ratio(days[i])
  {
  }

  lemma {:induction false} CancelFactor(total: real, k: real, r: real, w: real)
    requires total > 0.0 && w == k / total
    ensures total * (w * r) == k * r
  {
    assert total * w == k;
    MulAssociative(total, w, r);
  }

  lemma {:induction false} DaysAddUp(rows: seq<DailyRow>, days: seq<PortfolioDay>, ln: real -> real, k: real,
                                     f: DailyRow -> real)
    requires forall i :: 0 <= i < |days| ==> ShareOfDay(rows, days[i], ln, k, f)
    ensures k * SumOfGroups(Dates(days), rows, DateKey, f) == LinkedSum(days, ln)
  {
    hide CarinoFactor, Ratio, SumBy, Group;
    if days != [] {
      var keys := Dates(days);
      assert keys[1..] == Dates(days[1..]);
      DaysAddUp(rows, days[1..], ln, k, f);
      assert ShareOfDay(rows, days[0], ln, k, f);
      Distribute(k, SumBy(Group(rows, DateKey, keys[0]), f), SumOfGroups(keys[1..], rows, DateKey, f),
                 SumOfGroups(keys, rows, DateKey, f));
    }
  }

  ghost predicate SmoothedRows(rows: seq<DailyRow>, days: seq<PortfolioDay>, ln: real -> real, after: seq<DailyRow>)
    requires LnLaws(ln) && Covered(rows, days)
  {
    |after| == |rows| && forall i :: 0 <= i < |rows| ==> after[i] == SmoothedRow(rows[i], days, true, ln)
  }

  lemma {:induction false} SmoothedTotal(rows: seq<DailyRow>, days: seq<PortfolioDay>, ln: real -> real, after: seq<DailyRow>)
    requires LnLaws(ln) && Covered(rows, days) && UniqueDates(days) && DomainIsValid(days)
    requires RawMatchesReturn(rows, days) && SmoothedRows(rows, days, ln, after)
    ensures CarinoFactor(TotalReturn(days), ln) * SumBy(after, Smoothed) == LinkedSum(days, ln)
  {
    hide LnLaws, CarinoFactor, RawMatchesReturn, TotalReturn, Ratio, DomainIsValid, WeightedRaw, Group, SumBy,
         SumOfGroups, SmoothedRows, Covered, UniqueDates, ShareOfDay;
    var k, f := CarinoFactor(TotalReturn(days), ln), WeightedRaw(days, ln);
    SmoothedIsWeighted(rows, days, ln, after);
    RowsByDay(rows, days, f);
    forall i | 0 <= i < |days| ensures ShareOfDay(rows, days[i], ln, k, f) {
      DayShare(rows, days, i, ln);
    }
    DaysAddUp(rows, days, ln, k, f);
  }

  lemma {:induction false} SmoothedIsWeighted(rows: seq<DailyRow>, days: seq<PortfolioDay>, ln: real -> real, after: seq<DailyRow>)
    requires LnLaws(ln) && Covered(rows, days) && DomainIsValid(days) && SmoothedRows(rows, days, ln, after)
    ensures SumBy(after, Smoothed) == SumBy(rows, WeightedRaw(days, ln))
  {
    hide LnLaws, DomainIsValid, LinkingFactor, HasDate, SumBy;
    SumByPointwise(rows, WeightedRaw(days, ln), after, Smoothed);
  }

  /** Rows regrouped by the days of the portfolio. */
  lemma {:induction false} RowsByDay(rows: seq<DailyRow>, days: seq<PortfolioDay>, f: DailyRow -> real)
    requires Covered(rows, days) && UniqueDates(days)
    ensures SumBy(rows, f) == SumOfGroups(Dates(days), rows, DateKey, f)
  {
    forall x | x in rows ensures x.date in Dates(days) {
      DateListed(rows, days, x);
    }
    GroupsCoverKeyed(Dates(days), rows, DateKey, f);
    AllKeyed(rows, DateKey);
  }

  lemma {:induction false} DateListed(rows: seq<DailyRow>, days: seq<PortfolioDay>, x: DailyRow)
    requires Covered(rows, days) && x in rows
    ensures x.date in Dates(days)
  {
    var i :| 0 <= i < |days| && days[i].date == x.date;
    assert Dates(days)[i] == x.date;
  }

  /** Carino linking is exact exactly when the shortfalls of the tolerance band balance. */
  lemma {:induction false} CarinoExactIffDefectsBalance(rows: seq<DailyRow>, days: seq<PortfolioDay>, ln: real -> real, after: seq<DailyRow>)
    requires LnLaws(ln) && Covered(rows, days) && UniqueDates(days) && DomainIsValid(days)
    requires RawMatchesReturn(rows, days) && SmoothedRows(rows, days, ln, after)
    ensures SumBy(after, Smoothed) == TotalReturn(days) <==> DefectSum(days, ln) == Defect(TotalReturn(days), ln)
  {
    hide LnLaws, CarinoFactor, RawMatchesReturn, Ratio, DomainIsValid, Growth, SmoothedRows, Covered;
    var r := TotalReturn(days);
    SmoothedTotal(rows, days, ln, after);
    LinkedSumIsLogGrowth(days, ln);
    FactorPositive(ln, r);
    CancelPositive(CarinoFactor(r, ln), SumBy(after, Smoothed), r);
  }

  lemma {:induction false} CancelPositive(k: real, a: real, b: real)
    requires k > 0.0
    ensures k * a == k * b <==> a == b
  {
  }

  /** With a total return outside the band, the smoothed contributions of all positions and days add up to the
      compounded portfolio return if and only if no daily return is nonzero and inside the band. */
  lemma {:induction false} CarinoLinkingExact(rows: seq<DailyRow>, days: seq<PortfolioDay>, ln: real -> real, after: seq<DailyRow>)
    requires LnLaws(ln) && Covered(rows, days) && UniqueDates(days) && DomainIsValid(days)
    requires RawMatchesReturn(rows, days) && SmoothedRows(rows, days, ln, after)
    requires !InZeroBand(TotalReturn(days))
    ensures SumBy(after, Smoothed) == TotalReturn(days)
       <==> forall i :: 0 <= i < |days| ==> !InZeroBand(Ratio(days[i]))
  {
    hide LnLaws, CarinoFactor, RawMatchesReturn, Ratio, DomainIsValid, Growth, SmoothedRows, Covered, InZeroBand,
         Defect, DefectSum;
    CarinoExactIffDefectsBalance(rows, days, ln, after);
    LinkedSumIsLogGrowth(days, ln);
    DefectOnlyInBand(TotalReturn(days), ln);
    DefectSumZeroIff(days, ln);
  }

  /** A total return inside the band, reached by days outside it, is never matched. */
  lemma {:induction false} CarinoMissesBandTotal(rows: seq<DailyRow>, days: seq<PortfolioDay>, ln: real -> real, after: seq<DailyRow>)
    requires LnLaws(ln) && Covered(rows, days) && UniqueDates(days) && DomainIsValid(days)
    requires RawMatchesReturn(rows, days) && SmoothedRows(rows, days, ln, after)
    requires InZeroBand(TotalReturn(days)) && forall i :: 0 <= i < |days| ==> !InZeroBand(Ratio(days[i]))
    ensures SumBy(after, Smoothed) != TotalReturn(days)
  {
    hide LnLaws, CarinoFactor, RawMatchesReturn, Ratio, DomainIsValid, Growth, SmoothedRows, Covered, InZeroBand,
         Defect, DefectSum;
    CarinoExactIffDefectsBalance(rows, days, ln, after);
    LinkedSumIsLogGrowth(days, ln);
    DefectOnlyInBand(TotalReturn(days), ln);
    DefectSumZeroIff(days, ln);
  }

  predicate OnClearedDay(row: DailyRow, days: seq<PortfolioDay>) {
    HasDate(days, row.date) && (DayOf(days, row.date).nip || DayOf(days, row.date).perfReset)
  }

  function OnClearedDays(days: seq<PortfolioDay>): DailyRow -> real {
    (row: DailyRow) => if OnClearedDay(row, days) then row.smoothed else 0.0
  }

  function Kept(days: seq<PortfolioDay>): DailyRow -> real {
    (row: DailyRow) => row.smoothed - OnClearedDays(days)(row)
  }

  /** Clearing no-investment and reset days takes exactly their smoothed contributions out of the total. */
  lemma {:induction false} ClearingRemovesClearedDays(rows: seq<DailyRow>, days: seq<PortfolioDay>, after: seq<DailyRow>)
    requires Covered(rows, days) && |after| == |rows|
    requires forall i :: 0 <= i < |rows| ==> after[i] == ClearedRow(rows[i], days)
    ensures SumBy(after, Smoothed) == SumBy(rows, Smoothed) - SumBy(rows, OnClearedDays(days))
  {
    KeptPart(rows, days, after);
    KeptSum(rows, days);
  }

  lemma {:induction false} KeptPart(rows: seq<DailyRow>, days: seq<PortfolioDay>, after: seq<DailyRow>)
    requires Covered(rows, days) && |after| == |rows|
    requires forall i :: 0 <= i < |rows| ==> after[i] == ClearedRow(rows[i], days)
    ensures SumBy(after, Smoothed) == SumBy(rows, Kept(days))
  {
    hide SumBy, HasDate, DayOf, Kept;
    forall i | 0 <= i < |rows| ensures Smoothed(after[i]) == Kept(days)(rows[i]) {
      KeptRow(rows[i], days);
    }
    SumByPointwise(after, Smoothed, rows, Kept(days));
  }

  lemma {:induction false} KeptRow(row: DailyRow, days: seq<PortfolioDay>)
    requires HasDate(days, row.date)
    ensures Smoothed(ClearedRow(row, days)) == Kept(days)(row)
  {
    assert OnClearedDays(days)(row) == if OnClearedDay(row, days) then row.smoothed else 0.0;
  }

  lemma {:induction false} KeptSum(rows: seq<DailyRow>, days: seq<PortfolioDay>)
    ensures SumBy(rows, Kept(days)) == SumBy(rows, Smoothed) - SumBy(rows, OnClearedDays(days))
  {
    hide SumBy, OnClearedDay, OnClearedDays;
    SumByLinear(rows, Kept(days), 1.0, Smoothed, -1.0, OnClearedDays(days));
  }

  /** Smoothing keeps local plus FX equal to the total on every row under Carino, and otherwise wherever the
      raw columns satisfied it. */
  lemma {:induction false} SmoothingKeepsCurrencySplit(row: DailyRow, days: seq<PortfolioDay>, carino: bool, ln: real -> real)
    requires LnLaws(ln) && HasDate(days, row.date)
    requires (carino && DomainIsValid(days)) || row.raw == row.rawLocal + row.rawFx
    ensures var s := ClearedRow(SmoothedRow(row, days, carino, ln), days);
            s.smoothed == s.smoothedLocal + s.smoothedFx
  {
    hide LnLaws;
  }
}
