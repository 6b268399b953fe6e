/** Carino linking after no-investment and reset days are cleared, and inputs on which linking is not exact. */
module CarinoClearing {
  import opened Wrappers
  import opened RealArithmetic
  import opened Calculus
  import opened Sums
  import opened CarinoSmoothing
  import DailyReturns
  import Rules

  predicate IsCleared(d: PortfolioDay) { d.nip || d.perfReset }

  function ClearedDays(days: seq<PortfolioDay>): (r: seq<PortfolioDay>)
    ensures forall d :: d in r ==> d in days && IsCleared(d)
  {
    if days == [] then [] else (if IsCleared(days[0]) then [days[0]] else []) + ClearedDays(days[1..])
  }

  ghost function ClearedShare(ln: real -> real): PortfolioDay -> real {
    (d: PortfolioDay) => if IsCleared(d) then CarinoFactor(Ratio(d), ln) * Ratio(d) else 0.0
  }

  ghost function ClearedRaw(days: seq<PortfolioDay>, ln: real -> real): DailyRow -> real {
    (row: DailyRow) => if OnClearedDay(row, days) then WeightedRaw(days, ln)(row) else 0.0
  }

  lemma {:induction false} SmoothedOnClearedDay(row: DailyRow, days: seq<PortfolioDay>, ln: real -> real)
    requires LnLaws(ln) && HasDate(days, row.date) && DomainIsValid(days)
    ensures OnClearedDays(days)(SmoothedRow(row, days, true, ln)) == ClearedRaw(days, ln)(row)
  {
    hide LnLaws, DomainIsValid, LinkingFactor, HasDate, DayOf;
    var after := SmoothedRow(row, days, true, ln);
    assert after.date == row.date && after.smoothed == row.raw * LinkingFactor(days, row.date, ln);
    assert OnClearedDay(after, days) <==> OnClearedDay(row, days);
    assert WeightedRaw(days, ln)(row) == Weight(days, row.date, ln) * row.raw;
  }

  lemma {:induction false} SmoothedClearedSum(rows: seq<DailyRow>, days: seq<PortfolioDay>, ln: real -> real, after: seq<DailyRow>)
    requires LnLaws(ln) && Covered(rows, days) && DomainIsValid(days) && SmoothedRows(rows, days, ln, after)
    ensures SumBy(after, OnClearedDays(days)) == SumBy(rows, ClearedRaw(days, ln))
  {
    hide LnLaws, DomainIsValid, SumBy, HasDate, SmoothedRow, OnClearedDays, ClearedRaw;
    forall i | 0 <= i < |rows| ensures OnClearedDays(days)(after[i]) == ClearedRaw(days, ln)(rows[i]) {
      SmoothedOnClearedDay(rows[i], days, ln);
    }
    SumByPointwise(after, OnClearedDays(days), rows, ClearedRaw(days, ln));
  }

  lemma {:induction false} ClearedGroup(rows: seq<DailyRow>, days: seq<PortfolioDay>, i: nat, ln: real -> real)
    requires UniqueDates(days) && i < |days|
    ensures SumBy(Group(rows, DateKey, days[i].date), ClearedRaw(days, ln))
         == if IsCleared(days[i]) then SumBy(Group(rows, DateKey, days[i].date), WeightedRaw(days, ln)) else 0.0
  {
    hide SumBy, WeightedRaw, Weight;
    var g, f := Group(rows, DateKey, days[i].date), ClearedRaw(days, ln);
    DayOfUnique(days, i);
    if IsCleared(days[i]) {
      forall x | x in g ensures f(x) == WeightedRaw(days, ln)(x) {
        OnDay(x, days, i);
      }
      SumByEqual(g, f, WeightedRaw(days, ln));
    } else {
      forall x | x in g ensures f(x) == 0.0 * Raw(x) {
        OnDay(x, days, i);
      }
      SumByScaled(g, f, 0.0, Raw);
    }
  }

  lemma {:induction false} OnDay(row: DailyRow, days: seq<PortfolioDay>, i: nat)
    requires UniqueDates(days) && i < |days| && row.date == days[i].date
    ensures OnClearedDay(row, days) <==> IsCleared(days[i])
  {
    DayOfUnique(days, i);
  }

  /** The day's part of the cleared contributions, times the total's factor. */
  predicate PartOfDay(rows: seq<DailyRow>, d: PortfolioDay, k: real, f: DailyRow -> real, share: PortfolioDay -> real) {
    k * SumBy(Group(rows, DateKey, d.date), f) == share(d)
  }

  lemma {:induction false} PartsAddUp(rows: seq<DailyRow>, days: seq<PortfolioDay>, k: real, f: DailyRow -> real,
                                      share: PortfolioDay -> real)
    requires forall i :: 0 <= i < |days| ==> PartOfDay(rows, days[i], k, f, share)
    ensures k * SumOfGroups(Dates(days), rows, DateKey, f) == SumBy(days, share)
  {
    hide Group;
    if days != [] {
      var keys := Dates(days);
      assert keys[1..] == Dates(days[1..]);
      assert forall i :: 0 <= i < |days| - 1 ==> days[1..][i] == days[i + 1];
      PartsAddUp(rows, days[1..], k, f, share);
      assert PartOfDay(rows, days[0], k, f, share);
      Distribute(k, SumBy(Group(rows, DateKey, keys[0]), f), SumOfGroups(keys[1..], rows, DateKey, f),
                 SumOfGroups(keys, rows, DateKey, f));
    } else {
      assert k * 0.0 == 0.0;
    }
  }

  lemma {:induction false} ClearedPart(rows: seq<DailyRow>, days: seq<PortfolioDay>, i: nat, ln: real -> real)
    requires LnLaws(ln) && UniqueDates(days) && RawMatchesReturn(rows, days) && i < |days|
    ensures PartOfDay(rows, days[i], CarinoFactor(TotalReturn(days), ln), ClearedRaw(days, ln), ClearedShare(ln))
  {
    hide LnLaws, CarinoFactor, RawMatchesReturn, TotalReturn, Ratio, Group, SumBy, WeightedRaw, ClearedRaw;
    ClearedGroup(rows, days, i, ln);
    DayShare(rows, days, i, ln);
    assert CarinoFactor(TotalReturn(days), ln) * 0.0 == 0.0;
  }

  lemma {:induction false} SharesAreLinkedSum(days: seq<PortfolioDay>, ln: real -> real)
    ensures SumBy(days, ClearedShare(ln)) == LinkedSum(ClearedDays(days), ln)
  {
    hide CarinoFactor, Ratio, SumBy, LinkedSum;
    SumByUnfolded(days, ClearedShare(ln));
    LinkedSumUnfolded(ClearedDays(days), ln);
    if days != [] {
      SharesAreLinkedSum(days[1..], ln);
      if IsCleared(days[0]) {
        assert ClearedDays(days)[1..] == ClearedDays(days[1..]);
      } else {
        assert ClearedDays(days) == ClearedDays(days[1..]);
      }
    }
  }

  lemma {:induction false} LinkedSumUnfolded(days: seq<PortfolioDay>, ln: real -> real)
    ensures LinkedSum(days, ln)
         == if days == [] then 0.0 else CarinoFactor(Ratio(days[0]), ln) * Ratio(days[0]) + LinkedSum(days[1..], ln)
  {
  }

  lemma {:induction false} ClearedTotal(rows: seq<DailyRow>, days: seq<PortfolioDay>, ln: real -> real, after: seq<DailyRow>)
    requires LnLaws(ln) && Covered(rows, days) && UniqueDates(days) && DomainIsValid(days)
    requires RawMatchesReturn(rows, days) && SmoothedRows(rows, days, ln, after)
    ensures CarinoFactor(TotalReturn(days), ln) * SumBy(after, OnClearedDays(days)) == LinkedSum(ClearedDays(days), ln)
  {
    hide LnLaws, CarinoFactor, RawMatchesReturn, TotalReturn, DomainIsValid, Group, SumBy, SumOfGroups, SmoothedRows,
         Covered, UniqueDates, PartOfDay, ClearedRaw, ClearedShare, OnClearedDays, ClearedDays, LinkedSum;
    var k, f := CarinoFactor(TotalReturn(days), ln), ClearedRaw(days, ln);
    SmoothedClearedSum(rows, days, ln, after);
    RowsByDay(rows, days, f);
    forall i | 0 <= i < |days| ensures PartOfDay(rows, days[i], k, f, ClearedShare(ln)) {
      ClearedPart(rows, days, i, ln);
    }
    PartsAddUp(rows, days, k, f, ClearedShare(ln));
    SharesAreLinkedSum(days, ln);
  }

  ghost predicate ClearedRows(before: seq<DailyRow>, days: seq<PortfolioDay>, after: seq<DailyRow>)
    requires Covered(before, days)
  {
    |after| == |before| && forall i :: 0 <= i < |before| ==> after[i] == ClearedRow(before[i], days)
  }

  lemma {:induction false} ClearedDomain(days: seq<PortfolioDay>)
    requires DomainIsValid(days)
    ensures DomainIsValid(ClearedDays(days))
  {
    hide Ratio;
    var r := ClearedDays(days);
    forall i | 0 <= i < |r| ensures 1.0 + Ratio(r[i]) > 0.0 {
      assert r[i] in days;
    }
  }

  /** After smoothing and clearing, the contributions add up to the compounded return exactly when the log growth of
      the cleared days makes up for the band defects. */
  lemma {:induction false} ClearedLinkingExactIff(rows: seq<DailyRow>, days: seq<PortfolioDay>, ln: real -> real,
                                                  smoothed: seq<DailyRow>, after: seq<DailyRow>)
    requires LnLaws(ln) && Covered(rows, days) && UniqueDates(days) && DomainIsValid(days)
    requires RawMatchesReturn(rows, days) && SmoothedRows(rows, days, ln, smoothed)
    requires Covered(smoothed, days) && ClearedRows(smoothed, days, after)
    ensures Growth(ClearedDays(days)) > 0.0
    ensures SumBy(after, Smoothed) == TotalReturn(days)
       <==> ln(Growth(ClearedDays(days))) + DefectSum(ClearedDays(days), ln)
            == DefectSum(days, ln) - Defect(TotalReturn(days), ln)
  {
    hide LnLaws, CarinoFactor, RawMatchesReturn, Ratio, DomainIsValid, Growth, SmoothedRows, Covered, ClearedDays,
         OnClearedDays, SumBy;
    var r := TotalReturn(days);
    SmoothedTotal(rows, days, ln, smoothed);
    ClearedTotal(rows, days, ln, smoothed);
    ClearingRemovesClearedDays(smoothed, days, after);
    LinkedSumIsLogGrowth(days, ln);
    ClearedDomain(days);
    LinkedSumIsLogGrowth(ClearedDays(days), ln);
    FactorPositive(ln, r);
    CancelPositive(CarinoFactor(r, ln), SumBy(after, Smoothed), r);
    Distribute(CarinoFactor(r, ln), SumBy(after, Smoothed), SumBy(smoothed, OnClearedDays(days)), SumBy(smoothed, Smoothed));
  }

  lemma {:induction false} LogZeroIff(ln: real -> real, x: real)
    requires LnLaws(ln) && x > 0.0
    ensures ln(x) == 0.0 <==> x == 1.0
  {
    if x != 1.0 {
      LogSign(ln, x - 1.0);
      assert 1.0 + (x - 1.0) == x;
    }
  }

  predicate NoneInBand(days: seq<PortfolioDay>) {
    forall i :: 0 <= i < |days| ==> !InZeroBand(Ratio(days[i]))
  }

  lemma {:induction false} NoDefects(days: seq<PortfolioDay>, ln: real -> real)
    requires LnLaws(ln) && DomainIsValid(days) && NoneInBand(days)
    ensures DefectSum(days, ln) == 0.0 && DefectSum(ClearedDays(days), ln) == 0.0
  {
    hide LnLaws, InZeroBand, Ratio;
    DefectSumZeroIff(days, ln);
    ClearedDomain(days);
    var r := ClearedDays(days);
    forall i | 0 <= i < |r| ensures !InZeroBand(Ratio(r[i])) {
      assert r[i] in days;
    }
    DefectSumZeroIff(r, ln);
  }

  /** With no return inside the band, smoothing and clearing leave the linking exact if and only if the cleared days
      together neither gained nor lost. */
  lemma {:induction false} ClearingExactIffFlat(rows: seq<DailyRow>, days: seq<PortfolioDay>, ln: real -> real,
                                                smoothed: seq<DailyRow>, after: seq<DailyRow>)
    requires LnLaws(ln) && Covered(rows, days) && UniqueDates(days) && DomainIsValid(days)
    requires RawMatchesReturn(rows, days) && SmoothedRows(rows, days, ln, smoothed)
    requires Covered(smoothed, days) && ClearedRows(smoothed, days, after)
    requires NoneInBand(days) && !InZeroBand(TotalReturn(days))
    ensures SumBy(after, Smoothed) == TotalReturn(days) <==> Growth(ClearedDays(days)) == 1.0
  {
    hide LnLaws, CarinoFactor, RawMatchesReturn, Ratio, DomainIsValid, Growth, SmoothedRows, Covered, ClearedDays,
         SumBy, NoneInBand, InZeroBand, Defect, DefectSum, ClearedRows;
    ClearedLinkingExactIff(rows, days, ln, smoothed, after);
    NoDefects(days, ln);
    LinkedSumIsLogGrowth(days, ln);
    DefectOnlyInBand(TotalReturn(days), ln);
    LogZeroIff(ln, Growth(ClearedDays(days)));
  }

  // ---------------------------------------------------------------- failing inputs

  /** The whole portfolio in one position. */
  function WholeRow(d: PortfolioDay): DailyRow {
    DailyRow("P", d.date, 1.0, Ratio(d), 0.0, Ratio(d), 0.0, 0.0, 0.0)
  }

  lemma {:induction false} TwoDays(d: PortfolioDay, e: PortfolioDay)
    requires d.date != e.date
    ensures var days, rows := [d, e], [WholeRow(d), WholeRow(e)];
      && UniqueDates(days) && Covered(rows, days) && RawMatchesReturn(rows, days)
      && TotalReturn(days) == (1.0 + Ratio(d)) * (1.0 + Ratio(e)) - 1.0
  {
    hide Ratio, Group, SumBy, Growth;
    var days, rows := [d, e], [WholeRow(d), WholeRow(e)];
    assert days[0].date == rows[0].date && days[1].date == rows[1].date;
    TwoGroups(d, e);
    RawOfOne(d);
    RawOfOne(e);
    GrowthOfTwo(d, e);
  }

  lemma {:induction false} RawOfOne(d: PortfolioDay)
    ensures SumBy([WholeRow(d)], Raw) == Ratio(d)
  {
    assert [WholeRow(d)][1..] == [];
  }

  lemma {:induction false} GrowthOfTwo(d: PortfolioDay, e: PortfolioDay)
    ensures Growth([d, e]) == (1.0 + Ratio(d)) * (1.0 + Ratio(e))
  {
    hide Ratio;
    assert [d, e][1..] == [e] && [e][1..] == [];
    assert Growth([e]) == (1.0 + Ratio(e)) * Growth([]);
  }

  lemma {:induction false} TwoGroups(d: PortfolioDay, e: PortfolioDay)
    requires d.date != e.date
    ensures Group([WholeRow(d), WholeRow(e)], DateKey, d.date) == [WholeRow(d)]
    ensures Group([WholeRow(d), WholeRow(e)], DateKey, e.date) == [WholeRow(e)]
  {
    hide Ratio;
    var rows := [WholeRow(d), WholeRow(e)];
    var rest := [WholeRow(e)];
    assert rows[1..] == rest && rest[1..] == [];
    assert Group(rest, DateKey, d.date) == [] && Group(rest, DateKey, e.date) == rest;
  }

  const BAND_DAY: PortfolioDay := PortfolioDay(1, 0.0000000001, false, false)
  const HALF_UP: PortfolioDay := PortfolioDay(2, 50.0, false, false)
  const DOUBLED: PortfolioDay := PortfolioDay(1, 100.0, false, false)
  const NEARLY_HALVED: PortfolioDay := PortfolioDay(2, -49.99999999995, false, false)
  const CLEARED_GAIN: PortfolioDay := PortfolioDay(1, 50.0, true, false)
  const TENTH_UP: PortfolioDay := PortfolioDay(2, 10.0, false, false)

  /** A day of 1e-10 percent before a day of 50 percent: the contributions do not add up. */
  lemma {:induction false} BandDayMisses(ln: real -> real, after: seq<DailyRow>)
    requires LnLaws(ln) && Covered([WholeRow(BAND_DAY), WholeRow(HALF_UP)], [BAND_DAY, HALF_UP])
    requires SmoothedRows([WholeRow(BAND_DAY), WholeRow(HALF_UP)], [BAND_DAY, HALF_UP], ln, after)
    ensures SumBy(after, Smoothed) != TotalReturn([BAND_DAY, HALF_UP])
  {
    hide LnLaws, SmoothedRows, RawMatchesReturn, UniqueDates, TotalReturn, SumBy, Covered;
    var days := [BAND_DAY, HALF_UP];
    TwoDays(BAND_DAY, HALF_UP);
    assert InZeroBand(Ratio(days[0]));
    CarinoLinkingExact([WholeRow(BAND_DAY), WholeRow(HALF_UP)], days, ln, after);
  }

  /** A doubling undone but for 1e-12: the total is in the band and no day is. */
  lemma {:induction false} BandTotalMisses(ln: real -> real, after: seq<DailyRow>)
    requires LnLaws(ln) && Covered([WholeRow(DOUBLED), WholeRow(NEARLY_HALVED)], [DOUBLED, NEARLY_HALVED])
    requires SmoothedRows([WholeRow(DOUBLED), WholeRow(NEARLY_HALVED)], [DOUBLED, NEARLY_HALVED], ln, after)
    ensures SumBy(after, Smoothed) != TotalReturn([DOUBLED, NEARLY_HALVED])
  {
    hide LnLaws, SmoothedRows, RawMatchesReturn, UniqueDates, TotalReturn, SumBy, Covered;
    TwoDays(DOUBLED, NEARLY_HALVED);
    CarinoMissesBandTotal([WholeRow(DOUBLED), WholeRow(NEARLY_HALVED)], [DOUBLED, NEARLY_HALVED], ln, after);
  }

  /** A gain on a cleared day is lost from the contributions. */
  lemma {:induction false} ClearedGainMisses(ln: real -> real, smoothed: seq<DailyRow>, after: seq<DailyRow>)
    requires LnLaws(ln) && Covered([WholeRow(CLEARED_GAIN), WholeRow(TENTH_UP)], [CLEARED_GAIN, TENTH_UP])
    requires SmoothedRows([WholeRow(CLEARED_GAIN), WholeRow(TENTH_UP)], [CLEARED_GAIN, TENTH_UP], ln, smoothed)
    requires Covered(smoothed, [CLEARED_GAIN, TENTH_UP]) && ClearedRows(smoothed, [CLEARED_GAIN, TENTH_UP], after)
    ensures SumBy(after, Smoothed) != TotalReturn([CLEARED_GAIN, TENTH_UP])
  {
    hide LnLaws, SmoothedRows, RawMatchesReturn, UniqueDates, TotalReturn, SumBy, Covered, ClearedRows;
    var days := [CLEARED_GAIN, TENTH_UP];
    TwoDays(CLEARED_GAIN, TENTH_UP);
    OneCleared();
    ClearingExactIffFlat([WholeRow(CLEARED_GAIN), WholeRow(TENTH_UP)], days, ln, smoothed, after);
  }

  /** The valuation of that day: 0.8 flows in at the open, 1 out at the close, 0.2 is left. */
  const GAIN_ROW: DailyReturns.Row := DailyReturns.Row(1, 1, 0.0, 0.8, -1.0, 0.0, 0.2)

  /** The engine produces such a day: the first rule calls it a no-investment day although it returns 50 %. */
  lemma {:induction false} NoInvestmentDayGains(basis: DailyReturns.MetricBasis)
    ensures Rules.NipV1(GAIN_ROW.beginMv, GAIN_ROW.bodCf, GAIN_ROW.eodCf, GAIN_ROW.endMv)
    ensures DailyReturns.LocalReturn(GAIN_ROW, basis) * 100.0 == CLEARED_GAIN.dailyRor
  {
  }

  /** Under the second rule a no-investment day has no local return. */
  lemma {:induction false} SecondRuleHasNoReturn(r: DailyReturns.Row, basis: DailyReturns.MetricBasis)
    requires Rules.NipV2(r.beginMv, r.bodCf, r.eodCf, r.endMv)
    ensures DailyReturns.LocalReturn(r, basis) == 0.0
  {
  }

  /** Cleared days without a return compound to 1, so clearing them costs nothing. */
  lemma {:induction false} ReturnlessDaysFlat(days: seq<PortfolioDay>)
    requires forall d :: d in days && IsCleared(d) ==> d.dailyRor == 0.0
    ensures Growth(ClearedDays(days)) == 1.0
  {
    if days != [] {
      ReturnlessDaysFlat(days[1..]);
      if IsCleared(days[0]) {
        assert ClearedDays(days)[1..] == ClearedDays(days[1..]);
        assert Ratio(days[0]) == 0.0;
      } else {
        assert ClearedDays(days) == ClearedDays(days[1..]);
      }
    }
  }

  lemma {:induction false} OneCleared()
    ensures ClearedDays([CLEARED_GAIN, TENTH_UP]) == [CLEARED_GAIN] && Growth([CLEARED_GAIN]) == 1.5
  {
    var days := [CLEARED_GAIN, TENTH_UP];
    assert days[1..] == [TENTH_UP] && [TENTH_UP][1..] == [];
    assert ClearedDays([TENTH_UP]) == [];
    assert [CLEARED_GAIN][1..] == [] && Growth([]) == 1.0;
    assert Growth([CLEARED_GAIN]) == (1.0 + Ratio(CLEARED_GAIN)) * Growth([]);
  }
}
