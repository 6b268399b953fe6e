/** The currency attribution report: effects of a date and currency panel, reconciled with the active return. */
module CurrencyAttribution {
  import opened Wrappers
  import opened Sums

  /** One aligned row of the effects frame: weights, base returns, and the local and FX returns of each side. A missing
      currency is None. */
  datatype Holding = Holding(
    date: int,
    currency: Option<string>,
    wp: real,
    wb: real,
    rp: real,
    rb: real,
    localP: real,
    localB: real,
    fxP: real,
    fxB: real)

  /** One row of the panel; the effects read neither base returns nor the portfolio's own FX return. */
  datatype CurrencyRow = CurrencyRow(
    date: int,
    currency: Option<string>,
    wp: real,
    wb: real,
    localP: real,
    localB: real,
    fxB: real)

  datatype Side = Portfolio | Benchmark

  function Weight(h: Holding, side: Side): real { if side == Portfolio then h.wp else h.wb }
  function Local(h: Holding, side: Side): real { if side == Portfolio then h.localP else h.localB }
  function Fx(h: Holding, side: Side): real { if side == Portfolio then h.fxP else h.fxB }
  function Base(h: Holding, side: Side): real { if side == Portfolio then h.rp else h.rb }

  function PanelKey(h: Holding): Option<(int, Option<string>)> { Some((h.date, h.currency)) }
  function HoldingCurrency(h: Holding): Option<string> { h.currency }
  function RowCurrency(r: CurrencyRow): Option<string> { r.currency }

  function Weights(side: Side): Holding -> real {
    (h: Holding) => Weight(h, side)
  }

  function WeightedLocal(side: Side): Holding -> real {
    (h: Holding) => Weight(h, side) * Local(h, side)
  }

  function WeightedFx(side: Side): Holding -> real {
    (h: Holding) => Weight(h, side) * Fx(h, side)
  }

  function WeightedBase(side: Side): Holding -> real {
    (h: Holding) => Weight(h, side) * Base(h, side)
  }

  function ActivePart(h: Holding): real { h.wp * h.rp - h.wb * h.rb }

  /** A weighted average return, 0 when the weights cancel. */
  function Average(weight: real, weighted: real): real {
    if weight == 0.0 then 0.0 else weighted / weight
  }

  function AverageLocal(g: seq<Holding>, side: Side): real {
    Average(SumBy(g, Weights(side)), SumBy(g, WeightedLocal(side)))
  }

  function PanelRowOf(hs: seq<Holding>, key: (int, Option<string>)): CurrencyRow {
    var g := Group(hs, PanelKey, key);
    var wp, wb := SumBy(g, Weights(Portfolio)), SumBy(g, Weights(Benchmark));
    CurrencyRow(key.0, key.1, wp, wb, AverageLocal(g, Portfolio), AverageLocal(g, Benchmark),
                Average(wb, SumBy(g, WeightedFx(Benchmark))))
  }

  function PanelFor(hs: seq<Holding>, keys: seq<(int, Option<string>)>): seq<CurrencyRow> {
    if keys == [] then [] else [PanelRowOf(hs, keys[0])] + PanelFor(hs, keys[1..])
  }

  function Panel(hs: seq<Holding>): seq<CurrencyRow> { PanelFor(hs, KeysOf(hs, PanelKey)) }

  datatype Effect = LocalAllocation | LocalSelection | CurrencyAllocation | CurrencySelection

  function EffectValue(c: CurrencyRow, e: Effect): real {
    match e
    case LocalAllocation => (c.wp - c.wb) * c.localB
    case LocalSelection => c.wb * (c.localP - c.localB)
    case CurrencyAllocation => (c.wp - c.wb) * (1.0 + c.localB) * c.fxB
    case CurrencySelection => c.wb * (c.localP - c.localB) * c.fxB
  }

  function OfEffect(e: Effect): CurrencyRow -> real {
    (c: CurrencyRow) => EffectValue(c, e)
  }

  function TotalEffect(c: CurrencyRow): real {
    EffectValue(c, LocalAllocation) + EffectValue(c, LocalSelection)
    + EffectValue(c, CurrencyAllocation) + EffectValue(c, CurrencySelection)
  }

  /** Effects of one currency over all dates, in percent. */
  datatype CurrencyResult = CurrencyResult(
    currency: string,
    localAllocation: real,
    localSelection: real,
    currencyAllocation: real,
    currencySelection: real,
    totalEffect: real)

  function ResultOf(panel: seq<CurrencyRow>, currency: string): CurrencyResult {
    var g := Group(panel, RowCurrency, currency);
    var a, b, c, d := SumBy(g, OfEffect(LocalAllocation)), SumBy(g, OfEffect(LocalSelection)),
                      SumBy(g, OfEffect(CurrencyAllocation)), SumBy(g, OfEffect(CurrencySelection));
    CurrencyResult(currency, a * 100.0, b * 100.0, c * 100.0, d * 100.0, (a + b + c + d) * 100.0)
  }

  function ReportedTotal(r: CurrencyResult): real { r.totalEffect }

  /** One result per currency, and the total over all of them. Rows without a currency are in neither. */
  method BuildCurrencyProjection(hs: seq<Holding>) returns (results: seq<CurrencyResult>, total: real)
    ensures var currencies := KeysOf(Panel(hs), RowCurrency);
      |results| == |currencies| && forall i :: 0 <= i < |results| ==> results[i] == ResultOf(Panel(hs), currencies[i])
    ensures total == SumBy(results, ReportedTotal)
    ensures total == (SumBy(Keyed(hs, HoldingCurrency), ActivePart) - MissedTotal(hs, KeysOf(hs, PanelKey))) * 100.0
  {
    hide SumBy, Group, Panel, ResultOf, Keyed, MissedTotal;
    var panel := Panel(hs);
    var currencies := KeysOf(panel, RowCurrency);
    results, total := [], 0.0;
    SumByUnfolded([], ReportedTotal);
    for k := 0 to |currencies|
      invariant |results| == k && total == SumBy(results, ReportedTotal)
      invariant forall i :: 0 <= i < k ==> results[i] == ResultOf(panel, currencies[i])
    {
      var result := ResultOf(panel, currencies[k]);
      SumByAppend(results, result, ReportedTotal);
      results, total := results + [result], total + result.totalEffect;
    }
    ResultsCoverPanel(panel, currencies, results);
    ReportMisses(hs);
  }

  // ---------------------------------------------------------------- each effect on its own

  function PortfolioAtLocal(c: CurrencyRow): real { c.wp * c.localB }
  function BenchmarkAtLocal(c: CurrencyRow): real { c.wb * c.localB }
  function BenchmarkAtOwnLocal(c: CurrencyRow): real { c.wb * c.localP }
  function PortfolioAtCurrency(c: CurrencyRow): real { c.wp * ((1.0 + c.localB) * c.fxB) }
  function BenchmarkAtCurrency(c: CurrencyRow): real { c.wb * ((1.0 + c.localB) * c.fxB) }
  function SelectionAtCurrency(c: CurrencyRow): real { c.wb * (c.localP * c.fxB) }
  function LocalAtCurrency(c: CurrencyRow): real { c.wb * (c.localB * c.fxB) }

  lemma {:induction false} ValueAlgebra(p: real, b: real, x: real, y: real, f: real)
    ensures (p - b) * y == 1.0 * (p * y) + -1.0 * (b * y)
    ensures b * (x - y) == 1.0 * (b * x) + -1.0 * (b * y)
    ensures (p - b) * (1.0 + y) * f == 1.0 * (p * ((1.0 + y) * f)) + -1.0 * (b * ((1.0 + y) * f))
    ensures b * (x - y) * f == 1.0 * (b * (x * f)) + -1.0 * (b * (y * f))
  {
  }

  lemma {:induction false} EffectValues(c: CurrencyRow)
    ensures EffectValue(c, LocalAllocation) == 1.0 * PortfolioAtLocal(c) + -1.0 * BenchmarkAtLocal(c)
    ensures EffectValue(c, LocalSelection) == 1.0 * BenchmarkAtOwnLocal(c) + -1.0 * BenchmarkAtLocal(c)
    ensures EffectValue(c, CurrencyAllocation) == 1.0 * PortfolioAtCurrency(c) + -1.0 * BenchmarkAtCurrency(c)
    ensures EffectValue(c, CurrencySelection) == 1.0 * SelectionAtCurrency(c) + -1.0 * LocalAtCurrency(c)
  {
    ValueAlgebra(c.wp, c.wb, c.localP, c.localB, c.fxB);
  }

  /** The effects of a report: local allocation moves the weights at benchmark local returns, local selection the local
      returns at benchmark weights, currency allocation the weights at the currency part of the benchmark returns, and
      currency selection the local returns at the currency returns. */
  lemma {:induction false} EffectTotals(rows: seq<CurrencyRow>)
    ensures SumBy(rows, OfEffect(LocalAllocation)) == SumBy(rows, PortfolioAtLocal) - SumBy(rows, BenchmarkAtLocal)
    ensures SumBy(rows, OfEffect(LocalSelection)) == SumBy(rows, BenchmarkAtOwnLocal) - SumBy(rows, BenchmarkAtLocal)
    ensures SumBy(rows, OfEffect(CurrencyAllocation)) == SumBy(rows, PortfolioAtCurrency) - SumBy(rows, BenchmarkAtCurrency)
    ensures SumBy(rows, OfEffect(CurrencySelection)) == SumBy(rows, SelectionAtCurrency) - SumBy(rows, LocalAtCurrency)
  {
    hide SumBy, EffectValue, PortfolioAtLocal, BenchmarkAtLocal, BenchmarkAtOwnLocal, PortfolioAtCurrency,
         BenchmarkAtCurrency, SelectionAtCurrency, LocalAtCurrency;
    forall c: CurrencyRow
      ensures OfEffect(LocalAllocation)(c) == 1.0 * PortfolioAtLocal(c) + -1.0 * BenchmarkAtLocal(c)
      ensures OfEffect(LocalSelection)(c) == 1.0 * BenchmarkAtOwnLocal(c) + -1.0 * BenchmarkAtLocal(c)
      ensures OfEffect(CurrencyAllocation)(c) == 1.0 * PortfolioAtCurrency(c) + -1.0 * BenchmarkAtCurrency(c)
      ensures OfEffect(CurrencySelection)(c) == 1.0 * SelectionAtCurrency(c) + -1.0 * LocalAtCurrency(c)
    {
      EffectValues(c);
    }
    SumByLinear(rows, OfEffect(LocalAllocation), 1.0, PortfolioAtLocal, -1.0, BenchmarkAtLocal);
    SumByLinear(rows, OfEffect(LocalSelection), 1.0, BenchmarkAtOwnLocal, -1.0, BenchmarkAtLocal);
    SumByLinear(rows, OfEffect(CurrencyAllocation), 1.0, PortfolioAtCurrency, -1.0, BenchmarkAtCurrency);
    SumByLinear(rows, OfEffect(CurrencySelection), 1.0, SelectionAtCurrency, -1.0, LocalAtCurrency);
  }

  /** The same for the result of one currency, in percent. */
  lemma {:induction false} CurrencyResultMeans(panel: seq<CurrencyRow>, currency: string)
    ensures var g, r := Group(panel, RowCurrency, currency), ResultOf(panel, currency);
      && r.currency == currency
      && r.localAllocation == (SumBy(g, PortfolioAtLocal) - SumBy(g, BenchmarkAtLocal)) * 100.0
      && r.localSelection == (SumBy(g, BenchmarkAtOwnLocal) - SumBy(g, BenchmarkAtLocal)) * 100.0
      && r.currencyAllocation == (SumBy(g, PortfolioAtCurrency) - SumBy(g, BenchmarkAtCurrency)) * 100.0
      && r.currencySelection == (SumBy(g, SelectionAtCurrency) - SumBy(g, LocalAtCurrency)) * 100.0
      && r.totalEffect == r.localAllocation + r.localSelection + r.currencyAllocation + r.currencySelection
  {
    hide SumBy, Group;
    EffectTotals(Group(panel, RowCurrency, currency));
  }

  // ---------------------------------------------------------------- the report against the active return

  lemma {:induction false} EffectSums(rows: seq<CurrencyRow>)
    ensures SumBy(rows, TotalEffect)
         == SumBy(rows, OfEffect(LocalAllocation)) + SumBy(rows, OfEffect(LocalSelection))
            + SumBy(rows, OfEffect(CurrencyAllocation)) + SumBy(rows, OfEffect(CurrencySelection))
  {
    hide EffectValue;
    if rows != [] {
      EffectSums(rows[1..]);
    }
  }

  lemma {:induction false} ResultsSum(panel: seq<CurrencyRow>, keys: seq<string>, results: seq<CurrencyResult>)
    requires |results| == |keys| && forall i :: 0 <= i < |keys| ==> results[i] == ResultOf(panel, keys[i])
    ensures SumBy(results, ReportedTotal) == SumOfGroups(keys, panel, RowCurrency, TotalEffect) * 100.0
  {
    hide Group, TotalEffect;
    if keys != [] {
      EffectSums(Group(panel, RowCurrency, keys[0]));
      ResultsSum(panel, keys[1..], results[1..]);
    }
  }

  lemma {:induction false} ResultsCoverPanel(panel: seq<CurrencyRow>, keys: seq<string>, results: seq<CurrencyResult>)
    requires keys == KeysOf(panel, RowCurrency)
    requires |results| == |keys| && forall i :: 0 <= i < |keys| ==> results[i] == ResultOf(panel, keys[i])
    ensures SumBy(results, ReportedTotal) == SumBy(Keyed(panel, RowCurrency), TotalEffect) * 100.0
  {
    hide SumBy, Group, ResultOf, Keyed, SumOfGroups;
    ResultsSum(panel, keys, results);
    GroupsCoverKeyed(keys, panel, RowCurrency, TotalEffect);
  }

  /** A local return composed with a currency return. */
  function BaseOf(local: real, fx: real): real { (1.0 + local) * (1.0 + fx) - 1.0 }

  /** The interaction of the weight and the local return differences, at the benchmark currency return. */
  function Interaction(c: CurrencyRow): real { (c.wp - c.wb) * (c.localP - c.localB) * (1.0 + c.fxB) }

  /** The value a side draws from its own currency return where it differs from the benchmark average fb. */
  function CurrencyGapOf(h: Holding, side: Side, fb: real): real {
    Weight(h, side) * (1.0 + Local(h, side)) * (Fx(h, side) - fb)
  }

  function CurrencyGap(side: Side, fb: real): Holding -> real {
    (h: Holding) => CurrencyGapOf(h, side, fb)
  }

  /** The part of a base return that is not its local return composed with its own currency return. */
  function CompositionGapOf(h: Holding, side: Side): real {
    Weight(h, side) * (Base(h, side) - BaseOf(Local(h, side), Fx(h, side)))
  }

  function CompositionGap(side: Side): Holding -> real {
    (h: Holding) => CompositionGapOf(h, side)
  }

  /** The weighted local returns of a side whose weights cancel, which its average does not show. */
  function LostLocal(g: seq<Holding>, side: Side): real {
    if SumBy(g, Weights(side)) == 0.0 then SumBy(g, WeightedLocal(side)) else 0.0
  }

  function CurrencyMissed(g: seq<Holding>, side: Side, fb: real): real {
    SumBy(g, CurrencyGap(side, fb)) + LostLocal(g, side) * (1.0 + fb)
  }

  /** What the effects of one panel row miss: the interaction, what each side's own currency returns and cancelled
      weights are worth, and what its base returns hold beyond local and currency returns. */
  function MissedOf(hs: seq<Holding>, key: (int, Option<string>)): real {
    var g, c := Group(hs, PanelKey, key), PanelRowOf(hs, key);
    Interaction(c)
    + (CurrencyMissed(g, Portfolio, c.fxB) + SumBy(g, CompositionGap(Portfolio)))
    - (CurrencyMissed(g, Benchmark, c.fxB) + SumBy(g, CompositionGap(Benchmark)))
  }

  /** Over the panel rows that have a currency. */
  function MissedTotal(hs: seq<Holding>, keys: seq<(int, Option<string>)>): real {
    if keys == [] then 0.0
    else (if keys[0].1.Some? then MissedOf(hs, keys[0]) else 0.0) + MissedTotal(hs, keys[1..])
  }

  lemma {:induction false} EffectAlgebra(p: real, b: real, x: real, y: real, f: real)
    ensures (p - b) * y + b * (x - y) + (p - b) * (1.0 + y) * f + b * (x - y) * f
         == p * ((1.0 + x) * (1.0 + f) - 1.0) - b * ((1.0 + y) * (1.0 + f) - 1.0) - (p - b) * (x - y) * (1.0 + f)
  {
  }

  lemma {:induction false} ActiveParts(g: seq<Holding>)
    ensures SumBy(g, ActivePart) == SumBy(g, WeightedBase(Portfolio)) - SumBy(g, WeightedBase(Benchmark))
  {
    hide SumBy;
    SumByLinear(g, ActivePart, 1.0, WeightedBase(Portfolio), -1.0, WeightedBase(Benchmark));
  }

  /** Weight and weighted local return. */
  function Grown(side: Side): Holding -> real {
    (h: Holding) => Weight(h, side) + Weight(h, side) * Local(h, side)
  }

  /** What the holding gains at the benchmark currency return fb. */
  function GainAt(h: Holding, side: Side, fb: real): real {
    (1.0 + fb) * (Weight(h, side) + Weight(h, side) * Local(h, side)) - Weight(h, side)
  }

  function GrownGain(side: Side, fb: real): Holding -> real {
    (h: Holding) => GainAt(h, side, fb)
  }

  function OwnGaps(side: Side, fb: real): Holding -> real {
    (h: Holding) => CurrencyGapOf(h, side, fb) + CompositionGapOf(h, side)
  }

  lemma {:induction false} HoldingAlgebra(w: real, l: real, f: real, r: real, fb: real)
    ensures w * r == (w * (1.0 + l) * (f - fb) + w * (r - ((1.0 + l) * (1.0 + f) - 1.0))) + ((1.0 + fb) * (w + w * l) - w)
  {
    var u := w * (1.0 + l);
    assert u == w + w * l;
    assert u * (f - fb) == u * (1.0 + f) - u * (1.0 + fb);
    assert w * ((1.0 + l) * (1.0 + f)) == u * (1.0 + f);
  }

  lemma {:induction false} HoldingSplits(h: Holding, side: Side, fb: real)
    ensures Weight(h, side) * Base(h, side)
         == (CurrencyGapOf(h, side, fb) + CompositionGapOf(h, side)) + GainAt(h, side, fb)
  {
    hide Weight, Local, Fx, Base;
    HoldingAlgebra(Weight(h, side), Local(h, side), Fx(h, side), Base(h, side), fb);
  }

  lemma {:induction false} SideSum(g: seq<Holding>, side: Side, fb: real)
    ensures SumBy(g, WeightedBase(side)) == SumBy(g, CurrencyGap(side, fb)) + SumBy(g, CompositionGap(side))
              + (1.0 + fb) * (SumBy(g, Weights(side)) + SumBy(g, WeightedLocal(side))) - SumBy(g, Weights(side))
  {
    hide SumBy, CurrencyGapOf, CompositionGapOf, GainAt, Weight, Base;
    forall h: Holding ensures WeightedBase(side)(h) == 1.0 * OwnGaps(side, fb)(h) + 1.0 * GrownGain(side, fb)(h) {
      HoldingSplits(h, side, fb);
    }
    SumByLinear(g, WeightedBase(side), 1.0, OwnGaps(side, fb), 1.0, GrownGain(side, fb));
    GapSums(g, side, fb);
    GrownSums(g, side, fb);
  }

  lemma {:induction false} GapSums(g: seq<Holding>, side: Side, fb: real)
    ensures SumBy(g, OwnGaps(side, fb)) == SumBy(g, CurrencyGap(side, fb)) + SumBy(g, CompositionGap(side))
  {
    hide SumBy, CurrencyGapOf, CompositionGapOf;
    SumByLinear(g, OwnGaps(side, fb), 1.0, CurrencyGap(side, fb), 1.0, CompositionGap(side));
  }

  lemma {:induction false} GrownSums(g: seq<Holding>, side: Side, fb: real)
    ensures SumBy(g, GrownGain(side, fb))
         == (1.0 + fb) * (SumBy(g, Weights(side)) + SumBy(g, WeightedLocal(side))) - SumBy(g, Weights(side))
  {
    hide SumBy, Weight, Local;
    SumByLinear(g, Grown(side), 1.0, Weights(side), 1.0, WeightedLocal(side));
    SumByLinear(g, GrownGain(side, fb), 1.0 + fb, Grown(side), -1.0, Weights(side));
  }

  lemma {:induction false} AverageTimes(w: real, x: real)
    ensures w * Average(w, x) == x - if w == 0.0 then x else 0.0
  {
    if w != 0.0 {
      assert w * (x / w) == x;
    }
  }

  /** The base returns of a side, less its weight times local average and benchmark currency composed. */
  lemma {:induction false} SideMissed(g: seq<Holding>, side: Side, fb: real)
    ensures SumBy(g, WeightedBase(side)) - SumBy(g, Weights(side)) * BaseOf(AverageLocal(g, side), fb)
         == CurrencyMissed(g, side, fb) + SumBy(g, CompositionGap(side))
  {
    hide SumBy, CurrencyGap, CompositionGap, Weights, WeightedLocal, WeightedBase;
    SideSum(g, side, fb);
    AverageTimes(SumBy(g, Weights(side)), SumBy(g, WeightedLocal(side)));
    SideAlgebra(SumBy(g, Weights(side)), AverageLocal(g, side), SumBy(g, WeightedLocal(side)), LostLocal(g, side), fb);
  }

  lemma {:induction false} SideAlgebra(w: real, l: real, x: real, lost: real, fb: real)
    requires w * l == x - lost
    ensures (1.0 + fb) * (w + x) - w - w * ((1.0 + l) * (1.0 + fb) - 1.0) == lost * (1.0 + fb)
  {
    assert w * ((1.0 + l) * (1.0 + fb)) == (w + w * l) * (1.0 + fb);
  }

  lemma {:induction false} RowMisses(hs: seq<Holding>, key: (int, Option<string>))
    ensures TotalEffect(PanelRowOf(hs, key)) == SumBy(Group(hs, PanelKey, key), ActivePart) - MissedOf(hs, key)
  {
    hide SumBy, Group, AverageLocal, CurrencyMissed, Weights, WeightedFx, CompositionGap;
    var g, c := Group(hs, PanelKey, key), PanelRowOf(hs, key);
    ActiveParts(g);
    SideMissed(g, Portfolio, c.fxB);
    SideMissed(g, Benchmark, c.fxB);
    EffectAlgebra(c.wp, c.wb, c.localP, c.localB, c.fxB);
  }

  function MaskedActive(h: Holding): real { if h.currency.Some? then ActivePart(h) else 0.0 }
  function MaskedEffect(c: CurrencyRow): real { if c.currency.Some? then TotalEffect(c) else 0.0 }

  lemma {:induction false} MaskedGroup(hs: seq<Holding>, key: (int, Option<string>))
    ensures SumBy(Group(hs, PanelKey, key), MaskedActive)
         == if key.1.Some? then SumBy(Group(hs, PanelKey, key), ActivePart) else 0.0
  {
    hide SumBy, ActivePart;
    var g := Group(hs, PanelKey, key);
    if key.1.Some? {
      SumByEqual(g, MaskedActive, ActivePart);
    } else {
      SumByScaled(g, MaskedActive, 0.0, ActivePart);
    }
  }

  lemma {:induction false} PanelMisses(hs: seq<Holding>, keys: seq<(int, Option<string>)>)
    ensures SumBy(PanelFor(hs, keys), MaskedEffect)
         == SumOfGroups(keys, hs, PanelKey, MaskedActive) - MissedTotal(hs, keys)
  {
    hide Group, MissedOf, TotalEffect, ActivePart, MaskedActive;
    if keys != [] {
      PanelMisses(hs, keys[1..]);
      RowMisses(hs, keys[0]);
      MaskedGroup(hs, keys[0]);
      assert PanelFor(hs, keys)[1..] == PanelFor(hs, keys[1..]);
    }
  }

  /** The effects of the report fall short of the active return of the holdings that have a currency by exactly
      what the panel rows miss. */
  lemma {:induction false} ReportMisses(hs: seq<Holding>)
    ensures SumBy(Keyed(Panel(hs), RowCurrency), TotalEffect)
         == SumBy(Keyed(hs, HoldingCurrency), ActivePart) - MissedTotal(hs, KeysOf(hs, PanelKey))
  {
    hide SumBy, Group, Keyed, SumOfGroups, MissedTotal, PanelFor, TotalEffect, ActivePart;
    var keys := KeysOf(hs, PanelKey);
    KeyedIsMasked(Panel(hs), RowCurrency, TotalEffect, MaskedEffect);
    KeyedIsMasked(hs, HoldingCurrency, ActivePart, MaskedActive);
    PanelMisses(hs, keys);
    GroupsCoverKeyed(keys, hs, PanelKey, MaskedActive);
    AllKeyed(hs, PanelKey);
  }

  // ---------------------------------------------------------------- when the report is exact

  /** The base returns of a holding are its local returns composed with its own currency returns. */
  predicate Composed(h: Holding) {
    h.rp == BaseOf(h.localP, h.fxP) && h.rb == BaseOf(h.localB, h.fxB)
  }

  lemma {:induction false} NoCompositionGap(g: seq<Holding>, side: Side)
    requires forall h :: h in g ==> Composed(h)
    ensures SumBy(g, CompositionGap(side)) == 0.0
  {
    hide SumBy, BaseOf;
    SumByScaled(g, CompositionGap(side), 0.0, Weights(side));
  }

  /** The miss of a row in terms of weights, local and currency returns only. */
  function CurrencyShortfall(hs: seq<Holding>, key: (int, Option<string>)): real {
    var g, c := Group(hs, PanelKey, key), PanelRowOf(hs, key);
    Interaction(c) + CurrencyMissed(g, Portfolio, c.fxB) - CurrencyMissed(g, Benchmark, c.fxB)
  }

  function ShortfallTotal(hs: seq<Holding>, keys: seq<(int, Option<string>)>): real {
    if keys == [] then 0.0
    else (if keys[0].1.Some? then CurrencyShortfall(hs, keys[0]) else 0.0) + ShortfallTotal(hs, keys[1..])
  }

  lemma {:induction false} ComposedShortfalls(hs: seq<Holding>, keys: seq<(int, Option<string>)>)
    requires forall h :: h in hs && h.currency.Some? ==> Composed(h)
    ensures MissedTotal(hs, keys) == ShortfallTotal(hs, keys)
  {
    hide SumBy, PanelRowOf, CurrencyMissed, Interaction, Composed;
    if keys != [] {
      ComposedShortfalls(hs, keys[1..]);
      if keys[0].1.Some? {
        NoCompositionGap(Group(hs, PanelKey, keys[0]), Portfolio);
        NoCompositionGap(Group(hs, PanelKey, keys[0]), Benchmark);
      }
    }
  }

  /** With composed base returns the report adds up to the active return of the holdings with a currency if and only
      if, over its rows, the interactions, the currency returns that differ from the benchmark average, and the local
      returns lost to cancelled weights balance. No base return enters the condition. */
  lemma {:induction false} ReportExactIff(hs: seq<Holding>)
    requires forall h :: h in hs && h.currency.Some? ==> Composed(h)
    ensures SumBy(Keyed(Panel(hs), RowCurrency), TotalEffect) == SumBy(Keyed(hs, HoldingCurrency), ActivePart)
       <==> ShortfallTotal(hs, KeysOf(hs, PanelKey)) == 0.0
  {
    hide SumBy, Keyed, MissedTotal, ShortfallTotal, TotalEffect, ActivePart, Composed;
    ReportMisses(hs);
    ComposedShortfalls(hs, KeysOf(hs, PanelKey));
  }

  /** A row exactly when the same terms of its own group balance. */
  lemma {:induction false} RowExactIff(hs: seq<Holding>, key: (int, Option<string>))
    requires forall h :: h in Group(hs, PanelKey, key) ==> Composed(h)
    ensures TotalEffect(PanelRowOf(hs, key)) == SumBy(Group(hs, PanelKey, key), ActivePart)
       <==> CurrencyShortfall(hs, key) == 0.0
  {
    hide SumBy, Group, PanelRowOf, CurrencyMissed, Interaction, Composed, TotalEffect, ActivePart, CompositionGap;
    RowMisses(hs, key);
    NoCompositionGap(Group(hs, PanelKey, key), Portfolio);
    NoCompositionGap(Group(hs, PanelKey, key), Benchmark);
  }

  // ---------------------------------------------------------------- rows with one currency return

  /** Both sides of every holding earn the currency return f, and neither side's weights cancel. */
  predicate OneCurrencyReturn(g: seq<Holding>, f: real) {
    && (forall h :: h in g ==> h.fxP == f && h.fxB == f)
    && SumBy(g, Weights(Portfolio)) != 0.0 && SumBy(g, Weights(Benchmark)) != 0.0
  }

  lemma {:induction false} NoCurrencyGap(g: seq<Holding>, side: Side, f: real)
    requires OneCurrencyReturn(g, f)
    ensures CurrencyMissed(g, side, f) == 0.0
  {
    hide SumBy, WeightedLocal, Weight, CurrencyGapOf;
    forall h | h in g ensures CurrencyGapOf(h, side, f) == 0.0 {
      NoGapOf(h, side, f);
    }
    SumByScaled(g, CurrencyGap(side, f), 0.0, Weights(side));
  }

  lemma {:induction false} NoGapOf(h: Holding, side: Side, f: real)
    requires h.fxP == f && h.fxB == f
    ensures CurrencyGapOf(h, side, f) == 0.0
  {
    hide Weight, Local;
    assert Fx(h, side) - f == 0.0;
  }

  lemma {:induction false} AverageCurrency(g: seq<Holding>, f: real)
    requires OneCurrencyReturn(g, f)
    ensures Average(SumBy(g, Weights(Benchmark)), SumBy(g, WeightedFx(Benchmark))) == f
  {
    hide SumBy;
    SumByScaled(g, WeightedFx(Benchmark), f, Weights(Benchmark));
    var w := SumBy(g, Weights(Benchmark));
    assert f * w / w == f;
  }

  lemma {:induction false} ZeroProduct(a: real, b: real, c: real)
    ensures a * b * c == 0.0 <==> a == 0.0 || b == 0.0 || c == 0.0
  {
    if a != 0.0 && b != 0.0 {
      assert a * b != 0.0;
    }
  }

  /** When a currency has one return on both sides, as a market rate has, its row misses the interaction alone: it is
      exact if and only if the weights agree, the average local returns agree, or the currency is wiped out. */
  lemma {:induction false} OneCurrencyReturnRow(hs: seq<Holding>, key: (int, Option<string>), f: real)
    requires OneCurrencyReturn(Group(hs, PanelKey, key), f)
    requires forall h :: h in Group(hs, PanelKey, key) ==> Composed(h)
    ensures var c := PanelRowOf(hs, key);
      && CurrencyShortfall(hs, key) == Interaction(c)
      && (TotalEffect(c) == SumBy(Group(hs, PanelKey, key), ActivePart)
          <==> c.wp == c.wb || c.localP == c.localB || f == -1.0)
  {
    hide SumBy, Group, CurrencyMissed, Composed, TotalEffect, ActivePart, AverageLocal, OneCurrencyReturn, Average,
         Weights, WeightedFx;
    var g, c := Group(hs, PanelKey, key), PanelRowOf(hs, key);
    AverageCurrency(g, f);
    NoCurrencyGap(g, Portfolio, f);
    NoCurrencyGap(g, Benchmark, f);
    RowExactIff(hs, key);
    ZeroProduct(c.wp - c.wb, c.localP - c.localB, 1.0 + f);
  }

  // ---------------------------------------------------------------- failing inputs

  /** Overweight in a currency with the better local return; both sides have the same currency return. */
  const OVERWEIGHT: seq<Holding> := [Holding(1, Some("EUR"), 0.6, 0.4, 0.0605, 0.0302, 0.05, 0.02, 0.01, 0.01)]

  /** Equal weights and local returns, but the portfolio earned a currency return of its own. */
  const OWN_CURRENCY: seq<Holding> := [Holding(1, Some("EUR"), 0.5, 0.5, 0.071, 0.0605, 0.05, 0.05, 0.02, 0.01)]

  const LONG_HOLDING: Holding := Holding(1, Some("EUR"), 1.0, 1.0, 0.1, 0.0, 0.1, 0.0, 0.0, 0.0)
  const SHORT_HOLDING: Holding := Holding(1, Some("EUR"), -1.0, 1.0, 0.05, 0.0, 0.05, 0.0, 0.0, 0.0)

  /** A long and a short holding of one currency in the portfolio: their gain of 5 % is not explained. */
  const CANCELLED: seq<Holding> := [LONG_HOLDING, SHORT_HOLDING]

  /** Two benchmark holdings whose local and currency returns move together. */
  const MOVING_TOGETHER: seq<Holding> := [
    Holding(1, Some("EUR"), 0.5, 0.5, 0.02, 0.122, 0.0, 0.1, 0.02, 0.02),
    Holding(1, Some("EUR"), 0.5, 0.5, 0.0, 0.0, 0.0, 0.0, 0.0, 0.0)]

  const EUR_KEY: (int, Option<string>) := (1, Some("EUR"))

  lemma {:induction false} OneKey(hs: seq<Holding>)
    requires |hs| == 1 || |hs| == 2
    requires forall h :: h in hs ==> h.date == 1 && h.currency == Some("EUR")
    ensures KeysOf(hs, PanelKey) == [EUR_KEY] && Group(hs, PanelKey, EUR_KEY) == hs
    ensures ShortfallTotal(hs, KeysOf(hs, PanelKey)) == CurrencyShortfall(hs, EUR_KEY)
  {
    hide CurrencyShortfall;
    var last := hs[|hs| - 1];
    assert last in hs && hs[0] in hs;
    assert [last][1..] == [];
    assert KeysOf([last], PanelKey) == [EUR_KEY] && Group([last], PanelKey, EUR_KEY) == [last];
    if |hs| == 2 {
      assert hs[1..] == [last];
    } else {
      assert hs == [last];
    }
    assert [EUR_KEY][1..] == [];
  }

  lemma {:induction false} SumByOne(h: Holding, f: Holding -> real)
    ensures SumBy([h], f) == f(h)
  {
    assert [h][1..] == [];
  }

  lemma {:induction false} SumByTwo(hs: seq<Holding>, f: Holding -> real)
    requires |hs| == 2
    ensures SumBy(hs, f) == f(hs[0]) + f(hs[1])
  {
    assert hs[1..] == [hs[1]];
    SumByOne(hs[1], f);
  }

  function Plain(hs: seq<Holding>, f: Holding -> real): real
    requires |hs| == 1 || |hs| == 2
  {
    if |hs| == 1 then f(hs[0]) else f(hs[0]) + f(hs[1])
  }

  lemma {:induction false} PlainSum(hs: seq<Holding>, f: Holding -> real)
    requires |hs| == 1 || |hs| == 2
    ensures SumBy(hs, f) == Plain(hs, f)
  {
    if |hs| == 1 {
      assert hs == [hs[0]];
      SumByOne(hs[0], f);
    } else {
      SumByTwo(hs, f);
    }
  }

  /** The side of a row of one or two holdings, with its sums written out. */
  lemma {:induction false} PlainSide(hs: seq<Holding>, side: Side, fb: real)
    requires |hs| == 1 || |hs| == 2
    ensures SumBy(hs, Weights(side)) == Plain(hs, Weights(side))
    ensures AverageLocal(hs, side) == Average(Plain(hs, Weights(side)), Plain(hs, WeightedLocal(side)))
    ensures CurrencyMissed(hs, side, fb) == Plain(hs, CurrencyGap(side, fb))
      + (if Plain(hs, Weights(side)) == 0.0 then Plain(hs, WeightedLocal(side)) else 0.0) * (1.0 + fb)
  {
    hide SumBy, Plain, Weights, WeightedLocal, CurrencyGap, Average;
    PlainSum(hs, Weights(side));
    PlainSum(hs, WeightedLocal(side));
    PlainSum(hs, CurrencyGap(side, fb));
  }

  lemma {:induction false} PlainRow(hs: seq<Holding>, wp: real, wb: real, lp: real, lb: real, fb: real)
    requires |hs| == 1 || |hs| == 2
    requires forall h :: h in hs ==> h.date == 1 && h.currency == Some("EUR")
    requires wp == Plain(hs, Weights(Portfolio)) && wb == Plain(hs, Weights(Benchmark))
    requires lp == Average(wp, Plain(hs, WeightedLocal(Portfolio)))
    requires lb == Average(wb, Plain(hs, WeightedLocal(Benchmark)))
    requires fb == Average(wb, Plain(hs, WeightedFx(Benchmark)))
    ensures CurrencyShortfall(hs, EUR_KEY) == (wp - wb) * (lp - lb) * (1.0 + fb)
      + CurrencyMissed(hs, Portfolio, fb) - CurrencyMissed(hs, Benchmark, fb)
  {
    hide SumBy, Plain, Weights, WeightedLocal, WeightedFx, Average, CurrencyMissed, Group, AverageLocal;
    OneKey(hs);
    PlainSide(hs, Portfolio, fb);
    PlainSide(hs, Benchmark, fb);
    PlainSum(hs, WeightedFx(Benchmark));
  }

  lemma {:induction false} OverweightShortfall()
    ensures CurrencyShortfall(OVERWEIGHT, EUR_KEY) != 0.0
  {
    hide SumBy, CurrencyShortfall, CurrencyMissed;
    PlainRow(OVERWEIGHT, 0.6, 0.4, 0.05, 0.02, 0.01);
    PlainSide(OVERWEIGHT, Portfolio, 0.01);
    PlainSide(OVERWEIGHT, Benchmark, 0.01);
  }

  lemma {:induction false} OwnCurrencyShortfall()
    ensures CurrencyShortfall(OWN_CURRENCY, EUR_KEY) != 0.0
  {
    hide SumBy, CurrencyShortfall, CurrencyMissed;
    PlainRow(OWN_CURRENCY, 0.5, 0.5, 0.05, 0.05, 0.01);
    PlainSide(OWN_CURRENCY, Portfolio, 0.01);
    PlainSide(OWN_CURRENCY, Benchmark, 0.01);
  }

  /** The amounts a holding brings into the sums of its row. */
  predicate Brings(h: Holding, side: Side, w: real, x: real, gap: real, fx: real) {
    Weights(side)(h) == w && WeightedLocal(side)(h) == x && CurrencyGap(side, 0.0)(h) == gap && WeightedFx(side)(h) == fx
  }

  lemma {:induction false} HoldingBrings(h: Holding, side: Side, w: real, l: real, f: real)
    requires w == Weight(h, side) && l == Local(h, side) && f == Fx(h, side)
    ensures Brings(h, side, w, w * l, w * (1.0 + l) * (f - 0.0), w * f)
  {
    hide Weight, Local, Fx;
  }

  lemma {:induction false} CancelledHoldings()
    ensures Brings(LONG_HOLDING, Portfolio, 1.0, 0.1, 0.0, 0.0) && Brings(SHORT_HOLDING, Portfolio, -1.0, -0.05, 0.0, 0.0)
    ensures Brings(LONG_HOLDING, Benchmark, 1.0, 0.0, 0.0, 0.0) && Brings(SHORT_HOLDING, Benchmark, 1.0, 0.0, 0.0, 0.0)
  {
    hide Brings;
    HoldingBrings(LONG_HOLDING, Portfolio, 1.0, 0.1, 0.0);
    HoldingBrings(SHORT_HOLDING, Portfolio, -1.0, 0.05, 0.0);
    HoldingBrings(LONG_HOLDING, Benchmark, 1.0, 0.0, 0.0);
    HoldingBrings(SHORT_HOLDING, Benchmark, 1.0, 0.0, 0.0);
  }

  lemma {:induction false} CancelledShortfall()
    ensures CurrencyShortfall(CANCELLED, EUR_KEY) != 0.0
  {
    hide SumBy, CurrencyShortfall, CurrencyMissed, Weights, WeightedLocal, WeightedFx, CurrencyGap;
    CancelledHoldings();
    assert Average(2.0, 0.0) == 0.0;
    PlainRow(CANCELLED, 0.0, 2.0, 0.0, 0.0, 0.0);
    PlainSide(CANCELLED, Portfolio, 0.0);
    PlainSide(CANCELLED, Benchmark, 0.0);
  }

  lemma {:induction false} MovingTogetherShortfall()
    ensures CurrencyShortfall(MOVING_TOGETHER, EUR_KEY) != 0.0
  {
    hide SumBy, CurrencyShortfall, CurrencyMissed;
    PlainRow(MOVING_TOGETHER, 1.0, 1.0, 0.0, 0.05, 0.01);
    PlainSide(MOVING_TOGETHER, Portfolio, 0.01);
    PlainSide(MOVING_TOGETHER, Benchmark, 0.01);
  }

  /** None of these reports adds up: the first misses the interaction, the second the portfolio's own currency return,
      the third what cancelled weights hide, the fourth a benchmark currency return that is not the same for all. */
  lemma {:induction false} ReportFallsShort(hs: seq<Holding>)
    requires hs in {OVERWEIGHT, OWN_CURRENCY, CANCELLED, MOVING_TOGETHER}
    ensures SumBy(Keyed(Panel(hs), RowCurrency), TotalEffect) != SumBy(Keyed(hs, HoldingCurrency), ActivePart)
  {
    hide SumBy, Keyed, ShortfallTotal, TotalEffect, ActivePart, Panel, Group, CurrencyShortfall, KeysOf;
    OneKey(hs);
    OverweightShortfall();
    OwnCurrencyShortfall();
    CancelledShortfall();
    MovingTogetherShortfall();
    ReportExactIff(hs);
  }
}
