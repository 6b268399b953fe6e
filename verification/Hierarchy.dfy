/** Hierarchical roll-up of position contributions. */
module Hierarchy {
  import opened Wrappers
  import opened Sums
  import opened CarinoSmoothing
  import opened Contribution
  import opened GroupKeys

  /** Distinct (position, hierarchy values) rows of the daily frame; None is a missing value. */
  datatype Metadata = Metadata(positionId: string, keys: seq<Option<string>>)

  datatype MergedRow = MergedRow(total: PositionTotal, keys: seq<Option<string>>)

  /** The columns of the totals that are rolled up. */
  datatype Column = ContributionColumn | LocalColumn | FxColumn | WeightColumn

  function TotalValue(t: PositionTotal, c: Column): real {
    match c
    case ContributionColumn => t.contribution
    case LocalColumn => t.localContribution
    case FxColumn => t.fxContribution
    case WeightColumn => t.weightAvg
  }

  function OfTotal(c: Column): PositionTotal -> real {
    (t: PositionTotal) => TotalValue(t, c)
  }

  function OfRow(c: Column): MergedRow -> real {
    (r: MergedRow) => TotalValue(r.total, c)
  }

  function Matches(t: PositionTotal, meta: seq<Metadata>): (r: seq<MergedRow>)
    ensures forall x :: x in r ==> x.total == t
  {
    if meta == [] then []
    else (if meta[0].positionId == t.positionId then [MergedRow(t, meta[0].keys)] else []) + Matches(t, meta[1..])
  }

  /** Inner merge of the totals with the metadata on the position. */
  function MergeMetadata(totals: seq<PositionTotal>, meta: seq<Metadata>): seq<MergedRow> {
    if totals == [] then [] else Matches(totals[0], meta) + MergeMetadata(totals[1..], meta)
  }

  /** The merged rows: every position with every metadata row of its own, as often as both occur, and nothing else. */
  lemma {:induction false} MergedRows(totals: seq<PositionTotal>, meta: seq<Metadata>, x: MergedRow)
    ensures multiset(MergeMetadata(totals, meta))[x]
         == multiset(totals)[x.total] * multiset(meta)[Metadata(x.total.positionId, x.keys)]
  {
    hide Matches;
    if totals != [] {
      MergedRows(totals[1..], meta, x);
      MatchedRows(totals[0], meta, x);
      assert totals == [totals[0]] + totals[1..];
      OneMoreTimes(multiset(totals[1..])[x.total], multiset(meta)[Metadata(x.total.positionId, x.keys)]);
    }
  }

  lemma {:induction false} OneMoreTimes(a: int, b: int)
    ensures (a + 1) * b == b + a * b
  {
  }

  lemma {:induction false} MatchedRows(t: PositionTotal, meta: seq<Metadata>, x: MergedRow)
    ensures multiset(Matches(t, meta))[x]
         == if x.total == t then multiset(meta)[Metadata(t.positionId, x.keys)] else 0
  {
    if meta != [] {
      MatchedRows(t, meta[1..], x);
      assert meta == [meta[0]] + meta[1..];
    }
  }

  function Counted(meta: seq<Metadata>, c: Column): PositionTotal -> real {
    (t: PositionTotal) => |Matches(t, meta)| as real * TotalValue(t, c)
  }

  lemma {:induction false} OneMore(n: real, c: real)
    ensures (n + 1.0) * c == c + n * c
  {
  }

  lemma {:induction false} MatchesSum(t: PositionTotal, rows: seq<MergedRow>, c: Column)
    requires forall x :: x in rows ==> x.total == t
    ensures SumBy(rows, OfRow(c)) == |rows| as real * TotalValue(t, c)
  {
    hide TotalValue;
    if rows != [] {
      MatchesSum(t, rows[1..], c);
      assert rows[0] in rows;
      OneMore(|rows[1..]| as real, TotalValue(t, c));
    }
  }

  /** In every column a position enters the roll-up once for each of its distinct metadata rows. */
  lemma {:induction false} MergeCountsMetadataRows(totals: seq<PositionTotal>, meta: seq<Metadata>, c: Column)
    ensures SumBy(MergeMetadata(totals, meta), OfRow(c)) == SumBy(totals, Counted(meta, c))
  {
    hide SumBy, Matches, TotalValue;
    SumByUnfolded(totals, Counted(meta, c));
    SumByUnfolded(MergeMetadata(totals, meta), OfRow(c));
    if totals != [] {
      MergeCountsMetadataRows(totals[1..], meta, c);
      SumByConcat(Matches(totals[0], meta), MergeMetadata(totals[1..], meta), OfRow(c));
      MatchesSum(totals[0], Matches(totals[0], meta), c);
    }
  }

  predicate OneMetadataRow(totals: seq<PositionTotal>, meta: seq<Metadata>) {
    forall t :: t in totals ==> |Matches(t, meta)| == 1
  }

  lemma {:induction false} MergeConserves(totals: seq<PositionTotal>, meta: seq<Metadata>, c: Column)
    requires OneMetadataRow(totals, meta)
    ensures SumBy(MergeMetadata(totals, meta), OfRow(c)) == SumBy(totals, OfTotal(c))
  {
    hide SumBy, Matches, TotalValue, MergeMetadata;
    MergeCountsMetadataRows(totals, meta, c);
    SumByEqual(totals, Counted(meta, c), OfTotal(c));
  }

  // ---------------------------------------------------------------- levels

  function LevelKey(n: nat): MergedRow -> Option<seq<string>> {
    (r: MergedRow) => Prefix(r.keys, n)
  }

  datatype LevelRow = LevelRow(key: seq<string>, contribution: real, localContribution: real, fxContribution: real,
                               weightAvg: real)

  datatype Level = Level(level: nat, name: string, parent: Option<string>, rows: seq<LevelRow>)

  function OfLevel(c: Column): LevelRow -> real {
    (r: LevelRow) =>
      match c
      case ContributionColumn => r.contribution
      case LocalColumn => r.localContribution
      case FxColumn => r.fxContribution
      case WeightColumn => r.weightAvg
  }

  function LevelRowOf(rows: seq<MergedRow>, n: nat, key: seq<string>): LevelRow {
    var g := Group(rows, LevelKey(n), key);
    LevelRow(key, SumBy(g, OfRow(ContributionColumn)) * 100.0, SumBy(g, OfRow(LocalColumn)) * 100.0,
             SumBy(g, OfRow(FxColumn)) * 100.0, SumBy(g, OfRow(WeightColumn)) * 100.0)
  }

  function LevelRows(rows: seq<MergedRow>, n: nat, keys: seq<seq<string>>): (r: seq<LevelRow>)
    ensures |r| == |keys| && forall i :: 0 <= i < |keys| ==> r[i] == LevelRowOf(rows, n, keys[i])
  {
    if keys == [] then [] else [LevelRowOf(rows, n, keys[0])] + LevelRows(rows, n, keys[1..])
  }

  function LevelOf(rows: seq<MergedRow>, hierarchy: seq<string>, index: nat): Level
    requires index < |hierarchy|
  {
    Level(index + 1, hierarchy[index], if index > 0 then Some(hierarchy[index - 1]) else None,
          LevelRows(rows, index + 1, KeysOf(rows, LevelKey(index + 1))))
  }

  lemma {:induction false} LevelHead(rows: seq<MergedRow>, hierarchy: seq<string>, i: nat)
    requires i < |hierarchy|
    ensures LevelOf(rows, hierarchy, i).level == i + 1 && LevelOf(rows, hierarchy, i).name == hierarchy[i]
    ensures LevelOf(rows, hierarchy, i).parent == if i > 0 then Some(hierarchy[i - 1]) else None
  {
  }

  method BuildLevels(rows: seq<MergedRow>, hierarchy: seq<string>) returns (levels: seq<Level>)
    ensures |levels| == |hierarchy|
    ensures forall i :: 0 <= i < |hierarchy| ==> levels[i] == LevelOf(rows, hierarchy, i)
    ensures forall i :: 0 <= i < |hierarchy| ==> levels[i].level == i + 1 && levels[i].name == hierarchy[i]
    ensures |hierarchy| > 0 ==> levels[0].parent == None
    ensures forall i :: 0 < i < |hierarchy| ==> levels[i].parent == Some(levels[i - 1].name)
  {
    hide LevelOf;
    levels := [];
    for index := 0 to |hierarchy|
      invariant |levels| == index
      invariant forall i :: 0 <= i < index ==> levels[i] == LevelOf(rows, hierarchy, i)
      invariant forall i :: 0 <= i < index ==> levels[i].level == i + 1 && levels[i].name == hierarchy[i]
      invariant index > 0 ==> levels[0].parent == None
      invariant forall i :: 0 < i < index ==> levels[i].parent == Some(hierarchy[i - 1])
    {
      LevelHead(rows, hierarchy, index);
      levels := levels + [LevelOf(rows, hierarchy, index)];
    }
  }

  function RowContribution(x: MergedRow): real { x.total.contribution }
  function RowLocal(x: MergedRow): real { x.total.localContribution }
  function RowFx(x: MergedRow): real { x.total.fxContribution }
  function RowWeight(x: MergedRow): real { x.total.weightAvg }

  lemma {:induction false} ColumnsRead(g: seq<MergedRow>)
    ensures SumBy(g, OfRow(ContributionColumn)) == SumBy(g, RowContribution) && SumBy(g, OfRow(LocalColumn)) == SumBy(g, RowLocal)
    ensures SumBy(g, OfRow(FxColumn)) == SumBy(g, RowFx) && SumBy(g, OfRow(WeightColumn)) == SumBy(g, RowWeight)
  {
    hide SumBy;
    SumByEqual(g, OfRow(ContributionColumn), RowContribution);
    SumByEqual(g, OfRow(LocalColumn), RowLocal);
    SumByEqual(g, OfRow(FxColumn), RowFx);
    SumByEqual(g, OfRow(WeightColumn), RowWeight);
  }

  /** Each row of a level stands for the positions whose first values are its key: its columns are their sums, in percent.
      No two rows have one key. */
  lemma {:induction false} LevelRowMeans(rows: seq<MergedRow>, hierarchy: seq<string>, index: nat, j: nat)
    requires index < |hierarchy| && j < |LevelOf(rows, hierarchy, index).rows|
    ensures var all := LevelOf(rows, hierarchy, index).rows;
      var r := all[j];
      var g := Group(rows, LevelKey(index + 1), r.key);
      && r.contribution == SumBy(g, RowContribution) * 100.0 && r.localContribution == SumBy(g, RowLocal) * 100.0
      && r.fxContribution == SumBy(g, RowFx) * 100.0 && r.weightAvg == SumBy(g, RowWeight) * 100.0
      && |r.key| == index + 1
      && (forall x :: x in g <==> x in rows && StartsWith(x.keys, r.key))
      && (forall i :: 0 <= i < |all| && all[i].key == r.key ==> i == j)
  {
    hide SumBy, Prefix, OfRow;
    var n := index + 1;
    var keys := KeysOf(rows, LevelKey(n));
    ColumnsRead(Group(rows, LevelKey(n), keys[j]));
    var x0 :| x0 in rows && LevelKey(n)(x0) == Some(keys[j]);
    PrefixMeans(x0.keys, n, keys[j]);
    forall x: MergedRow ensures LevelKey(n)(x) == Some(keys[j]) <==> StartsWith(x.keys, keys[j]) {
      PrefixMeans(x.keys, n, keys[j]);
    }
  }

  /** Every position with its values down to the level present is in some row. */
  lemma {:induction false} LevelCovers(rows: seq<MergedRow>, hierarchy: seq<string>, index: nat, x: MergedRow)
    requires index < |hierarchy| && x in rows
    requires index < |x.keys| && forall i :: 0 <= i <= index ==> x.keys[i].Some?
    ensures exists r :: r in LevelOf(rows, hierarchy, index).rows && StartsWith(x.keys, r.key)
  {
    hide SumBy, Prefix, OfRow;
    var k := seq(index + 1, i requires 0 <= i <= index => x.keys[i].value);
    PrefixMeans(x.keys, index + 1, k);
    var keys := KeysOf(rows, LevelKey(index + 1));
    assert k in keys;
    var i :| 0 <= i < |keys| && keys[i] == k;
    assert LevelOf(rows, hierarchy, index).rows[i].key == k;
  }

  /** A column of the summary, in percent. */
  function Summary(rows: seq<MergedRow>, c: Column): real {
    SumBy(rows, OfRow(c)) * 100.0
  }

  lemma {:induction false} LevelRowColumn(rows: seq<MergedRow>, n: nat, key: seq<string>, c: Column)
    ensures OfLevel(c)(LevelRowOf(rows, n, key)) == SumBy(Group(rows, LevelKey(n), key), OfRow(c)) * 100.0
  {
    hide SumBy, Group;
  }

  lemma {:induction false} LevelRowsSum(rows: seq<MergedRow>, n: nat, keys: seq<seq<string>>, c: Column)
    ensures SumBy(LevelRows(rows, n, keys), OfLevel(c))
         == SumOfGroups(keys, rows, LevelKey(n), OfRow(c)) * 100.0
  {
    hide LevelRowOf, Group;
    if keys != [] {
      LevelRowsSum(rows, n, keys[1..], c);
      LevelRowColumn(rows, n, keys[0], c);
      assert LevelRows(rows, n, keys)[1..] == LevelRows(rows, n, keys[1..]);
    }
  }

  /** Every column of a level adds up to the rows whose hierarchy values down to it are all present. */
  lemma {:induction false} LevelReconciles(rows: seq<MergedRow>, hierarchy: seq<string>, index: nat, c: Column)
    requires index < |hierarchy|
    ensures SumBy(LevelOf(rows, hierarchy, index).rows, OfLevel(c))
         == SumBy(Keyed(rows, LevelKey(index + 1)), OfRow(c)) * 100.0
  {
    hide SumBy, Group;
    var key := LevelKey(index + 1);
    LevelRowsSum(rows, index + 1, KeysOf(rows, key), c);
    GroupsCoverKeyed(KeysOf(rows, key), rows, key, OfRow(c));
  }

  /** Without missing values every column of every level adds up to the summary. */
  lemma {:induction false} LevelMatchesSummary(rows: seq<MergedRow>, hierarchy: seq<string>, index: nat, c: Column)
    requires index < |hierarchy|
    requires forall r :: r in rows ==> LevelKey(index + 1)(r).Some?
    ensures SumBy(LevelOf(rows, hierarchy, index).rows, OfLevel(c)) == Summary(rows, c)
  {
    hide SumBy, Group, LevelOf;
    LevelReconciles(rows, hierarchy, index, c);
    AllKeyed(rows, LevelKey(index + 1));
  }

  /** A level adds up to the summary if and only if the rows with a missing value cancel in that column. */
  lemma {:induction false} LevelMatchesSummaryIff(rows: seq<MergedRow>, hierarchy: seq<string>, index: nat, c: Column)
    requires index < |hierarchy|
    ensures SumBy(LevelOf(rows, hierarchy, index).rows, OfLevel(c)) == Summary(rows, c)
       <==> SumBy(Unkeyed(rows, LevelKey(index + 1)), OfRow(c)) == 0.0
  {
    hide SumBy, Group, LevelOf, Unkeyed, Keyed;
    LevelReconciles(rows, hierarchy, index, c);
    KeyedAndUnkeyed(rows, LevelKey(index + 1), OfRow(c));
  }

  /** One position of 1 % without the hierarchy value: the level is empty, the summary is not. */
  lemma {:induction false} MissingValueDropsOut()
    ensures var rows := [MergedRow(PositionTotal("P", 0.01, 0.01, 0.0, 1.0), [None])];
            SumBy(LevelOf(rows, ["sector"], 0).rows, OfLevel(ContributionColumn)) != Summary(rows, ContributionColumn)
  {
    hide LevelOf;
    var r := MergedRow(PositionTotal("P", 0.01, 0.01, 0.0, 1.0), [None]);
    assert [r][1..] == [];
    assert LevelKey(1)(r) == None;
    assert Unkeyed([r], LevelKey(1)) == [r];
    LevelMatchesSummaryIff([r], ["sector"], 0, ContributionColumn);
  }

  /** The whole roll-up of a Carino allocation: the summary and every level equal the portfolio return, in
      percent, whatever the daily smoothing left as a residual. */
  lemma {:induction false} ContributionReconciles(before: seq<PositionTotal>, portfolioReturn: real, after: seq<PositionTotal>,
                               meta: seq<Metadata>, hierarchy: seq<string>, index: nat)
    requires Allocates(before, true) && AllocatedRows(before, portfolioReturn, after)
    requires OneMetadataRow(after, meta) && index < |hierarchy|
    requires forall r :: r in MergeMetadata(after, meta) ==> LevelKey(index + 1)(r).Some?
    ensures var rows := MergeMetadata(after, meta);
      && Summary(rows, ContributionColumn) == portfolioReturn * 100.0
      && SumBy(LevelOf(rows, hierarchy, index).rows, OfLevel(ContributionColumn)) == portfolioReturn * 100.0
  {
    hide SumBy, AllocatedRows, OneMetadataRow, MergeMetadata, LevelOf;
    AllocationReachesReturn(before, portfolioReturn, after);
    ContributionIsColumn(after);
    MergeConserves(after, meta, ContributionColumn);
    LevelMatchesSummary(MergeMetadata(after, meta), hierarchy, index, ContributionColumn);
  }

  lemma {:induction false} ContributionIsColumn(totals: seq<PositionTotal>)
    ensures SumBy(totals, OfTotal(ContributionColumn)) == SumBy(totals, TotalContribution)
  {
    hide SumBy;
    SumByEqual(totals, OfTotal(ContributionColumn), TotalContribution);
  }
}
