/** Scanning sorted partition points for root candidates, and merging candidates that are closer than
    the distinct-root tolerance. */
module RootScanning {
  import opened Wrappers
  import opened RealArithmetic
  import opened Calculus
  import opened Bisection

  const DISTINCT_ROOT_TOLERANCE: real := 0.00000001

  datatype FailureReason = SolverIterationLimitReached | SolverResidualOutOfTolerance | UniquenessNotSupported

  datatype RootScan = RootScan(
    candidates: seq<RootCandidate>,
    uniquenessSupported: bool,
    failureReason: Option<FailureReason>,
    nonSimpleRootDetected: bool)

  // ---------------------------------------------------------------- partition points

  predicate StrictlyIncreasing(points: seq<real>) {
    forall i, j :: 0 <= i < j < |points| ==> points[i] < points[j]
  }

  /** p inserted after the points below it, unless it is there already. */
  function Inserted(points: seq<real>, p: real): (r: seq<real>)
    requires StrictlyIncreasing(points)
    ensures StrictlyIncreasing(r)
    ensures forall x :: x in r <==> x in points || x == p
  {
    var i := Position(points, p);
    if i < |points| && points[i] == p then points else points[..i] + [p] + points[i..]
  }

  /** Index of the first point that is not below p. */
  function Position(points: seq<real>, p: real): (i: nat)
    requires StrictlyIncreasing(points)
    ensures i <= |points|
    ensures forall j :: 0 <= j < i ==> points[j] < p
    ensures forall j :: i <= j < |points| ==> p <= points[j]
  {
    if points == [] then 0
    else if p <= points[|points| - 1] then Position(points[..|points| - 1], p)
    else |points|
  }

  /** The distinct points in increasing order. */
  function SortedPoints(points: seq<real>): (r: seq<real>)
    ensures StrictlyIncreasing(r)
    ensures forall x :: x in r <==> x in points
  {
    if points == [] then [] else Inserted(SortedPoints(points[1..]), points[0])
  }

  // ---------------------------------------------------------------- distinct candidates

  predicate Close(a: real, b: real) { Abs(a - b) <= DISTINCT_ROOT_TOLERANCE }

  /** Index of the first root close to v, or the length. */
  function FirstClose(roots: seq<RootCandidate>, v: real): (i: nat)
    ensures i <= |roots|
    ensures i < |roots| ==> Close(v, roots[i].value)
    ensures forall j :: 0 <= j < i ==> !Close(v, roots[j].value)
  {
    if roots == [] then 0 else if Close(v, roots[0].value) then 0 else 1 + FirstClose(roots[1..], v)
  }

  function AppendedDistinct(roots: seq<RootCandidate>, c: RootCandidate): seq<RootCandidate> {
    var i := FirstClose(roots, c.value);
    if i == |roots| then roots + [c]
    else if c.converged && !roots[i].converged then roots[i := c]
    else roots
  }

  /** The mutable list of roots found so far. */
  class RootList {
    var roots: seq<RootCandidate>

    constructor ()
      ensures roots == []
    {
      roots := [];
    }

    method AppendDistinct(c: RootCandidate)
      modifies this
      ensures roots == AppendedDistinct(old(roots), c)
    {
      for i := 0 to |roots|
        invariant roots == old(roots)
        invariant forall j :: 0 <= j < i ==> !Close(c.value, roots[j].value)
      {
        if Abs(c.value - roots[i].value) <= DISTINCT_ROOT_TOLERANCE {
          if c.converged && !roots[i].converged {
            roots := roots[i := c];
          }
          return;
        }
      }
      roots := roots + [c];
    }
  }

  // ---------------------------------------------------------------- the scan

  function ExactPartitionRoots(f: real -> real, points: seq<real>, tolerance: real): seq<RootCandidate> {
    if points == [] then []
    else
      var n := |points| - 1;
      var roots := ExactPartitionRoots(f, points[..n], tolerance);
      if Abs(f(points[n])) <= tolerance then AppendedDistinct(roots, Converged(f, points[n], 0)) else roots
  }

  /** Candidates of the cells (points[i], points[i + 1]) whose ends have opposite signs, left to right. */
  function BracketedPartitionRoots(f: real -> real, points: seq<real>, c: Controls): seq<RootCandidate> {
    if |points| < 2 then []
    else
      var n := |points| - 1;
      var roots := BracketedPartitionRoots(f, points[..n], c);
      if f(points[n - 1]) * f(points[n]) >= 0.0 then roots
      else roots + [Bisect(f, points[n - 1], points[n], c)]
  }

  function Merged(roots: seq<RootCandidate>, more: seq<RootCandidate>): seq<RootCandidate>
    decreases |more|
  {
    if more == [] then roots else Merged(AppendedDistinct(roots, more[0]), more[1..])
  }

  predicate Ascending(cands: seq<RootCandidate>) {
    forall i, j :: 0 <= i < j < |cands| ==> cands[i].value <= cands[j].value
  }

  function InsertedByValue(roots: seq<RootCandidate>, c: RootCandidate): (r: seq<RootCandidate>)
    ensures multiset(r) == multiset(roots) + multiset{c}
    ensures forall e :: e in r <==> e in roots || e == c
  {
    if roots == [] then [c]
    else if c.value <= roots[0].value then [c] + roots
    else
      assert roots == [roots[0]] + roots[1..];
      [roots[0]] + InsertedByValue(roots[1..], c)
  }

  lemma {:induction false} InsertedAscends(roots: seq<RootCandidate>, c: RootCandidate)
    requires Ascending(roots)
    ensures Ascending(InsertedByValue(roots, c))
  {
    if roots != [] && c.value > roots[0].value {
      InsertedAscends(roots[1..], c);
      var rest := InsertedByValue(roots[1..], c);
      forall i | 0 <= i < |rest| ensures roots[0].value <= rest[i].value {
        assert rest[i] in rest;
      }
    }
  }

  /** The candidates in ascending order of value. */
  function SortedByValue(roots: seq<RootCandidate>): (r: seq<RootCandidate>)
    ensures multiset(r) == multiset(roots)
    ensures |r| == |roots| && forall c :: c in r <==> c in roots
    ensures Ascending(r)
  {
    if roots == [] then []
    else
      assert roots == [roots[0]] + roots[1..];
      InsertedAscends(SortedByValue(roots[1..]), roots[0]);
      var r := InsertedByValue(SortedByValue(roots[1..]), roots[0]);
      assert |r| == |multiset(r)| && |roots| == |multiset(roots)|;
      r
  }

  function CandidateFailureReason(c: RootCandidate): FailureReason {
    if c.terminationReason == IterationLimit then SolverIterationLimitReached else SolverResidualOutOfTolerance
  }

  function FirstFailureReason(candidates: seq<RootCandidate>): Option<FailureReason> {
    if candidates == [] then None
    else if !candidates[0].converged then Some(CandidateFailureReason(candidates[0]))
    else FirstFailureReason(candidates[1..])
  }

  function MergedRoots(f: real -> real, points: seq<real>, c: Controls): seq<RootCandidate> {
    Merged(ExactPartitionRoots(f, points, c.valueTolerance), BracketedPartitionRoots(f, points, c))
  }

  function ScanMonotonicPartitions(f: real -> real, partition: seq<real>, c: Controls): RootScan {
    var roots := MergedRoots(f, SortedPoints(partition), c);
    RootScan(SortedByValue(roots), true, FirstFailureReason(roots), false)
  }

  method FindExactRoots(f: real -> real, points: seq<real>, tolerance: real) returns (list: RootList)
    ensures fresh(list) && list.roots == ExactPartitionRoots(f, points, tolerance)
  {
    list := new RootList();
    for i := 0 to |points|
      invariant fresh(list) && list.roots == ExactPartitionRoots(f, points[..i], tolerance)
    {
      assert points[..i + 1][..i] == points[..i];
      var residual := f(points[i]);
      if Abs(residual) <= tolerance {
        list.AppendDistinct(RootCandidate(points[i], 0, residual, ResidualTolerance, true));
      }
    }
    assert points[..|points|] == points;
  }

  method FindBracketedRoots(f: real -> real, points: seq<real>, c: Controls) returns (roots: seq<RootCandidate>)
    ensures roots == BracketedPartitionRoots(f, points, c)
  {
    roots := [];
    if points == [] {
      return;
    }
    for i := 1 to |points|
      invariant roots == BracketedPartitionRoots(f, points[..i], c)
    {
      ghost var done := points[..i + 1];
      assert done[..i] == points[..i] && done[i - 1] == points[i - 1] && done[i] == points[i];
      var leftValue, rightValue := f(points[i - 1]), f(points[i]);
      if leftValue * rightValue < 0.0 {
        var candidate := BisectRoot(f, points[i - 1], points[i], c);
        roots := roots + [candidate];
      }
    }
    assert points[..|points|] == points;
  }

  method ScanPartitions(f: real -> real, partition: seq<real>, c: Controls) returns (scan: RootScan)
    ensures scan == ScanMonotonicPartitions(f, partition, c)
    ensures Ascending(scan.candidates) && multiset(scan.candidates) == multiset(MergedRoots(f, SortedPoints(partition), c))
  {
    var points := SortedPoints(partition);
    var list := FindExactRoots(f, points, c.valueTolerance);
    var bracketed := FindBracketedRoots(f, points, c);
    for k := 0 to |bracketed|
      invariant fresh(list)
      invariant Merged(list.roots, bracketed[k..]) == MergedRoots(f, points, c)
    {
      assert bracketed[k..][0] == bracketed[k] && bracketed[k..][1..] == bracketed[k + 1..];
      list.AppendDistinct(bracketed[k]);
    }
    scan := RootScan(SortedByValue(list.roots), true, FirstFailureReason(list.roots), false);
  }

  // ---------------------------------------------------------------- what the scan keeps

  /** A candidate at w is still represented: merged into a root within the tolerance, and one that a later
      converged candidate could replace lies at or before w. */
  ghost predicate Represented(roots: seq<RootCandidate>, w: real) {
    exists e :: e in roots && Close(e.value, w) && (e.converged || e.value <= w)
  }

  /** Represented by a converged root, which is never replaced. */
  ghost predicate Pinned(roots: seq<RootCandidate>, w: real) {
    exists e :: e in roots && Close(e.value, w) && e.converged
  }

  /** Roots that may still be replaced lie at or before `at`. */
  ghost predicate Settled(roots: seq<RootCandidate>, at: real) {
    forall e :: e in roots ==> e.converged || e.value <= at
  }

  lemma {:induction false} AppendKeeps(roots: seq<RootCandidate>, c: RootCandidate, e: RootCandidate)
    requires e in roots
    ensures e in AppendedDistinct(roots, c)
         || (!e.converged && c.converged && Close(c.value, e.value) && c in AppendedDistinct(roots, c))
  {
    var i := FirstClose(roots, c.value);
    var after := AppendedDistinct(roots, c);
    var j :| 0 <= j < |roots| && roots[j] == e;
    assert after[j] == roots[j] || (i == j && after[j] == c);
  }

  lemma {:induction false} AppendRepresents(roots: seq<RootCandidate>, c: RootCandidate)
    requires Settled(roots, c.value)
    ensures var after := AppendedDistinct(roots, c);
      && Settled(after, c.value)
      && Represented(after, c.value)
      && (c.converged ==> Pinned(after, c.value))
      && (forall w :: Represented(roots, w) && w <= c.value ==> Represented(after, w))
      && (forall w :: Pinned(roots, w) ==> Pinned(after, w))
      && (forall e :: e in after ==> e in roots || e == c)
  {
    var i := FirstClose(roots, c.value);
    var after := AppendedDistinct(roots, c);
    if i == |roots| {
      assert after[i] == c;
    } else {
      assert after[i] in after && Close(after[i].value, c.value);
      assert roots[i] in roots;
    }
    forall w | Represented(roots, w) && w <= c.value ensures Represented(after, w) {
      var e :| e in roots && Close(e.value, w) && (e.converged || e.value <= w);
      AppendKeeps(roots, c, e);
    }
    forall w | Pinned(roots, w) ensures Pinned(after, w) {
      var e :| e in roots && Close(e.value, w) && e.converged;
      AppendKeeps(roots, c, e);
    }
  }

  /** Merging candidates in ascending order loses none of them beyond the tolerance. */
  lemma {:induction false} MergeRepresents(roots: seq<RootCandidate>, more: seq<RootCandidate>)
    requires Ascending(more) && forall c :: c in more ==> Settled(roots, c.value)
    ensures var merged := Merged(roots, more);
      && (forall c :: c in more ==> Represented(merged, c.value))
      && (forall c :: c in more && c.converged ==> Pinned(merged, c.value))
      && (forall w :: Represented(roots, w) && (forall c :: c in more ==> w <= c.value) ==> Represented(merged, w))
      && (forall w :: Pinned(roots, w) ==> Pinned(merged, w))
      && (forall e :: e in merged ==> e in roots || e in more)
    decreases |more|
  {
    if more != [] {
      AppendRepresents(roots, more[0]);
      MergeRepresents(AppendedDistinct(roots, more[0]), more[1..]);
      assert forall c :: c in more ==> c == more[0] || c in more[1..];
    }
  }
}
