/** What a partition scan finds: every candidate it reports is classified by its residual, and no root
    of a function that is monotone on the root's cell is missed. */
module RootDetection {
  import opened Wrappers
  import opened RealArithmetic
  import opened Calculus
  import opened Bisection
  import opened RootScanning

  predicate ExactRoot(f: real -> real, e: RootCandidate, tolerance: real) {
    e == Converged(f, e.value, 0) && Abs(f(e.value)) <= tolerance
  }

  lemma {:induction false} ExactRootsFound(f: real -> real, points: seq<real>, tolerance: real)
    ensures var roots := ExactPartitionRoots(f, points, tolerance);
      && (forall e :: e in roots ==> ExactRoot(f, e, tolerance) && e.value in points)
      && (forall p :: p in points && Abs(f(p)) <= tolerance ==> Pinned(roots, p))
  {
    if points != [] {
      var n := |points| - 1;
      var before := ExactPartitionRoots(f, points[..n], tolerance);
      ExactRootsFound(f, points[..n], tolerance);
      assert points == points[..n] + [points[n]];
      if Abs(f(points[n])) <= tolerance {
        AppendRepresents(before, Converged(f, points[n], 0));
      }
    }
  }

  predicate Spanned(points: seq<real>, x: real) {
    points != [] && points[0] <= x <= points[|points| - 1]
  }

  lemma {:induction false} BracketsFound(f: real -> real, points: seq<real>, c: Controls)
    requires StrictlyIncreasing(points)
    ensures var roots := BracketedPartitionRoots(f, points, c);
      && Ascending(roots)
      && (forall e :: e in roots ==> Classified(f, e, c))
      && (forall e :: e in roots ==> Spanned(points, e.value))
  {
    if |points| >= 2 {
      var n := |points| - 1;
      var before := BracketedPartitionRoots(f, points[..n], c);
      BracketsFound(f, points[..n], c);
      BisectClassified(f, points[n - 1], points[n], c);
    }
  }

  /** The cell's own candidate is in the list. */
  lemma {:induction false} CellBracketed(f: real -> real, points: seq<real>, c: Controls, i: nat)
    requires i + 1 < |points| && Opposite(f(points[i]), f(points[i + 1]))
    ensures Bisect(f, points[i], points[i + 1], c) in BracketedPartitionRoots(f, points, c)
  {
    var n := |points| - 1;
    ProductSign(f(points[i]), f(points[i + 1]));
    if i + 1 < n {
      CellBracketed(f, points[..n], c, i);
    }
  }

  /** A reported candidate within the merge tolerance of w. */
  ghost predicate Detected(scan: RootScan, w: real) {
    exists e :: e in scan.candidates && Close(e.value, w)
  }

  /** The scan found something for the cell (a, b): an end within tolerance, or the bisected bracket. */
  ghost predicate CellDetected(f: real -> real, a: real, b: real, c: Controls, scan: RootScan) {
    || (Abs(f(a)) <= c.valueTolerance && Detected(scan, a))
    || (Abs(f(b)) <= c.valueTolerance && Detected(scan, b))
    || (Opposite(f(a), f(b)) && Detected(scan, BisectFrom(f, a, b, c, 0).value))
  }

  lemma {:induction false} DetectedInMerged(f: real -> real, partition: seq<real>, c: Controls, w: real)
    requires var roots := MergedRoots(f, SortedPoints(partition), c); Represented(roots, w) || Pinned(roots, w)
    ensures Detected(ScanMonotonicPartitions(f, partition, c), w)
  {
    hide MergedRoots, SortedPoints, Close;
  }

  lemma {:induction false} MergedDetects(f: real -> real, points: seq<real>, c: Controls)
    requires StrictlyIncreasing(points)
    ensures var roots := MergedRoots(f, points, c);
      && (forall e :: e in roots ==> Classified(f, e, c) && Spanned(points, e.value))
      && (forall p :: p in points && Abs(f(p)) <= c.valueTolerance ==> Pinned(roots, p))
      && (forall e :: e in BracketedPartitionRoots(f, points, c) ==> Represented(roots, e.value))
  {
    hide Close, Classified, ExactPartitionRoots, BracketedPartitionRoots, Merged, Represented, Pinned;
    var exact, more := ExactPartitionRoots(f, points, c.valueTolerance), BracketedPartitionRoots(f, points, c);
    ExactRootsFound(f, points, c.valueTolerance);
    BracketsFound(f, points, c);
    MergeRepresents(exact, more);
    forall e | e in exact ensures Classified(f, e, c) && Spanned(points, e.value) {
      ExactRootClassified(f, points, e, c);
    }
  }

  lemma {:induction false} ExactRootClassified(f: real -> real, points: seq<real>, e: RootCandidate, c: Controls)
    requires StrictlyIncreasing(points) && ExactRoot(f, e, c.valueTolerance) && e.value in points
    ensures Classified(f, e, c) && Spanned(points, e.value)
  {
    var k :| 0 <= k < |points| && points[k] == e.value;
  }

  lemma {:induction false} CandidatesSpanned(f: real -> real, partition: seq<real>, c: Controls, e: RootCandidate)
    requires e in ScanMonotonicPartitions(f, partition, c).candidates
    ensures Classified(f, e, c) && Spanned(SortedPoints(partition), e.value)
  {
    hide MergedRoots, Classified, Spanned;
    MergedDetects(f, SortedPoints(partition), c);
  }

  /** A cell whose ends do not share a strict side, or of which one end is within tolerance, is reported. */
  lemma {:induction false} ScanDetectsCell(f: real -> real, partition: seq<real>, c: Controls, i: nat)
    requires c.valueTolerance >= 0.0
    requires i + 1 < |SortedPoints(partition)|
    requires var points := SortedPoints(partition);
             || !SameSide(f(points[i]), f(points[i + 1]))
             || Abs(f(points[i])) <= c.valueTolerance
             || Abs(f(points[i + 1])) <= c.valueTolerance
    ensures var points := SortedPoints(partition);
            CellDetected(f, points[i], points[i + 1], c, ScanMonotonicPartitions(f, partition, c))
  {
    hide MergedRoots, Classified, Spanned, Represented, Pinned, Detected, BracketedPartitionRoots,
         ScanMonotonicPartitions;
    var points := SortedPoints(partition);
    var a, b := points[i], points[i + 1];
    MergedDetects(f, points, c);
    assert a in points && b in points;
    if Abs(f(a)) <= c.valueTolerance {
      DetectedInMerged(f, partition, c, a);
    } else if Abs(f(b)) <= c.valueTolerance {
      DetectedInMerged(f, partition, c, b);
    } else {
      CellBracketed(f, points, c, i);
      DetectedInMerged(f, partition, c, Bisect(f, a, b, c).value);
    }
  }

  ghost predicate MonotoneOn(f: real -> real, lo: real, hi: real) {
    || (forall x, y :: lo <= x <= y <= hi ==> f(x) <= f(y))
    || (forall x, y :: lo <= x <= y <= hi ==> f(y) <= f(x))
  }

  /** No root is missed: whatever cell it lies in, if f is monotone on that cell the scan reports it. */
  lemma {:induction false} NoRootMissed(f: real -> real, partition: seq<real>, c: Controls, z: real, i: nat)
    requires c.valueTolerance >= 0.0
    requires var points := SortedPoints(partition);
             i + 1 < |points| && points[i] <= z <= points[i + 1] && MonotoneOn(f, points[i], points[i + 1])
    requires f(z) == 0.0
    ensures var points := SortedPoints(partition);
            CellDetected(f, points[i], points[i + 1], c, ScanMonotonicPartitions(f, partition, c))
  {
    ScanDetectsCell(f, partition, c, i);
  }

  /** Every point between the first and the last partition point lies in a cell. */
  lemma {:induction false} CellOf(points: seq<real>, z: real) returns (i: nat)
    requires |points| >= 2 && points[0] <= z <= points[|points| - 1]
    ensures i + 1 < |points| && points[i] <= z <= points[i + 1]
  {
    i := 0;
    while i + 2 < |points| && z > points[i + 1]
      invariant i + 1 < |points| && points[i] <= z
    {
      i := i + 1;
    }
  }
}
