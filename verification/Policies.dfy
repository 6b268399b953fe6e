/** The ignored-days policy: rows of ignored dates carry the previous row's closing value. */
module Policies {
  import opened Wrappers
  import opened DailyReturns

  datatype PolicyError = AmbiguousDate(date: int)

  /** Rows of the frame, in date order as the policy sorts them. */
  predicate Sorted(rows: seq<Row>) {
    forall i, j :: 0 <= i < j < |rows| ==> rows[i].perfDate <= rows[j].perfDate
  }

  predicate StrictlySorted(dates: seq<int>) {
    forall i, j :: 0 <= i < j < |dates| ==> dates[i] < dates[j]
  }

  predicate Unique(rows: seq<Row>, date: int) {
    forall i, j :: 0 <= i < j < |rows| && rows[i].perfDate == date ==> rows[j].perfDate != date
  }

  predicate AfterFirst(rows: seq<Row>, date: int) {
    exists i :: 0 < i < |rows| && rows[i].perfDate == date
  }

  /** Rows of the date after the first carry the row before them; all other rows stay. */
  predicate CarriesDate(before: seq<Row>, date: int, after: seq<Row>) {
    && |after| == |before|
    && forall i :: 0 <= i < |before| ==>
         after[i] == CarriedAt(before, date, i)
  }

  function CarriedAt(before: seq<Row>, date: int, i: nat): Row
    requires i < |before|
  {
    if i > 0 && before[i].perfDate == date then CarriedRow(before[i], before[i - 1].endMv) else before[i]
  }

  function CarriedRow(row: Row, value: real): Row {
    row.(beginMv := value, endMv := value, bodCf := 0.0, eodCf := 0.0, mgmtFees := 0.0)
  }

  /** Closing value of the nearest row at or before i that is the first row or not ignored. */
  function CarriedValue(rows: seq<Row>, ignored: seq<int>, i: nat): real
    requires i < |rows|
  {
    if i == 0 || rows[i].perfDate !in ignored then rows[i].endMv else CarriedValue(rows, ignored, i - 1)
  }

  /** The closed form of one row after the policy. */
  function PolicyRow(rows: seq<Row>, ignored: seq<int>, i: nat): Row
    requires i < |rows|
  {
    if i == 0 || rows[i].perfDate !in ignored then rows[i] else CarriedRow(rows[i], CarriedValue(rows, ignored, i))
  }

  function PolicyRows(rows: seq<Row>, ignored: seq<int>): (r: seq<Row>)
    ensures |r| == |rows| && forall i :: 0 <= i < |rows| ==> r[i] == PolicyRow(rows, ignored, i)
  {
    seq(|rows|, i requires 0 <= i < |rows| => PolicyRow(rows, ignored, i))
  }

  /** Ignored rows after the first. */
  function CountIgnored(rows: seq<Row>, ignored: seq<int>, n: nat): nat
    requires n <= |rows|
  {
    if n <= 1 then 0 else CountIgnored(rows, ignored, n - 1) + if rows[n - 1].perfDate in ignored then 1 else 0
  }

  /** The first ignored date that labels several rows. */
  predicate FirstAmbiguous(rows: seq<Row>, ignored: seq<int>, k: nat) {
    k < |ignored| && !Unique(rows, ignored[k]) && forall j :: 0 <= j < k ==> Unique(rows, ignored[j])
  }

  /** The dates before it are applied, and counted, and no other. */
  predicate StoppedAt(before: seq<Row>, ignored: seq<int>, k: nat, after: seq<Row>, counted: int, error: PolicyError)
    requires k < |ignored|
  {
    && error == AmbiguousDate(ignored[k])
    && after == PolicyRows(before, ignored[..k])
    && counted == CountIgnored(before, ignored[..k], |before|)
  }

  class WorkingFrame {
    var rows: seq<Row>
    var ignoredDays: nat

    constructor (rows: seq<Row>)
      ensures this.rows == rows && ignoredDays == 0
    {
      this.rows := rows;
      ignoredDays := 0;
    }

    /** Carries the previous row into the row of one date. A date that labels several rows has no single
        position and fails. */
    method ApplyIgnoredDay(date: int) returns (r: Result<nat, PolicyError>)
      requires Sorted(rows)
      modifies this`rows
      ensures |rows| == |old(rows)|
      ensures r.Success? <==> Unique(old(rows), date)
      ensures r.Failure? ==> rows == old(rows) && r.error == AmbiguousDate(date)
      ensures r.Success? ==> CarriesDate(old(rows), date, rows)
      ensures r.Success? ==>
        r.value == if AfterFirst(old(rows), date) then 1 else 0
    {
      var loc := 0;
      while loc < |rows| && rows[loc].perfDate != date
        invariant loc <= |rows| && rows == old(rows)
        invariant forall i :: 0 <= i < loc ==> rows[i].perfDate != date
      {
        loc := loc + 1;
      }
      if loc == |rows| {
        return Success(0);
      }
      if loc + 1 < |rows| && rows[loc + 1].perfDate == date {
        return Failure(AmbiguousDate(date));
      }
      if loc <= 0 {
        return Success(0);
      }
      var previous := rows[loc - 1];
      rows := rows[loc := CarriedRow(rows[loc], previous.endMv)];
      return Success(1);
    }

    /** Applies the policy to each ignored date, in increasing date order, up to the first ambiguous one. */
    method ApplyIgnoreDays(ignored: seq<int>) returns (r: Result<(), PolicyError>)
      requires Sorted(rows) && StrictlySorted(ignored)
      modifies this
      ensures r.Success? <==> forall k :: 0 <= k < |ignored| ==> Unique(old(rows), ignored[k])
      ensures r.Success? ==> rows == PolicyRows(old(rows), ignored)
      ensures r.Success? ==> ignoredDays == old(ignoredDays) + CountIgnored(old(rows), ignored, |old(rows)|)
      ensures r.Failure? ==> exists k: nat ::
        FirstAmbiguous(old(rows), ignored, k)
        && StoppedAt(old(rows), ignored, k, rows, ignoredDays - old(ignoredDays), r.error)
    {
      hide CarriesDate, PolicyRow;
      NothingIgnored(rows, ignored[..0]);
      NoneIgnored(rows, |rows|);
      for k := 0 to |ignored|
        invariant |rows| == |old(rows)| && Sorted(rows)
        invariant rows == PolicyRows(old(rows), ignored[..k])
        invariant ignoredDays == old(ignoredDays) + CountIgnored(old(rows), ignored[..k], |old(rows)|)
        invariant forall j :: 0 <= j < k ==> Unique(old(rows), ignored[j])
      {
        ghost var before := rows;
        PolicyKeepsDates(old(rows), ignored[..k]);
        PolicyKeepsDates(old(rows), ignored[..k + 1]);
        SameDates(before, old(rows), ignored[k]);
        var one := ApplyIgnoredDay(ignored[k]);
        if one.Failure? {
          assert FirstAmbiguous(old(rows), ignored, k);
          assert StoppedAt(old(rows), ignored, k, rows, ignoredDays - old(ignoredDays), one.error);
          return Failure(one.error);
        }
        NextDateEverywhere(old(rows), ignored, k, before, rows);
        CountNext(old(rows), ignored, k, |old(rows)|);
        assert old(rows)[..|old(rows)|] == old(rows);
        ignoredDays := ignoredDays + one.value;
      }
      assert ignored[..|ignored|] == ignored;
      return Success(());
    }
  }

  /** A frame with two rows of one date stops the policy at that date. */
  lemma {:induction false} RepeatedDateIsAmbiguous()
    ensures var row := Row(5, 1, 100.0, 0.0, 0.0, 0.0, 101.0);
            Sorted([row, row]) && FirstAmbiguous([row, row], [5], 0)
  {
    var row := Row(5, 1, 100.0, 0.0, 0.0, 0.0, 101.0);
    assert [row, row][0].perfDate == 5 && [row, row][1].perfDate == 5;
  }

  lemma {:induction false} SameDates(a: seq<Row>, b: seq<Row>, date: int)
    requires |a| == |b| && forall i :: 0 <= i < |a| ==> a[i].perfDate == b[i].perfDate
    ensures AfterFirst(a, date) <==> AfterFirst(b, date)
    ensures Unique(a, date) <==> Unique(b, date)
    ensures Sorted(a) <==> Sorted(b)
  {
    if AfterFirst(a, date) {
      var i :| 0 < i < |a| && a[i].perfDate == date;
      assert b[i].perfDate == date;
    }
    if AfterFirst(b, date) {
      var i :| 0 < i < |b| && b[i].perfDate == date;
      assert a[i].perfDate == date;
    }
  }

  lemma {:induction false} NothingIgnored(rows: seq<Row>, ignored: seq<int>)
    requires ignored == []
    ensures PolicyRows(rows, ignored) == rows
  {
  }

  lemma {:induction false} PolicyKeepsDates(rows: seq<Row>, ignored: seq<int>)
    ensures forall i :: 0 <= i < |rows| ==> PolicyRows(rows, ignored)[i].perfDate == rows[i].perfDate
    ensures Sorted(rows) ==> Sorted(PolicyRows(rows, ignored))
  {
    hide CarriedValue;
  }

  lemma {:induction false} NextDateEverywhere(rows: seq<Row>, ignored: seq<int>, k: nat, before: seq<Row>, after: seq<Row>)
    requires Sorted(rows) && StrictlySorted(ignored) && k < |ignored| && Unique(rows, ignored[k])
    requires before == PolicyRows(rows, ignored[..k]) && CarriesDate(before, ignored[k], after)
    ensures after == PolicyRows(rows, ignored[..k + 1])
  {
    forall i | 0 <= i < |rows| ensures after[i] == PolicyRow(rows, ignored[..k + 1], i) {
      NextDate(rows, ignored, k, before, i);
      assert after[i] == CarriedAt(before, ignored[k], i);
    }
  }

  lemma {:induction false} NoneIgnored(rows: seq<Row>, n: nat)
    requires n <= |rows|
    ensures CountIgnored(rows, [], n) == 0
  {
    if n > 1 {
      NoneIgnored(rows, n - 1);
    }
  }

  /** Dates at or before i are all smaller than the next ignored date, which therefore carries nothing there. */
  lemma {:induction false} CarriedBefore(rows: seq<Row>, ignored: seq<int>, k: nat, i: nat)
    requires k < |ignored| && i < |rows|
    requires forall j :: 0 <= j <= i ==> rows[j].perfDate < ignored[k]
    ensures CarriedValue(rows, ignored[..k + 1], i) == CarriedValue(rows, ignored[..k], i)
  {
    assert ignored[..k + 1] == ignored[..k] + [ignored[k]];
    if i > 0 && rows[i].perfDate in ignored[..k] {
      CarriedBefore(rows, ignored, k, i - 1);
    }
  }

  /** Carrying one more date into the closed form gives the closed form of one more date. */
  lemma {:induction false} NextDate(rows: seq<Row>, ignored: seq<int>, k: nat, before: seq<Row>, i: nat)
    requires Sorted(rows) && StrictlySorted(ignored) && k < |ignored| && i < |rows| && Unique(rows, ignored[k])
    requires before == PolicyRows(rows, ignored[..k])
    ensures PolicyRow(rows, ignored[..k + 1], i) == CarriedAt(before, ignored[k], i)
  {
    var d := ignored[k];
    assert ignored[..k + 1] == ignored[..k] + [d];
    if i > 0 && rows[i].perfDate == d {
      forall j | 0 <= j <= i - 1 ensures rows[j].perfDate < d {
        assert rows[j].perfDate <= rows[i].perfDate;
      }
      assert d !in ignored[..k];
      CarriedBefore(rows, ignored, k, i - 1);
    } else if i > 0 && rows[i].perfDate in ignored[..k] {
      CarriedBefore(rows, ignored, k, i);
    }
  }

  lemma {:induction false} CountNext(rows: seq<Row>, ignored: seq<int>, k: nat, n: nat)
    requires Sorted(rows) && StrictlySorted(ignored) && k < |ignored| && n <= |rows| && Unique(rows, ignored[k])
    ensures CountIgnored(rows, ignored[..k + 1], n)
         == CountIgnored(rows, ignored[..k], n) + if AfterFirst(rows[..n], ignored[k]) then 1 else 0
  {
    var d := ignored[k];
    assert ignored[..k + 1] == ignored[..k] + [d];
    assert d !in ignored[..k];
    if n > 1 {
      CountNext(rows, ignored, k, n - 1);
      assert AfterFirst(rows[..n], d) <==> AfterFirst(rows[..n - 1], d) || rows[n - 1].perfDate == d by {
        assert rows[..n] == rows[..n - 1] + [rows[n - 1]];
      }
    }
  }

  // ---------------------------------------------------------------- what the policy leaves

  /** An ignored row after the first takes the closing value of the nearest earlier row the policy leaves
      unchanged, with no flows and no fees, and its daily return is 0 on either basis. */
  lemma {:induction false} IgnoredRow(rows: seq<Row>, ignored: seq<int>, i: nat, basis: MetricBasis) returns (j: nat)
    requires 0 < i < |rows| && rows[i].perfDate in ignored
    ensures j < i && PolicyRow(rows, ignored, j) == rows[j]
    ensures forall k :: j < k <= i ==> rows[k].perfDate in ignored
    ensures var r := PolicyRow(rows, ignored, i);
      && r.beginMv == rows[j].endMv && r.endMv == rows[j].endMv
      && r.bodCf == 0.0 && r.eodCf == 0.0 && r.mgmtFees == 0.0
      && r.perfDate == rows[i].perfDate && r.effectiveStart == rows[i].effectiveStart
      && LocalReturn(r, basis) == 0.0
  {
    if i == 1 || rows[i - 1].perfDate !in ignored {
      j := i - 1;
      assert CarriedValue(rows, ignored, i - 1) == rows[i - 1].endMv;
    } else {
      j := IgnoredRow(rows, ignored, i - 1, basis);
      assert CarriedValue(rows, ignored, i - 1) == PolicyRow(rows, ignored, i - 1).endMv;
    }
    assert CarriedValue(rows, ignored, i) == CarriedValue(rows, ignored, i - 1);
  }

  lemma {:induction false} CarriedAgain(rows: seq<Row>, ignored: seq<int>, i: nat)
    requires i < |rows|
    ensures CarriedValue(PolicyRows(rows, ignored), ignored, i) == CarriedValue(rows, ignored, i)
  {
    if i > 0 && rows[i].perfDate in ignored {
      CarriedAgain(rows, ignored, i - 1);
    }
  }

  /** A second pass changes no row. */
  lemma {:induction false} PolicyIdempotent(rows: seq<Row>, ignored: seq<int>)
    ensures PolicyRows(PolicyRows(rows, ignored), ignored) == PolicyRows(rows, ignored)
  {
    forall i | 0 <= i < |rows|
      ensures PolicyRow(PolicyRows(rows, ignored), ignored, i) == PolicyRow(rows, ignored, i)
    {
      CarriedAgain(rows, ignored, i);
    }
  }
}
