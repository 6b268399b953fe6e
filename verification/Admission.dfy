/** Admission of valuation observations: one authoritative economic state per business date. */
module Admission {
  import opened Wrappers

  datatype EconomicField = BeginMv | BodCf | EodCf | MgmtFees | EndMv

  /** The fields in the order in which they are read. */
  const ECONOMIC_FIELDS: seq<EconomicField> := [BeginMv, BodCf, EodCf, MgmtFees, EndMv]

  predicate IsOptional(f: EconomicField) { f == BodCf || f == EodCf || f == MgmtFees }

  /** A raw field value: absent, not a number, not finite, or a finite number. */
  datatype FieldValue = Absent | NotANumber | NotFinite | Finite(value: real)

  /** An observation; the date is None when it cannot be normalised to a business date. */
  datatype Observation = Observation(
    perfDate: Option<int>,
    beginMv: FieldValue,
    bodCf: FieldValue,
    eodCf: FieldValue,
    mgmtFees: FieldValue,
    endMv: FieldValue)

  datatype AdmissionError =
    | InvalidDate
    | FieldRequired(field: EconomicField)
    | FieldNotANumber(field: EconomicField)
    | FieldNotFinite(field: EconomicField)
    | ConflictingObservations(date: int, fields: seq<EconomicField>)

  function FieldOf(o: Observation, f: EconomicField): FieldValue {
    match f
    case BeginMv => o.beginMv
    case BodCf => o.bodCf
    case EodCf => o.eodCf
    case MgmtFees => o.mgmtFees
    case EndMv => o.endMv
  }

  function FieldAmount(o: Observation, f: EconomicField): Result<real, AdmissionError> {
    match FieldOf(o, f)
    case Absent => if IsOptional(f) then Success(0.0) else Failure(FieldRequired(f))
    case NotANumber => Failure(FieldNotANumber(f))
    case NotFinite => Failure(FieldNotFinite(f))
    case Finite(v) => Success(v)
  }

  /** The amounts of the listed fields, or the error of the first field that has none. */
  function SignatureOf(o: Observation, fields: seq<EconomicField>): (r: Result<seq<real>, AdmissionError>)
    ensures r.Success? ==> |r.value| == |fields|
  {
    if fields == [] then Success([])
    else
      var n := |fields| - 1;
      match SignatureOf(o, fields[..n])
      case Failure(e) => Failure(e)
      case Success(values) =>
        match FieldAmount(o, fields[n])
        case Failure(e) => Failure(e)
        case Success(v) => Success(values + [v])
  }

  function Signature(o: Observation): (r: Result<seq<real>, AdmissionError>)
    ensures r.Success? ==> |r.value| == |ECONOMIC_FIELDS|
  {
    SignatureOf(o, ECONOMIC_FIELDS)
  }

  lemma {:induction false} FailedPrefix(o: Observation, fields: seq<EconomicField>, k: nat)
    requires k <= |fields| && SignatureOf(o, fields[..k]).Failure?
    ensures SignatureOf(o, fields) == Failure(SignatureOf(o, fields[..k]).error)
    decreases |fields|
  {
    if k == |fields| {
      assert fields[..k] == fields;
    } else {
      var n := |fields| - 1;
      assert fields[..n][..k] == fields[..k];
      FailedPrefix(o, fields[..n], k);
    }
  }

  method EconomicSignature(o: Observation) returns (r: Result<seq<real>, AdmissionError>)
    ensures r == Signature(o)
  {
    var fields := ECONOMIC_FIELDS;
    var values: seq<real> := [];
    for k := 0 to |fields|
      invariant SignatureOf(o, fields[..k]) == Success(values)
    {
      assert fields[..k + 1][..k] == fields[..k];
      var amount := FieldAmount(o, fields[k]);
      if amount.Failure? {
        FailedPrefix(o, fields, k + 1);
        return Failure(amount.error);
      }
      values := values + [amount.value];
    }
    assert fields[..|fields|] == fields;
    return Success(values);
  }

  function ConflictingFields(fields: seq<EconomicField>, a: seq<real>, b: seq<real>): (r: seq<EconomicField>)
    requires |fields| == |a| == |b|
    ensures forall f :: f in r <==> exists i :: 0 <= i < |fields| && fields[i] == f && a[i] != b[i]
  {
    if fields == [] then []
    else
      var rest := ConflictingFields(fields[1..], a[1..], b[1..]);
      assert forall i :: 0 < i < |fields| ==> fields[i] == fields[1..][i - 1];
      if a[0] != b[0] then [fields[0]] + rest else rest
  }

  // ---------------------------------------------------------------- what a signature holds

  /** The amount a usable field stands for; an absent one stands for 0. */
  function Amount(v: FieldValue): real {
    if v.Finite? then v.value else 0.0
  }

  /** Opening and closing values must be finite numbers; flows and fees may also be absent. */
  predicate Usable(o: Observation) {
    && o.beginMv.Finite? && o.endMv.Finite?
    && (o.bodCf.Finite? || o.bodCf.Absent?)
    && (o.eodCf.Finite? || o.eodCf.Absent?)
    && (o.mgmtFees.Finite? || o.mgmtFees.Absent?)
  }

  predicate SameEconomics(a: Observation, b: Observation) {
    && Amount(a.beginMv) == Amount(b.beginMv)
    && Amount(a.bodCf) == Amount(b.bodCf)
    && Amount(a.eodCf) == Amount(b.eodCf)
    && Amount(a.mgmtFees) == Amount(b.mgmtFees)
    && Amount(a.endMv) == Amount(b.endMv)
  }

  /** f is a field in which the two observations differ. */
  predicate DiffersIn(a: Observation, b: Observation, f: EconomicField) {
    match f
    case BeginMv => Amount(a.beginMv) != Amount(b.beginMv)
    case BodCf => Amount(a.bodCf) != Amount(b.bodCf)
    case EodCf => Amount(a.eodCf) != Amount(b.eodCf)
    case MgmtFees => Amount(a.mgmtFees) != Amount(b.mgmtFees)
    case EndMv => Amount(a.endMv) != Amount(b.endMv)
  }

  lemma {:induction false} SignatureStep(o: Observation, k: nat)
    requires k < |ECONOMIC_FIELDS|
    ensures var before, amount := SignatureOf(o, ECONOMIC_FIELDS[..k]), FieldAmount(o, ECONOMIC_FIELDS[k]);
      SignatureOf(o, ECONOMIC_FIELDS[..k + 1]) ==
        if before.Failure? then Failure(before.error)
        else if amount.Failure? then Failure(amount.error)
        else Success(before.value + [amount.value])
  {
    assert ECONOMIC_FIELDS[..k + 1][..k] == ECONOMIC_FIELDS[..k];
  }

  function Amounts(o: Observation): seq<real> {
    [Amount(o.beginMv), Amount(o.bodCf), Amount(o.eodCf), Amount(o.mgmtFees), Amount(o.endMv)]
  }

  /** The signature holds the five amounts, and exists exactly for usable observations. */
  lemma {:induction false} SignatureWritten(o: Observation)
    ensures Signature(o).Success? <==> Usable(o)
    ensures Usable(o) ==> Signature(o) == Success(Amounts(o))
  {
    hide SignatureOf;
    assert ECONOMIC_FIELDS[..0] == [];
    assert SignatureOf(o, ECONOMIC_FIELDS[..0]) == Success([]) by { EmptySignature(o); }
    SignatureStep(o, 0);
    SignatureStep(o, 1);
    SignatureStep(o, 2);
    SignatureStep(o, 3);
    SignatureStep(o, 4);
    assert ECONOMIC_FIELDS[..5] == ECONOMIC_FIELDS;
    if Usable(o) {
      var a := Amounts(o);
      assert [] + [a[0]] + [a[1]] + [a[2]] + [a[3]] + [a[4]] == a;
    }
  }

  lemma {:induction false} EmptySignature(o: Observation)
    ensures SignatureOf(o, []) == Success([])
  {
  }

  lemma {:induction false} SignaturesAgree(a: Observation, b: Observation)
    requires Usable(a) && Usable(b)
    ensures Signature(a) == Signature(b) <==> SameEconomics(a, b)
  {
    hide Signature, Amount;
    SignatureWritten(a);
    SignatureWritten(b);
    var s, t := Signature(a).value, Signature(b).value;
    assert s == t ==> s[0] == t[0] && s[1] == t[1] && s[2] == t[2] && s[3] == t[3] && s[4] == t[4];
  }

  /** The fields named in a conflict are those in which the two observations differ. */
  lemma {:induction false} ConflictNamesFields(a: Observation, b: Observation, f: EconomicField)
    requires Usable(a) && Usable(b)
    requires Signature(a).Success? && Signature(b).Success?
    ensures f in ConflictingFields(ECONOMIC_FIELDS, Signature(a).value, Signature(b).value) <==> DiffersIn(a, b, f)
  {
    hide Signature, Amount, ConflictingFields;
    SignatureWritten(a);
    SignatureWritten(b);
    var s, t := Signature(a).value, Signature(b).value;
    var i := match f case BeginMv => 0 case BodCf => 1 case EodCf => 2 case MgmtFees => 3 case EndMv => 4;
    assert ECONOMIC_FIELDS[i] == f;
    assert DiffersIn(a, b, f) <==> s[i] != t[i];
  }

  // ---------------------------------------------------------------- admission

  predicate ValidObservation(o: Observation) { o.perfDate.Some? && Signature(o).Success? }

  predicate SameDate(a: Observation, b: Observation) { a.perfDate == b.perfDate }

  predicate DateSeen(seen: seq<Observation>, o: Observation) {
    exists i :: 0 <= i < |seen| && SameDate(seen[i], o)
  }

  /** The first observation of each date, in order. */
  function Firsts(obs: seq<Observation>): seq<Observation> {
    if obs == [] then []
    else
      var r := Firsts(obs[..|obs| - 1]);
      if DateSeen(r, obs[|obs| - 1]) then r else r + [obs[|obs| - 1]]
  }

  /** The part of Firsts that changes with one more observation. */
  lemma {:induction false} FirstsUnfolded(obs: seq<Observation>, before: seq<Observation>, last: Observation)
    requires obs == before + [last]
    ensures Firsts(obs) == if DateSeen(Firsts(before), last) then Firsts(before) else Firsts(before) + [last]
  {
    assert obs[..|obs| - 1] == before;
  }

  lemma {:induction false} FirstsAreMembers(obs: seq<Observation>, o: Observation)
    requires o in Firsts(obs)
    ensures o in obs
  {
    hide DateSeen;
    if o !in Firsts(obs[..|obs| - 1]) {
      assert o == obs[|obs| - 1];
    } else {
      FirstsAreMembers(obs[..|obs| - 1], o);
    }
  }

  /** Every date of the input has its observation among the firsts. */
  lemma {:induction false} FirstsCoverDates(obs: seq<Observation>, k: nat) returns (i: nat)
    requires k < |obs|
    ensures i < |Firsts(obs)| && SameDate(Firsts(obs)[i], obs[k])
  {
    hide SameDate;
    var n := |obs| - 1;
    var r := Firsts(obs[..n]);
    if k < n {
      i := FirstsCoverDates(obs[..n], k);
    } else if DateSeen(r, obs[n]) {
      i :| 0 <= i < |r| && SameDate(r[i], obs[n]);
    } else {
      i := |r|;
      SameDateReflexive(obs[n]);
    }
  }

  lemma {:induction false} SameDateReflexive(o: Observation)
    ensures SameDate(o, o)
  {
  }

  /** Observations of one date agree economically. */
  predicate Consistent(obs: seq<Observation>) {
    forall i, j :: 0 <= i < j < |obs| && SameDate(obs[i], obs[j]) ==> Signature(obs[i]) == Signature(obs[j])
  }

  predicate Admissible(obs: seq<Observation>) {
    (forall i :: 0 <= i < |obs| ==> ValidObservation(obs[i])) && Consistent(obs)
  }

  /** What stops the admission at the next observation after an admissible prefix. */
  function StepError(previous: Option<seq<real>>, o: Observation): Option<AdmissionError>
    requires previous.Some? ==> |previous.value| == |ECONOMIC_FIELDS|
  {
    if o.perfDate.None? then Some(InvalidDate)
    else match Signature(o)
         case Failure(e) => Some(e)
         case Success(s) =>
           if previous.Some? && previous.value != s
           then Some(ConflictingObservations(o.perfDate.value, ConflictingFields(ECONOMIC_FIELDS, previous.value, s)))
           else None
  }

  /** The signature recorded for a date by the observations seen so far. */
  function Recorded(obs: seq<Observation>, date: int): (r: Option<seq<real>>)
    ensures r.Some? ==> |r.value| == |ECONOMIC_FIELDS|
    ensures r.Some? ==> exists i :: 0 <= i < |obs| && obs[i].perfDate == Some(date) && Signature(obs[i]) == Success(r.value)
  {
    if obs == [] then None
    else
      var n := |obs| - 1;
      var earlier := Recorded(obs[..n], date);
      if earlier.Some? then earlier
      else if obs[n].perfDate == Some(date) && Signature(obs[n]).Success? then Some(Signature(obs[n]).value)
      else None
  }

  lemma {:induction false} RecordedOfAdmissible(obs: seq<Observation>, k: nat)
    requires Admissible(obs) && k < |obs|
    ensures Recorded(obs, obs[k].perfDate.value) == Some(Signature(obs[k]).value)
  {
    var n := |obs| - 1;
    var d := obs[k].perfDate.value;
    assert ValidObservation(obs[k]);
    if k < n {
      RecordedOfAdmissible(obs[..n], k);
    } else {
      var earlier := Recorded(obs[..n], d);
      if earlier.Some? {
        var i :| 0 <= i < n && obs[..n][i].perfDate == Some(d) && Signature(obs[..n][i]) == Success(earlier.value);
        assert SameDate(obs[i], obs[n]);
      }
    }
  }

  /** The error of observation k given the admissible observations before it. */
  function ErrorAt(obs: seq<Observation>, k: nat): Option<AdmissionError>
    requires k < |obs|
  {
    StepError(if obs[k].perfDate.Some? then Recorded(obs[..k], obs[k].perfDate.value) else None, obs[k])
  }

  lemma {:induction false} AdmissibleExtended(before: seq<Observation>, o: Observation)
    requires Admissible(before) && ValidObservation(o)
    requires Recorded(before, o.perfDate.value) in {None, Some(Signature(o).value)}
    ensures Admissible(before + [o])
  {
    hide Signature, Recorded;
    var after := before + [o];
    forall i | 0 <= i < |before| && SameDate(before[i], o) ensures Signature(before[i]) == Signature(o) {
      RecordedOfAdmissible(before, i);
      assert ValidObservation(before[i]);
    }
    forall i, j | 0 <= i < j < |after| && SameDate(after[i], after[j])
      ensures Signature(after[i]) == Signature(after[j])
    {
      if j < |before| {
        assert SameDate(before[i], before[j]);
      }
    }
  }

  lemma {:induction false} RecordedAgrees(before: seq<Observation>, o: Observation)
    requires Admissible(before + [o])
    ensures ValidObservation(o) && Recorded(before, o.perfDate.value) in {None, Some(Signature(o).value)}
  {
    hide Signature;
    var after := before + [o];
    assert ValidObservation(after[|before|]);
    var previous := Recorded(before, o.perfDate.value);
    if previous.Some? {
      var i :| 0 <= i < |before| && before[i].perfDate == Some(o.perfDate.value)
               && Signature(before[i]) == Success(previous.value);
      assert SameDate(after[i], after[|before|]);
    }
  }

  /** One more observation keeps a prefix admissible exactly when its step has no error. */
  lemma {:induction false} AdmissibleStep(obs: seq<Observation>, k: nat)
    requires k < |obs| && Admissible(obs[..k])
    ensures Admissible(obs[..k + 1]) <==> ErrorAt(obs, k) == None
  {
    hide Admissible, Recorded, Signature, ConflictingFields;
    assert obs[..k + 1] == obs[..k] + [obs[k]];
    if Admissible(obs[..k + 1]) {
      RecordedAgrees(obs[..k], obs[k]);
    } else if ErrorAt(obs, k) == None {
      AdmissibleExtended(obs[..k], obs[k]);
    }
  }

  lemma {:induction false} PrefixAdmissible(obs: seq<Observation>, k: nat)
    requires k <= |obs| && Admissible(obs)
    ensures Admissible(obs[..k])
  {
    forall i | 0 <= i < k ensures ValidObservation(obs[..k][i]) {
      assert ValidObservation(obs[i]);
    }
    forall i, j | 0 <= i < j < k && SameDate(obs[..k][i], obs[..k][j])
      ensures Signature(obs[..k][i]) == Signature(obs[..k][j])
    {
      assert SameDate(obs[i], obs[j]);
    }
  }

  function RecordedIn(signatures: map<int, seq<real>>, date: int): Option<seq<real>> {
    if date in signatures then Some(signatures[date]) else None
  }

  /** The map holds the signature recorded for every date. */
  ghost predicate Records(signatures: map<int, seq<real>>, obs: seq<Observation>) {
    forall d :: RecordedIn(signatures, d) == Recorded(obs, d)
  }

  lemma {:induction false} SeenIffRecorded(obs: seq<Observation>, o: Observation)
    requires Admissible(obs) && o.perfDate.Some?
    ensures DateSeen(Firsts(obs), o) <==> Recorded(obs, o.perfDate.value).Some?
  {
    hide Firsts, Signature;
    if DateSeen(Firsts(obs), o) {
      var i :| 0 <= i < |Firsts(obs)| && SameDate(Firsts(obs)[i], o);
      FirstsAreMembers(obs, Firsts(obs)[i]);
      var k :| 0 <= k < |obs| && obs[k] == Firsts(obs)[i];
      RecordedOfAdmissible(obs, k);
    }
    var r := Recorded(obs, o.perfDate.value);
    if r.Some? {
      var k :| 0 <= k < |obs| && obs[k].perfDate == Some(o.perfDate.value) && Signature(obs[k]) == Success(r.value);
      var i := FirstsCoverDates(obs, k);
      assert SameDate(Firsts(obs)[i], o);
    }
  }

  /** The first observation that breaks admissibility, and its error. */
  ghost predicate FailsAt(obs: seq<Observation>, k: nat, error: AdmissionError) {
    k < |obs| && Admissible(obs[..k]) && ErrorAt(obs, k) == Some(error)
  }

  lemma {:induction false} FailureMeansInadmissible(obs: seq<Observation>, k: nat, error: AdmissionError)
    requires FailsAt(obs, k, error)
    ensures !Admissible(obs)
  {
    AdmissibleStep(obs, k);
    if Admissible(obs) {
      PrefixAdmissible(obs, k + 1);
    }
  }

  /** Every date is known, every field usable, and observations of one date agree in all five amounts. */
  predicate Acceptable(obs: seq<Observation>) {
    && (forall i :: 0 <= i < |obs| ==> obs[i].perfDate.Some? && Usable(obs[i]))
    && (forall i, j :: 0 <= i < j < |obs| && obs[i].perfDate == obs[j].perfDate ==> SameEconomics(obs[i], obs[j]))
  }

  lemma {:induction false} AdmissibleIsAcceptable(obs: seq<Observation>)
    ensures Admissible(obs) <==> Acceptable(obs)
  {
    hide Signature, Usable, SameEconomics;
    forall i | 0 <= i < |obs| ensures ValidObservation(obs[i]) <==> obs[i].perfDate.Some? && Usable(obs[i]) {
      SignatureWritten(obs[i]);
    }
    forall i, j | 0 <= i < j < |obs| && Usable(obs[i]) && Usable(obs[j])
      ensures Signature(obs[i]) == Signature(obs[j]) <==> SameEconomics(obs[i], obs[j])
    {
      SignaturesAgree(obs[i], obs[j]);
    }
    if Admissible(obs) {
      forall i, j | 0 <= i < j < |obs| && obs[i].perfDate == obs[j].perfDate ensures SameEconomics(obs[i], obs[j]) {
        assert ValidObservation(obs[i]) && ValidObservation(obs[j]) && SameDate(obs[i], obs[j]);
      }
    }
    if Acceptable(obs) {
      forall i, j | 0 <= i < j < |obs| && SameDate(obs[i], obs[j]) ensures Signature(obs[i]) == Signature(obs[j]) {
        assert Usable(obs[i]) && Usable(obs[j]);
      }
    }
  }

  /** The state of one field that makes an observation unusable, with the error for it. */
  predicate FieldFault(v: FieldValue, f: EconomicField, error: AdmissionError) {
    match v
    case Absent => (f == BeginMv || f == EndMv) && error == FieldRequired(f)
    case NotANumber => error == FieldNotANumber(f)
    case NotFinite => error == FieldNotFinite(f)
    case Finite(_) => false
  }

  /** The faults of a new observation in reading order: its date, then the first faulty field. */
  predicate Faulty(o: Observation, error: AdmissionError) {
    if o.perfDate.None? then error == InvalidDate
    else if !o.beginMv.Finite? then FieldFault(o.beginMv, BeginMv, error)
    else if !(o.bodCf.Finite? || o.bodCf.Absent?) then FieldFault(o.bodCf, BodCf, error)
    else if !(o.eodCf.Finite? || o.eodCf.Absent?) then FieldFault(o.eodCf, EodCf, error)
    else if !(o.mgmtFees.Finite? || o.mgmtFees.Absent?) then FieldFault(o.mgmtFees, MgmtFees, error)
    else FieldFault(o.endMv, EndMv, error)
  }

  /** A usable observation that differs from an earlier one of its date, with the fields in which it does. */
  ghost predicate Conflicts(obs: seq<Observation>, k: nat, error: AdmissionError) {
    && k < |obs| && error.ConflictingObservations? && obs[k].perfDate == Some(error.date)
    && exists j :: 0 <= j < k && obs[j].perfDate == obs[k].perfDate
         && forall f :: f in error.fields <==> DiffersIn(obs[j], obs[k], f)
  }

  /** Observation k is the first that cannot be admitted, for the reason given. */
  ghost predicate RejectedAt(obs: seq<Observation>, k: nat, error: AdmissionError) {
    && k < |obs| && Acceptable(obs[..k])
    && (Faulty(obs[k], error) || (Usable(obs[k]) && Conflicts(obs, k, error)))
  }

  lemma {:induction false} SignatureFault(o: Observation)
    requires o.perfDate.Some? && Signature(o).Failure?
    ensures Faulty(o, Signature(o).error)
  {
    hide SignatureOf;
    EmptySignature(o);
    assert ECONOMIC_FIELDS[..0] == [];
    SignatureStep(o, 0);
    SignatureStep(o, 1);
    SignatureStep(o, 2);
    SignatureStep(o, 3);
    SignatureStep(o, 4);
    assert ECONOMIC_FIELDS[..5] == ECONOMIC_FIELDS;
  }

  /** The error at the first observation that breaks admissibility is a fault of its own or a conflict. */
  lemma {:induction false} FailureExplained(obs: seq<Observation>, k: nat, error: AdmissionError)
    requires FailsAt(obs, k, error)
    ensures Faulty(obs[k], error) || (Usable(obs[k]) && Conflicts(obs, k, error))
  {
    hide Signature, Recorded, ConflictingFields, Faulty, Usable;
    var o := obs[k];
    if o.perfDate.None? {
      DateFault(o);
    } else if Signature(o).Failure? {
      SignatureFault(o);
    } else {
      var before := obs[..k];
      var previous := Recorded(before, o.perfDate.value);
      var j :| 0 <= j < |before| && before[j].perfDate == o.perfDate && Signature(before[j]) == Success(previous.value);
      SignatureWritten(o);
      SignatureWritten(obs[j]);
      forall f ensures f in error.fields <==> DiffersIn(obs[j], o, f) {
        ConflictNamesFields(obs[j], o, f);
      }
    }
  }

  lemma {:induction false} DateFault(o: Observation)
    requires o.perfDate.None?
    ensures Faulty(o, InvalidDate)
  {
  }

  /** Admission succeeds exactly when every date is known, opening and closing values are finite numbers, flows and
      fees are finite numbers or absent, and observations of one date agree in all five amounts; it returns the first
      observation of each date. Otherwise the observations before some k are acceptable, and the error is the first
      fault of observation k or names the fields in which it differs from an earlier one of its date. */
  method AdmitValuationObservations(obs: seq<Observation>) returns (r: Result<seq<Observation>, AdmissionError>)
    ensures r.Success? <==> Acceptable(obs)
    ensures r.Success? ==> r.value == Firsts(obs)
    ensures r.Failure? ==> exists k :: RejectedAt(obs, k, r.error)
  {
    hide Firsts, Recorded, Signature, ConflictingFields, Admissible, ErrorAt, Acceptable, RejectedAt, Usable, FailsAt;
    AdmissibleIsAcceptable(obs);
    var admitted: seq<Observation> := [];
    var signatures: map<int, seq<real>> := map[];
    NothingYet(obs);
    for k := 0 to |obs|
      invariant Admissible(obs[..k]) && admitted == Firsts(obs[..k])
      invariant Records(signatures, obs[..k])
    {
      var o := obs[k];
      AdmissibleStep(obs, k);
      ErrorUnfolded(obs, k);
      if o.perfDate.None? {
        FirstFailure(obs, k, InvalidDate);
        return Failure(InvalidDate);
      }
      var date := o.perfDate.value;
      var signature := EconomicSignature(o);
      if signature.Failure? {
        FirstFailure(obs, k, signature.error);
        return Failure(signature.error);
      }
      assert RecordedIn(signatures, date) == Recorded(obs[..k], date);
      if date in signatures && signatures[date] != signature.value {
        var error := ConflictingObservations(
          date, ConflictingFields(ECONOMIC_FIELDS, signatures[date], signature.value));
        FirstFailure(obs, k, error);
        return Failure(error);
      }
      NextRecorded(obs, k, signatures);
      if date !in signatures {
        signatures := signatures[date := signature.value];
        admitted := admitted + [o];
      }
    }
    assert obs[..|obs|] == obs;
    return Success(admitted);
  }

  lemma {:induction false} FirstFailure(obs: seq<Observation>, k: nat, error: AdmissionError)
    requires k < |obs| && Admissible(obs[..k]) && ErrorAt(obs, k) == Some(error)
    ensures !Admissible(obs) && RejectedAt(obs, k, error)
  {
    hide Admissible, ErrorAt, Acceptable, Faulty, Usable, Conflicts;
    FailureMeansInadmissible(obs, k, error);
    AdmissibleIsAcceptable(obs[..k]);
    FailureExplained(obs, k, error);
  }

  lemma {:induction false} ErrorUnfolded(obs: seq<Observation>, k: nat)
    requires k < |obs|
    ensures ErrorAt(obs, k)
         == StepError(if obs[k].perfDate.Some? then Recorded(obs[..k], obs[k].perfDate.value) else None, obs[k])
  {
  }

  lemma {:induction false} NothingYet(obs: seq<Observation>)
    ensures Admissible(obs[..0]) && Firsts(obs[..0]) == [] && forall d :: Recorded(obs[..0], d) == None
  {
  }

  /** The map and the admitted list after one more valid observation. */
  lemma {:induction false} NextRecorded(obs: seq<Observation>, k: nat, signatures: map<int, seq<real>>)
    requires k < |obs| && Admissible(obs[..k]) && ValidObservation(obs[k]) && Records(signatures, obs[..k])
    ensures var d := obs[k].perfDate.value;
      if d in signatures then
        Firsts(obs[..k + 1]) == Firsts(obs[..k]) && Records(signatures, obs[..k + 1])
      else
        && Firsts(obs[..k + 1]) == Firsts(obs[..k]) + [obs[k]]
        && Records(signatures[d := Signature(obs[k]).value], obs[..k + 1])
  {
    hide Firsts, Signature, Recorded;
    var d := obs[k].perfDate.value;
    assert obs[..k + 1] == obs[..k] + [obs[k]];
    FirstsUnfolded(obs[..k + 1], obs[..k], obs[k]);
    SeenIffRecorded(obs[..k], obs[k]);
    assert RecordedIn(signatures, d) == Recorded(obs[..k], d);
    var next := if d in signatures then signatures else signatures[d := Signature(obs[k]).value];
    forall e ensures RecordedIn(next, e) == Recorded(obs[..k + 1], e) {
      RecordedUnfolded(obs[..k + 1], obs[..k], obs[k], e);
      assert RecordedIn(signatures, e) == Recorded(obs[..k], e);
    }
  }

  lemma {:induction false} RecordedUnfolded(obs: seq<Observation>, before: seq<Observation>, last: Observation, date: int)
    requires obs == before + [last]
    ensures Recorded(obs, date)
         == if Recorded(before, date).Some? then Recorded(before, date)
            else if last.perfDate == Some(date) && Signature(last).Success? then Some(Signature(last).value)
            else None
  {
    assert obs[..|obs| - 1] == before;
  }

  // ---------------------------------------------------------------- what admission establishes

  predicate UniqueDates(obs: seq<Observation>) {
    forall i, j :: 0 <= i < j < |obs| ==> !SameDate(obs[i], obs[j])
  }

  /** indices picks the admitted observations out of the input, in order. */
  ghost predicate SubsequenceAt(sub: seq<Observation>, obs: seq<Observation>, indices: seq<nat>) {
    && |indices| == |sub|
    && (forall i :: 0 <= i < |sub| ==> indices[i] < |obs| && obs[indices[i]] == sub[i])
    && (forall i, j :: 0 <= i < j < |sub| ==> indices[i] < indices[j])
  }

  /** Each listed observation is the first of its date. */
  ghost predicate FirstOfDate(obs: seq<Observation>, indices: seq<nat>) {
    forall i, k :: 0 <= i < |indices| && 0 <= k < indices[i] < |obs| ==> !SameDate(obs[k], obs[indices[i]])
  }

  lemma {:induction false} AppendIndex(obs: seq<Observation>, sub: seq<Observation>, indices: seq<nat>) returns (extended: seq<nat>)
    requires obs != [] && UniqueDates(sub)
    requires SubsequenceAt(sub, obs[..|obs| - 1], indices) && FirstOfDate(obs[..|obs| - 1], indices)
    requires forall i :: 0 <= i < |sub| ==> !SameDate(sub[i], obs[|obs| - 1])
    requires forall k :: 0 <= k < |obs| - 1 ==> !SameDate(obs[k], obs[|obs| - 1])
    ensures UniqueDates(sub + [obs[|obs| - 1]])
    ensures SubsequenceAt(sub + [obs[|obs| - 1]], obs, extended) && FirstOfDate(obs, extended)
  {
    hide SameDate;
    extended := indices + [|obs| - 1];
  }

  /** The result is an order-preserving subsequence with one observation per date: the first of that date. */
  lemma {:induction false} AdmittedAreFirsts(obs: seq<Observation>) returns (indices: seq<nat>)
    ensures UniqueDates(Firsts(obs)) && SubsequenceAt(Firsts(obs), obs, indices)
    ensures FirstOfDate(obs, indices)
  {
    hide Firsts, DateSeen, SameDate;
    if obs == [] {
      indices := [];
      assert Firsts(obs) == [] by { FirstsOfNone(); }
    } else {
      var n := |obs| - 1;
      indices := AdmittedAreFirsts(obs[..n]);
      FirstsUnfolded(obs, obs[..n], obs[n]);
      if !DateSeen(Firsts(obs[..n]), obs[n]) {
        NewDate(obs, n);
        indices := AppendIndex(obs, Firsts(obs[..n]), indices);
      }
    }
  }

  lemma {:induction false} FirstsOfNone()
    ensures Firsts([]) == []
  {
  }

  lemma {:induction false} NewDate(obs: seq<Observation>, n: nat)
    requires n == |obs| - 1 && !DateSeen(Firsts(obs[..n]), obs[n])
    ensures forall i :: 0 <= i < |Firsts(obs[..n])| ==> !SameDate(Firsts(obs[..n])[i], obs[n])
    ensures forall k :: 0 <= k < n ==> !SameDate(obs[k], obs[n])
  {
    hide Firsts;
    forall k | 0 <= k < n ensures !SameDate(obs[k], obs[n]) {
      var i := FirstsCoverDates(obs[..n], k);
      assert !SameDate(Firsts(obs[..n])[i], obs[n]);
    }
  }

  lemma {:induction false} FirstsOfUnique(obs: seq<Observation>)
    requires UniqueDates(obs)
    ensures Firsts(obs) == obs
  {
    hide Firsts;
    if obs == [] {
      FirstsOfNone();
    } else {
      var n := |obs| - 1;
      FirstsOfUnique(obs[..n]);
      assert obs == obs[..n] + [obs[n]];
      FirstsUnfolded(obs, obs[..n], obs[n]);
    }
  }

  /** Admitting an admitted list again admits it unchanged. */
  lemma {:induction false} AdmissionIdempotent(obs: seq<Observation>)
    requires Admissible(obs)
    ensures Admissible(Firsts(obs)) && Firsts(Firsts(obs)) == Firsts(obs)
  {
    hide Signature, Firsts, ValidObservation;
    var indices := AdmittedAreFirsts(obs);
    FirstsOfUnique(Firsts(obs));
    forall i | 0 <= i < |Firsts(obs)| ensures ValidObservation(Firsts(obs)[i]) {
      assert ValidObservation(obs[indices[i]]);
    }
  }

  /** The state the admitted observations establish for a date. */
  ghost predicate Establishes(obs: seq<Observation>, date: int, signature: seq<real>) {
    exists o :: o in obs && o.perfDate == Some(date) && Signature(o) == Success(signature)
  }

  lemma {:induction false} AdmittedStates(obs: seq<Observation>, date: int, signature: seq<real>)
    requires Admissible(obs)
    ensures Establishes(Firsts(obs), date, signature) <==> Establishes(obs, date, signature)
  {
    hide Signature, Firsts, Admissible;
    if Establishes(obs, date, signature) {
      var o :| o in obs && o.perfDate == Some(date) && Signature(o) == Success(signature);
      var k :| 0 <= k < |obs| && obs[k] == o;
      var i := FirstsCoverDates(obs, k);
      FirstsAreMembers(obs, Firsts(obs)[i]);
      var j :| 0 <= j < |obs| && obs[j] == Firsts(obs)[i];
      SameDateSameSignature(obs, j, k);
      assert Firsts(obs)[i] in Firsts(obs);
    }
    if Establishes(Firsts(obs), date, signature) {
      var o :| o in Firsts(obs) && o.perfDate == Some(date) && Signature(o) == Success(signature);
      FirstsAreMembers(obs, o);
    }
  }

  lemma {:induction false} SameDateSameSignature(obs: seq<Observation>, j: nat, k: nat)
    requires Admissible(obs) && j < |obs| && k < |obs| && SameDate(obs[j], obs[k])
    ensures Signature(obs[j]) == Signature(obs[k])
  {
    hide Signature;
    if j < k {
      assert SameDate(obs[j], obs[k]);
    } else if k < j {
      assert SameDate(obs[k], obs[j]);
    }
  }

  /** Admissible in terms of membership only. */
  lemma {:induction false} AdmissibleByMembers(obs: seq<Observation>)
    ensures Admissible(obs) <==>
      && (forall o :: o in obs ==> ValidObservation(o))
      && (forall o, p :: o in obs && p in obs && SameDate(o, p) ==> Signature(o) == Signature(p))
  {
    hide Signature, ValidObservation;
    if Admissible(obs) {
      forall o, p | o in obs && p in obs && SameDate(o, p) ensures Signature(o) == Signature(p) {
        var j :| 0 <= j < |obs| && obs[j] == o;
        var k :| 0 <= k < |obs| && obs[k] == p;
        SameDateSameSignature(obs, j, k);
      }
    }
  }

  /** The order of the input changes neither whether it is admitted nor the state admitted for any date. */
  lemma {:induction false} AdmissionIgnoresOrder(a: seq<Observation>, b: seq<Observation>)
    requires multiset(a) == multiset(b)
    ensures Admissible(a) <==> Admissible(b)
    ensures Admissible(a) ==> forall d, s :: Establishes(Firsts(a), d, s) <==> Establishes(Firsts(b), d, s)
  {
    hide Signature, ValidObservation, Firsts;
    assert forall o :: o in a <==> o in multiset(a);
    assert forall o :: o in b <==> o in multiset(b);
    AdmissibleByMembers(a);
    AdmissibleByMembers(b);
    if Admissible(a) {
      forall d, s ensures Establishes(Firsts(a), d, s) <==> Establishes(Firsts(b), d, s) {
        AdmittedStates(a, d, s);
        AdmittedStates(b, d, s);
      }
    }
  }
}
