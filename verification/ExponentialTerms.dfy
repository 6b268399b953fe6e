/** The exponential sums of the XIRR solver.

    Under an ACT basis every exponent is a whole number of elapsed days over the days of a year, so
    coefficient * exp(-x * days / daysPerYear) is coefficient * y^days with y the discount factor of
    one day. Terms keep the day count; ordered terms are polynomials written sparsely. */
module ExponentialTerms {
  import opened RealArithmetic
  import opened Polynomials

  datatype Term = Term(coefficient: real, days: nat)

  function EvalTerms(ts: seq<Term>, y: real): real {
    if ts == [] then 0.0 else ts[0].coefficient * Pow(y, ts[0].days) + EvalTerms(ts[1..], y)
  }

  lemma {:induction false} TermsUnfolded(ts: seq<Term>, y: real)
    requires ts != []
    ensures EvalTerms(ts, y) == ts[0].coefficient * Pow(y, ts[0].days) + EvalTerms(ts[1..], y)
  {
  }

  /** Nonzero coefficients at strictly increasing day counts. */
  predicate Ordered(ts: seq<Term>) {
    && (forall i :: 0 <= i < |ts| ==> ts[i].coefficient != 0.0)
    && (forall i, j :: 0 <= i < j < |ts| ==> ts[i].days < ts[j].days)
  }

  function Coefficients(ts: seq<Term>): (cs: seq<real>)
    ensures |cs| == |ts| && forall i :: 0 <= i < |ts| ==> cs[i] == ts[i].coefficient
  {
    seq(|ts|, i requires 0 <= i < |ts| => ts[i].coefficient)
  }

  function NonZero(cs: seq<real>): (r: seq<real>)
    ensures forall c :: c in r ==> c != 0.0
  {
    if cs == [] then []
    else if cs[0] != 0.0 then [cs[0]] + NonZero(cs[1..])
    else NonZero(cs[1..])
  }

  function AdjacentSignFlips(cs: seq<real>): nat {
    if |cs| < 2 then 0
    else (if Sign(cs[1]) != Sign(cs[0]) then 1 else 0) + AdjacentSignFlips(cs[1..])
  }

  function CoefficientSignChanges(cs: seq<real>): nat {
    AdjacentSignFlips(NonZero(cs))
  }

  // ---------------------------------------------------------------- dense form

  /** The coefficient list whose entry i belongs to degree low + i. */
  function Dense(ts: seq<Term>, low: nat): seq<real>
    requires Ordered(ts) && (ts != [] ==> low <= ts[0].days)
    decreases |ts|, if ts == [] then 0 else ts[0].days - low
  {
    if ts == [] then []
    else if ts[0].days == low then [ts[0].coefficient] + Dense(ts[1..], low + 1)
    else [0.0] + Dense(ts, low + 1)
  }

  lemma {:induction false} DenseSigns(ts: seq<Term>, low: nat)
    requires Ordered(ts) && (ts != [] ==> low <= ts[0].days)
    ensures LeadSign(Dense(ts, low)) == if ts == [] then 0 else Sign(ts[0].coefficient)
    ensures SignChanges(Dense(ts, low)) == AdjacentSignFlips(Coefficients(ts))
    decreases |ts|, if ts == [] then 0 else ts[0].days - low
  {
    if ts == [] {
    } else if ts[0].days == low {
      var rest := ts[1..];
      DenseSigns(rest, low + 1);
      assert Dense(ts, low)[1..] == Dense(rest, low + 1);
      assert Coefficients(ts)[1..] == Coefficients(rest);
      assert rest != [] ==> rest[0].coefficient != 0.0;
    } else {
      DenseSigns(ts, low + 1);
      assert Dense(ts, low)[1..] == Dense(ts, low + 1);
    }
  }

  lemma {:induction false} NonZeroIdentity(cs: seq<real>)
    requires forall i :: 0 <= i < |cs| ==> cs[i] != 0.0
    ensures NonZero(cs) == cs
  {
    if cs != [] {
      NonZeroIdentity(cs[1..]);
      assert cs == [cs[0]] + cs[1..];
    }
  }

  /** The count of the engine on sparse terms is the count of Descartes' rule on the polynomial. */
  lemma {:induction false} SignChangesOfTerms(ts: seq<Term>, low: nat)
    requires Ordered(ts) && (ts != [] ==> low <= ts[0].days)
    ensures CoefficientSignChanges(Coefficients(ts)) == SignChanges(Dense(ts, low))
  {
    DenseSigns(ts, low);
    NonZeroIdentity(Coefficients(ts));
  }

  lemma {:induction false} DenseHeadAlgebra(y: real, c: real, z: real, e: real, p: real)
    requires p == c + y * e
    ensures c * z + (y * z) * e == z * p
  {
  }

  lemma {:induction false} EmptyValues(y: real)
    ensures EvalTerms([], y) == 0.0 && DayWeighted([], y) == 0.0
    ensures Eval([], y) == 0.0 && EvalDerivative([], y) == 0.0
  {
  }

  lemma {:induction false} PowUnfolded(y: real, n: nat)
    ensures Pow(y, n + 1) == y * Pow(y, n)
  {
  }

  lemma {:induction false} DenseValue(ts: seq<Term>, low: nat, y: real)
    requires Ordered(ts) && (ts != [] ==> low <= ts[0].days)
    ensures EvalTerms(ts, y) == Pow(y, low) * Eval(Dense(ts, low), y)
    decreases |ts|, if ts == [] then 0 else ts[0].days - low
  {
    hide EvalTerms, Eval, Pow;
    if ts == [] {
      EmptyValues(y);
    } else {
      var d := Dense(ts, low);
      TermsUnfolded(ts, y);
      EvalUnfolded(d, y);
      PowUnfolded(y, low);
      if ts[0].days == low {
        DenseValue(ts[1..], low + 1, y);
        assert d[1..] == Dense(ts[1..], low + 1);
        DenseHeadAlgebra(y, d[0], Pow(y, low), Eval(d[1..], y), Eval(d, y));
      } else {
        DenseValue(ts, low + 1, y);
        assert d[1..] == Dense(ts, low + 1);
        DenseHeadAlgebra(y, d[0], Pow(y, low), Eval(d[1..], y), Eval(d, y));
      }
    }
  }

  // ---------------------------------------------------------------- normalisation

  function Retained(ts: seq<Term>): (r: seq<Term>)
    ensures |r| <= |ts|
    ensures forall t :: t in r <==> t in ts && t.coefficient != 0.0
  {
    if ts == [] then []
    else if ts[0].coefficient != 0.0 then [ts[0]] + Retained(ts[1..])
    else Retained(ts[1..])
  }

  function MinDays(ts: seq<Term>): (m: nat)
    requires ts != []
    ensures exists t :: t in ts && t.days == m
    ensures forall t :: t in ts ==> m <= t.days
  {
    if |ts| == 1 then ts[0].days
    else var m := MinDays(ts[1..]); if ts[0].days <= m then ts[0].days else m
  }

  function Shifted(ts: seq<Term>, m: nat): (r: seq<Term>)
    requires forall t :: t in ts ==> m <= t.days
    ensures |r| == |ts|
    ensures forall i :: 0 <= i < |ts| ==> r[i] == Term(ts[i].coefficient, ts[i].days - m)
  {
    if ts == [] then [] else [Term(ts[0].coefficient, ts[0].days - m)] + Shifted(ts[1..], m)
  }

  /** Drops zero coefficients and moves the smallest exponent to 0. */
  function Normalized(ts: seq<Term>): seq<Term> {
    var r := Retained(ts);
    if r == [] then [] else Shifted(r, MinDays(r))
  }

  lemma {:induction false} RetainedValue(ts: seq<Term>, y: real)
    ensures EvalTerms(Retained(ts), y) == EvalTerms(ts, y)
  {
    if ts != [] {
      RetainedValue(ts[1..], y);
      if ts[0].coefficient != 0.0 {
        assert Retained(ts)[1..] == Retained(ts[1..]);
      }
    }
  }

  lemma {:induction false} ShiftedValue(ts: seq<Term>, m: nat, y: real)
    requires forall t :: t in ts ==> m <= t.days
    ensures EvalTerms(ts, y) == Pow(y, m) * EvalTerms(Shifted(ts, m), y)
  {
    hide EvalTerms, Pow;
    if ts == [] {
      EmptyValues(y);
    } else {
      var s := Shifted(ts, m);
      TermsUnfolded(ts, y);
      TermsUnfolded(s, y);
      ShiftedValue(ts[1..], m, y);
      assert s[1..] == Shifted(ts[1..], m);
      PowAdd(y, m, s[0].days);
      ShiftAlgebra(s[0].coefficient, Pow(y, m), Pow(y, s[0].days), EvalTerms(s[1..], y), EvalTerms(s, y));
    }
  }

  lemma {:induction false} ShiftAlgebra(c: real, p: real, q: real, e: real, s: real)
    requires s == c * q + e
    ensures c * (p * q) + p * e == p * s
  {
  }

  /** Normalising keeps the roots and the signs of the sum. */
  lemma {:induction false} NormalizedSign(ts: seq<Term>, y: real)
    requires y > 0.0
    ensures Sign(EvalTerms(Normalized(ts), y)) == Sign(EvalTerms(ts, y))
  {
    hide EvalTerms, Pow, Sign;
    var r := Retained(ts);
    RetainedValue(ts, y);
    if r != [] {
      var m := MinDays(r);
      ShiftedValue(r, m, y);
      PowPositive(y, m);
      PositiveFactorKeepsSign(Pow(y, m), EvalTerms(Normalized(ts), y), EvalTerms(ts, y));
    }
  }

  lemma {:induction false} PositiveFactorKeepsSign(a: real, b: real, c: real)
    requires a > 0.0 && c == a * b
    ensures Sign(c) == Sign(b)
  {
  }

  lemma {:induction false} RetainedIdentity(ts: seq<Term>)
    requires forall t :: t in ts ==> t.coefficient != 0.0
    ensures Retained(ts) == ts
  {
    if ts != [] {
      RetainedIdentity(ts[1..]);
      assert ts[0] in ts && ts == [ts[0]] + ts[1..];
    }
  }

  lemma {:induction false} RetainedOrdered(ts: seq<Term>)
    requires Ordered(ts)
    ensures Retained(ts) == ts
  {
    RetainedIdentity(ts);
  }

  lemma {:induction false} NormalizedOrdered(ts: seq<Term>)
    requires Ordered(ts)
    ensures Ordered(Normalized(ts))
    ensures Coefficients(Normalized(ts)) == Coefficients(ts)
    ensures ts != [] ==> Normalized(ts)[0].days == 0
  {
    RetainedOrdered(ts);
    if ts != [] {
      var m := MinDays(ts);
      var t :| t in ts && t.days == m;
      assert ts[0] in ts;
      assert ts[0].days == m;
    }
  }

  // ---------------------------------------------------------------- derivative

  function Differentiated(ts: seq<Term>, daysPerYear: real): (r: seq<Term>)
    requires daysPerYear > 0.0
    ensures |r| == |ts|
    ensures forall i :: 0 <= i < |ts| ==>
              r[i] == Term(-(ts[i].days as real / daysPerYear) * ts[i].coefficient, ts[i].days)
  {
    if ts == [] then []
    else [Term(-(ts[0].days as real / daysPerYear) * ts[0].coefficient, ts[0].days)]
         + Differentiated(ts[1..], daysPerYear)
  }

  /** Terms of the derivative by the log rate x, whose summand is coefficient * exp(-x * days / daysPerYear). */
  function DerivativeTerms(ts: seq<Term>, daysPerYear: real): seq<Term>
    requires daysPerYear > 0.0
  {
    Retained(Differentiated(ts, daysPerYear))
  }

  lemma {:induction false} RetainedDropsZero(ts: seq<Term>, i: nat)
    requires i < |ts| && ts[i].coefficient == 0.0
    ensures |Retained(ts)| < |ts|
  {
    if i > 0 {
      RetainedDropsZero(ts[1..], i - 1);
    }
  }

  predicate HasDayZero(ts: seq<Term>) {
    exists i :: 0 <= i < |ts| && ts[i].days == 0
  }

  lemma {:induction false} NormalizedHasDayZero(ts: seq<Term>)
    ensures |Normalized(ts)| <= |ts|
    ensures Normalized(ts) != [] ==> HasDayZero(Normalized(ts))
  {
    var r, n := Retained(ts), Normalized(ts);
    if r != [] {
      var m := MinDays(r);
      var t :| t in r && t.days == m;
      var i :| 0 <= i < |r| && r[i] == t;
      assert n[i].days == 0;
    }
  }

  /** The term at exponent 0 differentiates to nothing, so the recursion runs on fewer terms. */
  lemma {:induction false} DerivativeLosesTerm(ts: seq<Term>, daysPerYear: real)
    requires daysPerYear > 0.0 && HasDayZero(ts)
    ensures |DerivativeTerms(ts, daysPerYear)| < |ts|
  {
    var i :| 0 <= i < |ts| && ts[i].days == 0;
    DifferentiatedAtZero(ts, daysPerYear, i);
    RetainedDropsZero(Differentiated(ts, daysPerYear), i);
  }

  lemma {:induction false} DifferentiatedAtZero(ts: seq<Term>, daysPerYear: real, i: nat)
    requires daysPerYear > 0.0 && i < |ts| && ts[i].days == 0
    ensures Differentiated(ts, daysPerYear)[i].coefficient == 0.0
  {
    var a := ts[i].days as real / daysPerYear;
    assert a == 0.0;
  }

  /** Sum of days * coefficient * y^days. */
  function DayWeighted(ts: seq<Term>, y: real): real {
    if ts == [] then 0.0
    else ts[0].days as real * (ts[0].coefficient * Pow(y, ts[0].days)) + DayWeighted(ts[1..], y)
  }

  lemma {:induction false} DayWeightedUnfolded(ts: seq<Term>, y: real)
    requires ts != []
    ensures DayWeighted(ts, y)
         == ts[0].days as real * (ts[0].coefficient * Pow(y, ts[0].days)) + DayWeighted(ts[1..], y)
  {
  }

  lemma {:induction false} DifferentiatedValue(ts: seq<Term>, daysPerYear: real, y: real)
    requires daysPerYear > 0.0
    ensures EvalTerms(Differentiated(ts, daysPerYear), y) == -(1.0 / daysPerYear) * DayWeighted(ts, y)
  {
    hide EvalTerms, DayWeighted, Pow;
    if ts == [] {
      EmptyValues(y);
    } else {
      var d := Differentiated(ts, daysPerYear);
      TermsUnfolded(d, y);
      DayWeightedUnfolded(ts, y);
      DifferentiatedValue(ts[1..], daysPerYear, y);
      assert d[1..] == Differentiated(ts[1..], daysPerYear);
      DifferentiationAlgebra(ts[0].days as real, daysPerYear, ts[0].coefficient, Pow(y, ts[0].days),
                             DayWeighted(ts[1..], y), DayWeighted(ts, y));
    }
  }

  lemma {:induction false} DifferentiationAlgebra(n: real, a: real, c: real, p: real, w: real, total: real)
    requires a > 0.0 && total == n * (c * p) + w
    ensures -(n / a) * c * p + (-(1.0 / a) * w) == -(1.0 / a) * total
  {
    var k := 1.0 / a;
    assert n / a == n * k;
    assert -(n * k) * c * p == -(k * (n * (c * p)));
  }

  lemma {:induction false} DayWeightedIsDerivative(ts: seq<Term>, low: nat, y: real)
    requires Ordered(ts) && (ts != [] ==> low <= ts[0].days)
    ensures var d := Dense(ts, low);
            DayWeighted(ts, y) == Pow(y, low) * (low as real * Eval(d, y) + y * EvalDerivative(d, y))
    decreases |ts|, if ts == [] then 0 else ts[0].days - low
  {
    hide DayWeighted, Eval, EvalDerivative, Pow;
    if ts == [] {
      EmptyValues(y);
    } else {
      var d := Dense(ts, low);
      DayWeightedUnfolded(ts, y);
      EvalsUnfolded(d, y);
      PowUnfolded(y, low);
      var head := d[0];
      var e, de := Eval(d[1..], y), EvalDerivative(d[1..], y);
      if ts[0].days == low {
        DayWeightedIsDerivative(ts[1..], low + 1, y);
        assert d[1..] == Dense(ts[1..], low + 1);
      } else {
        DayWeightedIsDerivative(ts, low + 1, y);
        assert d[1..] == Dense(ts, low + 1);
      }
      DayWeightAlgebra(low as real, y, Pow(y, low), head, e, de, Eval(d, y), EvalDerivative(d, y));
    }
  }

  lemma {:induction false} DayWeightAlgebra(n: real, y: real, p: real, c: real, e: real, de: real, v: real, dv: real)
    requires v == c + y * e && dv == e + y * de
    ensures n * (c * p) + (y * p) * ((n + 1.0) * e + y * de) == p * (n * v + y * dv)
  {
    assert y * p == p * y;
    assert p * y * ((n + 1.0) * e + y * de) == p * (y * ((n + 1.0) * e + y * de));
    assert y * ((n + 1.0) * e + y * de) == n * (y * e) + y * (e + y * de);
    assert n * (c * p) == p * (n * c);
    assert n * c + n * (y * e) == n * v;
  }
}
