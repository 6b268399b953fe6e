/** Real polynomials and Descartes' rule of signs.

    With y the discount factor of one day, the present value of dated flows is a polynomial in y
    whose coefficients are the flows. This module holds the algebra the XIRR solver relies on:
    synthetic division, the sign-change count and the bound it puts on the positive roots. */
module Polynomials {
  import opened RealArithmetic

  function Pow(x: real, n: nat): real {
    if n == 0 then 1.0 else x * Pow(x, n - 1)
  }

  lemma {:induction false} PowPositive(x: real, n: nat)
    requires x > 0.0
    ensures Pow(x, n) > 0.0
  {
    if n > 0 {
      PowPositive(x, n - 1);
    }
  }

  lemma {:induction false} PowAdd(x: real, m: nat, n: nat)
    ensures Pow(x, m + n) == Pow(x, m) * Pow(x, n)
  {
    if m > 0 {
      PowAdd(x, m - 1, n);
      MulAssociative(x, Pow(x, m - 1), Pow(x, n));
    }
  }

  lemma {:induction false} PowProduct(x: real, y: real, n: nat)
    ensures Pow(x * y, n) == Pow(x, n) * Pow(y, n)
  {
    if n > 0 {
      PowProduct(x, y, n - 1);
      MulInterchange(x, y, Pow(x, n - 1), Pow(y, n - 1));
    }
  }

  /** Powers of a factor above one grow strictly with the exponent. */
  lemma {:induction false} PowIncreasesWithExponent(t: real, m: nat, n: nat)
    requires t > 1.0 && m < n
    ensures Pow(t, m) < Pow(t, n)
  {
    PowPositive(t, n - 1);
    MulStrictlyMonotone(1.0, t, Pow(t, n - 1));
    if m < n - 1 {
      PowIncreasesWithExponent(t, m, n - 1);
    }
  }

  /** The polynomial with coefficient p[i] at degree i. */
  function Eval(p: seq<real>, y: real): real {
    if p == [] then 0.0 else p[0] + y * Eval(p[1..], y)
  }

  /** Synthetic division of p by (y - r): the remainder is Eval(p, r). */
  function Quotient(p: seq<real>, r: real): (q: seq<real>)
    ensures |q| == if p == [] then 0 else |p| - 1
  {
    if |p| <= 1 then [] else [Eval(p[1..], r)] + Quotient(p[1..], r)
  }

  lemma {:induction false} EvalUnfolded(p: seq<real>, y: real)
    requires p != []
    ensures Eval(p, y) == p[0] + y * Eval(p[1..], y)
  {
  }

  lemma {:induction false} QuotientUnfolded(p: seq<real>, r: real, y: real)
    requires p != []
    ensures Eval(Quotient(p, r), y) == Eval(p[1..], r) + y * Eval(Quotient(p[1..], r), y)
  {
    if |p| == 1 {
      assert p[1..] == [];
    } else {
      assert Quotient(p, r)[1..] == Quotient(p[1..], r);
    }
  }

  lemma {:induction false} DivisionAlgebra(c: real, y: real, r: real, a: real, b: real, e: real, py: real, pr: real, q: real)
    requires a == b + (y - r) * e
    requires py == c + y * a && pr == c + r * b && q == b + y * e
    ensures py == pr + (y - r) * q
  {
    assert (y - r) * (y * e) == y * ((y - r) * e);
  }

  lemma {:induction false} DivisionStep(p: seq<real>, r: real, y: real)
    requires p != []
    requires Eval(p[1..], y) == Eval(p[1..], r) + (y - r) * Eval(Quotient(p[1..], r), y)
    ensures Eval(p, y) == Eval(p, r) + (y - r) * Eval(Quotient(p, r), y)
  {
    hide *;
    EvalUnfolded(p, y);
    EvalUnfolded(p, r);
    QuotientUnfolded(p, r, y);
    DivisionAlgebra(p[0], y, r, Eval(p[1..], y), Eval(p[1..], r), Eval(Quotient(p[1..], r), y),
                    Eval(p, y), Eval(p, r), Eval(Quotient(p, r), y));
  }

  lemma {:induction false} DivisionIdentity(p: seq<real>, r: real, y: real)
    ensures Eval(p, y) == Eval(p, r) + (y - r) * Eval(Quotient(p, r), y)
  {
    if p != [] {
      DivisionIdentity(p[1..], r, y);
      DivisionStep(p, r, y);
    }
  }

  function Sign(x: real): int {
    if x > 0.0 then 1 else if x < 0.0 then -1 else 0
  }

  /** Sign of the lowest-degree nonzero coefficient, 0 for the zero polynomial. */
  function LeadSign(p: seq<real>): int {
    if p == [] then 0 else if p[0] != 0.0 then Sign(p[0]) else LeadSign(p[1..])
  }

  /** 1 when two nonzero signs differ. */
  function Flip(a: int, b: int): nat {
    if a != 0 && b != 0 && a != b then 1 else 0
  }

  /** Sign changes between successive nonzero coefficients. */
  function SignChanges(p: seq<real>): nat {
    if p == [] then 0 else SignChanges(p[1..]) + Flip(Sign(p[0]), LeadSign(p[1..]))
  }

  /** Remainder and quotient of the division, as one coefficient list. */
  function Horner(p: seq<real>, r: real): seq<real> {
    if p == [] then [] else [Eval(p, r)] + Horner(p[1..], r)
  }

  lemma {:induction false} HornerIsRemainderAndQuotient(p: seq<real>, r: real)
    requires p != []
    ensures Horner(p, r) == [Eval(p, r)] + Quotient(p, r)
  {
    if |p| > 1 {
      HornerIsRemainderAndQuotient(p[1..], r);
    } else {
      assert p[1..] == [];
    }
  }

  /** Core of Descartes' argument: the coefficients lose at least as many sign changes as the Horner
      values, one more when the lowest signs disagree, and they do disagree at a root. */
  lemma {:induction false} HornerLosesSignChanges(p: seq<real>, r: real)
    requires r > 0.0
    ensures var h := Horner(p, r);
            && SignChanges(p) >= SignChanges(h) + Flip(LeadSign(h), LeadSign(p))
            && (LeadSign(h) == 0 <==> LeadSign(p) == 0)
            && (p != [] && LeadSign(p) != 0 && Eval(p, r) == 0.0 ==> LeadSign(h) != LeadSign(p))
  {
    if p != [] {
      var rest := p[1..];
      HornerLosesSignChanges(rest, r);
      var h := Horner(p, r);
      assert h[1..] == Horner(rest, r);
      var s := Eval(rest, r);
      assert Eval(p, r) == p[0] + r * s;
      assert (s > 0.0 ==> r * s > 0.0) && (s < 0.0 ==> r * s < 0.0);
      assert s != 0.0 ==> rest != [] && LeadSign(Horner(rest, r)) == Sign(s);
    }
  }

  /** Dividing out a positive root removes at least one sign change. */
  lemma {:induction false} RootRemovesSignChange(p: seq<real>, r: real)
    requires LeadSign(p) != 0 && r > 0.0 && Eval(p, r) == 0.0
    ensures LeadSign(Quotient(p, r)) != 0
    ensures SignChanges(p) >= SignChanges(Quotient(p, r)) + 1
  {
    HornerLosesSignChanges(p, r);
    HornerIsRemainderAndQuotient(p, r);
    assert Horner(p, r)[1..] == Quotient(p, r);
  }

  predicate DistinctPositiveRoots(p: seq<real>, roots: seq<real>) {
    && (forall i :: 0 <= i < |roots| ==> roots[i] > 0.0 && Eval(p, roots[i]) == 0.0)
    && (forall i, j :: 0 <= i < j < |roots| ==> roots[i] != roots[j])
  }

  /** Descartes' rule of signs. */
  lemma {:induction false} DescartesRule(p: seq<real>, roots: seq<real>)
    requires LeadSign(p) != 0
    requires DistinctPositiveRoots(p, roots)
    ensures |roots| <= SignChanges(p)
    decreases |roots|
  {
    if roots != [] {
      var r, rest := roots[0], roots[1..];
      var q := Quotient(p, r);
      RootRemovesSignChange(p, r);
      forall i | 0 <= i < |rest| ensures Eval(q, rest[i]) == 0.0 {
        DivisionIdentity(p, r, rest[i]);
        assert rest[i] == roots[i + 1];
      }
      DescartesRule(q, rest);
    }
  }

  /** Value of the formal derivative, by the product rule on p[0] + y * p[1..]. */
  function EvalDerivative(p: seq<real>, y: real): real {
    if p == [] then 0.0 else Eval(p[1..], y) + y * EvalDerivative(p[1..], y)
  }

  lemma {:induction false} EvalsUnfolded(p: seq<real>, y: real)
    requires p != []
    ensures Eval(p, y) == p[0] + y * Eval(p[1..], y)
    ensures EvalDerivative(p, y) == Eval(p[1..], y) + y * EvalDerivative(p[1..], y)
  {
  }

  /** At its own divisor, the quotient takes the value of the derivative. */
  lemma {:induction false} QuotientAtDivisorIsDerivative(p: seq<real>, r: real)
    ensures Eval(Quotient(p, r), r) == EvalDerivative(p, r)
  {
    if |p| > 1 {
      QuotientAtDivisorIsDerivative(p[1..], r);
      assert Quotient(p, r)[1..] == Quotient(p[1..], r);
    } else if |p| == 1 {
      assert p[1..] == [];
    }
  }

  /** A polynomial with at most one sign change has at most one positive root, and that root is simple. */
  lemma {:induction false} AtMostOneSignChange(p: seq<real>, r: real)
    requires LeadSign(p) != 0 && SignChanges(p) <= 1
    requires r > 0.0 && Eval(p, r) == 0.0
    ensures EvalDerivative(p, r) != 0.0
    ensures forall z :: z > 0.0 && Eval(p, z) == 0.0 ==> z == r
  {
    var q := Quotient(p, r);
    RootRemovesSignChange(p, r);
    QuotientAtDivisorIsDerivative(p, r);
    if Eval(q, r) == 0.0 {
      DescartesRule(q, [r]);
    }
    forall z | z > 0.0 && Eval(p, z) == 0.0 ensures z == r {
      if z != r {
        DescartesRule(p, [r, z]);
      }
    }
  }
}
