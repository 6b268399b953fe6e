/** How far a polynomial moves over an interval on which its slope is small. */
module SmallSlopes {
  import opened RealArithmetic
  import opened Polynomials
  import opened Calculus

  /** p plus d * y. */
  function Tilted(p: seq<real>, d: real): seq<real> {
    if p == [] then [0.0, d] else if |p| == 1 then [p[0], d] else [p[0], p[1] + d] + p[2..]
  }

  lemma {:induction false} TiltedValues(p: seq<real>, d: real, y: real)
    ensures Eval(Tilted(p, d), y) == Eval(p, y) + d * y
    ensures EvalDerivative(Tilted(p, d), y) == EvalDerivative(p, y) + d
  {
  }

  ghost predicate SlopeAtMost(p: seq<real>, lo: real, hi: real, d: real) {
    forall y :: lo <= y <= hi ==> Abs(EvalDerivative(p, y)) <= d
  }

  lemma {:induction false} SlopeDrop(p: seq<real>, lo: real, hi: real, d: real)
    requires 0.0 <= lo <= hi && SlopeAtMost(p, lo, hi, d)
    ensures Eval(p, lo) - Eval(p, hi) <= d * (hi - lo)
  {
    hide Eval, EvalDerivative, Tilted;
    var t := Tilted(p, d);
    forall y | lo <= y <= hi ensures EvalDerivative(t, y) >= 0.0 {
      TiltedValues(p, d, y);
    }
    NonDecreasing(t, lo, hi);
    TiltedValues(p, d, lo);
    TiltedValues(p, d, hi);
  }

  /** A polynomial whose slope is at most d on an interval moves by at most d times its width. */
  lemma {:induction false} SmallSlopeBound(p: seq<real>, lo: real, hi: real, d: real)
    requires 0.0 <= lo <= hi && SlopeAtMost(p, lo, hi, d)
    ensures Abs(Eval(p, lo) - Eval(p, hi)) <= d * (hi - lo)
  {
    hide Eval, EvalDerivative, Negated;
    SlopeDrop(p, lo, hi, d);
    forall y ensures Eval(Negated(p), y) == -Eval(p, y) && EvalDerivative(Negated(p), y) == -EvalDerivative(p, y) {
      NegatedValues(p, y);
    }
    SlopeDrop(Negated(p), lo, hi, d);
  }
}
