/** Nonlinear facts about real numbers, stated over plain variables so that the proofs that use them
    stay small. */
module RealArithmetic {

  lemma {:induction false} MulAssociative(a: real, b: real, c: real)
    ensures a * (b * c) == (a * b) * c
  {
  }

  lemma {:induction false} MulInterchange(a: real, b: real, c: real, d: real)
    ensures (a * b) * (c * d) == (a * c) * (b * d)
  {
  }

  lemma {:induction false} MulStrictlyMonotone(a: real, b: real, c: real)
    requires a < b && c > 0.0
    ensures a * c < b * c
  {
  }

  lemma {:induction false} MulMonotone(a: real, b: real, c: real)
    requires a <= b && c >= 0.0
    ensures a * c <= b * c
  {
  }

  lemma {:induction false} ProductNonNegative(a: real, b: real)
    requires a >= 0.0 && b >= 0.0
    ensures a * b >= 0.0
  {
  }

  predicate Opposite(a: real, b: real) {
    a < 0.0 < b || b < 0.0 < a
  }

  predicate SameSide(a: real, b: real) {
    (a < 0.0 && b < 0.0) || (a > 0.0 && b > 0.0)
  }

  lemma {:induction false} ProductSign(a: real, b: real)
    ensures a * b < 0.0 <==> Opposite(a, b)
    ensures a * b > 0.0 <==> SameSide(a, b)
  {
  }
}
