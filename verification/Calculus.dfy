/** A polynomial whose derivative keeps one sign on an interval is monotone there.

    The argument uses only the ordered-field and Archimedean properties of the reals: a second-order
    remainder bound, summed over ever finer subdivisions of the interval. */
module Calculus {
  import opened RealArithmetic
  import opened Polynomials

  function Abs(x: real): real {
    if x < 0.0 then -x else x
  }

  function Square(h: real): (r: real)
    ensures r >= 0.0
  {
    h * h
  }

  /** First-order error of p when moving from x by h; Taylor below says that it is just that. */
  function Remainder(p: seq<real>, x: real, h: real): real {
    if p == [] then 0.0 else (x + h) * Remainder(p[1..], x, h) + EvalDerivative(p[1..], x) * Square(h)
  }

  lemma {:induction false} ProductBound(x: real, y: real, m: real, n: real)
    requires Abs(x) <= m && Abs(y) <= n
    ensures Abs(x * y) <= m * n
  {
    var u, v := Abs(x), Abs(y);
    MulMonotone(u, m, v);
    MulMonotone(v, n, m);
    assert m * v == v * m && m * n == n * m;
    assert x * y == u * v || x * y == -(u * v);
  }

  lemma {:induction false} AffineBound(e: real, c: real, y: real, a: real, k: real, b: real, m: real)
    requires e == c + y * a
    requires Abs(c) <= k && Abs(y) <= b && Abs(a) <= m
    ensures Abs(e) <= k + b * m
  {
    ProductBound(y, a, b, m);
  }

  lemma {:induction false} SumOfProductsBound(e: real, c: real, y: real, a: real, d: real, s: real, k: real, b: real, m: real, n: real)
    requires e == c + y * a + d * s
    requires Abs(c) <= k && Abs(y) <= b && Abs(a) <= m && Abs(d) <= n && s >= 0.0
    ensures Abs(e) <= k + b * m + n * s
  {
    ProductBound(y, a, b, m);
    ProductBound(d, s, n, s);
  }

  /** Bounds, for all arguments of size at most b, on a polynomial, its derivative and the quadratic
      coefficient of its first-order error. */
  ghost predicate Bounds(p: seq<real>, b: real, v: real, d: real, m: real) {
    && v >= 0.0 && d >= 0.0 && m >= 0.0
    && (forall y :: Abs(y) <= b ==> Abs(Eval(p, y)) <= v)
    && (forall y :: Abs(y) <= b ==> Abs(EvalDerivative(p, y)) <= d)
    && (forall x, h :: Abs(x) <= b && Abs(x + h) <= b ==> Abs(Remainder(p, x, h)) <= m * Square(h))
  }

  lemma {:induction false} RemainderAlgebra(c: real, x: real, y: real, h: real, u: real, v: real, d: real, px: real, py: real, dp: real, e: real, s: real)
    requires y == x + h && v == u + h * d + e && s == Square(h)
    requires px == c + x * u && py == c + y * v && dp == u + x * d
    ensures py == px + h * dp + (y * e + d * s)
  {
  }

  lemma {:induction false} BoundsStepAt(p: seq<real>, y: real, b: real, v: real, d: real)
    requires p != [] && Abs(y) <= b
    requires Abs(Eval(p[1..], y)) <= v && Abs(EvalDerivative(p[1..], y)) <= d
    ensures Abs(Eval(p, y)) <= Abs(p[0]) + b * v && Abs(EvalDerivative(p, y)) <= v + b * d
  {
    hide *;
    var q := p[1..];
    EvalsUnfolded(p, y);
    AffineBound(Eval(p, y), p[0], y, Eval(q, y), Abs(p[0]), b, v);
    AffineBound(EvalDerivative(p, y), Eval(q, y), y, EvalDerivative(q, y), v, b, d);
  }

  lemma {:induction false} RemainderUnfolded(p: seq<real>, x: real, h: real)
    requires p != []
    ensures Remainder(p, x, h) == (x + h) * Remainder(p[1..], x, h) + EvalDerivative(p[1..], x) * Square(h)
  {
  }

  lemma {:induction false} TaylorStep(p: seq<real>, x: real, h: real)
    requires p != []
    requires Eval(p[1..], x + h) == Eval(p[1..], x) + h * EvalDerivative(p[1..], x) + Remainder(p[1..], x, h)
    ensures Eval(p, x + h) == Eval(p, x) + h * EvalDerivative(p, x) + Remainder(p, x, h)
  {
    hide *;
    var q, y := p[1..], x + h;
    EvalsUnfolded(p, x);
    EvalsUnfolded(p, y);
    RemainderUnfolded(p, x, h);
    RemainderAlgebra(p[0], x, y, h, Eval(q, x), Eval(q, y), EvalDerivative(q, x),
                     Eval(p, x), Eval(p, y), EvalDerivative(p, x), Remainder(q, x, h), Square(h));
  }

  lemma {:induction false} Taylor(p: seq<real>, x: real, h: real)
    ensures Eval(p, x + h) == Eval(p, x) + h * EvalDerivative(p, x) + Remainder(p, x, h)
  {
    if p != [] {
      Taylor(p[1..], x, h);
      TaylorStep(p, x, h);
    }
  }

  lemma {:induction false} RemainderStepAt(p: seq<real>, x: real, h: real, b: real, d: real, m: real)
    requires p != [] && Abs(x + h) <= b
    requires Abs(EvalDerivative(p[1..], x)) <= d && Abs(Remainder(p[1..], x, h)) <= m * Square(h)
    ensures Abs(Remainder(p, x, h)) <= (b * m + d) * Square(h)
  {
    hide *;
    RemainderUnfolded(p, x, h);
    ErrorBound(Remainder(p, x, h), x + h, Remainder(p[1..], x, h), EvalDerivative(p[1..], x), Square(h), b, m, d);
  }

  lemma {:induction false} ErrorBound(e: real, y: real, a: real, d: real, s: real, b: real, m: real, n: real)
    requires e == y * a + d * s
    requires Abs(y) <= b && Abs(a) <= m * s && Abs(d) <= n && s >= 0.0
    ensures Abs(e) <= (b * m + n) * s
  {
    SumOfProductsBound(e, 0.0, y, a, d, s, 0.0, b, m * s, n);
    MulAssociative(b, m, s);
  }

  lemma {:induction false} BoundsStep(p: seq<real>, b: real, v: real, d: real, m: real)
    requires b >= 0.0 && p != [] && Bounds(p[1..], b, v, d, m)
    ensures Bounds(p, b, Abs(p[0]) + b * v, v + b * d, b * m + d)
  {
    forall y | Abs(y) <= b
      ensures Abs(Eval(p, y)) <= Abs(p[0]) + b * v && Abs(EvalDerivative(p, y)) <= v + b * d
    {
      BoundsStepAt(p, y, b, v, d);
    }
    forall x, h | Abs(x) <= b && Abs(x + h) <= b
      ensures Abs(Remainder(p, x, h)) <= (b * m + d) * Square(h)
    {
      RemainderStepAt(p, x, h, b, d, m);
    }
  }

  lemma {:induction false} BoundsExist(p: seq<real>, b: real) returns (v: real, d: real, m: real)
    requires b >= 0.0
    ensures Bounds(p, b, v, d, m)
  {
    if p == [] {
      v, d, m := 0.0, 0.0, 0.0;
    } else {
      v, d, m := BoundsExist(p[1..], b);
      BoundsStep(p, b, v, d, m);
      v, d, m := Abs(p[0]) + b * v, v + b * d, b * m + d;
    }
  }

  ghost predicate NonNegativeDerivative(p: seq<real>, lo: real, hi: real) {
    forall y :: lo <= y <= hi ==> EvalDerivative(p, y) >= 0.0
  }

  /** Over a step of length h, p drops by at most a quadratic error. */
  lemma {:induction false} StepDrop(p: seq<real>, lo: real, hi: real, m: real, x: real, h: real)
    requires 0.0 <= lo <= x && x + h <= hi && h > 0.0
    requires NonNegativeDerivative(p, lo, hi)
    requires exists v, d :: Bounds(p, hi, v, d, m)
    ensures Eval(p, x + h) >= Eval(p, x) - m * Square(h)
  {
    Taylor(p, x, h);
    ProductNonNegative(h, EvalDerivative(p, x));
    assert Abs(Remainder(p, x, h)) <= m * Square(h);
  }

  lemma {:induction false} BoundedDrop(p: seq<real>, lo: real, hi: real, m: real, x: real, h: real, n: nat, y: real)
    requires 0.0 <= lo <= x && h > 0.0 && y == x + n as real * h && y <= hi
    requires NonNegativeDerivative(p, lo, hi)
    requires exists v, d :: Bounds(p, hi, v, d, m)
    ensures Eval(p, y) >= Eval(p, x) - n as real * (m * Square(h))
    decreases n
  {
    hide *;
    if n > 0 {
      LastStep((n - 1) as real, h, m * Square(h));
      StepDrop(p, lo, hi, m, x, h);
      BoundedDrop(p, lo, hi, m, x + h, h, n - 1, y);
    }
  }

  lemma {:induction false} LastStep(k: real, h: real, e: real)
    requires k >= 0.0 && h > 0.0
    ensures (k + 1.0) * h == h + k * h && k * h >= 0.0 && (k + 1.0) * e == e + k * e
  {
  }

  lemma {:induction false} SubdivisionError(m: real, h: real, n: real, d: real)
    requires n * h == d
    ensures n * (m * Square(h)) * n == m * (d * d)
  {
    MulInterchange(n, h, n, h);
    var s := h * h;
    assert d * d == n * n * s;
    assert n * (m * s) == m * (n * s);
    assert m * (n * s) * n == m * (n * s * n);
    assert n * s * n == n * n * s;
  }

  /** A drop bounded by m * d^2 / n for every n >= 1 is no drop at all. */
  lemma {:induction false} VanishingDrop(gap: real, m: real, d: real) returns (n: nat, h: real)
    requires gap > 0.0 && d > 0.0 && m >= 0.0
    ensures h > 0.0 && n as real * h == d && n as real * (m * Square(h)) < gap
  {
    var c := m * (d * d);
    assert c >= 0.0;
    n := (c / gap).Floor + 1;
    var k := n as real;
    assert c / gap >= 0.0;
    h := d / k;
    assert k * h == d;
    MulStrictlyMonotone(c / gap, k, gap);
    assert c < k * gap;
    SubdivisionError(m, h, k, d);
    if k * (m * Square(h)) >= gap {
      MulMonotone(gap, k * (m * Square(h)), k);
    }
  }

  lemma {:induction false} NonDecreasing(p: seq<real>, lo: real, hi: real)
    requires 0.0 <= lo <= hi && NonNegativeDerivative(p, lo, hi)
    ensures Eval(p, lo) <= Eval(p, hi)
  {
    hide *;
    var gap := Eval(p, lo) - Eval(p, hi);
    if gap > 0.0 && lo != hi {
      var v, d, m := BoundsExist(p, hi);
      BoundsNonNegative(p, hi, v, d, m);
      var n, h := VanishingDrop(gap, m, hi - lo);
      BoundedDrop(p, lo, hi, m, lo, h, n, hi);
    }
  }

  lemma {:induction false} BoundsNonNegative(p: seq<real>, b: real, v: real, d: real, m: real)
    requires Bounds(p, b, v, d, m)
    ensures m >= 0.0
  {
  }

  function Negated(p: seq<real>): seq<real> {
    if p == [] then [] else [-p[0]] + Negated(p[1..])
  }

  lemma {:induction false} NegatedValues(p: seq<real>, y: real)
    ensures Eval(Negated(p), y) == -Eval(p, y)
    ensures EvalDerivative(Negated(p), y) == -EvalDerivative(p, y)
  {
    if p != [] {
      NegatedValues(p[1..], y);
      assert Negated(p)[1..] == Negated(p[1..]);
    }
  }

  ghost predicate DerivativeKeepsSign(p: seq<real>, lo: real, hi: real) {
    || (forall y :: lo <= y <= hi ==> EvalDerivative(p, y) >= 0.0)
    || (forall y :: lo <= y <= hi ==> EvalDerivative(p, y) <= 0.0)
  }

  ghost predicate Monotone(p: seq<real>, lo: real, hi: real) {
    || (forall x, y :: lo <= x <= y <= hi ==> Eval(p, x) <= Eval(p, y))
    || (forall x, y :: lo <= x <= y <= hi ==> Eval(p, y) <= Eval(p, x))
  }

  /** One sign of the derivative on an interval makes the polynomial monotone on it. */
  lemma {:induction false} MonotoneFromDerivativeSign(p: seq<real>, lo: real, hi: real)
    requires 0.0 <= lo && DerivativeKeepsSign(p, lo, hi)
    ensures Monotone(p, lo, hi)
  {
    if forall y :: lo <= y <= hi ==> EvalDerivative(p, y) >= 0.0 {
      forall x, y | lo <= x <= y <= hi ensures Eval(p, x) <= Eval(p, y) {
        NonDecreasing(p, x, y);
      }
    } else {
      var q := Negated(p);
      forall y ensures Eval(q, y) == -Eval(p, y) && EvalDerivative(q, y) == -EvalDerivative(p, y) {
        NegatedValues(p, y);
      }
      forall x, y | lo <= x <= y <= hi ensures Eval(p, y) <= Eval(p, x) {
        NonDecreasing(q, x, y);
      }
    }
  }
}
