/** A model of the laws under which the XIRR theorems hold. */
module RateLaws {
  import opened Xirr

  /** A decreasing bijection of the line onto the positive numbers, and its inverse. */
  function Discount(x: real): real { if x <= 0.0 then 1.0 - x else 1.0 / (1.0 + x) }

  function DiscountInverse(d: real): real { if d > 0.0 then (if d >= 1.0 then 1.0 - d else 1.0 / d - 1.0) else 0.0 }

  lemma {:induction false} InverseLaws(x: real)
    ensures Discount(x) > 0.0 && DiscountInverse(Discount(x)) == x
    ensures x > 0.0 ==> Discount(DiscountInverse(x)) == x
  {
    if x > 0.0 {
      var r := 1.0 / (1.0 + x);
      assert r * (1.0 + x) == 1.0;
      assert 1.0 / r == 1.0 + x;
      if x < 1.0 {
        var y := 1.0 / x;
        assert y > 1.0 && 1.0 / y == x;
      }
    }
  }

  lemma {:induction false} Decreasing(x: real, y: real)
    requires x < y
    ensures Discount(y) < Discount(x)
  {
    if x > 0.0 {
      ReciprocalOrder(1.0 + x, 1.0 + y);
    }
    if x <= 0.0 < y {
      assert 1.0 / (1.0 + y) < 1.0;
    }
  }

  lemma {:induction false} DifferenceOfReciprocals(a: real, b: real, p: real, q: real)
    requires p * a == 1.0 && q * b == 1.0
    ensures (b - a) * (p * q) == p - q
  {
    assert b * (p * q) == p * (q * b) && a * (p * q) == (p * a) * q;
  }

  lemma {:induction false} ReciprocalOrder(a: real, b: real)
    requires 0.0 < a < b
    ensures 1.0 / b < 1.0 / a
  {
    var p, q := 1.0 / a, 1.0 / b;
    assert p * a == 1.0 && q * b == 1.0;
    DifferenceOfReciprocals(a, b, p, q);
    assert p > 0.0 && q > 0.0;
    assert (b - a) * (p * q) > 0.0;
  }

  function Inverted(d: real): real { if d != 0.0 then 1.0 / d else 0.0 }

  function RateOf(x: real): real { Inverted(Discount(x)) - 1.0 }

  function LogRate(r: real): real { DiscountInverse(Inverted(1.0 + r)) }

  function RateDiscount(r: real): real { Inverted(1.0 + r) }

  lemma {:induction false} InvertedTwice(d: real)
    requires d > 0.0
    ensures Inverted(d) > 0.0 && Inverted(Inverted(d)) == d
  {
    var r := 1.0 / d;
    assert r * d == 1.0;
    assert 1.0 / r == d;
  }

  lemma {:induction false} RateLaws(x: real)
    ensures RateOf(x) > -1.0 && LogRate(RateOf(x)) == x && RateDiscount(RateOf(x)) == Discount(x)
    ensures x > -1.0 ==> RateOf(LogRate(x)) == x
  {
    hide Inverted, Discount, DiscountInverse;
    InverseLaws(x);
    InvertedTwice(Discount(x));
    if x > -1.0 {
      InvertedTwice(1.0 + x);
      InverseLaws(Inverted(1.0 + x));
    }
  }

  lemma {:induction false} LogRateIncreases(r: real, s: real)
    requires -1.0 < r < s
    ensures LogRate(r) < LogRate(s)
  {
    hide Discount, DiscountInverse, RateOf;
    ReciprocalOrder(1.0 + r, 1.0 + s);
    var x, y := LogRate(r), LogRate(s);
    InvertedTwice(1.0 + r);
    InvertedTwice(1.0 + s);
    InverseLaws(Inverted(1.0 + r));
    InverseLaws(Inverted(1.0 + s));
    if y < x {
      Decreasing(y, x);
    }
  }

  /** The laws assumed of the exponential and logarithmic maps do not contradict each other. */
  lemma {:induction false} LawfulMapsExist() returns (m: RateMaps)
    ensures Lawful(m)
  {
    hide Discount, DiscountInverse, RateOf, LogRate, RateDiscount;
    m := RateMaps(Discount, DiscountInverse, RateOf, LogRate, RateDiscount);
    forall x ensures DiscountPositiveAt(m, x) && DiscountInverseAt(m, x) {
      InverseLaws(x);
    }
    forall x, y ensures DiscountDropsAt(m, x, y) {
      if x < y {
        Decreasing(x, y);
      }
    }
    forall r, s ensures LogGrowsAt(m, r, s) {
      if -1.0 < r < s {
        LogRateIncreases(r, s);
      }
    }
    forall x ensures LogInverseAt(m, x) && DiscountOfRateAt(m, x) && RateInverseAt(m, x) {
      RateLaws(x);
    }
  }
}
