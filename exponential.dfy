/** The exponential function `math.exp` is library code outside this model, so
    every member that discounts takes it as a parameter `exp`. `IsExp` states
    the four laws of the real exponential that the proofs rely on. */
module Exponential {

  /** A named sum and a named comparison, so that the addition law and the
      monotonicity law fire only where a proof asks for them. */
  ghost function Sum(a: real, b: real): real { a + b }

  ghost predicate Below(a: real, b: real) { a < b }

  ghost predicate IsExp(exp: real -> real) {
    && (forall x :: exp(x) > 0.0)
    && exp(0.0) == 1.0
    && (forall a, b :: exp(Sum(a, b)) == exp(a) * exp(b))
    && (forall a, b {:trigger Below(a, b)} :: Below(a, b) ==> exp(a) < exp(b))
  }

  lemma Positive(exp: real -> real, x: real)
    requires IsExp(exp)
    ensures exp(x) > 0.0
  {
  }

  lemma AddLaw(exp: real -> real, a: real, b: real)
    requires IsExp(exp)
    ensures exp(a + b) == exp(a) * exp(b)
  {
    assert Sum(a, b) == a + b;
  }

  lemma SumLaw(exp: real -> real, x: real, a: real, b: real)
    requires IsExp(exp) && x == a + b
    ensures exp(x) == exp(a) * exp(b)
  {
    AddLaw(exp, a, b);
  }

  lemma Increasing(exp: real -> real, a: real, b: real)
    requires IsExp(exp) && a < b
    ensures exp(a) < exp(b)
  {
    assert Below(a, b);
  }

  /** The continuously-compounded discount factor exp(-rate * t). */
  function Discount(exp: real -> real, rate: real, t: real): real {
    exp(-rate * t)
  }

  lemma DiscountPositive(exp: real -> real, rate: real, t: real)
    requires IsExp(exp)
    ensures Discount(exp, rate, t) > 0.0
  {
  }

  /** Adding two rates multiplies their discount factors. */
  lemma DiscountAdd(exp: real -> real, r: real, s: real, t: real)
    requires IsExp(exp)
    ensures Discount(exp, r + s, t) == Discount(exp, r, t) * Discount(exp, s, t)
  {
    SumLaw(exp, -(r + s) * t, -r * t, -s * t);
  }

  /** A non-negative rate over a non-negative time discounts by at most one. */
  lemma DiscountAtMostOne(exp: real -> real, rate: real, t: real)
    requires IsExp(exp) && rate >= 0.0 && t >= 0.0
    ensures Discount(exp, rate, t) <= 1.0
  {
    assert -rate * t <= 0.0;
    if -rate * t < 0.0 {
      Increasing(exp, -rate * t, 0.0);
    }
  }

  /** A positive rate over a positive time discounts by less than one. */
  lemma DiscountBelowOne(exp: real -> real, rate: real, t: real)
    requires IsExp(exp) && rate > 0.0 && t > 0.0
    ensures Discount(exp, rate, t) < 1.0
  {
    assert -rate * t < 0.0;
    Increasing(exp, -rate * t, 0.0);
  }

  /** exp(-x) is the reciprocal of exp(x). */
  lemma Reciprocal(exp: real -> real, x: real)
    requires IsExp(exp)
    ensures exp(-x) * exp(x) == 1.0
  {
    AddLaw(exp, -x, x);
    assert -x + x == 0.0;
  }
}
