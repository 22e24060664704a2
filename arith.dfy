/** Facts of real arithmetic that the solver does not find on its own. */
module RealArith {

  /** A quotient times its divisor gives back the dividend. */
  lemma QuotientTimesDivisor(x: real, t: real, y: real)
    requires t != 0.0 && y == x / t
    ensures y * t == x
  {
  }

  /** A product of non-zero factors is non-zero. */
  lemma NonZeroProduct(a: real, b: real)
    requires a != 0.0 && b != 0.0
    ensures a * b != 0.0
  {
  }

  /** A non-zero value divided by a non-zero one is non-zero. */
  lemma NonZeroQuotient(a: real, t: real)
    requires a != 0.0 && t != 0.0
    ensures a / t != 0.0
  {
    var q := a / t;
    QuotientTimesDivisor(a, t, q);
  }

  /** Dividing b (1 - t) by t changes it unless b == 0 or t is 0 or 1. */
  lemma DivisionChanges(b: real, t: real)
    requires b != 0.0 && t != 0.0 && t != 1.0
    ensures b * (1.0 - t) != b * (1.0 - t) / t
  {
    var x := b * (1.0 - t);
    NonZeroProduct(b, 1.0 - t);
    GainOverStake(x, t);
    NonZeroProduct(x, 1.0 - t);
    NonZeroQuotient(x * (1.0 - t), t);
  }

  /** x/t - x == x (1 - t) / t for any non-zero t. */
  lemma GainOverStake(x: real, t: real)
    requires t != 0.0
    ensures x / t - x == x * (1.0 - t) / t
  {
    var y := x / t;
    QuotientTimesDivisor(x, t, y);
    var z := x * (1.0 - t) / t;
    QuotientTimesDivisor(x * (1.0 - t), t, z);
    assert (y - x) * t == x - x * t;
    assert (y - x - z) * t == 0.0;
  }

  /** A product with a positive factor, divided by a positive divisor, is
      positive exactly when the other factor is. */
  lemma QuotientSign(b: real, y: real, t: real)
    requires b > 0.0 && t > 0.0
    ensures b * y / t > 0.0 <==> y > 0.0
  {
    if y > 0.0 {
      assert b * y > 0.0;
    } else {
      assert b * y <= 0.0;
      assert b * y / t <= 0.0;
    }
  }
}
