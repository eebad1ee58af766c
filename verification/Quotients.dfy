// Dividing real numbers by a positive one keeps the order. The facts about products that this needs are
// stated one by one, because the solver's treatment of nonlinear arithmetic is not to be relied on for more
// than one product at a time; the bootstrap's means and the report's mean distance use them.
module Quotients {
  lemma PositiveProduct(x: real, y: real)
    requires x > 0.0 && y > 0.0
    ensures x * y > 0.0
  {
  }

  lemma Distributes(x: real, y: real, n: real)
    ensures (x - y) * n == x * n - y * n
  {
  }

  // Dividing by a positive number keeps the order.
  lemma QuotientAtLeast(x: real, sum: real, n: real)
    requires n > 0.0 && x * n <= sum
    ensures x <= sum / n
  {
    var quotient := sum / n;
    assert quotient * n == sum;
    if quotient < x {
      PositiveProduct(x - quotient, n);
      Distributes(x, quotient, n);
    }
  }

  lemma QuotientAtMost(x: real, sum: real, n: real)
    requires n > 0.0 && sum <= x * n
    ensures sum / n <= x
  {
    var quotient := sum / n;
    assert quotient * n == sum;
    if x < quotient {
      PositiveProduct(quotient - x, n);
      Distributes(quotient, x, n);
    }
  }
}
