/** Products and quotients, one step at a time. */
module Arithmetic {

  lemma Step(n: int, d: int)
    ensures (n + 1) * d == n * d + d
  {
  }

  lemma NonnegativeProduct(n: int, d: int)
    requires 0 <= n && 0 <= d
    ensures 0 <= n * d
  {
  }

  lemma Grows(low: int, high: int, d: int)
    requires low <= high && 0 <= d
    ensures low * d <= high * d
  {
    NonnegativeProduct(high - low, d);
    assert low * d + (high - low) * d == high * d;
  }

  lemma LessByFactor(m: int, n: int, d: int)
    requires 0 <= d && m * d < n * d
    ensures m < n
  {
    if n <= m {
      Grows(n, m, d);
    }
  }

  lemma Divide(x: int, d: int)
    requires 0 < d
    ensures x == (x / d) * d + x % d && 0 <= x % d < d
  {
  }

  lemma QuotientBound(n: int, d: int, x: int)
    requires 0 < d && n * d <= x
    ensures n <= x / d
  {
    Divide(x, d);
    Step(x / d, d);
    LessByFactor(n, x / d + 1, d);
  }
}
