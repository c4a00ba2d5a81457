/** Facts about division that the models share. */
module Arith {

  lemma MulAtLeast(k: int, d: int)
    requires k >= 1 && d > 0
    ensures k * d >= d
  {
    assert (k - 1) * d >= 0;
  }

  /** Quotient and remainder are unique. */
  lemma Quotient(x: int, d: int, q: int, r: int)
    requires d > 0 && 0 <= r < d && x == d * q + r
    ensures x / d == q && x % d == r
  {
    var k := q - x / d;
    assert k * d == x % d - r by {
      assert d * q - d * (x / d) == k * d;
    }
    if k >= 1 {
      MulAtLeast(k, d);
    } else if k <= -1 {
      MulAtLeast(-k, d);
    }
  }

  lemma Multiple(k: int, d: int)
    requires d > 0
    ensures (k * d) % d == 0
  {
    Quotient(k * d, d, k, 0);
  }

  /** Numbers closer than n apart have different remainders. */
  lemma DifferentRemainders(i: int, j: int, n: int)
    requires i < j < i + n
    ensures i % n != j % n
  {
    var k := j / n - i / n;
    assert i % n == j % n ==> j - i == k * n by {
      assert n * (j / n) - n * (i / n) == k * n;
    }
    if k >= 1 {
      MulAtLeast(k, n);
    } else if k <= -1 {
      MulAtLeast(-k, n);
    }
  }
}
