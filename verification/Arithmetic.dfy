/** Integer division facts used by the schedule, the quantiles and the sampler. */
module Arithmetic {

  lemma Times(a: int, b: int, unit: int)
    requires a <= b && unit > 0
    ensures a * unit <= b * unit
  {
  }

  lemma QuotientIsClose(x: int, d: int)
    requires d > 0
    ensures (x / d) * d <= x < (x / d + 1) * d
  {
    assert x == (x / d) * d + x % d;
  }

  lemma QuotientIsMonotone(x: int, y: int, d: int)
    requires d > 0 && x <= y
    ensures x / d <= y / d
  {
    QuotientIsClose(x, d);
    QuotientIsClose(y, d);
    if x / d > y / d {
      Times(y / d + 1, x / d, d);
    }
  }

  /** A quotient is below an integer exactly when the dividend is below its multiple. */
  lemma FloorBelow(x: int, d: int, t: int)
    requires d > 0
    ensures x / d < t <==> x < t * d
  {
    QuotientIsClose(x, d);
    if x / d < t {
      Times(x / d + 1, t, d);
    } else {
      Times(t, x / d, d);
    }
  }

  function CeilDiv(y: int, n: int): (c: int)
    requires n > 0
  {
    (y + n - 1) / n
  }

  /** The ceiling is the number of multiples, from zero on, that are below. */
  lemma CeilAbove(i: int, y: int, n: int)
    requires n > 0
    ensures i < CeilDiv(y, n) <==> i * n < y
  {
    FloorBelow(y + n - 1, n, i + 1);
    assert (i + 1) * n == i * n + n;
  }

  lemma CeilOfMultiple(k: int, n: int)
    requires n > 0
    ensures CeilDiv(k * n, n) == k
  {
    CeilAbove(k, k * n, n);
    CeilAbove(k - 1, k * n, n);
    assert (k - 1) * n == k * n - n;
  }
}
