/** Division and multiplication facts used by the size arithmetic. */
module Arithmetic {

  lemma MulMonotone(a: int, b: int, s: int)
    requires a <= b && 0 <= s
    ensures a * s <= b * s
  {
    assert 0 <= (b - a) * s;
    assert (b - a) * s == b * s - a * s;
  }

  lemma QuotientBounds(x: int, s: int)
    requires 0 < s
    ensures x / s * s <= x < x / s * s + s
  {
  }

  /** The quotient is the only integer whose multiple reaches but does not pass x. */
  lemma QuotientIs(x: int, s: int, q: int)
    requires 0 < s && q * s <= x < q * s + s
    ensures x / s == q
  {
    var r := x / s;
    QuotientBounds(x, s);
    assert (q + 1) * s == q * s + s && (r + 1) * s == r * s + s;
    if r < q {
      MulMonotone(r + 1, q, s);
    } else if q < r {
      MulMonotone(q + 1, r, s);
    }
  }

  lemma DivideMore(x: int, s: int, y: int)
    requires 0 < s && x + s <= y
    ensures x / s < y / s
  {
    QuotientBounds(x, s);
    QuotientBounds(y, s);
    if y / s <= x / s {
      MulMonotone(y / s, x / s, s);
    }
  }

  lemma DivideAtMost(x: int, s: int, n: int)
    requires 0 < s && x <= s * n
    ensures x / s <= n
  {
    QuotientBounds(x, s);
    assert (n + 1) * s == s * n + s;
    if n < x / s {
      MulMonotone(n + 1, x / s, s);
    }
  }

  lemma ScaledInside(c: int, n: int, s: int)
    requires 0 <= c < n && 0 < s
    ensures 0 <= c * s / n < s
  {
    var x := c * s;
    MulMonotone(0, c, s);
    MulMonotone(c + 1, n, s);
    assert (c + 1) * s == x + s;
    QuotientBounds(x, n);
    var q := x / n;
    assert (q + 1) * n == q * n + n;
    if s <= q {
      MulMonotone(s, q, n);
    } else if q < 0 {
      MulMonotone(q + 1, 0, n);
    }
  }

  /** Each of `s` strides of `n` elements holds at least one index. */
  lemma StrideNonEmpty(j: int, n: int, s: int)
    requires 0 < s <= n && 0 <= j < s
    ensures 0 <= j * n / s < (j + 1) * n / s <= n
  {
    var x, y := j * n, (j + 1) * n;
    MulMonotone(0, j, n);
    assert y == x + n;
    DivideMore(x, s, y);
    MulMonotone(j + 1, s, n);
    DivideAtMost(y, s, n);
    QuotientBounds(x, s);
    var q := x / s;
    assert (q + 1) * s == q * s + s;
    if q < 0 {
      MulMonotone(q + 1, 0, s);
    }
  }
}
