/** Small facts of non-linear integer arithmetic that the solver needs spelled out. */
module Arith {

  lemma MulNonneg(a: int, b: int)
    requires 0 <= a && 0 <= b
    ensures 0 <= a * b
  {
  }

  lemma MulMonotone(a: int, b: int, c: int)
    requires a <= b && 0 <= c
    ensures a * c <= b * c
  {
    MulNonneg(b - a, c);
    assert (b - a) * c == b * c - a * c;
  }

  lemma SquareNonneg(d: int)
    ensures 0 <= d * d
  {
    var e := if d >= 0 then d else -d;
    assert d * d == e * e;
    MulNonneg(e, e);
  }

  lemma SquarePositive(d: int)
    requires d != 0
    ensures 1 <= d * d
  {
    var e := if d >= 0 then d else -d;
    assert d * d == e * e;
    MulMonotone(1, e, e);
  }

  lemma SquareAtMost(d: int, m: int)
    requires 0 <= m && -m <= d <= m
    ensures d * d <= m * m
  {
    var e := if d >= 0 then d else -d;
    assert d * d == e * e;
    MulMonotone(e, m, e);
    MulMonotone(e, m, m);
  }

  lemma SquareOfNegation(d: int)
    ensures d * d == (-d) * (-d)
  {
  }

  lemma DivNonneg(p: int, n: int)
    requires 0 <= p && 1 <= n
    ensures 0 <= p / n
  {
  }

  /** The only multiple of a positive `n` strictly between -n and n is zero. */
  lemma SmallMultiple(k: int, n: int)
    requires 1 <= n && -n < k * n < n
    ensures k == 0
  {
    if k >= 1 {
      MulMonotone(1, k, n);
    } else if k <= -1 {
      assert (-k) * n == -(k * n);
      MulMonotone(1, -k, n);
    }
  }

  /** Euclidean division by a positive divisor determines its quotient. */
  lemma DivUnique(p: int, n: int, q: int)
    requires 1 <= n
    requires q * n <= p < q * n + n
    ensures p / n == q
    ensures p % n == p - q * n
  {
    var q', r' := p / n, p % n;
    assert p == q' * n + r' && 0 <= r' < n;
    assert (q' - q) * n == q' * n - q * n;
    SmallMultiple(q' - q, n);
  }
}
