/** Facts about Euclidean division by a positive divisor, used for row-major seat indexing. */
module Arithmetic {

  /** Euclidean division is determined by quotient and remainder. */
  lemma DivModUnique(k: int, m: int, q: int, r: int)
    requires m > 0 && 0 <= r < m && k == q * m + r
    ensures k / m == q && k % m == r
  {
    var q', r' := k / m, k % m;
    if q' != q {
      MulGap(q', q, m);
      assert false;
    }
  }

  lemma MulGap(a: int, b: int, m: int)
    requires m > 0 && a != b
    ensures a * m - b * m >= m || b * m - a * m >= m
  {
    if a > b {
      MulAtLeast(a - b, m);
      assert (a - b) * m == a * m - b * m;
    } else {
      MulAtLeast(b - a, m);
      assert (b - a) * m == b * m - a * m;
    }
  }

  lemma {:induction false} MulAtLeast(d: int, m: int)
    requires d >= 1 && m > 0
    ensures d * m >= m
    decreases d
  {
    if d > 1 {
      MulAtLeast(d - 1, m);
      assert d * m == (d - 1) * m + m;
    }
  }

  /** Skipping one row of m cells lowers the row index by one and keeps the seat index. */
  lemma ShiftRow(k: int, m: int, n: nat)
    requires m > 0 && m <= k < (n + 1) * m
    ensures 0 <= k - m < n * m
    ensures (k - m) / m == k / m - 1 && (k - m) % m == k % m
  {
    assert (n + 1) * m == n * m + m;
    DivModUnique(k, m, (k - m) / m + 1, (k - m) % m);
  }

  /** Divisibility does not depend on the sign. */
  lemma DivisibleNegated(a: int, m: int)
    requires m > 0
    ensures (-a) % m == 0 <==> a % m == 0
  {
    if a % m == 0 {
      DivModUnique(-a, m, -(a / m), 0);
    }
    if (-a) % m == 0 {
      DivModUnique(a, m, -((-a) / m), 0);
    }
  }
}
