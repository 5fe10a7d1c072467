/** Facts about quotients and remainders that several components need. */
module Arithmetic {

  lemma AtLeastOneMultiple(d: int, m: int)
    requires m > 0
    ensures d >= 1 ==> d * m >= m
    ensures d <= -1 ==> d * m <= -m
  {
    if d >= 1 {
      assert d * m == m + (d - 1) * m;
    } else if d <= -1 {
      assert d * m == -m + (d + 1) * m;
    }
  }

  /** A decomposition with a remainder in range is the quotient and the remainder. */
  lemma DivModUnique(a: int, q: int, r: int, m: int)
    requires m > 0 && 0 <= r < m && a == q * m + r
    ensures a / m == q && a % m == r
  {
    var d := a / m - q;
    assert a == (a / m) * m + a % m;
    assert d * m == r - a % m by {
      assert d * m == (a / m) * m - q * m;
    }
    AtLeastOneMultiple(d, m);
  }
}
