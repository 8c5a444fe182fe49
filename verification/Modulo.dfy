/** Remainders. */
module Modulo {

  lemma MulOrder(m: int, d: int)
    requires m > 0
    ensures d > 0 ==> m * d >= m
    ensures d < 0 ==> m * d <= -m
  {
  }

  lemma ModUnique(x: int, m: int, q: int, r: int)
    requires m > 0 && x == m * q + r && 0 <= r < m
    ensures x % m == r
  {
    var d := q - x / m;
    assert m * d == x % m - r by {
      assert x == m * (x / m) + x % m;
      assert m * d == m * q - m * (x / m);
    }
    MulOrder(m, d);
  }

  lemma AddMultiple(x: nat, q: nat, m: nat)
    requires m > 0
    ensures (x + q * m) % m == x % m
  {
    assert x == m * (x / m) + x % m;
    assert x + q * m == m * (x / m + q) + x % m;
    ModUnique(x + q * m, m, x / m + q, x % m);
  }

  /** Counting up by one under a modulus. */
  lemma ModNext(x: nat, m: nat)
    requires m > 0
    ensures (x + 1) % m == (if x % m == m - 1 then 0 else x % m + 1) == (x % m + 1) % m
  {
    var q, r := x / m, x % m;
    assert x == m * q + r;
    if r == m - 1 {
      ModUnique(x + 1, m, q + 1, 0);
      ModUnique(r + 1, m, 1, 0);
    } else {
      ModUnique(x + 1, m, q, r + 1);
      ModUnique(r + 1, m, 0, r + 1);
    }
  }
}
