/** Integer arithmetic shared by the other modules. */
module Arith {

  /** C++ integer division, which truncates toward zero. */
  function TruncDiv(a: int, b: int): int
    requires b > 0
  {
    if a >= 0 then a / b else -(-a / b)
  }

  /** C++ `%`, whose result has the sign of the dividend. */
  function TruncMod(a: int, b: int): int
    requires b > 0
  {
    if a >= 0 then a % b else -(-a % b)
  }

  lemma TruncIsDiv(a: int, b: int)
    requires b > 0 && a >= 0
    ensures TruncDiv(a, b) == a / b
  {
  }

  lemma MulMonotone(a: int, b: int, m: nat)
    requires a <= b
    ensures a * m <= b * m
  {
  }

  /** Quotient and remainder are unique. */
  lemma ModUnique(n: int, m: nat, q: int, r: nat)
    requires r < m && n == q * m + r
    ensures n / m == q && n % m == r
  {
    var d := n / m - q;
    assert d * m == r - n % m;
    if d != 0 {
      MulMonotone(1, if d > 0 then d else -d, m);
      assert false;
    }
  }

  lemma SmallMod(n: nat, m: nat)
    requires 0 < m
    ensures n < m ==> n % m == n
    ensures m % m == 0
  {
  }

  lemma SubMod(n: nat, m: nat)
    requires 0 < m <= n
    ensures (n - m) % m == n % m
  {
    assert n - m == (n / m - 1) * m + n % m;
    ModUnique(n - m, m, n / m - 1, n % m);
  }

  lemma DivAtLeast(x: nat, m: nat, k: nat)
    requires 0 < m && k * m <= x
    ensures x / m >= k
  {
    if x / m < k {
      MulMonotone(x / m + 1, k, m);
      assert false;
    }
  }

  lemma DivStep(y: int, m: nat)
    requires m > 0
    ensures (y + 1) / m == y / m + (if (y + 1) % m == 0 then 1 else 0)
  {
    if y % m == m - 1 {
      assert y + 1 == (y / m + 1) * m + 0;
      ModUnique(y + 1, m, y / m + 1, 0);
    } else {
      assert y + 1 == (y / m) * m + (y % m + 1);
      ModUnique(y + 1, m, y / m, y % m + 1);
    }
  }
}
