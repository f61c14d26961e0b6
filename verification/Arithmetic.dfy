/** The few facts about products and quotients the other modules lean on. */
module Arithmetic {

  lemma ProductBound(e: int, m: int)
    requires m > 0
    ensures e >= 1 ==> e * m >= m
    ensures e <= -1 ==> e * m <= -m
  {
  }

  /** Quotient and remainder are determined by x == q * m + r with 0 <= r < m. */
  lemma DivModUnique(x: int, m: int, q: int, r: int)
    requires m > 0 && x == q * m + r && 0 <= r < m
    ensures x / m == q && x % m == r
  {
    var e := x / m - q;
    assert x == (x / m) * m + x % m;
    assert e * m == r - x % m;
    ProductBound(e, m);
  }

  /** x / m reaches d exactly when x reaches d * m. */
  lemma FloorIs(x: int, m: int, d: int)
    requires m > 0
    ensures x / m >= d <==> x >= d * m
  {
    var e := x / m - d;
    assert x == (x / m) * m + x % m;
    assert e * m == x - x % m - d * m;
    ProductBound(e, m);
  }

  /** Dividing by a base shrinks a positive number, and rebuilds from quotient and remainder. */
  lemma QuotientShrinks(n: int, base: int)
    requires base >= 2 && n > 0
    ensures 0 <= n / base < n && n == (n / base) * base + n % base
    ensures n >= base ==> n / base >= 1
  {
    FloorIs(n, base, 0);
    FloorIs(n, base, 1);
    FloorIs(n, base, n);
    ProductBound(n, base - 1);
    assert n * base == n * (base - 1) + n;
    assert n * (base - 1) >= base - 1;
  }

  function Power(base: nat, k: nat): nat {
    if k == 0 then 1 else base * Power(base, k - 1)
  }
}
