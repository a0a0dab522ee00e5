/** The few facts about remainders that the verifier does not find by itself. */
module Modular {
  lemma {:induction false} ProductGrows(d: int, m: int)
    requires d >= 1 && m >= 0
    ensures d * m >= m
    decreases d
  {
    if d > 1 {
      ProductGrows(d - 1, m);
      assert d * m == (d - 1) * m + m;
    }
  }

  lemma DivModIs(x: int, q: int, r: int, m: int)
    requires m > 0 && 0 <= r < m && x == q * m + r
    ensures x / m == q && x % m == r
  {
    var p, s := x / m, x % m;
    assert x == p * m + s;
    assert (q - p) * m == s - r && (p - q) * m == r - s;
    if q > p {
      ProductGrows(q - p, m);
    } else if q < p {
      ProductGrows(p - q, m);
    }
  }

  lemma ModPlusMultiple(x: int, q: int, m: int)
    requires m > 0
    ensures (x + q * m) % m == x % m
  {
    assert x + q * m == (x / m + q) * m + x % m;
    DivModIs(x + q * m, x / m + q, x % m, m);
  }

  lemma SmallMod(x: int, m: int)
    requires 0 <= x < m
    ensures x % m == x && x / m == 0
  {
    assert x == 0 * m + x;
    DivModIs(x, 0, x, m);
  }

  /** A remainder can be taken early inside a sum. */
  lemma ModOfSum(x: int, y: int, m: int)
    requires m > 0
    ensures (x % m + y) % m == (x + y) % m
  {
    assert x + y == (x % m + y) + (x / m) * m;
    ModPlusMultiple(x % m + y, x / m, m);
  }

  /** And inside a product. */
  lemma ModOfProduct(a: int, x: int, m: int)
    requires m > 0
    ensures (a * (x % m)) % m == (a * x) % m
  {
    var q, r := x / m, x % m;
    assert x == q * m + r;
    assert a * x == a * r + (a * q) * m by {
      assert a * (q * m + r) == a * (q * m) + a * r;
      assert a * (q * m) == (a * q) * m;
    }
    ModPlusMultiple(a * r, a * q, m);
  }

  /** A remainder by a multiple of m can be taken before one by m. */
  lemma ModOfMultiple(x: int, k: int, m: int)
    requires k > 0 && m > 0
    ensures k * m > 0 && (x % (k * m)) % m == x % m
  {
    ProductGrows(k, m);
    var q, r := x / (k * m), x % (k * m);
    assert x == q * (k * m) + r;
    assert q * (k * m) == (q * k) * m;
    ModPlusMultiple(r, q * k, m);
  }

  lemma ModOfBothFactors(a: int, x: int, m: int)
    requires m > 0
    ensures ((a % m) * (x % m)) % m == (a * x) % m
  {
    var p, q := a % m, x % m;
    ModOfProduct(a, x, m);
    ModOfProduct(q, a, m);
    Commutes(q, p);
    Commutes(q, a);
  }

  lemma Commutes(x: int, y: int)
    ensures x * y == y * x
  {
  }

  lemma ModOfBothTerms(x: int, y: int, m: int)
    requires m > 0
    ensures (x % m + y % m) % m == (x + y) % m
  {
    ModOfSum(x, y % m, m);
    ModOfSum(y, x, m);
  }

  /** Equal remainders differ by a multiple. */
  lemma ModOfDifference(x: int, y: int, m: int)
    requires m > 0 && x % m == y % m
    ensures (x - y) % m == 0
  {
    var q := x / m - y / m;
    assert x - y == q * m + 0 by {
      assert x == x / m * m + x % m && y == y / m * m + y % m;
      assert q * m == x / m * m - y / m * m;
    }
    DivModIs(x - y, q, 0, m);
  }

  // ---------------------------------------------------------------- products by name

  // Proofs that use the laws below hide Times, so that the solver meets no product of variables.
  function Times(x: nat, y: nat): nat { x * y }

  lemma TimesSum(a: nat, x: nat, y: nat)
    ensures Times(a, x + y) == Times(a, x) + Times(a, y)
    ensures Times(x + y, a) == Times(x, a) + Times(y, a)
  {
  }

  lemma TimesTimes(a: nat, x: nat, y: nat)
    ensures Times(a, Times(x, y)) == Times(Times(a, x), y)
  {
  }

  lemma TimesSwaps(x: nat, y: nat)
    ensures Times(x, y) == Times(y, x)
  {
  }

  lemma TimesSmall(x: nat)
    ensures Times(0, x) == Times(x, 0) == 0
    ensures Times(1, x) == Times(x, 1) == x
    ensures Times(2, x) == Times(x, 2) == 2 * x
  {
  }

  /** The product of two integers of either sign. */
  function Product(x: int, y: int): int { x * y }

  lemma NotNegative(x: nat, y: nat)
    ensures x * y >= 0
  {
  }

  /** A product with a bounded factor that is not negative. */
  lemma ProductWithin(x: int, low: int, high: int, y: nat)
    requires low <= x <= high
    ensures low * y <= Product(x, y) <= high * y
  {
    NotNegative(x - low, y);
    NotNegative(high - x, y);
    assert (x - low) * y == x * y - low * y;
    assert (high - x) * y == high * y - x * y;
  }

  function Pow2(k: nat): (r: nat)
    ensures r > 0
  {
    if k == 0 then 1 else 2 * Pow2(k - 1)
  }
}
