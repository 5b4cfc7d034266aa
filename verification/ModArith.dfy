/** Arithmetic modulo a positive number, and powers. */
module ModArith {

  lemma MulDistributes(x: int, y: int, z: int)
    ensures (x + y) * z == x * z + y * z
  {
  }

  lemma MulAssoc(x: int, y: int, z: int)
    ensures (x * y) * z == x * (y * z)
  {
  }

  lemma MulSwap(x: int, y: int, p: int, q: int)
    ensures (x * y) * (p * q) == (x * p) * (y * q)
  {
    MulAssoc(x, y, p * q);
    MulAssoc(y, p, q);
    MulAssoc(p, y, q);
    MulAssoc(x, p, y * q);
  }

  lemma MulOrder(x: int, y: int, z: int)
    requires x <= y && z >= 0
    ensures x * z <= y * z
  {
  }

  /** Between -m and m the only multiple of m is 0. */
  lemma SmallMultiple(d: int, m: int)
    requires m > 0 && -m < d * m < m
    ensures d == 0
  {
    if d >= 1 {
      MulOrder(1, d, m);
    } else if d <= -1 {
      MulOrder(d, -1, m);
    }
  }

  /** n - q*m in [0, m) is the remainder. */
  lemma ModIs(n: int, m: int, q: int)
    requires m > 0 && 0 <= n - q * m < m
    ensures n % m == n - q * m && n / m == q
  {
    var d := n / m - q;
    MulDistributes(n / m, -q, m);
    assert d * m == n - q * m - n % m;
    SmallMultiple(d, m);
  }

  /** Multiples of m vanish. */
  lemma ModPlus(x: int, k: int, m: int)
    requires m > 0
    ensures (x + k * m) % m == x % m
  {
    MulDistributes(x / m, k, m);
    ModIs(x + k * m, m, x / m + k);
  }

  /** The product of two numbers written as quotient and remainder. */
  lemma ProductSplit(p: int, a: int, q: int, b: int, y: int, m: int)
    requires y == q * m + b
    ensures (p * m + a) * y == a * b + (p * y + a * q) * m
  {
    MulDistributes(p * m, a, y);
    MulAssoc(p, m, y);
    MulAssoc(p, y, m);
    MulDistributes(q * m, b, a);
    MulAssoc(a, q, m);
    MulDistributes(p * y, a * q, m);
  }

  lemma ModMul(x: int, y: int, m: int)
    requires m > 0
    ensures (x * y) % m == ((x % m) * (y % m)) % m
  {
    var a, b, p, q := x % m, y % m, x / m, y / m;
    ProductSplit(p, a, q, b, y, m);
    assert x == p * m + a;
    ModPlus(a * b, p * y + a * q, m);
  }

  lemma ModAdd(x: int, y: int, m: int)
    requires m > 0
    ensures (x + y) % m == ((x % m) + (y % m)) % m
  {
    MulDistributes(x / m, y / m, m);
    ModPlus(x % m + y % m, x / m + y / m, m);
  }

  lemma ModSub(x: int, y: int, m: int)
    requires m > 0
    ensures (x - y) % m == ((x % m) - (y % m)) % m
  {
    MulDistributes(x / m, -(y / m), m);
    ModPlus(x % m - y % m, x / m - y / m, m);
  }

  lemma ModMod(x: int, m: int)
    requires m > 0
    ensures (x % m) % m == x % m
  {
    ModIs(x % m, m, 0);
  }

  function Pow(x: int, n: nat): int {
    if n == 0 then 1 else x * Pow(x, n - 1)
  }

  lemma {:induction false} PowAdd(x: int, a: nat, b: nat)
    ensures Pow(x, a + b) == Pow(x, a) * Pow(x, b)
    decreases a
  {
    if a > 0 {
      PowAdd(x, a - 1, b);
      assert Pow(x, a + b) == x * Pow(x, a - 1 + b);
      assert x * (Pow(x, a - 1) * Pow(x, b)) == (x * Pow(x, a - 1)) * Pow(x, b);
    }
  }

  lemma {:induction false} PowPow(x: int, a: nat, b: nat)
    ensures a * b >= 0
    ensures Pow(Pow(x, a), b) == Pow(x, a * b)
    decreases b
  {
    if b > 0 {
      PowPow(x, a, b - 1);
      assert a * b == a + a * (b - 1);
      PowAdd(x, a, a * (b - 1));
    } else {
      assert a * b == 0;
    }
  }

  lemma {:induction false} PowMod(x: int, n: nat, m: int)
    requires m > 0
    ensures Pow(x % m, n) % m == Pow(x, n) % m
  {
    if n > 0 {
      PowMod(x, n - 1, m);
      ModMul(x, Pow(x, n - 1), m);
      ModMul(x % m, Pow(x % m, n - 1), m);
      ModMod(x, m);
    }
  }

  lemma {:induction false} PowOne(n: nat)
    ensures Pow(1, n) == 1
  {
    if n > 0 {
      PowOne(n - 1);
    }
  }

  function Pow2(n: nat): (p: nat)
    ensures p >= 1
  {
    if n == 0 then 1 else 2 * Pow2(n - 1)
  }

  lemma {:induction false} Pow2Add(a: nat, b: nat)
    ensures Pow2(a + b) == Pow2(a) * Pow2(b)
    decreases a
  {
    if a > 0 {
      Pow2Add(a - 1, b);
      assert Pow2(a + b) == 2 * Pow2(a - 1 + b);
    }
  }
}
