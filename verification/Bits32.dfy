/** JavaScript's bit operators on the integers they are used on: 32 bits, two's complement. */
module Bits32 {
  import opened ModArith

  predicate Int32(n: int) {
    -0x8000_0000 <= n < 0x8000_0000
  }

  /** ToInt32's bits of an integer, and the integer that 32 bits stand for. */
  function Bits(n: int): (u: nat)
    ensures u < 0x1_0000_0000
  {
    n % 0x1_0000_0000
  }

  function Number(u: nat): int {
    if u < 0x8000_0000 then u else u - 0x1_0000_0000
  }

  /** Bit by bit, lowest first. */
  function XorBits(x: nat, y: nat, n: nat): nat {
    if n == 0 then 0 else (x + y) % 2 + 2 * XorBits(x / 2, y / 2, n - 1)
  }

  function AndBits(x: nat, y: nat, n: nat): nat {
    if n == 0 then 0 else (x % 2) * (y % 2) + 2 * AndBits(x / 2, y / 2, n - 1)
  }

  function Xor(x: int, y: int): int { Number(XorBits(Bits(x), Bits(y), 32)) }
  function And(x: int, y: int): int { Number(AndBits(Bits(x), Bits(y), 32)) }
  function Not(x: int): int { -x - 1 }

  lemma NumberBits(n: int)
    requires Int32(n)
    ensures Number(Bits(n)) == n
  {
  }

  lemma BitsNumber(u: nat)
    requires u < 0x1_0000_0000
    ensures Bits(Number(u)) == u
  {
  }

  lemma {:induction false} XorInRange(x: nat, y: nat, n: nat)
    ensures XorBits(x, y, n) < Pow2(n)
  {
    if n > 0 {
      XorInRange(x / 2, y / 2, n - 1);
    }
  }

  lemma Parity(x: nat, y: nat, r: nat)
    ensures var s := (x + y) % 2 + 2 * r; s % 2 == (x + y) % 2 && s / 2 == r && (x + s) % 2 == y % 2
  {
    var a, b := x % 2, y % 2;
    assert (x + y) % 2 == (a + b) % 2;
    var s := (x + y) % 2 + 2 * r;
    assert (x + s) % 2 == (a + (a + b) % 2) % 2;
  }

  /** x ^ (x ^ y) is y. */
  lemma {:induction false} XorTwice(x: nat, y: nat, n: nat)
    requires y < Pow2(n)
    ensures XorBits(x, XorBits(x, y, n), n) == y
  {
    if n > 0 {
      XorTwice(x / 2, y / 2, n - 1);
      var r := XorBits(x / 2, y / 2, n - 1);
      Parity(x, y, r);
    }
  }

  lemma {:induction false} XorZero(x: nat, n: nat)
    requires x < Pow2(n)
    ensures XorBits(x, 0, n) == x
  {
    if n > 0 {
      XorZero(x / 2, n - 1);
    }
  }

  lemma {:induction false} XorCommutes(x: nat, y: nat, n: nat)
    ensures XorBits(x, y, n) == XorBits(y, x, n)
  {
    if n > 0 {
      XorCommutes(x / 2, y / 2, n - 1);
    }
  }

  lemma {:induction false} AndOnes(y: nat, n: nat)
    requires y < Pow2(n)
    ensures AndBits(Pow2(n) - 1, y, n) == y
  {
    if n > 0 {
      AndOnes(y / 2, n - 1);
      assert (Pow2(n) - 1) % 2 == 1 && (Pow2(n) - 1) / 2 == Pow2(n - 1) - 1;
    }
  }

  lemma {:induction false} AndNone(y: nat, n: nat)
    ensures AndBits(0, y, n) == 0
  {
    if n > 0 {
      AndNone(y / 2, n - 1);
    }
  }

  lemma Pow2Of32()
    ensures Pow2(32) == 0x1_0000_0000
  {
    assert Pow2(8) == 256;
    Pow2Add(8, 8);
    Pow2Add(16, 16);
  }

  /** One limb of the exchange under the mask c = ~(b - 1): t = c & (x ^ y); x ^= t; y ^= t. */
  lemma Exchange(x: int, y: int, b: int)
    requires Int32(x) && Int32(y) && (b == 0 || b == 1)
    ensures var t := And(Not(b - 1), Xor(x, y));
      Xor(x, t) == (if b == 1 then y else x) && Xor(y, t) == if b == 1 then x else y
  {
    var p, q := Bits(x), Bits(y);
    var r := XorBits(p, q, 32);
    Pow2Of32();
    XorInRange(p, q, 32);
    BitsNumber(r);
    NumberBits(x);
    NumberBits(y);
    if b == 1 {
      assert Bits(Not(b - 1)) == Pow2(32) - 1;
      AndOnes(r, 32);
      XorTwice(p, q, 32);
      XorCommutes(p, q, 32);
      XorTwice(q, p, 32);
    } else {
      assert Bits(Not(b - 1)) == 0;
      AndNone(r, 32);
      XorZero(p, 32);
      XorZero(q, 32);
    }
  }
}
