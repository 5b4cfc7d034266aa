/**
 X25519 as section 5 of RFC 7748 writes it: little-endian decoding, the clamped
 scalar, the Montgomery ladder with its deferred swap, over the integers modulo p.
 */
module Rfc7748 {
  import opened ModArith
  import opened Limbs
  import opened LittleEndian

  /** The scalar: the three lowest bits and the highest cleared, the second highest set. */
  function Clamped(k: seq<byte>): (r: seq<byte>)
    requires |k| == 32
    ensures |r| == 32
  {
    k[0 := k[0] - k[0] % 8][31 := k[31] % 64 + 64]
  }

  function DecodeScalar(k: seq<byte>): nat
    requires |k| == 32
  {
    DecodeLittleEndian(Clamped(k))
  }

  /** The u-coordinate: the top bit is ignored, values past p are taken modulo p. */
  function DecodeU(u: seq<byte>): Residue
    requires |u| == 32
  {
    Mod(DecodeLittleEndian(u[31 := u[31] % 128]))
  }

  function Bit(k: nat, t: nat): nat {
    if t == 0 then k % 2 else Bit(k / 2, t - 1)
  }

  datatype Ladder = Ladder(x2: Residue, z2: Residue, x3: Residue, z3: Residue, swap: nat)

  function CSwap(swap: nat, s: Ladder): Ladder {
    if swap == 1 then Ladder(s.x3, s.z3, s.x2, s.z2, s.swap) else s
  }

  const A24 := 121665

  /** The formulas of one rung, on the pairs already swapped. */
  function Rung(s: Ladder, x1: Residue): Ladder {
    var A := FAdd(s.x2, s.z2);
    var AA := FMul(A, A);
    var B := FSub(s.x2, s.z2);
    var BB := FMul(B, B);
    var E := FSub(AA, BB);
    var C := FAdd(s.x3, s.z3);
    var D := FSub(s.x3, s.z3);
    var DA := FMul(D, A);
    var CB := FMul(C, B);
    var sum := FAdd(DA, CB);
    var dif := FSub(DA, CB);
    Ladder(FMul(AA, BB), FMul(E, FAdd(AA, FMul(A24, E))), FMul(sum, sum), FMul(x1, FMul(dif, dif)), s.swap)
  }

  /** The loop for t = 254 down to the given number of bits left. */
  function Climb(k: nat, x1: Residue, left: nat): Ladder
    requires left <= 255
    decreases 255 - left
  {
    if left == 255 then Ladder(1, 0, x1, 1, 0)
    else
      var s := Climb(k, x1, left + 1);
      var kt := Bit(k, left);
      Rung(CSwap((s.swap + kt) % 2, s), x1).(swap := kt)
  }

  /** x2 / z2, with z2^(p-2) for the inverse. */
  function Outcome(s: Ladder): Residue {
    var r := CSwap(s.swap, s);
    FMul(r.x2, FPow(r.z2, P - 2))
  }

  function X25519(k: seq<byte>, u: seq<byte>): seq<byte>
    requires |k| == 32 && |u| == 32
  {
    EncodeLittleEndian(Outcome(Climb(DecodeScalar(k), DecodeU(u), 0)), 32)
  }

  // ---------- bits of the scalar ----------

  lemma {:induction false} BitIsBit(k: nat, t: nat)
    ensures Bit(k, t) <= 1
    decreases t
  {
    if t > 0 {
      BitIsBit(k / 2, t - 1);
    }
  }

  /** The low eight bits of x + 256 y are those of the byte x, the others those of y. */
  lemma BitOfByte(x: byte, y: nat, i: nat)
    ensures Bit(x + 256 * y, i) == if i < 8 then Bit(x, i) else Bit(y, i - 8)
  {
    assert Pow2(8) == 256;
    if i < 8 {
      BitOfSum(x, y, 8, i);
    } else {
      BitShift(x, y, 8, i);
    }
  }

  /** Bit 8j+s of little-endian bytes is bit s of byte j. */
  lemma {:induction false} BitOfBytes(b: seq<byte>, i: nat)
    requires i < 8 * |b|
    ensures Bit(DecodeLittleEndian(b), i) == Bit(b[i / 8], i % 8)
  {
    BitOfByte(b[0], DecodeLittleEndian(b[1..]), i);
    if i >= 8 {
      BitOfBytes(b[1..], i - 8);
    }
  }

  lemma {:induction false} BitOfSum(x: nat, y: nat, n: nat, i: nat)
    requires i < n
    ensures Bit(x + Pow2(n) * y, i) == Bit(x, i)
    decreases i
  {
    assert Pow2(n) * y == 2 * (Pow2(n - 1) * y);
    if i > 0 {
      BitOfSum(x / 2, y, n - 1, i - 1);
      assert (x + 2 * (Pow2(n - 1) * y)) / 2 == x / 2 + Pow2(n - 1) * y;
    }
  }

  lemma {:induction false} BitShift(x: nat, y: nat, n: nat, i: nat)
    requires i >= n && x < Pow2(n)
    ensures Bit(x + Pow2(n) * y, i) == Bit(y, i - n)
    decreases n
  {
    if n > 0 {
      assert Pow2(n) * y == 2 * (Pow2(n - 1) * y);
      BitShift(x / 2, y, n - 1, i - 1);
      assert (x + 2 * (Pow2(n - 1) * y)) / 2 == x / 2 + Pow2(n - 1) * y;
    }
  }
}
