/**
 Numbers as 16-bit limbs, lowest first, and residues modulo 2^255 - 19.
 */
module Limbs {
  import opened ModArith

  const P: int := 0x7fff_ffff_ffff_ffff_ffff_ffff_ffff_ffff_ffff_ffff_ffff_ffff_ffff_ffff_ffff_ffed

  /** The number a list of limbs stands for, whatever the limbs' range. */
  function Val(s: seq<int>): int {
    if s == [] then 0 else s[0] + 0x10000 * Val(s[1..])
  }

  /** 65536^k. */
  function Base(k: nat): (b: int)
    ensures b >= 1
  {
    if k == 0 then 1 else 0x10000 * Base(k - 1)
  }

  lemma {:induction false} BaseAdd(i: nat, j: nat)
    ensures Base(i + j) == Base(i) * Base(j)
  {
    if i > 0 {
      BaseAdd(i - 1, j);
      assert Base(i + j) == 0x10000 * Base(i - 1 + j);
    }
  }

  lemma Base16()
    ensures Base(16) == 2 * P + 38
  {
    assert Base(4) == 0x1_0000_0000_0000_0000;
    BaseAdd(4, 4);
    BaseAdd(8, 8);
  }

  lemma {:induction false} ValAppend(s: seq<int>, t: seq<int>)
    ensures Val(s + t) == Val(s) + Base(|s|) * Val(t)
  {
    if s == [] {
      assert s + t == t;
    } else {
      ValAppend(s[1..], t);
      assert (s + t)[1..] == s[1..] + t;
    }
  }

  lemma {:induction false} ValUpdate(s: seq<int>, k: nat, d: int)
    requires k < |s|
    ensures Val(s[k := s[k] + d]) == Val(s) + d * Base(k)
  {
    var t := s[k := s[k] + d];
    if k == 0 {
      assert t[1..] == s[1..];
    } else {
      ValUpdate(s[1..], k - 1, d);
      assert t[1..] == s[1..][k - 1 := s[1..][k - 1] + d];
    }
  }

  lemma BaseNext(n: nat)
    ensures Base(n + 1) == 0x10000 * Base(n)
  {
  }

  lemma ValFirst(s: seq<int>)
    requires s != []
    ensures Val(s) == s[0] + 0x10000 * Val(s[1..])
  {
  }

  lemma ValOne(d: int)
    ensures Val([d]) == d
  {
    assert [d][1..] == [];
  }

  lemma ValPush(s: seq<int>, d: int)
    ensures Val(s + [d]) == Val(s) + Base(|s|) * d
  {
    ValAppend(s, [d]);
    ValOne(d);
  }

  /** Limbs combined one by one combine the numbers. */
  lemma {:induction false} ValLinear(s: seq<int>, t: seq<int>, r: seq<int>, c: int)
    requires |s| == |t| == |r| && forall k :: 0 <= k < |s| ==> r[k] == s[k] + c * t[k]
    ensures Val(r) == Val(s) + c * Val(t)
  {
    if s != [] {
      ValLinear(s[1..], t[1..], r[1..], c);
      assert 0x10000 * (Val(s[1..]) + c * Val(t[1..])) == 0x10000 * Val(s[1..]) + c * (0x10000 * Val(t[1..]));
    }
  }

  /** Limbs between lo and hi give a number between lo and hi times 11...1. */
  lemma {:induction false} ValBounds(s: seq<int>, lo: int, hi: int)
    requires forall k :: 0 <= k < |s| ==> lo <= s[k] <= hi
    ensures lo * (Base(|s|) - 1) <= 65535 * Val(s) <= hi * (Base(|s|) - 1)
  {
    if s != [] {
      ValBounds(s[1..], lo, hi);
      var b := Base(|s| - 1);
      assert lo * (0x10000 * b - 1) == lo * 65535 + 0x10000 * (lo * (b - 1));
      assert hi * (0x10000 * b - 1) == hi * 65535 + 0x10000 * (hi * (b - 1));
    }
  }

  predicate Normal(s: seq<int>) {
    forall k :: 0 <= k < |s| ==> 0 <= s[k] <= 0xffff
  }

  lemma NormalBounds(s: seq<int>)
    requires Normal(s)
    ensures 0 <= Val(s) < Base(|s|)
  {
    ValBounds(s, 0, 0xffff);
  }

  // ---------- residues ----------

  type Residue = x: int | 0 <= x < P witness 0

  function Mod(x: int): Residue {
    x % P
  }

  function FAdd(x: int, y: int): Residue { Mod(x + y) }
  function FSub(x: int, y: int): Residue { Mod(x - y) }
  function FMul(x: int, y: int): Residue { Mod(x * y) }
  function FPow(x: int, n: nat): Residue { Mod(Pow(x, n)) }

  /** The field element a list of limbs stands for. */
  function Fe(s: seq<int>): Residue {
    Mod(Val(s))
  }

  lemma FMulOf(x: int, y: int)
    ensures Mod(x * y) == FMul(Mod(x), Mod(y))
  {
    ModMul(x, y, P);
  }

  lemma FAddOf(x: int, y: int)
    ensures Mod(x + y) == FAdd(Mod(x), Mod(y))
  {
    ModAdd(x, y, P);
  }

  lemma FSubOf(x: int, y: int)
    ensures Mod(x - y) == FSub(Mod(x), Mod(y))
  {
    ModSub(x, y, P);
  }

  lemma FMulCommutes(x: int, y: int)
    ensures FMul(x, y) == FMul(y, x)
  {
  }

  /** A square does not see which way round a difference was taken. */
  lemma SquareOfSub(x: int, y: int)
    ensures FMul(FSub(x, y), FSub(x, y)) == FMul(FSub(y, x), FSub(y, x))
  {
    FMulOf(x - y, x - y);
    FMulOf(y - x, y - x);
    assert (x - y) * (x - y) == (y - x) * (y - x);
  }

  lemma FPowAdd(x: int, a: nat, b: nat)
    ensures FPow(x, a + b) == FMul(FPow(x, a), FPow(x, b))
  {
    PowAdd(x, a, b);
    FMulOf(Pow(x, a), Pow(x, b));
  }
}
