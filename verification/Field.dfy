/**
 The field operations of web/crypto.js on arrays of 16 limbs, in place. The original's
 numbers are doubles: every intermediate value is shown to be an integer they hold exactly.
 */
module Field {
  import opened ModArith
  import opened Limbs

  /** An integer a double holds exactly. */
  predicate Exact(n: int) {
    -0x20_0000_0000_0000 <= n <= 0x20_0000_0000_0000
  }

  /** What M leaves: limbs in range, the lowest off by at most one carry of 38. */
  predicate Reduced(s: seq<int>) {
    |s| == 16 && -38 <= s[0] <= 65573 && forall i :: 1 <= i < 16 ==> 0 <= s[i] <= 65535
  }

  const LOOSE := 131146

  /** A sum or a difference of two reduced elements. */
  predicate Loose(s: seq<int>) {
    |s| == 16 && Within(s, LOOSE)
  }

  predicate Within(s: seq<int>, bound: int) {
    forall i :: 0 <= i < |s| ==> -bound <= s[i] <= bound
  }

  // ---------- carry ----------

  /** What car25519 makes of limbs worth v: v modulo 2^256 in limbs, and 38 for each 2^256 taken off. */
  ghost predicate Carried(v: int, s: seq<int>, k: int) {
    && |s| == 16
    && 0 <= s[0] - 38 * k <= 65535 && (forall i :: 1 <= i < 16 ==> 0 <= s[i] <= 65535)
    && Val(s) == v - 2 * k * P
  }

  /** 65536 taken off limb i and one added to limb i + 1 leave the number as it is. */
  lemma CarryMoves(s: seq<int>, i: nat, e: int)
    requires i + 1 < |s|
    ensures Val(s[i := s[i] - 0x10000 * e][i + 1 := s[i + 1] + e]) == Val(s)
  {
    var t := s[i := s[i] - 0x10000 * e];
    ValUpdate(s, i, -0x10000 * e);
    ValUpdate(t, i + 1, e);
    var b, next := Base(i), Base(i + 1);
    assert e * next == e * 0x10000 * b;
  }

  lemma CarryEnds(v: int, s: seq<int>, k: int)
    requires |s| == 16 && Normal(s) && Val(s) + Base(16) * k == v
    ensures Carried(v, s[0 := s[0] + 38 * k], k)
  {
    ValUpdate(s, 0, 38 * k);
    Base16();
    assert (2 * P + 38) * k == 2 * k * P + 38 * k;
  }

  lemma QuotientBound(v: int, b: int, k: int, bound: int)
    requires bound >= 0 && -bound * b <= v <= bound * b && 0 <= v - k * b < b
    ensures -bound - 1 <= k <= bound
  {
    if k > bound {
      MulOrder(bound + 1, k, b);
      MulDistributes(bound, 1, b);
    } else if k < -bound - 1 {
      MulOrder(k, -bound - 2, b);
      MulDistributes(-bound - 2, 1, b);
      MulDistributes(-bound - 1, 1, b);
    }
  }

  /** The carry of a bounded number is bounded. */
  lemma CarryBound(v: int, s: seq<int>, k: int, bound: int)
    requires Carried(v, s, k) && bound >= 0 && -bound * Base(16) <= v <= bound * Base(16)
    ensures -bound - 1 <= k <= bound
  {
    CarriedRest(v, s, k);
    QuotientBound(v, Base(16), k, bound);
  }

  lemma CarriedRest(v: int, s: seq<int>, k: int)
    requires Carried(v, s, k)
    ensures 0 <= v - k * Base(16) < Base(16) && v - k * Base(16) == Val(s) - 38 * k
  {
    var n := s[0 := s[0] - 38 * k];
    ValUpdate(s, 0, -(38 * k));
    NormalBounds(n);
    Base16();
    assert k * (2 * P + 38) == 2 * k * P + 38 * k;
  }

  lemma BoundGlue(v: int, b: int, bound: int)
    requires bound >= 0 && b >= 1 && -bound * (b - 1) <= 65535 * v <= bound * (b - 1)
    ensures -bound * b <= v <= bound * b
  {
    MulDistributes(b, -1, bound);
    MulDistributes(b, -1, -bound);
    MulOrder(0, bound, b);
    assert -bound * b == -(bound * b);
  }

  lemma WithinBound(s: seq<int>, bound: int)
    requires bound >= 0 && |s| == 16 && Within(s, bound)
    ensures -bound * Base(16) <= Val(s) <= bound * Base(16)
  {
    hide Val, Base;
    var b, v := Base(16), Val(s);
    assert -bound * (b - 1) <= 65535 * v <= bound * (b - 1) by {
      ValBounds(s, -bound, bound);
    }
    BoundGlue(v, b, bound);
  }

  /** Limbs below i are done; with the carry c - 1 added to limb i (the 17th at the end) they are still worth v. */
  ghost predicate Carrying(v: int, s: seq<int>, now: seq<int>, i: nat, c: int) {
    && |s| == |now| == 16 && i <= 16 && now[i..] == s[i..] && Normal(now[..i])
    && Val(Plus(now, i, c - 1)) == v
  }

  function Plus(now: seq<int>, i: nat, c: int): seq<int>
    requires i <= |now|
  {
    (now + [0])[i := (now + [0])[i] + c]
  }

  lemma CarryingStep(v: int, s: seq<int>, now: seq<int>, i: nat, c: int, d: int, e: int)
    requires Carrying(v, s, now, i, c) && i < 16 && 0 <= d <= 65535 && d + 0x10000 * (e - 1) == now[i] + c - 1
    ensures Carrying(v, s, now[i := d], i + 1, e)
  {
    CarryMoves(Plus(now, i, c - 1), i, e - 1);
    var up := Plus(now, i, c - 1);
    assert Plus(now[i := d], i + 1, e - 1) == up[i := up[i] - 0x10000 * (e - 1)][i + 1 := up[i + 1] + (e - 1)];
    assert now[i := d][..i + 1] == now[..i] + [d];
    assert now[i := d][i + 1..] == s[i + 1..] by {
      assert now[i := d][i + 1..] == now[i..][1..];
    }
  }

  method Car(o: array<int>) returns (ghost k: int)
    requires o.Length == 16 && Within(o[..], 0x4_0000_0000_0000)
    modifies o
    ensures Carried(old(Val(o[..])), o[..], k)
  {
    ghost var s, v := o[..], Val(o[..]);
    var c := 1;
    var i := 0;
    CarryStarts(s);
    while i < 16
      invariant 0 <= i <= 16
      invariant Carrying(v, s, o[..], i, c)
      invariant -0x8_0000_0000 <= c <= 0x8_0000_0000
    {
      assert o[i] == o[..][i..][0] == s[i];
      var x := o[i] + c + 65535;
      ghost var before, now := c, o[..];
      c := x / 65536;
      assert Exact(x) && Exact(c * 65536);
      o[i] := x - c * 65536;
      CarryingStep(v, s, now, i, before, o[i], c);
      assert o[..] == now[i := o[i]];
      i := i + 1;
    }
    k := c - 1;
    ghost var end := o[..];
    CarryDone(v, s, end, c);
    var up := o[0] + (c - 1 + 37 * (c - 1));
    assert Exact(up);
    o[0] := up;
    assert o[..] == end[0 := end[0] + 38 * k];
  }

  lemma CarryStarts(s: seq<int>)
    requires |s| == 16
    ensures Carrying(Val(s), s, s, 0, 1)
  {
    assert Plus(s, 0, 0) == s + [0];
    ValPush(s, 0);
  }

  lemma CarryDone(v: int, s: seq<int>, end: seq<int>, c: int)
    requires Carrying(v, s, end, 16, c)
    ensures 0 <= end[0] <= 65535
    ensures Carried(v, end[0 := end[0] + 38 * (c - 1)], c - 1)
  {
    hide Val, Base;
    assert end[..16] == end && Normal(end);
    assert Val(end) + Base(16) * (c - 1) == v by {
      assert Plus(end, 16, c - 1) == end + [c - 1];
      ValPush(end, c - 1);
    }
    CarryEnds(v, end, c - 1);
  }

  // ---------- sums, differences, products ----------

  method Sum(o: array<int>, a: array<int>, b: array<int>)
    requires o.Length == 16 && Reduced(a[..]) && Reduced(b[..])
    modifies o
    ensures Loose(o[..]) && Fe(o[..]) == FAdd(old(Fe(a[..])), old(Fe(b[..])))
  {
    ghost var s, t := a[..], b[..];
    var i := 0;
    while i < 16
      invariant 0 <= i <= 16
      invariant a[i..] == s[i..] && b[i..] == t[i..]
      invariant forall k :: 0 <= k < i ==> o[k] == s[k] + t[k]
    {
      assert a[i] == a[i..][0] && b[i] == b[i..][0];
      o[i] := a[i] + b[i];
      i := i + 1;
    }
    ValLinear(s, t, o[..], 1);
    FAddOf(Val(s), Val(t));
  }

  method Diff(o: array<int>, a: array<int>, b: array<int>)
    requires o.Length == 16 && Reduced(a[..]) && Reduced(b[..])
    modifies o
    ensures Loose(o[..]) && Fe(o[..]) == FSub(old(Fe(a[..])), old(Fe(b[..])))
  {
    ghost var s, t := a[..], b[..];
    var i := 0;
    while i < 16
      invariant 0 <= i <= 16
      invariant a[i..] == s[i..] && b[i..] == t[i..]
      invariant forall k :: 0 <= k < i ==> o[k] == s[k] - t[k]
    {
      assert a[i] == a[i..][0] && b[i] == b[i..][0];
      o[i] := a[i] - b[i];
      i := i + 1;
    }
    ValLinear(s, t, o[..], -1);
    FSubOf(Val(s), Val(t));
  }

  const SQUARE := LOOSE * LOOSE

  lemma ProductBound(x: int, y: int)
    requires -LOOSE <= x <= LOOSE && -LOOSE <= y <= LOOSE
    ensures -SQUARE <= x * y <= SQUARE
  {
    if y >= 0 {
      MulOrder(x, LOOSE, y);
      MulOrder(-LOOSE, x, y);
    } else {
      MulOrder(x, LOOSE, -y);
      MulOrder(-LOOSE, x, -y);
      assert x * -y == -(x * y);
    }
  }

  lemma RowAlgebra(x: int, p: int, q: int, y: int, v: int)
    ensures (x * p) * (v + q * y) == (x * p) * v + (x * y) * (p * q)
  {
    MulDistributes(v, q * y, x * p);
    MulAssoc(x * p, q, y);
    MulAssoc(x, p, q);
    MulAssoc(x, p * q, y);
    MulAssoc(x, y, p * q);
  }

  /** One more product into the schoolbook sum. */
  lemma RowStep(t: seq<int>, a: seq<int>, b: seq<int>, i: nat, j: nat)
    requires |t| == 31 && |a| == |b| == 16 && i < 16 && j < 16
    requires Val(t) == Val(a[..i]) * Val(b) + a[i] * Base(i) * Val(b[..j])
    ensures Val(t[i + j := t[i + j] + a[i] * b[j]]) == Val(a[..i]) * Val(b) + a[i] * Base(i) * Val(b[..j + 1])
  {
    hide Val, Base;
    ValUpdate(t, i + j, a[i] * b[j]);
    BaseAdd(i, j);
    assert b[..j + 1] == b[..j] + [b[j]];
    ValPush(b[..j], b[j]);
    RowAlgebra(a[i], Base(i), Base(j), b[j], Val(b[..j]));
  }

  lemma RowEnds(a: seq<int>, b: seq<int>, i: nat)
    requires |a| == |b| == 16 && i < 16
    ensures Val(a[..i]) * Val(b) + a[i] * Base(i) * Val(b[..16]) == Val(a[..i + 1]) * Val(b)
  {
    assert b[..16] == b && a[..i + 1] == a[..i] + [a[i]];
    ValPush(a[..i], a[i]);
    MulDistributes(Val(a[..i]), Base(i) * a[i], Val(b));
  }

  /** The schoolbook product of two 16-limb numbers, in 31 limbs. */
  method Schoolbook(a: array<int>, b: array<int>) returns (t: array<int>)
    requires Loose(a[..]) && Loose(b[..])
    ensures fresh(t) && t.Length == 31 && Within(t[..], 16 * SQUARE) && Val(t[..]) == Val(a[..]) * Val(b[..])
  {
    hide Val, Base;
    t := new int[31](_ => 0);
    var i := 0;
    ZeroLimbs(t[..]);
    ZeroLimbs([]);
    assert a[..0] == [];
    while i < 16
      invariant 0 <= i <= 16
      invariant forall k :: 0 <= k < 31 ==> -i * SQUARE <= t[k] <= i * SQUARE
      invariant Val(t[..]) == Val(a[..i]) * Val(b[..])
    {
      var j := 0;
      assert a[..][..i] == a[..i];
      assert b[..][..0] == [];
      while j < 16
        invariant 0 <= j <= 16
        invariant forall k :: 0 <= k < 31 ==> -(i + 1) * SQUARE <= t[k] <= (i + 1) * SQUARE
        invariant forall k :: i + j <= k < 31 ==> -i * SQUARE <= t[k] <= i * SQUARE
        invariant Val(t[..]) == Val(a[..][..i]) * Val(b[..]) + a[..][i] * Base(i) * Val(b[..][..j])
      {
        ProductBound(a[i], b[j]);
        RowStep(t[..], a[..], b[..], i, j);
        ghost var s := t[..];
        assert Exact(a[i] * b[j]) && Exact(t[i + j] + a[i] * b[j]);
        t[i + j] := t[i + j] + a[i] * b[j];
        assert t[..] == s[i + j := s[i + j] + a[i] * b[j]];
        j := j + 1;
      }
      RowEnds(a[..], b[..], i);
      i := i + 1;
      assert a[..][..i] == a[..i];
    }
    assert a[..16] == a[..];
  }

  lemma {:induction false} ZeroLimbs(s: seq<int>)
    requires forall k :: 0 <= k < |s| ==> s[k] == 0
    ensures Val(s) == 0
  {
    if s != [] {
      ZeroLimbs(s[1..]);
    }
  }

  lemma FoldAlgebra(lo: int, hi: int)
    ensures lo + Base(16) * hi == lo + 38 * hi + (2 * hi) * P
  {
    Base16();
  }

  lemma FoldedVal(lo: seq<int>, hi: seq<int>, r: seq<int>)
    requires |lo| == |r| == 16 && |hi| == 15
    requires r[15] == lo[15] && forall k :: 0 <= k < 15 ==> r[k] == lo[k] + 38 * hi[k]
    ensures Val(r) == Val(lo) + 38 * Val(hi)
  {
    hide Val;
    ValPush(hi, 0);
    ValLinear(lo, hi + [0], r, 38);
  }

  /** 2^256 is 38: the upper half folded into the lower keeps the residue. */
  lemma Folded(t: seq<int>, r: seq<int>)
    requires |t| == 31 && |r| == 16
    requires r[15] == t[15] && forall k :: 0 <= k < 15 ==> r[k] == t[k] + 38 * t[k + 16]
    ensures Mod(Val(r)) == Mod(Val(t))
  {
    hide Val, Base;
    var lo, hi := t[..16], t[16..];
    assert t == lo + hi;
    FoldedVal(lo, hi, r);
    FoldAlgebra(Val(lo), Val(hi));
    assert Val(t) == Val(r) + 2 * Val(hi) * P by {
      ValAppend(lo, hi);
    }
    ModPlus(Val(r), 2 * Val(hi), P);
  }

  lemma FoldedLow(whole: seq<int>, low: seq<int>)
    requires |whole| == |low| == 31 && Within(whole, 16 * SQUARE) && low[15..] == whole[15..]
    requires forall k :: 0 <= k < 15 ==> low[k] == whole[k] + 38 * whole[k + 16]
    ensures Within(low[..16], 0x1000_0000_0000) && low[15] == whole[15]
  {
    assert low[15] == low[15..][0] == whole[15..][0];
    forall k | 0 <= k < 16 ensures -0x1000_0000_0000 <= low[..16][k] <= 0x1000_0000_0000 {
      if k < 15 {
        assert -16 * SQUARE <= whole[k + 16] <= 16 * SQUARE;
      }
    }
  }

  /** The lower half of a product with the upper half folded in. */
  method Fold(o: array<int>, t: array<int>)
    requires o.Length == 16 && t.Length == 31 && o != t && Within(t[..], 16 * SQUARE)
    modifies o, t
    ensures Within(o[..], 0x1000_0000_0000) && Fe(o[..]) == Mod(old(Val(t[..])))
  {
    ghost var whole := t[..];
    var i := 0;
    while i < 15
      invariant 0 <= i <= 15
      invariant t[i..] == whole[i..]
      invariant forall k :: 0 <= k < i ==> t[k] == whole[k] + 38 * whole[k + 16]
    {
      assert t[i] == t[i..][0] && t[i + 16] == t[i..][16];
      assert Exact(38 * t[i + 16]) && Exact(t[i] + 38 * t[i + 16]);
      t[i] := t[i] + 38 * t[i + 16];
      i := i + 1;
    }
    assert t[15] == t[15..][0];
    ghost var low := t[..];
    assert low[15..] == whole[15..];
    i := 0;
    while i < 16
      invariant 0 <= i <= 16 && t[..] == low
      invariant o[..i] == low[..i]
    {
      o[i] := t[i];
      i := i + 1;
    }
    assert o[..] == low[..16];
    FoldedLow(whole, low);
    Folded(whole, o[..]);
  }

  /** Two carries bring any folded product into range. */
  lemma CarriedTwice(v: int, s: seq<int>, k: int, r: seq<int>, j: int)
    requires -0x1000_0000_0001 <= k <= 0x1000_0000_0000 && Carried(v, s, k) && Carried(Val(s), r, j)
    ensures Reduced(r) && Mod(Val(r)) == Mod(v)
  {
    CarriedRest(v, s, k);
    Base16();
    CarrySmall(Val(s), r, j);
    ModPlus(v, -2 * k, P);
    ModPlus(Val(s), -2 * j, P);
  }

  /** A number not far outside [0, 2^256) carries at most one way or the other. */
  lemma CarrySmall(v: int, s: seq<int>, k: int)
    requires Carried(v, s, k) && -Base(16) <= v < 2 * Base(16)
    ensures -1 <= k <= 1
  {
    CarriedRest(v, s, k);
    Base16();
  }

  method Mul(o: array<int>, a: array<int>, b: array<int>)
    requires o.Length == 16 && Loose(a[..]) && Loose(b[..])
    modifies o
    ensures Reduced(o[..]) && Fe(o[..]) == FMul(old(Fe(a[..])), old(Fe(b[..])))
  {
    ghost var x, y := Val(a[..]), Val(b[..]);
    FMulOf(x, y);
    var t := Schoolbook(a, b);
    Fold(o, t);
    ghost var v := Val(o[..]);
    WithinBound(o[..], 0x1000_0000_0000);
    ghost var k := Car(o);
    ghost var s := o[..];
    CarryBound(v, s, k, 0x1000_0000_0000);
    CarriedWithin(v, s, k);
    ghost var j := Car(o);
    CarriedTwice(v, s, k, o[..], j);
  }

  lemma CarriedWithin(v: int, s: seq<int>, k: int)
    requires Carried(v, s, k) && -0x1000_0000_0001 <= k <= 0x1000_0000_0000
    ensures Within(s, 0x4_0000_0000_0000)
  {
  }
}
