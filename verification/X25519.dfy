/**
 X25519 of web/crypto.js: the exchange, packing, inversion and the ladder on limb arrays
 in place, proved to return the bytes section 5 of RFC 7748 gives.
 */
module X25519 {
  import opened ModArith
  import opened Limbs
  import opened Field
  import opened Bits32
  import opened LittleEndian
  import Rfc7748

  lemma ReducedInt32(s: seq<int>)
    requires Reduced(s)
    ensures forall i :: 0 <= i < 16 ==> Int32(s[i])
  {
  }

  predicate AllInt32(s: seq<int>) {
    forall i :: 0 <= i < |s| ==> Int32(s[i])
  }

  /** sel25519: the two exchanged when b is 1. */
  method Sel(p: array<int>, q: array<int>, b: int)
    requires p != q && p.Length == q.Length == 16 && AllInt32(p[..]) && AllInt32(q[..]) && (b == 0 || b == 1)
    modifies p, q
    ensures p[..] == old(if b == 1 then q[..] else p[..])
    ensures q[..] == old(if b == 1 then p[..] else q[..])
  {
    var c := Not(b - 1);
    ghost var s, t := p[..], q[..];
    var i := 0;
    while i < 16
      invariant 0 <= i <= 16
      invariant p[i..] == s[i..] && q[i..] == t[i..]
      invariant p[..i] == (if b == 1 then t else s)[..i]
      invariant q[..i] == (if b == 1 then s else t)[..i]
    {
      assert p[i] == p[i..][0] == s[i] && q[i] == q[i..][0] == t[i];
      var x := And(c, Xor(p[i], q[i]));
      Exchange(p[i], q[i], b);
      p[i] := Xor(p[i], x);
      q[i] := Xor(q[i], x);
      i := i + 1;
    }
    assert p[..16] == p[..] && q[..16] == q[..];
    assert s[..16] == s && t[..16] == t;
  }

  // ---------- packing ----------

  /** x >> 16, then its lowest bit: the borrow. */
  function Borrow(x: int): int {
    (x / 0x10000) % 2
  }

  /** Limb i of p. */
  function PLimb(i: nat): int {
    if i == 0 then 0xffed else if i < 15 then 0xffff else 0x7fff
  }

  function PLimbs(i: nat): (s: seq<int>)
    requires i <= 16
    ensures |s| == 16 - i && forall k :: 0 <= k < |s| ==> s[k] == PLimb(i + k)
    decreases 16 - i
  {
    if i == 16 then [] else [PLimb(i)] + PLimbs(i + 1)
  }

  lemma {:induction false} PVal(i: nat)
    requires i < 16
    ensures 2 * Val(PLimbs(i)) == if i == 0 then Base(16) - 38 else Base(16 - i) - 2
    decreases 16 - i
  {
    assert PLimbs(i)[1..] == PLimbs(i + 1);
    if i < 15 {
      PVal(i + 1);
    } else {
      assert PLimbs(16) == [];
    }
  }

  /** m is t - p on the limbs below i, the last of them not yet masked. */
  ghost predicate Subtracting(t: seq<int>, m: seq<int>, i: nat) {
    && |t| == |m| == 16 && 1 <= i <= 16
    && Normal(m[..i - 1]) && -0x10000 <= m[i - 1] <= 0xffff
    && Val(m[..i]) == Val(t[..i]) - Val(PLimbs(0)[..i])
  }

  lemma SubtractStart(t: seq<int>, m: seq<int>)
    requires |t| == |m| == 16 && Normal(t) && m[0] == t[0] - 0xffed
    ensures Subtracting(t, m, 1)
  {
    var p := PLimbs(0);
    assert m[..1] == [m[0]] && t[..1] == [t[0]] && p[..1] == [p[0]];
    ValOne(m[0]);
    ValOne(t[0]);
    ValOne(p[0]);
  }

  /** The borrow moved from limb i - 1 to limb i. */
  lemma BorrowMoves(m: seq<int>, i: nat, x: int)
    requires 1 <= i < |m|
    ensures var b := Borrow(m[i - 1]);
      Val(m[i := x - b][i - 1 := m[i - 1] + 0x10000 * b][..i + 1]) == Val(m[..i]) + Base(i) * x
  {
    var b, raw := Borrow(m[i - 1]), m[..i] + [x];
    CarryMoves(raw, i - 1, -b);
    assert m[i := x - b][i - 1 := m[i - 1] + 0x10000 * b][..i + 1] ==
      raw[i - 1 := raw[i - 1] + 0x10000 * b][i := raw[i] - b];
    ValPush(m[..i], x);
  }

  lemma ValPrefix(s: seq<int>, i: nat)
    requires i < |s|
    ensures Val(s[..i + 1]) == Val(s[..i]) + Base(i) * s[i]
  {
    assert s[..i + 1] == s[..i] + [s[i]];
    ValPush(s[..i], s[i]);
  }

  lemma SubtractStep(t: seq<int>, m: seq<int>, i: nat, d: int)
    requires Subtracting(t, m, i) && i < 16 && Normal(t) && d == t[i] - PLimb(i) - Borrow(m[i - 1])
    ensures Subtracting(t, m[i := d][i - 1 := m[i - 1] % 0x10000], i + 1)
  {
    hide Val, Base, PLimbs;
    var n := m[i := d][i - 1 := m[i - 1] % 0x10000];
    assert m[i - 1] % 0x10000 == m[i - 1] + 0x10000 * Borrow(m[i - 1]);
    BorrowMoves(m, i, t[i] - PLimb(i));
    ValPrefix(t, i);
    ValPrefix(PLimbs(0), i);
    DiffScaled(Base(i), t[i], PLimb(i));
    assert n[..i] == m[..i - 1] + [m[i - 1] % 0x10000];
  }

  lemma DiffScaled(b: int, x: int, y: int)
    ensures b * (x - y) == b * x - b * y
  {
  }

  lemma TopLimb(v: int, lo: int, top: int, b: int)
    requires 0 <= lo < b && v == lo + b * top
    ensures v < 0 <==> top < 0
  {
    if top < 0 {
      MulOrder(top, -1, b);
    } else {
      MulOrder(0, top, b);
    }
  }

  lemma SubtractTotal(t: seq<int>, m: seq<int>)
    requires Subtracting(t, m, 16)
    ensures Val(m) == Val(t) - P
  {
    var p := PLimbs(0);
    assert m[..16] == m && t[..16] == t && p[..16] == p;
    PVal(0);
    Base16();
  }

  lemma TopSign(m: seq<int>)
    requires |m| == 16 && Normal(m[..15])
    ensures Val(m) < 0 <==> m[15] < 0
  {
    ValPrefix(m, 15);
    assert m[..16] == m;
    NormalBounds(m[..15]);
    TopLimb(Val(m), Val(m[..15]), m[15], Base(15));
  }

  lemma TopNormal(m: seq<int>)
    requires |m| == 16 && Normal(m[..15]) && 0 <= m[15] <= 0xffff
    ensures Normal(m)
  {
    assert m == m[..15] + [m[15]];
  }

  /** The borrow out of the last limb says whether m, all of t - p, is negative. */
  lemma LastBorrow(m: seq<int>)
    requires |m| == 16 && Normal(m[..15]) && -0x8000 <= m[15] <= 0x8000
    ensures Borrow(m[15]) == (if Val(m) < 0 then 1 else 0)
    ensures Val(m) >= 0 ==> Normal(m)
  {
    TopSign(m);
    if m[15] >= 0 {
      TopNormal(m);
    }
  }

  /** The inner loop of pack25519: t - p in m, and whether it borrowed. */
  method Subtract(m: array<int>, t: array<int>) returns (b: int)
    requires t != m && t.Length == m.Length == 16 && Normal(t[..])
    modifies m
    ensures b == if Val(t[..]) < P then 1 else 0
    ensures b == 0 ==> Normal(m[..]) && Val(m[..]) == Val(t[..]) - P
    ensures AllInt32(t[..]) && AllInt32(m[..])
  {
    ghost var s := t[..];
    m[0] := t[0] - 0xffed;
    SubtractStart(s, m[..]);
    var i := 1;
    while i < 15
      invariant 1 <= i <= 15 && t[..] == s && Subtracting(s, m[..], i)
    {
      ghost var was := m[..];
      var d := t[i] - 0xffff - Borrow(m[i - 1]);
      SubtractStep(s, was, i, d);
      m[i] := d;
      m[i - 1] := m[i - 1] % 0x10000;
      assert m[..] == was[i := d][i - 1 := was[i - 1] % 0x10000];
      i := i + 1;
    }
    ghost var was := m[..];
    var d := t[15] - 0x7fff - Borrow(m[14]);
    SubtractStep(s, was, 15, d);
    m[15] := d;
    b := Borrow(m[15]);
    m[14] := m[14] % 0x10000;
    assert m[..] == was[15 := d][14 := was[14] % 0x10000];
    SubtractTotal(s, m[..]);
    LastBorrow(m[..]);
    SubtractedInt32(s, m[..]);
  }

  /** One pass of pack25519's loop: t - p in m, exchanged for t unless it borrows. */
  method SubtractP(t: array<int>, m: array<int>)
    requires t != m && t.Length == m.Length == 16 && Normal(t[..])
    modifies t, m
    ensures Normal(t[..])
    ensures Val(t[..]) == old(if Val(t[..]) >= P then Val(t[..]) - P else Val(t[..]))
  {
    var b := Subtract(m, t);
    Sel(t, m, 1 - b);
  }

  lemma SubtractedInt32(t: seq<int>, m: seq<int>)
    requires Subtracting(t, m, 16) && Normal(t)
    ensures AllInt32(t) && AllInt32(m)
  {
    forall i | 0 <= i < 16 ensures Int32(m[i]) {
      if i < 15 {
        assert m[i] == m[..15][i];
      }
    }
  }

  lemma LowLimbSafe(v: int, k: int, b15: int, low: int, rest: int)
    requires -38 <= v < 0x10000 * b15 + 38 && 0 <= low <= 65535 && 0 <= rest < b15
    requires low + 0x10000 * rest == v - k * (0x10000 * b15) && -1 <= k <= 1
    ensures 0 <= low + 38 * k <= 65535
  {
  }

  lemma ReducedBounds(s: seq<int>)
    requires |s| == 16 && (Reduced(s) || Normal(s))
    ensures -38 <= Val(s) < Base(16) + 38
  {
    var z := s[0 := 0];
    ValUpdate(s, 0, -s[0]);
    assert s[0 := s[0] + -s[0]] == z;
    HighLimbs(z);
  }

  /** A reduced element's carry leaves every limb in range. */
  lemma CarriedNormal(s: seq<int>, r: seq<int>, k: int)
    requires |s| == 16 && (Reduced(s) || Normal(s)) && Carried(Val(s), r, k)
    ensures Normal(r) && Mod(Val(r)) == Mod(Val(s))
  {
    ReducedBounds(s);
    CarrySmall(Val(s), r, k) by { Base16(); }
    CarriedRest(Val(s), r, k);
    ModPlus(Val(s), -2 * k, P);
    CarriedLow(Val(s), r, k);
  }

  lemma CarriedLow(v: int, r: seq<int>, k: int)
    requires Carried(v, r, k) && -1 <= k <= 1 && -38 <= v < Base(16) + 38
    ensures 0 <= r[0] <= 65535
  {
    CarriedRest(v, r, k);
    ValFirst(r);
    NormalBounds(r[1..]);
    BaseNext(15);
    LowLimbSafe(v, k, Base(15), r[0] - 38 * k, Val(r[1..]));
  }

  /** With the lowest limb zero the others give at most 2^256 - 65536. */
  lemma HighLimbs(z: seq<int>)
    requires |z| == 16 && Normal(z) && z[0] == 0
    ensures 0 <= Val(z) <= Base(16) - 0x10000
  {
    ValFirst(z);
    NormalBounds(z[1..]);
    BaseNext(15);
  }

  // ---------- bytes ----------

  function BytesOf(s: seq<int>): (b: seq<byte>)
    requires Normal(s)
    ensures |b| == 2 * |s|
  {
    if s == [] then [] else BytesOf(s[..|s| - 1]) + [s[|s| - 1] % 256, s[|s| - 1] / 256]
  }

  lemma ScaleStep(first: int, x: int, p: int, y: int)
    ensures first + 256 * (x + p * y) == first + 256 * x + (256 * p) * y
  {
    MulAssoc(256, p, y);
  }

  lemma {:induction false} DecodeAppend(a: seq<byte>, b: seq<byte>)
    ensures DecodeLittleEndian(a + b) == DecodeLittleEndian(a) + Pow256(|a|) * DecodeLittleEndian(b)
  {
    if a == [] {
      assert a + b == b;
    } else {
      DecodeAppend(a[1..], b);
      assert (a + b)[1..] == a[1..] + b;
      ScaleStep(a[0], DecodeLittleEndian(a[1..]), Pow256(|a| - 1), DecodeLittleEndian(b));
    }
  }

  lemma DecodeTwo(b: seq<byte>)
    requires |b| == 2
    ensures DecodeLittleEndian(b) == Pair(b[0], b[1])
  {
    var tail := b[1..];
    assert tail[1..] == [];
    assert DecodeLittleEndian(tail) == b[1];
  }

  lemma {:induction false} BytesVal(s: seq<int>)
    requires Normal(s)
    ensures DecodeLittleEndian(BytesOf(s)) == Val(s) && Pow256(2 * |s|) == Base(|s|)
  {
    if s != [] {
      var n := |s| - 1;
      var x := s[n];
      BytesVal(s[..n]);
      assert s == s[..n] + [x];
      ValPush(s[..n], x);
      DecodeAppend(BytesOf(s[..n]), [x % 256, x / 256]);
      DecodeTwo([x % 256, x / 256]);
      assert Pow256(2 * |s|) == 256 * (256 * Pow256(2 * n));
    }
  }

  function Pair(lo: int, hi: int): int {
    lo + 256 * hi
  }

  /** The first half of pack25519: a copy, carried three times. */
  method CarryThrice(n: array<int>) returns (t: array<int>)
    requires Reduced(n[..])
    ensures fresh(t) && t.Length == 16 && Normal(t[..]) && Fe(t[..]) == Fe(n[..])
  {
    t := new int[16](_ => 0);
    var i := 0;
    while i < 16
      invariant 0 <= i <= 16 && t[..i] == n[..i]
    {
      t[i] := n[i];
      i := i + 1;
    }
    assert t[..] == t[..16] == n[..16] == n[..];
    ghost var s := t[..];
    ghost var k := Car(t);
    CarriedNormal(s, t[..], k);
    s := t[..];
    k := Car(t);
    CarriedNormal(s, t[..], k);
    s := t[..];
    k := Car(t);
    CarriedNormal(s, t[..], k);
  }

  /** The last loop of pack25519. */
  method WriteBytes(o: array<byte>, t: array<int>)
    requires o.Length == 32 && t.Length == 16 && Normal(t[..])
    modifies o
    ensures o[..] == BytesOf(t[..])
  {
    var i := 0;
    while i < 16
      invariant 0 <= i <= 16 && Normal(t[..]) && o[..2 * i] == BytesOf(t[..i])
    {
      ghost var done := o[..2 * i];
      assert 0 <= t[..][i] <= 0xffff;
      o[2 * i] := t[i] % 256;
      o[2 * i + 1] := t[i] / 256 % 256;
      i := i + 1;
      assert t[..i][..i - 1] == t[..i - 1];
      assert o[..2 * i] == done + [t[i - 1] % 256, t[i - 1] / 256];
    }
    assert t[..16] == t[..] && o[..32] == o[..];
  }

  /** pack25519: the canonical bytes of a field element. */
  method Pack(o: array<byte>, n: array<int>)
    requires o.Length == 32 && Reduced(n[..])
    modifies o
    ensures o[..] == EncodeLittleEndian(Fe(n[..]), 32)
  {
    hide Val, EncodeLittleEndian;
    ghost var x := Fe(n[..]);
    var m := new int[16](_ => 0);
    var t := CarryThrice(n);
    ghost var v := Val(t[..]);
    NormalBounds(t[..]);
    Base16();
    SubtractP(t, m);
    SubtractP(t, m);
    Canonical(v, Val(t[..]));
    WriteBytes(o, t);
    BytesVal(t[..]);
    EncodeDecode(o[..]);
  }

  /** A number below 2^256 with p taken off while it can be, twice, is its residue. */
  lemma Canonical(v: int, r: int)
    requires 0 <= v < 2 * P + 38
    requires var once := if v >= P then v - P else v; r == if once >= P then once - P else once
    ensures r == Mod(v)
  {
    ModIs(v, P, if v >= 2 * P then 2 else if v >= P then 1 else 0);
  }

  /** unpack25519: the top bit is dropped. */
  method Unpack(o: array<int>, n: seq<byte>)
    requires o.Length == 16 && |n| == 32
    modifies o
    ensures Reduced(o[..]) && Fe(o[..]) == Rfc7748.DecodeU(n)
  {
    ghost var masked: seq<byte> := n[31 := n[31] % 128];
    var i := 0;
    while i < 16
      invariant 0 <= i <= 16
      invariant forall k :: 0 <= k < i ==> o[k] == Pair(n[2 * k], n[2 * k + 1])
    {
      o[i] := Pair(n[2 * i], n[2 * i + 1]);
      i := i + 1;
    }
    o[15] := o[15] % 0x8000;
    assert o[15] == Pair(masked[30], masked[31]);
    LimbsOfBytes(o[..], masked);
    BytesVal(o[..]);
  }

  lemma {:induction false} LimbsOfBytes(s: seq<int>, b: seq<byte>)
    requires |b| == 2 * |s| && forall k :: 0 <= k < |s| ==> s[k] == Pair(b[2 * k], b[2 * k + 1])
    ensures Normal(s) && BytesOf(s) == b
  {
    if s != [] {
      var n := |s| - 1;
      LimbsOfBytes(s[..n], b[..2 * n]);
      assert s[n] == Pair(b[2 * n], b[2 * n + 1]);
      assert s == s[..n] + [s[n]];
      assert s[n] % 256 == b[2 * n] && s[n] / 256 == b[2 * n + 1];
      assert b == b[..2 * n] + [b[2 * n], b[2 * n + 1]];
    }
  }
}
