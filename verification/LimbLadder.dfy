/**
 The exponentiation and the ladder of web/crypto.js, in place on limb arrays, against
 the ladder of RFC 7748.
 */
module LimbLadder {
  import opened ModArith
  import opened Limbs
  import opened Field
  import opened X25519
  import opened LittleEndian
  import Rfc7748

  // ---------- inversion ----------

  /** The exponent reached with k passes of inv25519's loop to go. */
  function Exponent(k: nat): int
    requires k <= 254
  {
    Pow2(255 - k) - (match k case 4 => 2 case 3 => 3 case 2 => 6 case 1 => 11 case 0 => 21 case _ => 1)
  }

  lemma ExponentStep(k: nat)
    requires 1 <= k <= 254
    ensures Exponent(k) >= 1 && Exponent(k - 1) == 2 * Exponent(k) + if k - 1 == 2 || k - 1 == 4 then 0 else 1
  {
    if k <= 4 {
      Pow2Add(5, 250 - k);
    }
  }

  lemma Pow31()
    ensures Pow2(31) == 0x8000_0000
  {
    assert Pow2(8) == 0x100 && Pow2(7) == 0x80;
    Pow2Add(7, 8);
    Pow2Add(15, 8);
    Pow2Add(23, 8);
  }

  lemma Pow124()
    ensures Pow2(124) == 0x1000_0000_0000_0000_0000_0000_0000_0000
  {
    Pow31();
    Pow2Add(31, 31);
    Pow2Add(62, 62);
  }

  lemma Pow255()
    ensures Pow2(255) == P + 19
  {
    Pow124();
    Pow2Add(124, 124);
    Pow2Add(248, 7);
    assert Pow2(7) == 0x80;
  }

  lemma FPowDouble(x: Residue, e: nat)
    ensures FMul(FPow(x, e), FPow(x, e)) == FPow(x, 2 * e)
    ensures FMul(FPow(x, 2 * e), x) == FPow(x, 2 * e + 1)
  {
    FPowAdd(x, e, e);
    FPowAdd(x, 2 * e, 1);
    assert Pow(x, 1) == x;
    ModIs(x, P, 0);
  }

  /** What inv25519 holds with k passes to go. */
  function Powered(x: Residue, k: nat): Residue
    requires k <= 254
    decreases 254 - k
  {
    if k == 254 then x
    else
      var s := FMul(Powered(x, k + 1), Powered(x, k + 1));
      if k == 2 || k == 4 then s else FMul(s, x)
  }

  lemma {:induction false} PoweredIs(x: Residue, k: nat)
    requires k <= 254
    ensures Exponent(k) >= 1 && Powered(x, k) == FPow(x, Exponent(k))
    decreases 254 - k
  {
    if k == 254 {
      assert Pow2(1) == 2 && Pow(x, 1) == x;
      ModIs(x, P, 0);
    } else {
      PoweredIs(x, k + 1);
      ExponentStep(k + 1);
      FPowDouble(x, Exponent(k + 1));
    }
  }

  lemma PoweredEnds(x: Residue)
    ensures Powered(x, 0) == FPow(x, P - 2)
  {
    PoweredIs(x, 0);
    Pow255();
  }

  lemma PoweredStep(x: Residue, k: nat)
    requires k < 254
    ensures var s := FMul(Powered(x, k + 1), Powered(x, k + 1));
      Powered(x, k) == if k == 2 || k == 4 then s else FMul(s, x)
  {
  }

  /** The loop of inv25519: squaring, and multiplying but twice. */
  method Raise(c: array<int>, inp: array<int>)
    requires c != inp && Reduced(c[..]) && Reduced(inp[..]) && Fe(c[..]) == Fe(inp[..])
    modifies c
    ensures Reduced(c[..]) && Fe(c[..]) == Powered(Fe(inp[..]), 0)
  {
    ghost var x := Fe(inp[..]);
    var a := 253;
    while a >= 0
      invariant -1 <= a <= 253
      invariant Reduced(c[..]) && Fe(c[..]) == Powered(x, a + 1)
    {
      Mul(c, c, c);
      if a != 2 && a != 4 {
        Mul(c, c, inp);
      }
      PoweredStep(x, a);
      a := a - 1;
    }
  }

  /** inv25519: the power p - 2; o may be inp. */
  method Invert(o: array<int>, inp: array<int>)
    requires o.Length == 16 && Reduced(inp[..])
    modifies o
    ensures Reduced(o[..]) && Fe(o[..]) == FPow(old(Fe(inp[..])), P - 2)
  {
    var c := new int[16](i requires 0 <= i < 16 reads inp => inp[i]);
    assert c[..] == inp[..];
    PoweredEnds(Fe(inp[..]));
    Raise(c, inp);
    ghost var s := c[..];
    var i := 0;
    while i < 16
      invariant 0 <= i <= 16 && c[..] == s && o[..i] == s[..i]
    {
      o[i] := c[i];
      i := i + 1;
    }
    assert o[..] == o[..16] == s[..16] == s;
  }

  // ---------- one rung ----------

  /** The formulas of the loop's body between its two exchanges, first half: up to CB and DA. */
  method RungProducts(a: array<int>, b: array<int>, c: array<int>, d: array<int>, e: array<int>, f: array<int>)
    requires a.Length == b.Length == c.Length == d.Length == e.Length == f.Length == 16
    requires a != b && a != c && a != d && a != e && a != f && b != c && b != d && b != e && b != f
    requires c != d && c != e && c != f && d != e && d != f && e != f
    requires Reduced(a[..]) && Reduced(b[..]) && Reduced(c[..]) && Reduced(d[..])
    modifies a, b, c, d, e, f
    ensures Reduced(a[..]) && Reduced(c[..]) && Reduced(d[..]) && Reduced(f[..])
    ensures Fe(d[..]) == old(FMul(FAdd(Fe(a[..]), Fe(c[..])), FAdd(Fe(a[..]), Fe(c[..]))))
    ensures Fe(f[..]) == old(FMul(FSub(Fe(a[..]), Fe(c[..])), FSub(Fe(a[..]), Fe(c[..]))))
    ensures Fe(a[..]) == old(FMul(FAdd(Fe(b[..]), Fe(d[..])), FSub(Fe(a[..]), Fe(c[..]))))
    ensures Fe(c[..]) == old(FMul(FSub(Fe(b[..]), Fe(d[..])), FAdd(Fe(a[..]), Fe(c[..]))))
  {
    Sum(e, a, c);
    Diff(a, a, c);
    Sum(c, b, d);
    Diff(b, b, d);
    Mul(d, e, e);
    Mul(f, a, a);
    Mul(a, c, a);
    Mul(c, b, e);
  }

  /** The second half: from CB, DA, AA and BB to the next pairs; g holds 121665. */
  method RungPairs(a: array<int>, b: array<int>, c: array<int>, d: array<int>, e: array<int>, f: array<int>,
      g: array<int>, x: array<int>)
    requires a.Length == b.Length == c.Length == d.Length == e.Length == f.Length == 16
    requires a != b && a != c && a != d && a != e && a != f && b != c && b != d && b != e && b != f
    requires c != d && c != e && c != f && d != e && d != f && e != f
    requires g !in {a, b, c, d, e, f} && x !in {a, b, c, d, e, f}
    requires Reduced(a[..]) && Reduced(c[..]) && Reduced(d[..]) && Reduced(f[..])
    requires Reduced(g[..]) && Reduced(x[..])
    modifies a, b, c, d, e, f
    ensures Reduced(a[..]) && Reduced(b[..]) && Reduced(c[..]) && Reduced(d[..])
    ensures Fe(a[..]) == old(FMul(Fe(d[..]), Fe(f[..])))
    ensures Fe(b[..]) == old(FMul(FAdd(Fe(a[..]), Fe(c[..])), FAdd(Fe(a[..]), Fe(c[..]))))
    ensures Fe(c[..]) == old(var E := FSub(Fe(d[..]), Fe(f[..])); FMul(E, FAdd(FMul(E, Fe(g[..])), Fe(d[..]))))
    ensures Fe(d[..]) == old(FMul(FMul(FSub(Fe(a[..]), Fe(c[..])), FSub(Fe(a[..]), Fe(c[..]))), Fe(x[..])))
  {
    Sum(e, a, c);
    Diff(a, a, c);
    Mul(b, a, a);
    Diff(c, d, f);
    Mul(a, c, g);
    Sum(a, a, d);
    Mul(c, c, a);
    Mul(a, d, f);
    Mul(d, b, x);
    Mul(b, e, e);
  }

  // ---------- the ladder ----------

  /** The four arrays hold the pairs of a rung: a, c the first, b, d the second. */
  ghost predicate Holds(a: seq<int>, b: seq<int>, c: seq<int>, d: seq<int>, s: Rfc7748.Ladder) {
    && Reduced(a) && Reduced(b) && Reduced(c) && Reduced(d)
    && Fe(a) == s.x2 && Fe(c) == s.z2 && Fe(b) == s.x3 && Fe(d) == s.z3
  }

  /** The order of the factors in the code and in the RFC makes no difference. */
  lemma RungAgrees(s: Rfc7748.Ladder, x1: Residue)
    ensures var r := Rfc7748.Rung(s, x1);
      var AA := FMul(FAdd(s.x2, s.z2), FAdd(s.x2, s.z2));
      var BB := FMul(FSub(s.x2, s.z2), FSub(s.x2, s.z2));
      var CB := FMul(FAdd(s.x3, s.z3), FSub(s.x2, s.z2));
      var DA := FMul(FSub(s.x3, s.z3), FAdd(s.x2, s.z2));
      var E := FSub(AA, BB);
      && r.x2 == FMul(AA, BB)
      && r.z2 == FMul(E, FAdd(FMul(E, Rfc7748.A24), AA))
      && r.x3 == FMul(FAdd(CB, DA), FAdd(CB, DA))
      && r.z3 == FMul(FMul(FSub(CB, DA), FSub(CB, DA)), x1)
  {
    var CB := FMul(FAdd(s.x3, s.z3), FSub(s.x2, s.z2));
    var DA := FMul(FSub(s.x3, s.z3), FAdd(s.x2, s.z2));
    SquareOfSub(CB, DA);
    FMulCommutes(FMul(FSub(CB, DA), FSub(CB, DA)), x1);
    var E := FSub(FMul(FAdd(s.x2, s.z2), FAdd(s.x2, s.z2)), FMul(FSub(s.x2, s.z2), FSub(s.x2, s.z2)));
    FMulCommutes(E, Rfc7748.A24);
  }

  /** One pass of the loop: exchange, rung, exchange back. */
  method Pass(a: array<int>, b: array<int>, c: array<int>, d: array<int>, e: array<int>, f: array<int>, g: array<int>,
      x: array<int>,
              r: int, ghost s: Rfc7748.Ladder)
    requires a.Length == b.Length == c.Length == d.Length == e.Length == f.Length == 16
    requires a != b && a != c && a != d && a != e && a != f && b != c && b != d && b != e && b != f
    requires c != d && c != e && c != f && d != e && d != f && e != f
    requires g !in {a, b, c, d, e, f} && x !in {a, b, c, d, e, f}
    requires Holds(a[..], b[..], c[..], d[..], s) && Reduced(g[..]) && Reduced(x[..]) && Fe(g[..]) == Rfc7748.A24
    requires r == 0 || r == 1
    modifies a, b, c, d, e, f
    ensures Holds(a[..], b[..], c[..], d[..], Rfc7748.CSwap(r, Rfc7748.Rung(Rfc7748.CSwap(r, s), Fe(x[..]))))
  {
    ReducedInt32(a[..]);
    ReducedInt32(b[..]);
    ReducedInt32(c[..]);
    ReducedInt32(d[..]);
    Sel(a, b, r);
    Sel(c, d, r);
    ghost var t := Rfc7748.CSwap(r, s);
    assert Holds(a[..], b[..], c[..], d[..], t);
    RungProducts(a, b, c, d, e, f);
    RungPairs(a, b, c, d, e, f, g, x);
    RungAgrees(t, Fe(x[..]));
    ghost var u := Rfc7748.Rung(t, Fe(x[..]));
    assert Holds(a[..], b[..], c[..], d[..], u);
    ReducedInt32(a[..]);
    ReducedInt32(b[..]);
    ReducedInt32(c[..]);
    ReducedInt32(d[..]);
    Sel(a, b, r);
    Sel(c, d, r);
  }

  predicate SameRungs(s: Rfc7748.Ladder, t: Rfc7748.Ladder) {
    s.x2 == t.x2 && s.z2 == t.z2 && s.x3 == t.x3 && s.z3 == t.z3
  }

  lemma RungSame(s: Rfc7748.Ladder, t: Rfc7748.Ladder, x1: Residue)
    requires SameRungs(s, t)
    ensures SameRungs(Rfc7748.Rung(s, x1), Rfc7748.Rung(t, x1))
  {
  }

  /** Exchanging twice is exchanging once by the sum. */
  lemma SwapTwice(s: Rfc7748.Ladder, p: nat, r: nat)
    requires p <= 1 && r <= 1
    ensures SameRungs(Rfc7748.CSwap(r, Rfc7748.CSwap(p, s)), Rfc7748.CSwap((p + r) % 2, s))
  {
  }

  /** One pass from a state with a pending exchange: doing it at once or later comes to the same. */
  lemma PassDeferred(s: Rfc7748.Ladder, x1: Residue, r: nat)
    requires s.swap <= 1 && r <= 1
    ensures SameRungs(Rfc7748.Rung(Rfc7748.CSwap(r, Rfc7748.CSwap(s.swap, s)), x1),
      Rfc7748.Rung(Rfc7748.CSwap((s.swap + r) % 2, s), x1))
  {
    SwapTwice(s, s.swap, r);
    RungSame(Rfc7748.CSwap(r, Rfc7748.CSwap(s.swap, s)), Rfc7748.CSwap((s.swap + r) % 2, s), x1);
  }

  lemma CSwapSame(s: Rfc7748.Ladder, t: Rfc7748.Ladder, r: nat)
    requires SameRungs(s, t)
    ensures SameRungs(Rfc7748.CSwap(r, s), Rfc7748.CSwap(r, t.(swap := r)))
  {
  }

  lemma ClimbStep(k: nat, x1: Residue, left: nat)
    requires left < 255
    ensures var s := Rfc7748.Climb(k, x1, left + 1);
      var kt := Rfc7748.Bit(k, left);
      Rfc7748.Climb(k, x1, left) == Rfc7748.Rung(Rfc7748.CSwap((s.swap + kt) % 2, s), x1).(swap := kt)
  {
  }

  /** What the code holds with left bits to go: the RFC's state with its pending exchange done. */
  function Code(k: nat, x1: Residue, left: nat): Rfc7748.Ladder
    requires left <= 255
  {
    var s := Rfc7748.Climb(k, x1, left);
    Rfc7748.CSwap(s.swap, s)
  }

  /** A pass of the code takes its state to the next, for any bit r and pending exchange. */
  lemma DeferredStep(s: Rfc7748.Ladder, x1: Residue, r: nat)
    requires s.swap <= 1 && r <= 1
    ensures var now := Rfc7748.Rung(Rfc7748.CSwap((s.swap + r) % 2, s), x1).(swap := r);
      SameRungs(Rfc7748.CSwap(r, Rfc7748.Rung(Rfc7748.CSwap(r, Rfc7748.CSwap(s.swap, s)), x1)),
        Rfc7748.CSwap(now.swap, now))
  {
    PassDeferred(s, x1, r);
    CSwapSame(Rfc7748.Rung(Rfc7748.CSwap(r, Rfc7748.CSwap(s.swap, s)), x1),
      Rfc7748.Rung(Rfc7748.CSwap((s.swap + r) % 2, s), x1), r);
  }

  lemma Deferred(k: nat, x1: Residue, left: nat)
    requires left < 255
    ensures var r := Rfc7748.Bit(k, left);
      SameRungs(Rfc7748.CSwap(r, Rfc7748.Rung(Rfc7748.CSwap(r, Code(k, x1, left + 1)), x1)), Code(k, x1, left))
  {
    Rfc7748.BitIsBit(k, left);
    SwapIsBit(k, x1, left + 1);
    ClimbStep(k, x1, left);
    DeferredStep(Rfc7748.Climb(k, x1, left + 1), x1, Rfc7748.Bit(k, left));
  }

  lemma HoldsSame(a: seq<int>, b: seq<int>, c: seq<int>, d: seq<int>, s: Rfc7748.Ladder, t: Rfc7748.Ladder)
    requires Holds(a, b, c, d, s) && SameRungs(s, t)
    ensures Holds(a, b, c, d, t)
  {
  }

  lemma SwapIsBit(k: nat, x1: Residue, left: nat)
    requires left <= 255
    ensures Rfc7748.Climb(k, x1, left).swap <= 1
  {
    if left < 255 {
      Rfc7748.BitIsBit(k, left);
    }
  }

  /** The clamped scalar's bytes. */
  method Clamp(n: seq<byte>) returns (z: array<byte>)
    requires |n| == 32
    ensures fresh(z) && z[..] == Rfc7748.Clamped(n)
  {
    z := new byte[32](i requires 0 <= i < 32 => n[i]);
    z[31] := n[31] % 128 % 64 + 64;
    z[0] := z[0] - z[0] % 8;
    assert z[..] == Rfc7748.Clamped(n);
  }

  lemma {:induction false} BitShifted(k: nat, t: nat)
    ensures Rfc7748.Bit(k, t) == (k / Pow2(t)) % 2
    decreases t
  {
    if t > 0 {
      BitShifted(k / 2, t - 1);
      HalfThenShift(k, Pow2(t - 1));
    }
  }

  lemma HalfThenShift(k: nat, p: nat)
    requires p > 0
    ensures k / 2 / p == k / (2 * p)
  {
    var q, r := k / 2 / p, k / 2 % p;
    assert k / 2 == q * p + r;
    ModIs(k, 2 * p, q) by {
      assert q * (2 * p) == 2 * (q * p);
    }
  }

  /** x25519: for every scalar and every point the bytes of RFC 7748. */
  method Multiply(n: seq<byte>, p: seq<byte>) returns (q: array<byte>)
    requires |n| == 32 && |p| == 32
    ensures fresh(q) && q[..] == Rfc7748.X25519(n, p)
  {
    var z := Clamp(n);
    q := new byte[32](_ => 0);
    var x := new int[16](_ => 0);
    Unpack(x, p);
    var a, b, c, d := new int[16](_ => 0), new int[16](_ => 0), new int[16](_ => 0), new int[16](_ => 0);
    var e, f := new int[16](_ => 0), new int[16](_ => 0);
    var g := Constant();
    Load(a, b, c, d, x);
    Climbing(z, a, b, c, d, e, f, g, x);
    ghost var s := Rfc7748.Climb(Rfc7748.DecodeScalar(n), Rfc7748.DecodeU(p), 0);
    Divide(q, a, c, s);
  }

  /** The end of x25519: a divided by c, packed. */
  method Divide(q: array<byte>, a: array<int>, c: array<int>, ghost s: Rfc7748.Ladder)
    requires q.Length == 32 && a.Length == c.Length == 16 && a != c
    requires var r := Rfc7748.CSwap(s.swap, s);
      Reduced(a[..]) && Reduced(c[..]) && Fe(a[..]) == r.x2 && Fe(c[..]) == r.z2
    modifies q, a, c
    ensures q[..] == EncodeLittleEndian(Rfc7748.Outcome(s), 32)
  {
    Invert(c, c);
    Mul(a, a, c);
    Pack(q, a);
  }

  /** The body of the loop for one bit r of the scalar. */
  method Climb(a: array<int>, b: array<int>, c: array<int>, d: array<int>, e: array<int>, f: array<int>, g: array<int>,
      x: array<int>,
               r: int, ghost k: nat, i: nat)
    requires a.Length == b.Length == c.Length == d.Length == e.Length == f.Length == 16 && i < 255
    requires a != b && a != c && a != d && a != e && a != f && b != c && b != d && b != e && b != f
    requires c != d && c != e && c != f && d != e && d != f && e != f
    requires g !in {a, b, c, d, e, f} && x !in {a, b, c, d, e, f}
    requires Reduced(g[..]) && Reduced(x[..]) && Fe(g[..]) == Rfc7748.A24
    requires Holds(a[..], b[..], c[..], d[..], Code(k, Fe(x[..]), i + 1)) && r == Rfc7748.Bit(k, i)
    modifies a, b, c, d, e, f
    ensures Holds(a[..], b[..], c[..], d[..], Code(k, Fe(x[..]), i))
  {
    Rfc7748.BitIsBit(k, i);
    ghost var x1, s := Fe(x[..]), Code(k, Fe(x[..]), i + 1);
    Pass(a, b, c, d, e, f, g, x, r, s);
    Deferred(k, x1, i);
    HoldsSame(a[..], b[..], c[..], d[..], Rfc7748.CSwap(r, Rfc7748.Rung(Rfc7748.CSwap(r, s), x1)), Code(k, x1, i));
  }

  /** The loop over the scalar's bits, highest first. */
  method Climbing(z: array<byte>, a: array<int>, b: array<int>, c: array<int>, d: array<int>, e: array<int>,
      f: array<int>, g: array<int>, x: array<int>)
    requires a.Length == b.Length == c.Length == d.Length == e.Length == f.Length == 16 && z.Length == 32
    requires a != b && a != c && a != d && a != e && a != f && b != c && b != d && b != e && b != f
    requires c != d && c != e && c != f && d != e && d != f && e != f
    requires g !in {a, b, c, d, e, f} && x !in {a, b, c, d, e, f}
    requires Reduced(g[..]) && Reduced(x[..]) && Fe(g[..]) == Rfc7748.A24
    requires Holds(a[..], b[..], c[..], d[..], Rfc7748.Ladder(1, 0, Fe(x[..]), 1, 0))
    modifies a, b, c, d, e, f
    ensures Holds(a[..], b[..], c[..], d[..], Code(DecodeLittleEndian(z[..]), old(Fe(x[..])), 0))
  {
    ghost var k, x1, xs, gs := DecodeLittleEndian(z[..]), Fe(x[..]), x[..], g[..];
    var i := 254;
    while i >= 0
      invariant -1 <= i <= 254
      invariant x[..] == xs && g[..] == gs
      invariant Holds(a[..], b[..], c[..], d[..], Code(k, x1, i + 1))
    {
      var r := z[i / 8] / Pow2(i % 8) % 2;
      ScalarBit(z[..], i);
      Climb(a, b, c, d, e, f, g, x, r, k, i);
      i := i - 1;
    }
  }

  lemma ScalarBit(z: seq<byte>, i: nat)
    requires i < 8 * |z|
    ensures z[i / 8] / Pow2(i % 8) % 2 == Rfc7748.Bit(DecodeLittleEndian(z), i)
  {
    BitShifted(z[i / 8], i % 8);
    Rfc7748.BitOfBytes(z, i);
  }

  /** The ladder's first rung: 1, 0 and x, 1. */
  method Clear(a: array<int>, b: array<int>, c: array<int>, d: array<int>, x: array<int>)
    requires a.Length == b.Length == c.Length == d.Length == x.Length == 16
    requires a != b && a != c && a != d && b != c && b != d && c != d && x !in {a, b, c, d}
    modifies a, b, c, d
    ensures a[..] == c[..] == d[..] == Zeroes(16) && b[..] == x[..]
  {
    var i := 0;
    while i < 16
      invariant 0 <= i <= 16
      invariant a[..i] == c[..i] == d[..i] == Zeroes(i) && b[..i] == x[..i]
    {
      b[i] := x[i];
      d[i], a[i], c[i] := 0, 0, 0;
      i := i + 1;
    }
    assert b[..] == b[..16] == x[..16] == x[..];
    assert a[..] == a[..16] && c[..] == c[..16] && d[..] == d[..16];
  }

  /** The start of the ladder. */
  method Load(a: array<int>, b: array<int>, c: array<int>, d: array<int>, x: array<int>)
    requires a.Length == b.Length == c.Length == d.Length == 16
    requires a != b && a != c && a != d && b != c && b != d && c != d
    requires x !in {a, b, c, d} && Reduced(x[..])
    modifies a, b, c, d
    ensures Holds(a[..], b[..], c[..], d[..], Rfc7748.Ladder(1, 0, Fe(x[..]), 1, 0))
  {
    hide Fe, Zeroes;
    Clear(a, b, c, d, x);
    a[0], d[0] := 1, 1;
    assert a[..] == d[..] == Zeroes(16)[0 := 1];
    SmallVals();
  }

  /** _121665. */
  method Constant() returns (g: array<int>)
    ensures fresh(g) && Reduced(g[..]) && Fe(g[..]) == Rfc7748.A24
  {
    g := new int[16](_ => 0);
    g[0], g[1] := 0xdb41, 1;
    assert g[..] == Zeroes(16)[0 := 0xdb41][1 := 1];
    ConstantVal();
  }

  function Zeroes(n: nat): (s: seq<int>)
    ensures |s| == n && forall i :: 0 <= i < n ==> s[i] == 0
  {
    seq(n, _ => 0)
  }

  lemma FeSmall(s: seq<int>, n: int)
    requires Val(s) == n && 0 <= n < 0x1_0000_0000
    ensures Fe(s) == n
  {
    ModIs(n, P, 0);
  }

  lemma SmallVals()
    ensures Fe(Zeroes(16)) == 0 && Fe(Zeroes(16)[0 := 1]) == 1
  {
    var z := Zeroes(16);
    ZeroLimbs(z);
    ValUpdate(z, 0, 1);
    FeSmall(z, 0);
    FeSmall(z[0 := 1], 1);
  }

  lemma ConstantVal()
    ensures Fe(Zeroes(16)[0 := 0xdb41][1 := 1]) == Rfc7748.A24
  {
    var z := Zeroes(16);
    ZeroLimbs(z);
    var y := z[0 := z[0] + 0xdb41];
    ValUpdate(z, 0, 0xdb41);
    ValUpdate(y, 1, 1);
    assert Base(0) == 1 && Base(1) == 0x10000;
    assert Val(y) == 0xdb41;
    FeSmall(y[1 := y[1] + 1], Rfc7748.A24);
    assert y[1 := y[1] + 1] == Zeroes(16)[0 := 0xdb41][1 := 1];
  }
}
