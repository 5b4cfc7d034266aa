/**
 EdDSA of scripts/otatool.py, the hash left abstract: check accepts every signature
 that sign makes with the matching key.
 */
module EdDsa {
  import opened Wrappers
  import opened ModArith
  import opened LittleEndian
  import opened PrimeField
  import opened Edwards
  import opened EdPoint
  import opened EdCodec

  /** The curve, its base point, the base point's order, and BLAKE2b with 64 bytes out. */
  datatype Scheme = Scheme(c: Curve, G: Point, L: nat, blake: seq<byte> -> seq<byte>)

  /** What is taken for granted of edwards25519 and of the hash's length; g is the base point. */
  ghost predicate Sound(s: Scheme, g: Affine) {
    && Fits(s.c) && Associative(s.c)
    && IsPoint(s.c, g) && Represents(s.c, s.G, g)
    && 0 < s.L < TOP && Times(s.c, s.L, g) == NEUTRAL
    && forall m :: |s.blake(m)| == 64
  }

  /** h: the hash of the parts as a number. */
  function H(s: Scheme, m: seq<byte>): nat {
    DecodeLittleEndian(s.blake(m))
  }

  /** The clamp: the low three bits and the top two cleared, bit 254 set. */
  function Clamp(n: nat): nat {
    (n - n % 8) % (TOP / 2) + TOP / 2
  }

  /** expand: the secret scalar and the nonce prefix. */
  function Expand(s: Scheme, seed: seq<byte>): (nat, seq<byte>)
    requires |s.blake(seed)| == 64
  {
    var hb := s.blake(seed);
    (Clamp(DecodeLittleEndian(hb[..32])), hb[32..])
  }

  function MulPoint(s: Scheme, n: nat, q: Point): Point
    requires s.c.p > 0
  {
    MulFrom(s.c, NEUTRAL_POINT, n, q)
  }

  /** key_pair: the secret key is the seed and the public key. */
  function PublicKey(s: Scheme, seed: seq<byte>): seq<byte>
    requires |s.blake(seed)| == 64 && 1 < s.c.p < TOP
  {
    Encode(s.c, MulPoint(s, Expand(s, seed).0, s.G))
  }

  function Sign(s: Scheme, sk: seq<byte>, msg: seq<byte>): seq<byte>
    requires |sk| >= 32 && |s.blake(sk[..32])| == 64 && 1 < s.c.p < TOP && s.L > 0
  {
    var (a, prefix) := Expand(s, sk[..32]);
    var r := H(s, prefix + msg) % s.L;
    var rb := Encode(s.c, MulPoint(s, r, s.G));
    rb + EncodeLittleEndian((r + H(s, rb + sk[32..] + msg) % s.L * a) % s.L, 32)
  }

  function Negated(c: Curve, a: Point): Point
    requires c.p > 0
  {
    Point((-a.X) % c.p, a.Y, a.Z, (-a.T) % c.p)
  }

  predicate Check(s: Scheme, sig: seq<byte>, pk: seq<byte>, msg: seq<byte>)
    requires 1 < s.c.p < TOP && s.L > 0
  {
    match Decode(s.c, pk)
    case None => false
    case Some(a) =>
      |sig| == 64 &&
      var n := DecodeLittleEndian(sig[32..]);
      n < s.L &&
      Encode(s.c, Add(s.c, MulPoint(s, n, s.G), MulPoint(s, H(s, sig[..32] + pk + msg) % s.L, Negated(s.c, a)))) ==
        sig[..32]
  }

  // ---------- negatives ----------

  function Neg(c: Curve, a: Affine): Affine
    requires c.p > 0
  {
    Affine((-a.x) % c.p, a.y)
  }

  lemma NegCurve(p: int, d: int, x: int, y: int, nx: int)
    requires p > 0 && Eq(p, nx, -x)
    requires Eq(p, y * y - x * x, 1 + d * ((x * x) * (y * y)))
    ensures Eq(p, y * y - nx * nx, 1 + d * ((nx * nx) * (y * y)))
  {
    var yy := y * y;
    EqMul(p, nx, -x, nx, -x);
    assert (-x) * (-x) == x * x;
    EqSub(p, yy, yy, nx * nx, x * x);
    EqMul(p, nx * nx, x * x, yy, yy);
    EqMul(p, d, d, (nx * nx) * yy, (x * x) * yy);
    EqAdd(p, 1, 1, d * ((nx * nx) * yy), d * ((x * x) * yy));
  }

  lemma NegIsPoint(c: Curve, a: Affine)
    requires IsPoint(c, a)
    ensures IsPoint(c, Neg(c, a))
  {
    EqMod(c.p, -a.x);
    NegCurve(c.p, c.d, a.x, a.y, (-a.x) % c.p);
  }

  /** n, reduced from -m, is -x times z when m is x times z; nx stands for -x. */
  lemma NegCoordinate(p: int, m: int, x: int, nx: int, z: int)
    requires p > 0 && Eq(p, m, x * z) && Eq(p, nx, -x)
    ensures Eq(p, (-m) % p, nx * z)
  {
    EqMod(p, -m);
    EqMul(p, nx, -x, z, z);
    EqMul(p, -1, -1, m, x * z);
    MulAssoc(-1, x, z);
  }

  lemma NegRepresents(c: Curve, q: Point, a: Affine)
    requires c.p > 0 && Represents(c, q, a)
    ensures Represents(c, Negated(c, q), Neg(c, a))
  {
    var p, x := c.p, (-a.x) % c.p;
    EqMod(p, -a.x);
    NegCoordinate(p, q.X, a.x, x, q.Z);
    EqMul(p, x, -a.x, a.y, a.y);
    MulAssoc(-1, a.x, a.y);
    NegCoordinate(p, q.T, a.x * a.y, x * a.y, q.Z);
  }

  /** A point and its negative add up to the neutral element. */
  lemma PlusNeg(c: Curve, a: Affine)
    requires Good(c) && IsPoint(c, a)
    ensures Plus(c, a, Neg(c, a)) == NEUTRAL
  {
    var p, b := c.p, Neg(c, a);
    NegIsPoint(c, a);
    PlusIs(c, a, b);
    Complete(c, a, b);
    Closed(c, a, b);
    var s, k := Plus(c, a, b), Kappa(c, a, b);
    EqMod(p, -a.x);
    NegNumerators(c, a, b);
    EqMul(p, 0, 0, 1 + k, 1 + k);
    Cancel(p, 1 + k, s.x, 0);
    EqResidues(p, s.x, 0);
    Cancel(p, 1 - k, s.y, 1);
    EqResidues(p, s.y, 1);
  }

  /** The numerators of a - a: 0, and the denominator 1 - k itself, by the curve equation. */
  lemma NegNumerators(c: Curve, a: Affine, b: Affine)
    requires c.p > 0 && OnCurve(c, a.x, a.y) && b.y == a.y && Eq(c.p, b.x, -a.x)
    ensures Eq(c.p, a.x * b.y + a.y * b.x, 0)
    ensures Eq(c.p, a.y * b.y + a.x * b.x, 1 - Kappa(c, a, b))
  {
    var p, x, y := c.p, a.x, a.y;
    EqMul(p, y, y, b.x, -x);
    EqAdd(p, x * y, x * y, y * b.x, y * -x);
    assert x * y + y * -x == 0;
    EqMul(p, x, x, b.x, -x);
    EqAdd(p, y * y, y * y, x * b.x, x * -x);
    assert y * y + x * -x == y * y - x * x;
    EqMul(p, x * b.x, x * -x, y * y, y * y);
    EqMul(p, c.d, c.d, (x * b.x) * (y * y), (x * -x) * (y * y));
    assert c.d * ((x * -x) * (y * y)) == -(c.d * ((x * x) * (y * y)));
    EqSub(p, 1, 1, c.d * ((x * b.x) * (y * y)), -(c.d * ((x * x) * (y * y))));
  }

  // ---------- multiples modulo the order ----------

  lemma {:induction false} TimesNeutral(c: Curve, n: nat)
    requires Good(c)
    ensures Times(c, n, NEUTRAL) == NEUTRAL
  {
    NeutralIsPoint(c);
    if n > 0 {
      TimesNeutral(c, n - 1);
      PlusNeutral(c, NEUTRAL);
    }
  }

  /** Multiples of a point of order L depend on the factor modulo L alone. */
  lemma TimesModOrder(c: Curve, n: nat, L: nat, g: Affine)
    requires Good(c) && Associative(c) && IsPoint(c, g) && L > 0 && Times(c, L, g) == NEUTRAL
    ensures Times(c, n % L, g) == Times(c, n, g)
  {
    var q, r := n / L, n % L;
    assert n == q * L + r;
    WholeOrders(c, q, r, L, g);
  }

  lemma WholeOrders(c: Curve, q: nat, r: nat, L: nat, g: Affine)
    requires Good(c) && Associative(c) && IsPoint(c, g) && Times(c, L, g) == NEUTRAL
    ensures q * L >= 0 && Times(c, q * L + r, g) == Times(c, r, g)
  {
    TimesMul(c, L, q, g);
    TimesNeutral(c, q);
    TimesAdd(c, q * L, r, g);
    TimesIsPoint(c, r, g);
    PlusNeutral(c, Times(c, r, g));
  }

  /** k times the negative is the negative of k times. */
  lemma {:induction false} TimesNeg(c: Curve, k: nat, a: Affine)
    requires Good(c) && Associative(c) && IsPoint(c, a)
    ensures Plus(c, Times(c, k, a), Times(c, k, Neg(c, a))) == NEUTRAL
  {
    var b := Neg(c, a);
    NegIsPoint(c, a);
    NeutralIsPoint(c);
    if k == 0 {
      PlusNeutral(c, NEUTRAL);
    } else {
      TimesNeg(c, k - 1, a);
      TimesIsPoint(c, k - 1, a);
      TimesIsPoint(c, k - 1, b);
      PlusNeg(c, a);
      Interchange(c, Times(c, k - 1, a), a, Times(c, k - 1, b), b);
      PlusNeutral(c, NEUTRAL);
    }
  }

  lemma Interchange(c: Curve, a: Affine, b: Affine, e: Affine, f: Affine)
    requires Good(c) && Associative(c) && IsPoint(c, a) && IsPoint(c, b) && IsPoint(c, e) && IsPoint(c, f)
    ensures Plus(c, Plus(c, a, b), Plus(c, e, f)) == Plus(c, Plus(c, a, e), Plus(c, b, f))
  {
    Closed(c, e, f);
    Closed(c, b, f);
    PlusCommutes(c, b, e);
    assert Regroups(c, a, b, Plus(c, e, f));
    assert Regroups(c, b, e, f);
    assert Regroups(c, e, b, f);
    assert Regroups(c, a, e, Plus(c, b, f));
  }

  // ---------- a signature verifies ----------

  lemma PlusCancels(c: Curve, x: Affine, y: Affine, z: Affine)
    requires Good(c) && Associative(c) && IsPoint(c, x) && IsPoint(c, y) && IsPoint(c, z) && Plus(c, y, z) == NEUTRAL
    ensures Plus(c, Plus(c, x, y), z) == x
  {
    PlusNeutral(c, x);
    assert Regroups(c, x, y, z);
  }

  /** [r + k a] G is [r] G + [k] A, for A = [a] G. */
  lemma SignedScalar(c: Curve, r: nat, k: nat, a: nat, n: nat, L: nat, g: Affine)
    requires Good(c) && Associative(c) && IsPoint(c, g) && L > 0 && Times(c, L, g) == NEUTRAL
    requires n == r + k * a
    ensures Times(c, n % L, g) == Plus(c, Times(c, r, g), Times(c, k, Times(c, a, g)))
  {
    TimesModOrder(c, n, L, g);
    TimesMul(c, a, k, g);
    TimesAdd(c, r, k * a, g);
  }

  /** [r + k a] G - [k] A is [r] G. */
  lemma VerificationEquation(c: Curve, r: nat, k: nat, a: nat, n: nat, L: nat, g: Affine)
    requires Good(c) && Associative(c) && IsPoint(c, g) && L > 0 && Times(c, L, g) == NEUTRAL
    requires n == r + k * a
    ensures Plus(c, Times(c, n % L, g), Times(c, k, Neg(c, Times(c, a, g)))) == Times(c, r, g)
  {
    var A := Times(c, a, g);
    SignedScalar(c, r, k, a, n, L, g);
    TimesIsPoint(c, a, g);
    TimesIsPoint(c, r, g);
    TimesIsPoint(c, k, A);
    NegIsPoint(c, A);
    TimesIsPoint(c, k, Neg(c, A));
    TimesNeg(c, k, A);
    PlusCancels(c, Times(c, r, g), Times(c, k, A), Times(c, k, Neg(c, A)));
  }

  lemma SmallLength(n: nat)
    requires n < TOP
    ensures DecodeLittleEndian(EncodeLittleEndian(n, 32)) == n
  {
    Pow256Of32();
    DecodeEncode(n, 32);
  }

  /** What check computes from a genuine key and signature represents [r] G. */
  lemma RecoversNonce(s: Scheme, g: Affine, r: nat, k: nat, a: nat, n: nat, A: Point)
    requires Sound(s, g) && Represents(s.c, A, Times(s.c, a, g)) && n == r + k * a
    ensures Represents(s.c, Add(s.c, MulPoint(s, n % s.L, s.G), MulPoint(s, k, Negated(s.c, A))), Times(s.c, r, g))
  {
    var c, t, P := s.c, n % s.L, Times(s.c, a, g);
    VerificationEquation(c, r, k, a, n, s.L, g);
    TimesIsPoint(c, a, g);
    TimesIsPoint(c, t, g);
    MulRepresents(c, t, s.G, g);
    NegRepresents(c, A, P);
    NegIsPoint(c, P);
    MulRepresents(c, k, Negated(c, A), Neg(c, P));
    TimesIsPoint(c, k, Neg(c, P));
    AddRepresents(c, MulPoint(s, t, s.G), MulPoint(s, k, Negated(c, A)), Times(c, t, g), Times(c, k, Neg(c, P)));
  }

  /** The public key decodes to a representation of the secret scalar's multiple of the base point. */
  lemma KeyDecodes(s: Scheme, g: Affine, seed: seq<byte>)
    requires Sound(s, g)
    ensures var A := Decode(s.c, PublicKey(s, seed));
      A.Some? && Represents(s.c, A.value, Times(s.c, Expand(s, seed).0, g))
  {
    var a := Expand(s, seed).0;
    var P := Times(s.c, a, g);
    TimesIsPoint(s.c, a, g);
    MulRepresents(s.c, a, s.G, g);
    DecodeAfterEncode(s.c, MulPoint(s, a, s.G), P);
    AffineRepresented(s.c, P.x, P.y);
  }

  /** The parts of a signature: the nonce's point, and the scalar n = r + k a below the order. */
  lemma SignatureParts(s: Scheme, sk: seq<byte>, msg: seq<byte>) returns (r: nat, k: nat, n: nat)
    requires |sk| >= 32 && |s.blake(sk[..32])| == 64 && 1 < s.c.p < TOP && 0 < s.L < TOP
    ensures n == r + k * Expand(s, sk[..32]).0
    ensures var sig := Sign(s, sk, msg);
      && |sig| == 64 && sig[..32] == Encode(s.c, MulPoint(s, r, s.G))
      && k == H(s, sig[..32] + sk[32..] + msg) % s.L
      && DecodeLittleEndian(sig[32..]) == n % s.L < s.L
  {
    hide MulPoint, H, Expand;
    var (a, prefix) := Expand(s, sk[..32]);
    r := H(s, prefix + msg) % s.L;
    var rb := Encode(s.c, MulPoint(s, r, s.G));
    k := H(s, rb + sk[32..] + msg) % s.L;
    n := r + k * a;
    var t := n % s.L;
    var sig := Sign(s, sk, msg);
    assert sig == rb + EncodeLittleEndian(t, 32) && sig[32..] == EncodeLittleEndian(t, 32);
    SmallLength(t);
  }

  /** What check encodes from a genuine key and signature is the nonce's point. */
  lemma CheckComputes(s: Scheme, g: Affine, r: nat, k: nat, a: nat, n: nat, A: Point)
    requires Sound(s, g) && Represents(s.c, A, Times(s.c, a, g)) && n == r + k * a
    ensures Encode(s.c, Add(s.c, MulPoint(s, n % s.L, s.G), MulPoint(s, k, Negated(s.c, A)))) ==
      Encode(s.c, MulPoint(s, r, s.G))
  {
    RecoversNonce(s, g, r, k, a, n, A);
    MulRepresents(s.c, r, s.G, g);
    TimesIsPoint(s.c, r, g);
    EncodeRepresented(s.c, MulPoint(s, r, s.G), Times(s.c, r, g));
    EncodeRepresented(s.c, Add(s.c, MulPoint(s, n % s.L, s.G), MulPoint(s, k, Negated(s.c, A))), Times(s.c, r, g));
  }

  /** What check asks of a signature, its parts named. */
  lemma Accepts(s: Scheme, sig: seq<byte>, pk: seq<byte>, msg: seq<byte>, A: Point, rb: seq<byte>, n: nat, k: nat)
    requires 1 < s.c.p < TOP && s.L > 0 && Decode(s.c, pk) == Some(A)
    requires |sig| == 64 && sig[..32] == rb && DecodeLittleEndian(sig[32..]) == n < s.L
    requires k == H(s, rb + pk + msg) % s.L
    requires Encode(s.c, Add(s.c, MulPoint(s, n, s.G), MulPoint(s, k, Negated(s.c, A)))) == rb
    ensures Check(s, sig, pk, msg)
  {
  }

  /** A signature with the key pair (seed, pk) of a secret scalar is accepted with pk. */
  lemma SignedWith(s: Scheme, g: Affine, sk: seq<byte>, msg: seq<byte>, A: Point)
    requires Sound(s, g) && |sk| >= 32 && Decode(s.c, sk[32..]) == Some(A)
    requires Represents(s.c, A, Times(s.c, Expand(s, sk[..32]).0, g))
    ensures Check(s, Sign(s, sk, msg), sk[32..], msg)
  {
    var r, k, n := SignatureParts(s, sk, msg);
    CheckComputes(s, g, r, k, Expand(s, sk[..32]).0, n, A);
    Accepts(s, Sign(s, sk, msg), sk[32..], msg, A, Sign(s, sk, msg)[..32], n % s.L, k);
  }

  /** check accepts every signature sign makes with the key pair of any seed, on any message. */
  lemma SignedChecks(s: Scheme, g: Affine, seed: seq<byte>, msg: seq<byte>)
    requires Sound(s, g) && |seed| == 32
    ensures var pk := PublicKey(s, seed); Check(s, Sign(s, seed + pk, msg), pk, msg)
  {
    var pk := PublicKey(s, seed);
    var sk := seed + pk;
    assert sk[..32] == seed && sk[32..] == pk;
    KeyDecodes(s, g, seed);
    SignedWith(s, g, sk, msg, Decode(s.c, pk).value);
  }

  /** Keys have 32 bytes, signatures 64. */
  lemma Lengths(s: Scheme, seed: seq<byte>, msg: seq<byte>)
    requires |seed| == 32 && (forall m :: |s.blake(m)| == 64) && 1 < s.c.p < TOP && 0 < s.L < TOP
    ensures var pk := PublicKey(s, seed); |pk| == 32 && |Sign(s, seed + pk, msg)| == 64
  {
    var r, k, n := SignatureParts(s, seed + PublicKey(s, seed), msg);
  }
}
