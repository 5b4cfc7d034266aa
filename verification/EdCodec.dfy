/**
 Points as 32 bytes: encode and decode of scripts/otatool.py are inverse to each other on
 exactly the bytes that decode accepts, square root and sign bit included.
 */
module EdCodec {
  import opened Wrappers
  import opened ModArith
  import opened LittleEndian
  import opened PrimeField
  import opened Edwards
  import opened EdPoint

  const TOP: int := 0x8000_0000_0000_0000_0000_0000_0000_0000_0000_0000_0000_0000_0000_0000_0000_0000

  /** A curve over a field whose residues leave the top bit of 32 bytes free. */
  ghost predicate Fits(c: Curve) {
    Good(c) && c.p < TOP
  }

  function EncodeXY(x: int, y: int): seq<byte>
    requires 0 <= y < TOP
  {
    EncodeLittleEndian(y + (x % 2) * TOP, 32)
  }

  function Encode(c: Curve, q: Point): seq<byte>
    requires 1 < c.p < TOP
  {
    var zi := Inv(c.p, q.Z);
    EncodeXY(q.X * zi % c.p, q.Y * zi % c.p)
  }

  /** pow(x2, (P + 3) // 8, P), times SQRT_M1 where its square is not x2. */
  function Root(c: Curve, x2: int): int
    requires c.p > 1
  {
    var x := Pow(x2, (c.p + 3) / 8) % c.p;
    if (x * x - x2) % c.p != 0 then x * c.i % c.p else x
  }

  function XSquared(c: Curve, y: int): int
    requires c.p > 1
  {
    (y * y - 1) * Inv(c.p, c.d * y * y + 1) % c.p
  }

  function DecodeXY(c: Curve, y: int, sign: nat): Option<Point>
    requires c.p > 1
  {
    if y >= c.p then None
    else
      var x2 := XSquared(c, y);
      var x := Root(c, x2);
      if (x * x - x2) % c.p != 0 || (x == 0 && sign != 0) then None
      else
        var s := if x % 2 != sign then c.p - x else x;
        Some(Point(s, y, 1, s * y % c.p))
  }

  function Decode(c: Curve, b: seq<byte>): Option<Point>
    requires c.p > 1
  {
    var n := DecodeLittleEndian(b);
    DecodeXY(c, n % TOP, n / TOP)
  }

  // ---------- square roots for p = 5 mod 8 ----------

  /** Half the exponent of Fermat's theorem takes a square to 1. */
  lemma EulerSquare(p: int, s: int, x2: int)
    requires Prime(p) && p % 2 == 1 && Eq(p, s * s, x2) && !Eq(p, x2, 0)
    ensures Eq(p, Pow(x2, (p - 1) / 2), 1)
  {
    if Eq(p, s, 0) {
      EqMul(p, s, 0, s, 0);
    }
    Fermat(p, s);
    assert Pow(s, 2) == s * s by { assert Pow(s, 2) == s * (s * Pow(s, 0)); }
    PowPow(s, 2, (p - 1) / 2);
    EqPow(p, s * s, x2, (p - 1) / 2);
  }

  /** The candidate's fourth power is x2 squared. */
  lemma FourthPower(p: int, x2: int)
    requires Prime(p) && p % 8 == 5 && Eq(p, Pow(x2, (p - 1) / 2), 1)
    ensures var x := Pow(x2, (p + 3) / 8); Eq(p, (x * x) * (x * x), x2 * x2)
  {
    var n, h := (p + 3) / 8, (p - 1) / 2;
    var x := Pow(x2, n);
    assert n + n + n + n == h + 2;
    PowAdd(x2, n, n);
    PowAdd(x2, n + n, n + n);
    PowAdd(x2, h, 2);
    assert Pow(x2, 2) == x2 * x2 by { assert Pow(x2, 2) == x2 * (x2 * Pow(x2, 0)); }
    EqMul(p, Pow(x2, h), 1, x2 * x2, x2 * x2);
  }

  lemma SquaresDiffer(p: int, a: int, b: int)
    requires Prime(p) && Eq(p, a * a, b * b)
    ensures Eq(p, a, b) || Eq(p, a, -b)
  {
    EqZeroSub(p, a * a, b * b);
    assert a * a - b * b == (a - b) * (a + b);
    Euclid(p, a - b, a + b);
    EqZeroSub(p, a, b);
    EqZeroSub(p, a, -b);
  }

  /** Root finds a square root whenever there is one. */
  lemma RootOfSquare(c: Curve, s: int, x2: int)
    requires Good(c) && Eq(c.p, s * s, x2)
    ensures var r := Root(c, x2); 0 <= r < c.p && Eq(c.p, r * r, x2)
  {
    var p := c.p;
    var x := Pow(x2, (p + 3) / 8) % p;
    EqMod(p, Pow(x2, (p + 3) / 8));
    var full := Pow(x2, (p + 3) / 8);
    EqMul(p, x, full, x, full);
    if Eq(p, x2, 0) {
      assert full == x2 * Pow(x2, (p + 3) / 8 - 1);
      EqMul(p, x2, 0, Pow(x2, (p + 3) / 8 - 1), Pow(x2, (p + 3) / 8 - 1));
      EqMul(p, full, 0, full, 0);
    } else {
      EulerSquare(p, s, x2);
      FourthPower(p, x2);
      EqMul(p, x * x, full * full, x * x, full * full);
      SquaresDiffer(p, x * x, x2);
    }
    RootAdjusted(c, x, x2);
  }

  lemma RootAdjusted(c: Curve, x: int, x2: int)
    requires Good(c) && 0 <= x < c.p && (Eq(c.p, x * x, x2) || Eq(c.p, x * x, -x2))
    ensures var r := if (x * x - x2) % c.p != 0 then x * c.i % c.p else x; 0 <= r < c.p && Eq(c.p, r * r, x2)
  {
    var p := c.p;
    SubZero(p, x * x, x2);
    if !Eq(p, x * x, x2) {
      var r := x * c.i % p;
      EqMod(p, x * c.i);
      EqMul(p, r, x * c.i, r, x * c.i);
      MulSwap(x, c.i, x, c.i);
      EqMul(p, x * x, -x2, c.i * c.i, -1);
      assert (-x2) * (-1) == x2;
    }
  }

  lemma SubZero(p: int, a: int, b: int)
    requires p > 0
    ensures (a - b) % p == 0 <==> Eq(p, a, b)
  {
    EqZeroSub(p, a, b);
    ModIs(0, p, 0);
  }

  // ---------- the curve equation solved for x^2 ----------

  /** d y^2 + 1 never vanishes: -1 is a square and d is not. */
  lemma SolvableDenominator(c: Curve, y: int)
    requires Good(c)
    ensures !Eq(c.p, c.d * y * y + 1, 0)
  {
    var p := c.p;
    if Eq(p, c.d * y * y + 1, 0) {
      EqSub(p, c.d * y * y + 1, 0, 1, 1);
      assert c.d * y * y + 1 - 1 == c.d * (y * y);
      NoSquare(c, c.i, y);
      EqMul(p, y, 0, y, 0);
      EqMul(p, c.d, c.d, y * y, 0);
      EqAdd(p, c.d * (y * y), 0, 1, 1);
      EqAdd(p, c.d * (y * y), -1, 1, 1);
      EqResidues(p, 0, 1);
    }
  }

  /** x2 is the square that puts y on the curve. */
  lemma CurveSolved(c: Curve, x: int, y: int)
    requires Good(c)
    ensures OnCurve(c, x, y) <==> Eq(c.p, x * x, XSquared(c, y))
  {
    var p, m, n := c.p, c.d * y * y + 1, y * y - 1;
    var x2 := XSquared(c, y);
    SolvableDenominator(c, y);
    Divides(p, n, m);
    var rhs := 1 + c.d * ((x * x) * (y * y));
    assert (x * x) * m == rhs - 1 + x * x by {
      assert (x * x) * (c.d * y * y) == c.d * ((x * x) * (y * y));
      MulDistributes(c.d * y * y, 1, x * x);
    }
    assert n - (x * x) * m == (y * y - x * x) - rhs;
    EqZeroSub(p, n, (x * x) * m);
    EqZeroSub(p, y * y - x * x, rhs);
    if Eq(p, x * x, x2) {
      EqMul(p, x * x, x2, m, m);
    }
    if OnCurve(c, x, y) {
      assert Eq(p, m * (x * x), m * x2);
      Cancel(p, m, x * x, x2);
    }
  }

  // ---------- the two directions ----------

  /** A represented point encodes by its affine coordinates alone. */
  lemma EncodeRepresented(c: Curve, q: Point, a: Affine)
    requires Fits(c) && IsPoint(c, a) && Represents(c, q, a)
    ensures Encode(c, q) == EncodeXY(a.x, a.y)
  {
    var p, zi := c.p, Inv(c.p, q.Z);
    InvIs(p, q.Z);
    Unscaled(p, q.X, a.x, q.Z, zi);
    Unscaled(p, q.Y, a.y, q.Z, zi);
  }

  lemma Unscaled(p: int, X: int, x: int, z: int, zi: int)
    requires p > 0 && 0 <= x < p && Eq(p, X, x * z) && Eq(p, z * zi, 1)
    ensures X * zi % p == x
  {
    EqMul(p, X, x * z, zi, zi);
    EqMul(p, x, x, z * zi, 1);
    MulAssoc(x, z, zi);
    ModIs(x, p, 0);
  }

  lemma Pow256Of32()
    ensures Pow256(32) == 2 * TOP
  {
    assert Pow256(4) == 0x1_0000_0000;
    Pow256Add(4, 4);
    Pow256Add(8, 8);
    Pow256Add(16, 16);
  }

  lemma {:induction false} Pow256Add(a: nat, b: nat)
    ensures Pow256(a + b) == Pow256(a) * Pow256(b)
    decreases a
  {
    if a > 0 {
      Pow256Add(a - 1, b);
      MulAssoc(256, Pow256(a - 1), Pow256(b));
    }
  }

  /** The y-coordinate and the sign bit come back out of the bytes. */
  lemma SplitBytes(x: int, y: int)
    requires 0 <= y < TOP
    ensures var n := DecodeLittleEndian(EncodeXY(x, y)); n % TOP == y && n / TOP == x % 2
  {
    Pow256Of32();
    DecodeEncode(y + (x % 2) * TOP, 32);
    ModIs(y + (x % 2) * TOP, TOP, x % 2);
  }

  lemma SameUpToSign(p: int, r: int, x: int)
    requires Prime(p) && 0 <= r < p && 0 <= x < p && Eq(p, r * r, x * x)
    ensures r == x || r == p - x
  {
    SquaresDiffer(p, r, x);
    if Eq(p, r, x) {
      EqResidues(p, r, x);
    } else {
      EqBy(p, p - x, -x, 1);
      if x == 0 {
        EqResidues(p, r, 0);
      } else {
        EqResidues(p, r, p - x);
      }
    }
  }

  /** Of x and p - x only x has the parity of x, p being odd. */
  lemma OneParity(p: int, r: int, x: int)
    requires p % 8 == 5 && 0 <= r < p && 0 <= x < p && (r == x || r == p - x)
    ensures (if r % 2 != x % 2 then p - r else r) == x
    ensures r == 0 ==> x % 2 == 0
  {
  }

  /** decode gives every point of the curve back from its bytes. */
  lemma DecodeEncodeXY(c: Curve, a: Affine)
    requires Fits(c) && IsPoint(c, a)
    ensures Decode(c, EncodeXY(a.x, a.y)) == Some(Point(a.x, a.y, 1, a.x * a.y % c.p))
  {
    var p := c.p;
    SplitBytes(a.x, a.y);
    CurveSolved(c, a.x, a.y);
    var x2 := XSquared(c, a.y);
    RootOfSquare(c, a.x, x2);
    var r := Root(c, x2);
    SubZero(p, r * r, x2);
    SameUpToSign(p, r, a.x);
    OneParity(p, r, a.x);
  }

  /** decode undoes encode for every representation of every point of the curve. */
  lemma DecodeAfterEncode(c: Curve, q: Point, a: Affine)
    requires Fits(c) && IsPoint(c, a) && Represents(c, q, a)
    ensures Decode(c, Encode(c, q)) == Some(Point(a.x, a.y, 1, a.x * a.y % c.p))
  {
    EncodeRepresented(c, q, a);
    DecodeEncodeXY(c, a);
  }

  /** 32 bytes as the low 255 bits and the top one. */
  lemma TopBit(b: seq<byte>)
    requires |b| == 32
    ensures var n := DecodeLittleEndian(b); n / TOP <= 1 && EncodeLittleEndian(n % TOP + (n / TOP) * TOP, 32) == b
  {
    hide EncodeLittleEndian, DecodeLittleEndian, Pow256;
    EncodeDecode(b);
    Pow256Of32();
  }

  lemma AffineRepresented(c: Curve, x: int, y: int)
    requires c.p > 1
    ensures Represents(c, Point(x, y, 1, x * y % c.p), Affine(x, y))
  {
    EqMod(c.p, x * y);
    EqResiduesApart(c.p, 1, 0);
  }

  /** Where decode accepts 32 bytes it gives a point of the curve, and encode gives the bytes back. */
  lemma EncodeAfterDecode(c: Curve, b: seq<byte>)
    requires Fits(c) && |b| == 32 && Decode(c, b).Some?
    ensures var q := Decode(c, b).value;
      && IsPoint(c, Affine(q.X, q.Y)) && Represents(c, q, Affine(q.X, q.Y))
      && EncodeXY(q.X, q.Y) == b && Encode(c, q) == b
  {
    var n := DecodeLittleEndian(b);
    TopBit(b);
    var q := Decode(c, b).value;
    AcceptedRoot(c, n % TOP, n / TOP);
    CurveSolved(c, q.X, q.Y);
    AffineRepresented(c, q.X, q.Y);
    EncodeRepresented(c, q, Affine(q.X, q.Y));
  }

  lemma NegatedSquare(p: int, r: int)
    requires p > 0
    ensures Eq(p, (p - r) * (p - r), r * r)
  {
    assert (p - r) * (p - r) == r * r + (p - 2 * r) * p;
    EqBy(p, (p - r) * (p - r), r * r, p - 2 * r);
  }

  /** Of r and p - r one has the wanted parity, p being odd. */
  lemma RightParity(p: int, r: int, sign: nat)
    requires p % 8 == 5 && 0 <= r < p && sign <= 1 && (r != 0 || sign == 0)
    ensures var x := if r % 2 != sign then p - r else r; 0 <= x < p && x % 2 == sign
  {
  }

  /** The x-coordinate decode settles on has the right square and the right parity. */
  lemma AcceptedRoot(c: Curve, y: int, sign: nat)
    requires Fits(c) && 0 <= y && sign <= 1 && DecodeXY(c, y, sign).Some?
    ensures var x := DecodeXY(c, y, sign).value.X;
      0 <= x < c.p && x % 2 == sign && Eq(c.p, x * x, XSquared(c, y))
  {
    var x2 := XSquared(c, y);
    var r := Root(c, x2);
    SubZero(c.p, r * r, x2);
    RootInRange(c, x2);
    NegatedSquare(c.p, r);
    RightParity(c.p, r, sign);
  }

  lemma RootInRange(c: Curve, x2: int)
    requires c.p > 1
    ensures 0 <= Root(c, x2) < c.p
  {
  }

  /** decode accepts exactly the encodings of the points of the curve. */
  lemma DecodeAccepts(c: Curve, b: seq<byte>)
    requires Fits(c) && |b| == 32
    ensures Decode(c, b).Some? <==> exists a :: IsPoint(c, a) && b == EncodeXY(a.x, a.y)
  {
    if Decode(c, b).Some? {
      EncodeAfterDecode(c, b);
      var q := Decode(c, b).value;
      assert IsPoint(c, Affine(q.X, q.Y)) && b == EncodeXY(q.X, q.Y);
    }
    if exists a :: IsPoint(c, a) && b == EncodeXY(a.x, a.y) {
      var a :| IsPoint(c, a) && b == EncodeXY(a.x, a.y);
      DecodeEncodeXY(c, a);
    }
  }
}
