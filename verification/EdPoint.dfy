/**
 Points in extended coordinates as scripts/otatool.py adds and multiplies them, against
 the affine addition law.
 */
module EdPoint {
  import opened ModArith
  import opened PrimeField
  import opened Edwards

  // ---------- the law stays on the curve ----------

  /** The sum's coordinates, denominators multiplied out. */
  lemma PlusIs(c: Curve, a: Affine, b: Affine)
    requires Good(c) && OnCurve(c, a.x, a.y) && OnCurve(c, b.x, b.y)
    ensures var s := Plus(c, a, b); var k := Kappa(c, a, b);
      && 0 <= s.x < c.p && 0 <= s.y < c.p
      && Eq(c.p, s.x * (1 + k), a.x * b.y + a.y * b.x)
      && Eq(c.p, s.y * (1 - k), a.y * b.y + a.x * b.x)
  {
    Complete(c, a, b);
    var k := Kappa(c, a, b);
    Divides(c.p, a.x * b.y + a.y * b.x, 1 + k);
    Divides(c.p, a.y * b.y + a.x * b.x, 1 - k);
  }

  lemma Divides(p: int, n: int, m: int)
    requires Prime(p) && !Eq(p, m, 0)
    ensures Eq(p, ((n * Inv(p, m)) % p) * m, n)
  {
    InvIs(p, m);
    EqMod(p, n * Inv(p, m));
    EqMul(p, (n * Inv(p, m)) % p, n * Inv(p, m), m, m);
    EqMul(p, n, n, m * Inv(p, m), 1);
    assert (n * Inv(p, m)) * m == n * (m * Inv(p, m));
  }

  lemma SumSquares(x1: int, y1: int, x2: int, y2: int)
    ensures var w := (x1 * x2) * (y1 * y2);
      var n, m := x1 * y2 + y1 * x2, y1 * y2 + x1 * x2;
      && n * n == (x1 * x1) * (y2 * y2) + (y1 * y1) * (x2 * x2) + 2 * w
      && m * m == (y1 * y1) * (y2 * y2) + (x1 * x1) * (x2 * x2) + 2 * w
  {
  }

  /** A and B are the squares of the numerators, in the squares of the coordinates. */
  lemma DifferenceOfSquares(u1: int, v1: int, u2: int, v2: int, w: int)
    ensures var A, B := v1 * v2 + u1 * u2 + 2 * w, u1 * v2 + v1 * u2 + 2 * w;
      A - B == (v1 - u1) * (v2 - u2) && A + B == (u1 + v1) * (u2 + v2) + 4 * w
  {
  }

  lemma ProductOfSquares(u1: int, v1: int, u2: int, v2: int, w: int)
    ensures var A, B := v1 * v2 + u1 * u2 + 2 * w, u1 * v2 + v1 * u2 + 2 * w;
      A * B == (u1 * v1) * ((v2 - u2) * (v2 - u2) + 2 * (u2 * v2)) + (u2 * v2) * ((v1 - u1) * (v1 - u1) + 2 * (u1 * v1))
               + 2 * w * ((u1 + v1) * (u2 + v2)) + 4 * (w * w)
  {
  }

  lemma LeftSide(A: int, B: int, k: int)
    ensures (1 + k) * (1 + k) * A - (1 - k) * (1 - k) * B == (A - B) * (1 + k * k) + 2 * k * (A + B)
  {
  }

  /** The two sides agree once the curve equation has replaced v - u by 1 + e. */
  lemma ClosureIdentity(d: int, q1: int, q2: int, w: int, S: int)
    requires w * w == q1 * q2
    ensures var k, e1, e2 := d * w, d * q1, d * q2;
      ((1 + e1) * (1 + e2)) * (1 + k * k) + 2 * k * (S + 4 * w) ==
      (1 - k * k) * (1 - k * k) +
      d * (q1 * ((1 + e2) * (1 + e2) + 2 * q2) + q2 * ((1 + e1) * (1 + e1) + 2 * q1) + 2 * w * S + 4 * (w * w))
  {
    var k, e1, e2, kw := d * w, d * q1, d * q2, (d * w) * w;
    ScaledProducts(d, q1, q2, w);
    Expand(d, q1, q2, e1, e2, k, kw);
    Expand(d, q2, q1, e2, e1, k, kw);
    CrossTerms(d, w, S);
    Gather(e1, e2, k, kw);
    var t1, t2 := q1 * ((1 + e2) * (1 + e2) + 2 * q2), q2 * ((1 + e1) * (1 + e1) + 2 * q1);
    FourTerms(d, t1, t2, 2 * w * S, 4 * (w * w));
  }

  lemma FourTerms(d: int, a: int, b: int, e: int, f: int)
    ensures d * (a + b + e + f) == d * a + d * b + d * e + d * f
  {
  }

  lemma ScaledProducts(d: int, q1: int, q2: int, w: int)
    requires w * w == q1 * q2
    ensures (d * q1) * (d * q2) == (d * w) * (d * w)
    ensures (d * q1) * q2 == (d * w) * w && (d * q2) * q1 == (d * w) * w
  {
    MulSwap(d, q1, d, q2);
    MulSwap(d, w, d, w);
    MulAssoc(d, q1, q2);
    MulAssoc(d, q2, q1);
    MulAssoc(d, w, w);
  }

  lemma CrossTerms(d: int, w: int, S: int)
    ensures d * (2 * w * S) == 2 * (d * w) * S
    ensures d * (4 * (w * w)) == 4 * ((d * w) * w)
    ensures 2 * (d * w) * (S + 4 * w) == 2 * (d * w) * S + 8 * ((d * w) * w)
  {
  }

  lemma Expand(d: int, q1: int, q2: int, e1: int, e2: int, k: int, kw: int)
    requires e1 == d * q1 && e1 * e2 == k * k && e1 * q2 == kw
    ensures d * (q1 * ((1 + e2) * (1 + e2) + 2 * q2)) == e1 + 2 * (k * k) + (k * k) * e2 + 2 * kw
  {
    MulAssoc(d, q1, (1 + e2) * (1 + e2) + 2 * q2);
    assert e1 * ((1 + e2) * (1 + e2) + 2 * q2) == e1 + 2 * (e1 * e2) + (e1 * e2) * e2 + 2 * (e1 * q2);
  }

  lemma Gather(e1: int, e2: int, k: int, kw: int)
    requires e1 * e2 == k * k
    ensures ((1 + e1) * (1 + e2)) * (1 + k * k) + 8 * kw ==
      (1 - k * k) * (1 - k * k) + (e1 + 2 * (k * k) + (k * k) * e2 + 2 * kw)
        + (e2 + 2 * (k * k) + (k * k) * e1 + 2 * kw) + 4 * kw
  {
    var z := k * k;
    assert (1 + e1) * (1 + e2) == 1 + e1 + e2 + z;
  }

  /** The numerators' squares meet the curve equation with both denominators multiplied out. */
  lemma ClosureScaled(c: Curve, a: Affine, b: Affine)
    requires c.p > 0 && OnCurve(c, a.x, a.y) && OnCurve(c, b.x, b.y)
    ensures var k := Kappa(c, a, b);
      var n, m := a.x * b.y + a.y * b.x, a.y * b.y + a.x * b.x;
      Eq(c.p, (1 + k) * (1 + k) * (m * m) - (1 - k) * (1 - k) * (n * n),
              (1 - k * k) * (1 - k * k) + c.d * ((m * m) * (n * n)))
  {
    var p, d := c.p, c.d;
    var u1, v1, u2, v2 := a.x * a.x, a.y * a.y, b.x * b.x, b.y * b.y;
    var w, k := (a.x * b.x) * (a.y * b.y), Kappa(c, a, b);
    var q1, q2, S := u1 * v1, u2 * v2, (u1 + v1) * (u2 + v2);
    var e1, e2 := d * q1, d * q2;
    var A, B := v1 * v2 + u1 * u2 + 2 * w, u1 * v2 + v1 * u2 + 2 * w;
    SumSquares(a.x, a.y, b.x, b.y);
    LeftSide(A, B, k);
    DifferenceOfSquares(u1, v1, u2, v2, w);
    EqMul(p, v1 - u1, 1 + e1, v2 - u2, 1 + e2);
    EqMul(p, A - B, (1 + e1) * (1 + e2), 1 + k * k, 1 + k * k);
    EqAdd(p, (A - B) * (1 + k * k), ((1 + e1) * (1 + e2)) * (1 + k * k), 2 * k * (A + B), 2 * k * (S + 4 * w));
    SquareOfProduct(a.x, b.x, a.y, b.y);
    ClosureIdentity(d, q1, q2, w, S);
    ProductReduced(c, u1, v1, u2, v2, w);
    var R := q1 * ((1 + e2) * (1 + e2) + 2 * q2) + q2 * ((1 + e1) * (1 + e1) + 2 * q1) + 2 * w * S + 4 * (w * w);
    EqMul(p, d, d, A * B, R);
    EqAdd(p, (1 - k * k) * (1 - k * k), (1 - k * k) * (1 - k * k), d * (A * B), d * R);
  }

  lemma SquareOfProduct(x1: int, x2: int, y1: int, y2: int)
    ensures ((x1 * x2) * (y1 * y2)) * ((x1 * x2) * (y1 * y2)) == ((x1 * x1) * (y1 * y1)) * ((x2 * x2) * (y2 * y2))
  {
    MulSwap(x1, x2, y1, y2);
    MulSwap(x1 * y1, x2 * y2, x1 * y1, x2 * y2);
    MulSwap(x1, y1, x1, y1);
    MulSwap(x2, y2, x2, y2);
  }

  lemma ProductReduced(c: Curve, u1: int, v1: int, u2: int, v2: int, w: int)
    requires c.p > 0 && Eq(c.p, v1 - u1, 1 + c.d * (u1 * v1)) && Eq(c.p, v2 - u2, 1 + c.d * (u2 * v2))
    ensures var q1, q2 := u1 * v1, u2 * v2;
      var e1, e2, S := c.d * q1, c.d * q2, (u1 + v1) * (u2 + v2);
      Eq(c.p, (v1 * v2 + u1 * u2 + 2 * w) * (u1 * v2 + v1 * u2 + 2 * w),
         q1 * ((1 + e2) * (1 + e2) + 2 * q2) + q2 * ((1 + e1) * (1 + e1) + 2 * q1) + 2 * w * S + 4 * (w * w))
  {
    var p, q1, q2 := c.p, u1 * v1, u2 * v2;
    var e1, e2, S := c.d * q1, c.d * q2, (u1 + v1) * (u2 + v2);
    ProductOfSquares(u1, v1, u2, v2, w);
    SquaredTerm(p, q1, q2, v2 - u2, 1 + e2);
    SquaredTerm(p, q2, q1, v1 - u1, 1 + e1);
    var x1, x2 := q1 * ((v2 - u2) * (v2 - u2) + 2 * q2), q2 * ((v1 - u1) * (v1 - u1) + 2 * q1);
    var y1, y2 := q1 * ((1 + e2) * (1 + e2) + 2 * q2), q2 * ((1 + e1) * (1 + e1) + 2 * q1);
    var rest := 2 * w * S + 4 * (w * w);
    EqAdd(p, x1, y1, x2, y2);
    EqAdd(p, x1 + x2, y1 + y2, rest, rest);
  }

  lemma SquaredTerm(p: int, q: int, r: int, s: int, t: int)
    requires p > 0 && Eq(p, s, t)
    ensures Eq(p, q * (s * s + 2 * r), q * (t * t + 2 * r))
  {
    EqMul(p, s, t, s, t);
    EqAdd(p, s * s, t * t, 2 * r, 2 * r);
    EqMul(p, q, q, s * s + 2 * r, t * t + 2 * r);
  }

  lemma ScaleOut(g: int, f: int, x: int, y: int, d: int)
    ensures ((g * f) * (g * f)) * (y * y - x * x) == g * g * ((y * f) * (y * f)) - f * f * ((x * g) * (x * g))
    ensures ((g * f) * (g * f)) * (1 + d * ((x * x) * (y * y))) ==
      (g * f) * (g * f) + d * (((y * f) * (y * f)) * ((x * g) * (x * g)))
  {
  }

  /** The sum of two points of the curve is a point of the curve. */
  lemma Closed(c: Curve, a: Affine, b: Affine)
    requires Good(c) && OnCurve(c, a.x, a.y) && OnCurve(c, b.x, b.y)
    ensures IsPoint(c, Plus(c, a, b))
  {
    var p, d, k := c.p, c.d, Kappa(c, a, b);
    var s := Plus(c, a, b);
    var n, m, g, f := a.x * b.y + a.y * b.x, a.y * b.y + a.x * b.x, 1 + k, 1 - k;
    PlusIs(c, a, b);
    Complete(c, a, b);
    ClosureScaled(c, a, b);
    ScaleOut(g, f, s.x, s.y, d);
    var X, Y := s.x * g, s.y * f;
    EqMul(p, X, n, X, n);
    EqMul(p, Y, m, Y, m);
    EqMul(p, f * f, f * f, X * X, n * n);
    EqMul(p, g * g, g * g, Y * Y, m * m);
    EqSub(p, g * g * (Y * Y), g * g * (m * m), f * f * (X * X), f * f * (n * n));
    EqMul(p, Y * Y, m * m, X * X, n * n);
    EqMul(p, d, d, (Y * Y) * (X * X), (m * m) * (n * n));
    assert g * f == 1 - k * k;
    EqAdd(p, (g * f) * (g * f), (g * f) * (g * f), d * ((Y * Y) * (X * X)), d * ((m * m) * (n * n)));
    NonzeroProduct(p, g, f);
    NonzeroProduct(p, g * f, g * f);
    Cancel(p, (g * f) * (g * f), s.y * s.y - s.x * s.x, 1 + d * ((s.x * s.x) * (s.y * s.y)));
  }

  // ---------- extended coordinates ----------

  /** X / Z, Y / Z, and T = X Y / Z. */
  datatype Point = Point(X: int, Y: int, Z: int, T: int)

  predicate Represents(c: Curve, q: Point, a: Affine)
    requires c.p > 0
  {
    && !Eq(c.p, q.Z, 0)
    && Eq(c.p, q.X, a.x * q.Z) && Eq(c.p, q.Y, a.y * q.Z) && Eq(c.p, q.T, (a.x * a.y) * q.Z)
  }

  function Add(c: Curve, q: Point, r: Point): Point
    requires c.p > 0
  {
    var p := c.p;
    var A, B := (q.Y - q.X) * (r.Y - r.X) % p, (q.Y + q.X) * (r.Y + r.X) % p;
    var C, D := 2 * q.T * r.T * c.d % p, 2 * q.Z * r.Z % p;
    var E, F, G, H := B - A, D - C, D + C, B + A;
    Point(E * F % p, G * H % p, F * G % p, E * H % p)
  }

  /** B - A and B + A are twice the numerators, in units of Z1 Z2. */
  lemma SumsOfProducts(c: Curve, q: Point, r: Point, a: Affine, b: Affine)
    requires c.p > 0 && Represents(c, q, a) && Represents(c, r, b)
    ensures var z := q.Z * r.Z;
      var A, B := (q.Y - q.X) * (r.Y - r.X), (q.Y + q.X) * (r.Y + r.X);
      && Eq(c.p, B - A, 2 * z * (a.x * b.y + a.y * b.x))
      && Eq(c.p, B + A, 2 * z * (a.y * b.y + a.x * b.x))
  {
    var p := c.p;
    EqMul(p, q.X, a.x * q.Z, r.Y, b.y * r.Z);
    EqMul(p, q.Y, a.y * q.Z, r.X, b.x * r.Z);
    EqMul(p, q.Y, a.y * q.Z, r.Y, b.y * r.Z);
    EqMul(p, q.X, a.x * q.Z, r.X, b.x * r.Z);
    MulSwap(a.x, q.Z, b.y, r.Z);
    MulSwap(a.y, q.Z, b.x, r.Z);
    MulSwap(a.y, q.Z, b.y, r.Z);
    MulSwap(a.x, q.Z, b.x, r.Z);
    var z := q.Z * r.Z;
    TwiceSum(p, q.X * r.Y, (a.x * b.y) * z, q.Y * r.X, (a.y * b.x) * z);
    TwiceSum(p, q.Y * r.Y, (a.y * b.y) * z, q.X * r.X, (a.x * b.x) * z);
    OuterProducts(q.X, q.Y, r.X, r.Y);
    assert 2 * ((a.x * b.y) * z + (a.y * b.x) * z) == 2 * z * (a.x * b.y + a.y * b.x);
    assert 2 * ((a.y * b.y) * z + (a.x * b.x) * z) == 2 * z * (a.y * b.y + a.x * b.x);
  }

  lemma OuterProducts(x1: int, y1: int, x2: int, y2: int)
    ensures (y1 + x1) * (y2 + x2) - (y1 - x1) * (y2 - x2) == 2 * (x1 * y2 + y1 * x2)
    ensures (y1 + x1) * (y2 + x2) + (y1 - x1) * (y2 - x2) == 2 * (y1 * y2 + x1 * x2)
  {
  }

  lemma TwiceSum(p: int, a: int, b: int, e: int, f: int)
    requires p > 0 && Eq(p, a, b) && Eq(p, e, f)
    ensures Eq(p, 2 * (a + e), 2 * (b + f))
  {
    EqAdd(p, a, b, e, f);
    EqMul(p, 2, 2, a + e, b + f);
  }

  lemma KappaScaled(c: Curve, q: Point, r: Point, a: Affine, b: Affine)
    requires c.p > 0 && Represents(c, q, a) && Represents(c, r, b)
    ensures Eq(c.p, 2 * q.T * r.T * c.d, 2 * (q.Z * r.Z) * Kappa(c, a, b))
  {
    var p, z := c.p, q.Z * r.Z;
    EqMul(p, q.T, (a.x * a.y) * q.Z, r.T, (b.x * b.y) * r.Z);
    EqMul(p, 2 * c.d, 2 * c.d, q.T * r.T, ((a.x * a.y) * q.Z) * ((b.x * b.y) * r.Z));
    MulSwap(a.x * a.y, q.Z, b.x * b.y, r.Z);
    MulSwap(a.x, a.y, b.x, b.y);
    var w := (a.x * b.x) * (a.y * b.y);
    assert (2 * c.d) * (w * z) == 2 * z * (c.d * w);
    assert 2 * q.T * r.T * c.d == (2 * c.d) * (q.T * r.T);
  }

  /** Coordinates assembled from E = x G and H = y F are those of (x, y). */
  lemma Assembled(c: Curve, s: Affine, E: int, F: int, G: int, H: int)
    requires Prime(c.p) && !Eq(c.p, F, 0) && !Eq(c.p, G, 0)
    requires Eq(c.p, E, s.x * G) && Eq(c.p, H, s.y * F)
    ensures Represents(c, Point(E * F % c.p, G * H % c.p, F * G % c.p, E * H % c.p), s)
  {
    var p, Z := c.p, F * G % c.p;
    NonzeroProduct(p, F, G);
    EqMod(p, F * G);
    Coordinate(p, E * F, s.x, F * G, Z) by {
      EqMul(p, E, s.x * G, F, F);
      MulAssoc(s.x, G, F);
    }
    Coordinate(p, G * H, s.y, F * G, Z) by {
      EqMul(p, G, G, H, s.y * F);
      MulAssoc(s.y, F, G);
    }
    Coordinate(p, E * H, s.x * s.y, F * G, Z) by {
      EqMul(p, E, s.x * G, H, s.y * F);
      MulSwap(s.x, G, s.y, F);
    }
  }

  lemma Coordinate(p: int, n: int, x: int, w: int, z: int)
    requires p > 0 && Eq(p, n, x * w) && Eq(p, z, w)
    ensures Eq(p, n % p, x * z)
  {
    EqMod(p, n);
    EqMul(p, x, x, z, w);
  }

  lemma Factor(p: int, x: int, g: int, n: int, z: int, E: int, G: int)
    requires p > 0 && Eq(p, x * g, n) && Eq(p, E, z * n) && Eq(p, G, z * g)
    ensures Eq(p, E, x * G)
  {
    EqMul(p, z, z, x * g, n);
    EqMul(p, x, x, G, z * g);
    assert z * (x * g) == x * (z * g);
  }

  lemma ReducedTerms(p: int, A: int, B: int)
    requires p > 0
    ensures Eq(p, B % p - A % p, B - A) && Eq(p, B % p + A % p, B + A)
  {
    EqMod(p, A);
    EqMod(p, B);
    EqSub(p, B % p, B, A % p, A);
    EqAdd(p, B % p, B, A % p, A);
  }

  /** D - C and D + C are twice the denominators, in units of Z1 Z2. */
  lemma Denominators(c: Curve, q: Point, r: Point, a: Affine, b: Affine)
    requires c.p > 0 && Represents(c, q, a) && Represents(c, r, b)
    ensures var z, k := q.Z * r.Z, Kappa(c, a, b);
      var C, D := 2 * q.T * r.T * c.d, 2 * q.Z * r.Z;
      Eq(c.p, D - C, 2 * z * (1 - k)) && Eq(c.p, D + C, 2 * z * (1 + k))
  {
    var p, z, k := c.p, q.Z * r.Z, Kappa(c, a, b);
    var C, D := 2 * q.T * r.T * c.d, 2 * q.Z * r.Z;
    KappaScaled(c, q, r, a, b);
    MulAssoc(2, q.Z, r.Z);
    EqSub(p, D, D, C, 2 * z * k);
    EqAdd(p, D, D, C, 2 * z * k);
    MulDistributes(1, -k, 2 * z);
    MulDistributes(1, k, 2 * z);
  }

  /** add computes the affine sum of the points its arguments represent. */
  lemma AddRepresents(c: Curve, q: Point, r: Point, a: Affine, b: Affine)
    requires Good(c) && OnCurve(c, a.x, a.y) && OnCurve(c, b.x, b.y)
    requires Represents(c, q, a) && Represents(c, r, b)
    ensures Represents(c, Add(c, q, r), Plus(c, a, b))
  {
    var p, z, k, s := c.p, q.Z * r.Z, Kappa(c, a, b), Plus(c, a, b);
    var A, B := (q.Y - q.X) * (r.Y - r.X), (q.Y + q.X) * (r.Y + r.X);
    var C, D := 2 * q.T * r.T * c.d, 2 * q.Z * r.Z;
    ReducedTerms(p, A, B);
    ReducedTerms(p, C, D);
    SumsOfProducts(c, q, r, a, b);
    Denominators(c, q, r, a, b);
    PlusIs(c, a, b);
    Complete(c, a, b);
    TwoIsNotZero(c);
    NonzeroProduct(p, q.Z, r.Z);
    NonzeroProduct(p, 2, z);
    NonzeroProduct(p, 2 * z, 1 - k);
    NonzeroProduct(p, 2 * z, 1 + k);
    var E, F, G, H := B % p - A % p, D % p - C % p, D % p + C % p, B % p + A % p;
    Factor(p, s.x, 1 + k, a.x * b.y + a.y * b.x, 2 * z, E, G);
    Factor(p, s.y, 1 - k, a.y * b.y + a.x * b.x, 2 * z, H, F);
    Assembled(c, s, E, F, G, H);
  }

  /** In extended coordinates X Y = Z T, whatever point they stand for. */
  lemma ExtendedInvariant(c: Curve, q: Point, a: Affine)
    requires c.p > 0 && Represents(c, q, a)
    ensures Eq(c.p, q.X * q.Y, q.Z * q.T)
  {
    EqMul(c.p, q.X, a.x * q.Z, q.Y, a.y * q.Z);
    EqMul(c.p, q.Z, q.Z, q.T, (a.x * a.y) * q.Z);
    assert (a.x * q.Z) * (a.y * q.Z) == q.Z * ((a.x * a.y) * q.Z);
  }

  // ---------- multiples ----------

  /** n times a point, one addition at a time. */
  function Times(c: Curve, n: nat, a: Affine): Affine
    requires c.p > 1
  {
    if n == 0 then NEUTRAL else Plus(c, Times(c, n - 1, a), a)
  }

  /** The one law of the group not proved here. */
  ghost predicate Associative(c: Curve) {
    c.p > 1 &&
    forall a, b, e {:trigger Regroups(c, a, b, e)} :: IsPoint(c, a) && IsPoint(c, b) && IsPoint(c, e) ==>
      Regroups(c, a, b, e)
  }

  predicate Regroups(c: Curve, a: Affine, b: Affine, e: Affine)
    requires c.p > 1
  {
    Plus(c, Plus(c, a, b), e) == Plus(c, a, Plus(c, b, e))
  }

  lemma NeutralIsPoint(c: Curve)
    requires c.p > 1
    ensures IsPoint(c, NEUTRAL)
  {
  }

  lemma PlusCommutes(c: Curve, a: Affine, b: Affine)
    requires c.p > 1
    ensures Plus(c, a, b) == Plus(c, b, a)
  {
    assert Kappa(c, a, b) == Kappa(c, b, a);
    assert a.x * b.y + a.y * b.x == b.x * a.y + b.y * a.x;
  }

  lemma InvOne(p: int)
    requires p > 1
    ensures Inv(p, 1) == 1
  {
    PowOne(p - 2);
    ModIs(1, p, 0);
  }

  lemma PlusNeutral(c: Curve, a: Affine)
    requires IsPoint(c, a)
    ensures Plus(c, a, NEUTRAL) == a && Plus(c, NEUTRAL, a) == a
  {
    PlusCommutes(c, a, NEUTRAL);
    assert Kappa(c, a, NEUTRAL) == 0;
    InvOne(c.p);
    ModIs(a.x, c.p, 0);
    ModIs(a.y, c.p, 0);
  }

  lemma {:induction false} TimesIsPoint(c: Curve, n: nat, a: Affine)
    requires Good(c) && IsPoint(c, a)
    ensures IsPoint(c, Times(c, n, a))
  {
    NeutralIsPoint(c);
    if n > 0 {
      TimesIsPoint(c, n - 1, a);
      Closed(c, Times(c, n - 1, a), a);
    }
  }

  lemma {:induction false} TimesAdd(c: Curve, m: nat, n: nat, a: Affine)
    requires Good(c) && Associative(c) && IsPoint(c, a)
    ensures Times(c, m + n, a) == Plus(c, Times(c, m, a), Times(c, n, a))
  {
    TimesIsPoint(c, m, a);
    if n == 0 {
      PlusNeutral(c, Times(c, m, a));
    } else {
      TimesAdd(c, m, n - 1, a);
      TimesIsPoint(c, n - 1, a);
      assert Regroups(c, Times(c, m, a), Times(c, n - 1, a), a);
      assert Times(c, m + n, a) == Plus(c, Times(c, m + (n - 1), a), a);
    }
  }

  lemma {:induction false} TimesMul(c: Curve, m: nat, n: nat, a: Affine)
    requires Good(c) && Associative(c) && IsPoint(c, a)
    ensures n * m >= 0 && Times(c, n * m, a) == Times(c, n, Times(c, m, a))
  {
    if n > 0 {
      TimesMul(c, m, n - 1, a);
      assert n * m == (n - 1) * m + m;
      TimesAdd(c, (n - 1) * m, m, a);
    } else {
      assert n * m == 0;
    }
  }

  const NEUTRAL_POINT := Point(0, 1, 1, 0)

  /** The loop of mul from its variables q, s and p. */
  function MulFrom(c: Curve, q: Point, s: nat, r: Point): Point
    requires c.p > 0
    decreases s
  {
    if s == 0 then q else MulFrom(c, if s % 2 == 1 then Add(c, q, r) else q, s / 2, Add(c, r, r))
  }

  /** mul: double and add. */
  method Mul(c: Curve, n: nat, point: Point) returns (q: Point)
    requires c.p > 0
    ensures q == MulFrom(c, NEUTRAL_POINT, n, point)
  {
    q := NEUTRAL_POINT;
    var s, p := n, point;
    while s != 0
      invariant MulFrom(c, q, s, p) == MulFrom(c, NEUTRAL_POINT, n, point)
    {
      if s % 2 == 1 {
        q := Add(c, q, p);
      }
      p := Add(c, p, p);
      s := s / 2;
    }
  }

  /** Double and add computes q + s r. */
  lemma {:induction false} MulFromRepresents(c: Curve, q: Point, s: nat, r: Point, a: Affine, b: Affine)
    requires Good(c) && Associative(c) && IsPoint(c, a) && IsPoint(c, b)
    requires Represents(c, q, a) && Represents(c, r, b)
    ensures Represents(c, MulFrom(c, q, s, r), Plus(c, a, Times(c, s, b)))
    decreases s
  {
    if s == 0 {
      PlusNeutral(c, a);
    } else {
      var twice := Plus(c, b, b);
      AddRepresents(c, r, r, b, b);
      Closed(c, b, b);
      HalfTimes(c, s, b);
      TimesIsPoint(c, s / 2, twice);
      if s % 2 == 1 {
        AddRepresents(c, q, r, a, b);
        Closed(c, a, b);
        assert Regroups(c, a, b, Times(c, s / 2, twice));
        MulFromRepresents(c, Add(c, q, r), s / 2, Add(c, r, r), Plus(c, a, b), twice);
      } else {
        MulFromRepresents(c, q, s / 2, Add(c, r, r), a, twice);
      }
    }
  }

  lemma HalfTimes(c: Curve, s: nat, b: Affine)
    requires Good(c) && Associative(c) && IsPoint(c, b)
    ensures Times(c, s, b) == if s % 2 == 1 then Plus(c, b, Times(c, s / 2, Plus(c, b, b)))
      else Times(c, s / 2, Plus(c, b, b))
  {
    var h := s / 2;
    TimesTwo(c, b);
    TimesMul(c, 2, h, b);
    if s % 2 == 1 {
      TimesAdd(c, 1, h * 2, b);
      TimesOne(c, b);
    }
  }

  lemma TimesOne(c: Curve, b: Affine)
    requires IsPoint(c, b)
    ensures Times(c, 1, b) == b
  {
    PlusNeutral(c, b);
    assert Times(c, 0, b) == NEUTRAL;
  }

  lemma TimesTwo(c: Curve, b: Affine)
    requires IsPoint(c, b)
    ensures Times(c, 2, b) == Plus(c, b, b)
  {
    TimesOne(c, b);
  }

  /** mul(s, p) represents s times the point p represents, for every s. */
  lemma MulRepresents(c: Curve, s: nat, r: Point, b: Affine)
    requires Good(c) && Associative(c) && IsPoint(c, b) && Represents(c, r, b)
    ensures Represents(c, MulFrom(c, NEUTRAL_POINT, s, r), Times(c, s, b))
  {
    NeutralIsPoint(c);
    TimesIsPoint(c, s, b);
    EqResiduesApart(c.p, 1, 0);
    MulFromRepresents(c, NEUTRAL_POINT, s, r, NEUTRAL, b);
    PlusNeutral(c, Times(c, s, b));
  }
}
