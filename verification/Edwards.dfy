/**
 The twisted Edwards curve -x^2 + y^2 = 1 + d x^2 y^2 over a prime field: the addition law
 is complete and stays on the curve, and the extended coordinates of scripts/otatool.py compute it.
 */
module Edwards {
  import opened ModArith
  import opened PrimeField

  /** The field, the curve's constant, and the original's SQRT_M1. */
  datatype Curve = Curve(p: int, d: int, i: int)

  /** What edwards25519 has: p prime and 5 modulo 8, -1 the square of i, and d no square. */
  ghost predicate Good(c: Curve) {
    && Prime(c.p) && c.p % 8 == 5
    && Eq(c.p, c.i * c.i, -1)
    && forall s :: !Eq(c.p, s * s, c.d)
  }

  // ---------- affine points ----------

  /** A point of the plane, coordinates residues. */
  datatype Affine = Affine(x: int, y: int)

  predicate OnCurve(c: Curve, x: int, y: int)
    requires c.p > 0
  {
    Eq(c.p, y * y - x * x, 1 + c.d * ((x * x) * (y * y)))
  }

  predicate IsPoint(c: Curve, a: Affine) {
    c.p > 1 && 0 <= a.x < c.p && 0 <= a.y < c.p && OnCurve(c, a.x, a.y)
  }

  /** d x1 x2 y1 y2. */
  function Kappa(c: Curve, a: Affine, b: Affine): int {
    c.d * ((a.x * b.x) * (a.y * b.y))
  }

  /** The addition law, divisions as multiplications with the inverse. */
  function Plus(c: Curve, a: Affine, b: Affine): Affine
    requires c.p > 1
  {
    var k := Kappa(c, a, b);
    Affine(((a.x * b.y + a.y * b.x) * Inv(c.p, 1 + k)) % c.p,
           ((a.y * b.y + a.x * b.x) * Inv(c.p, 1 - k)) % c.p)
  }

  const NEUTRAL := Affine(0, 1)

  // ---------- completeness ----------

  /** u^2 = d v^2 only for v = 0. */
  lemma NoSquare(c: Curve, u: int, v: int)
    requires Good(c) && Eq(c.p, u * u, c.d * (v * v))
    ensures Eq(c.p, v, 0)
  {
    var p := c.p;
    if !Eq(p, v, 0) {
      var w := Inv(p, v);
      InvIs(p, v);
      EqMul(p, v * w, 1, v * w, 1);
      EqMul(p, u * u, c.d * (v * v), w * w, w * w);
      EqMul(p, c.d, c.d, (v * w) * (v * w), 1);
      SquareAlgebra(u, v, w, c.d);
      assert Eq(p, (u * w) * (u * w), c.d);
    }
  }

  lemma SquareAlgebra(u: int, v: int, w: int, d: int)
    ensures (u * u) * (w * w) == (u * w) * (u * w)
    ensures (d * (v * v)) * (w * w) == d * ((v * w) * (v * w))
  {
    MulSwap(u, u, w, w);
    MulSwap(v, v, w, w);
    MulAssoc(d, v * v, w * w);
  }

  lemma LeftSquare(i: int, e: int, x: int, y: int)
    ensures (i * x + e * y) * (i * x + e * y) == ((i * i) * (x * x) + (e * e) * (y * y)) + 2 * (i * e) * (x * y)
  {
  }

  /** (i x + e y)^2 on the curve, for i^2 = -1 and e^2 = 1. */
  lemma LeftOnCurve(c: Curve, i: int, e: int, x: int, y: int)
    requires c.p > 0 && OnCurve(c, x, y) && Eq(c.p, i * i, -1) && Eq(c.p, e * e, 1)
    ensures Eq(c.p, (i * x + e * y) * (i * x + e * y), 1 + c.d * ((x * x) * (y * y)) + 2 * (i * e) * (x * y))
  {
    var p, xx, yy, mix := c.p, x * x, y * y, 2 * (i * e) * (x * y);
    LeftSquare(i, e, x, y);
    EqMul(p, i * i, -1, xx, xx);
    EqMul(p, e * e, 1, yy, yy);
    EqAdd(p, (i * i) * xx, -1 * xx, (e * e) * yy, 1 * yy);
    EqAdd(p, (i * i) * xx + (e * e) * yy, yy - xx, mix, mix);
    EqAdd(p, yy - xx, 1 + c.d * (xx * yy), mix, mix);
  }

  lemma MixedTerm(d: int, i: int, x1: int, y1: int, x2: int, y2: int)
    ensures (d * ((x1 * x1) * (y1 * y1))) * (2 * i * (x2 * y2)) == 2 * (i * (d * ((x1 * x2) * (y1 * y2)))) * (x1 * y1)
  {
  }

  lemma RightSquare(d: int, i: int, x1: int, y1: int, x2: int, y2: int)
    ensures var q1 := (x1 * x1) * (y1 * y1); var v := (x1 * y1) * (i * x2 + y2);
      d * (v * v) == (d * q1) * ((i * i) * (x2 * x2) + y2 * y2) + (d * q1) * (2 * i * (x2 * y2))
  {
    var w, s := x1 * y1, i * x2 + y2;
    var q1 := (x1 * x1) * (y1 * y1);
    MulSwap(w, s, w, s);
    MulSwap(x1, y1, x1, y1);
    MulAssoc(d, q1, s * s);
    LeftSquare(i, 1, x2, y2);
    MulDistributes((i * i) * (x2 * x2) + y2 * y2, 2 * i * (x2 * y2), d * q1);
  }

  lemma KappaSquare(d: int, x1: int, y1: int, x2: int, y2: int)
    ensures var e := d * ((x1 * x2) * (y1 * y2));
      (d * ((x1 * x1) * (y1 * y1))) * (1 + d * ((x2 * x2) * (y2 * y2))) == d * ((x1 * x1) * (y1 * y1)) + e * e
  {
  }

  /** d times the square of x1 y1 (i x2 + y2), for e = d x1 x2 y1 y2 of square 1. */
  lemma RightOnCurve(c: Curve, i: int, x1: int, y1: int, x2: int, y2: int)
    requires c.p > 0 && OnCurve(c, x2, y2) && Eq(c.p, i * i, -1)
    requires var e := c.d * ((x1 * x2) * (y1 * y2)); Eq(c.p, e * e, 1)
    ensures var e := c.d * ((x1 * x2) * (y1 * y2)); var v := (x1 * y1) * (i * x2 + y2);
      Eq(c.p, c.d * (v * v), 1 + c.d * ((x1 * x1) * (y1 * y1)) + 2 * (i * e) * (x1 * y1))
  {
    var p, e := c.p, c.d * ((x1 * x2) * (y1 * y2));
    var dq1, dq2, xx, yy := c.d * ((x1 * x1) * (y1 * y1)), c.d * ((x2 * x2) * (y2 * y2)), x2 * x2, y2 * y2;
    var mix := 2 * (i * e) * (x1 * y1);
    RightSquare(c.d, i, x1, y1, x2, y2);
    MixedTerm(c.d, i, x1, y1, x2, y2);
    EqMul(p, i * i, -1, xx, xx);
    EqAdd(p, (i * i) * xx, -1 * xx, yy, yy);
    EqMul(p, dq1, dq1, (i * i) * xx + yy, 1 + dq2);
    KappaSquare(c.d, x1, y1, x2, y2);
    EqAdd(p, e * e, 1, dq1, dq1);
    EqAdd(p, dq1 * ((i * i) * xx + yy), 1 + dq1, mix, mix);
  }

  /** With d x1 x2 y1 y2 of square 1, both i x2 + y2 and -i x2 + y2 vanish. */
  lemma CriticalVanishes(c: Curve, a: Affine, b: Affine, i: int)
    requires Good(c) && OnCurve(c, a.x, a.y) && OnCurve(c, b.x, b.y) && Eq(c.p, i * i, -1)
    requires Eq(c.p, Kappa(c, a, b) * Kappa(c, a, b), 1)
    ensures Eq(c.p, i * b.x + b.y, 0)
  {
    var p, e := c.p, Kappa(c, a, b);
    LeftOnCurve(c, i, e, a.x, a.y);
    RightOnCurve(c, i, a.x, a.y, b.x, b.y);
    NoSquare(c, i * a.x + e * a.y, (a.x * a.y) * (i * b.x + b.y));
    Euclid(p, a.x * a.y, i * b.x + b.y);
    if Eq(p, a.x * a.y, 0) {
      EqMul(p, a.x * a.y, 0, b.x * b.y, b.x * b.y);
      EqMul(p, c.d, c.d, (a.x * a.y) * (b.x * b.y), 0);
      MulSwap(a.x, b.x, a.y, b.y);
      EqMul(p, e, 0, e, 0);
      EqResidues(p, 0, 1);
    }
  }

  /** The addition law is complete: its denominators never vanish on the curve. */
  lemma Complete(c: Curve, a: Affine, b: Affine)
    requires Good(c) && OnCurve(c, a.x, a.y) && OnCurve(c, b.x, b.y)
    ensures !Eq(c.p, 1 + Kappa(c, a, b), 0) && !Eq(c.p, 1 - Kappa(c, a, b), 0)
  {
    var p, k := c.p, Kappa(c, a, b);
    if Eq(p, 1 + k, 0) || Eq(p, 1 - k, 0) {
      if Eq(p, 1 + k, 0) {
        EqMul(p, 1 + k, 0, k - 1, k - 1);
      } else {
        EqMul(p, 1 - k, 0, -k - 1, -k - 1);
      }
      assert (1 + k) * (k - 1) == k * k - 1 && (1 - k) * (-k - 1) == k * k - 1;
      EqZeroSub(p, k * k, 1);
      assert (-c.i) * (-c.i) == c.i * c.i;
      CriticalVanishes(c, a, b, c.i);
      CriticalVanishes(c, a, b, -c.i);
      BothVanish(c, b);
    }
  }

  /** On the curve i x + y and -i x + y do not both vanish. */
  lemma BothVanish(c: Curve, b: Affine)
    requires Good(c) && OnCurve(c, b.x, b.y)
    ensures !Eq(c.p, c.i * b.x + b.y, 0) || !Eq(c.p, -c.i * b.x + b.y, 0)
  {
    var p, i, x, y := c.p, c.i, b.x, b.y;
    if Eq(p, i * x + y, 0) && Eq(p, -i * x + y, 0) {
      VanishingSquares(c, x, y);
      EqSub(p, y * y, 0, x * x, 0);
      EqMul(p, x * x, 0, y * y, 0);
      EqMul(p, c.d, c.d, (x * x) * (y * y), 0);
      EqAdd(p, 1, 1, c.d * ((x * x) * (y * y)), c.d * 0);
      EqResidues(p, 0, 1);
    }
  }

  lemma VanishingSquares(c: Curve, x: int, y: int)
    requires Good(c) && Eq(c.p, c.i * x + y, 0) && Eq(c.p, -c.i * x + y, 0)
    ensures Eq(c.p, x * x, 0) && Eq(c.p, y * y, 0)
  {
    var p, i := c.p, c.i;
    EqAdd(p, i * x + y, 0, -i * x + y, 0);
    assert i * x + y + (-i * x + y) == 2 * y;
    TwoIsNotZero(c);
    Euclid(p, 2, y);
    EqMul(p, y, 0, y, 0);
    EqMul(p, i * x + y, 0, -i * x + y, 0);
    assert (i * x + y) * (-i * x + y) == y * y - (i * i) * (x * x);
    EqMul(p, i * i, -1, x * x, x * x);
    EqAdd(p, y * y - (i * i) * (x * x), 0, (i * i) * (x * x), -1 * (x * x));
    EqSub(p, y * y, 0, y * y, -1 * (x * x));
  }

  lemma TwoIsNotZero(c: Curve)
    requires Good(c)
    ensures !Eq(c.p, 2, 0)
  {
    EqResiduesApart(c.p, 2, 0);
  }

  lemma EqResiduesApart(p: int, a: int, b: int)
    requires p > 0 && 0 <= a < p && 0 <= b < p && a != b
    ensures !Eq(p, a, b)
  {
    ModIs(a, p, 0);
    ModIs(b, p, 0);
  }
}
