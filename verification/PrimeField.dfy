/**
 Congruence modulo a number, and what a prime modulus adds: cancellation, Fermat's
 little theorem and inverses.
 */
module PrimeField {
  import opened ModArith

  ghost predicate Prime(p: int) {
    p > 1 && forall k :: 1 < k < p ==> p % k != 0
  }

  /** x and y are the same modulo p. */
  predicate Eq(p: int, x: int, y: int)
    requires p > 0
  {
    x % p == y % p
  }

  lemma EqBy(p: int, x: int, y: int, k: int)
    requires p > 0 && x == y + k * p
    ensures Eq(p, x, y)
  {
    ModPlus(y, k, p);
  }

  lemma EqMod(p: int, x: int)
    requires p > 0
    ensures Eq(p, x % p, x)
  {
    ModMod(x, p);
  }

  lemma EqAdd(p: int, a: int, b: int, c: int, d: int)
    requires p > 0 && Eq(p, a, b) && Eq(p, c, d)
    ensures Eq(p, a + c, b + d)
  {
    ModAdd(a, c, p);
    ModAdd(b, d, p);
  }

  lemma EqSub(p: int, a: int, b: int, c: int, d: int)
    requires p > 0 && Eq(p, a, b) && Eq(p, c, d)
    ensures Eq(p, a - c, b - d)
  {
    ModSub(a, c, p);
    ModSub(b, d, p);
  }

  lemma EqMul(p: int, a: int, b: int, c: int, d: int)
    requires p > 0 && Eq(p, a, b) && Eq(p, c, d)
    ensures Eq(p, a * c, b * d)
  {
    ModMul(a, c, p);
    ModMul(b, d, p);
  }

  lemma EqPow(p: int, a: int, b: int, n: nat)
    requires p > 0 && Eq(p, a, b)
    ensures Eq(p, Pow(a, n), Pow(b, n))
  {
    PowMod(a, n, p);
    PowMod(b, n, p);
  }

  lemma EqZeroSub(p: int, a: int, b: int)
    requires p > 0
    ensures Eq(p, a - b, 0) <==> Eq(p, a, b)
  {
    if Eq(p, a, b) {
      EqSub(p, a, b, b, b);
    }
    if Eq(p, a - b, 0) {
      EqAdd(p, a - b, 0, b, b);
    }
  }

  /** Residues are equal when they are congruent. */
  lemma EqResidues(p: int, a: int, b: int)
    requires p > 0 && 0 <= a < p && 0 <= b < p && Eq(p, a, b)
    ensures a == b
  {
    ModIs(a, p, 0);
    ModIs(b, p, 0);
  }

  // ---------- a prime divides no product of smaller numbers ----------

  lemma {:induction false} EuclidBelow(p: int, a: int, b: int)
    requires Prime(p) && 0 < a < p && Eq(p, a * b, 0)
    ensures Eq(p, b, 0)
    decreases a
  {
    if a == 1 {
      assert a * b == b;
    } else {
      var q, r := p / a, p % a;
      assert p == q * a + r && 0 <= r < a;
      EuclidStep(p, a, b, q, r);
      EuclidBelow(p, r, b);
    }
  }

  lemma EuclidStep(p: int, a: int, b: int, q: int, r: int)
    requires p > 0 && p == q * a + r && Eq(p, a * b, 0)
    ensures Eq(p, r * b, 0)
  {
    EqMul(p, q, q, a * b, 0);
    EqBy(p, b * p, 0, b);
    EqSub(p, b * p, 0, q * (a * b), q * 0);
    assert r * b == b * p - q * (a * b) by {
      MulAssoc(q, a, b);
      MulDistributes(q * a, r, b);
    }
  }

  lemma Euclid(p: int, a: int, b: int)
    requires Prime(p) && Eq(p, a * b, 0)
    ensures Eq(p, a, 0) || Eq(p, b, 0)
  {
    if !Eq(p, a, 0) {
      EqMod(p, a);
      EqMul(p, a % p, a, b, b);
      EuclidBelow(p, a % p, b);
    }
  }

  lemma NonzeroProduct(p: int, a: int, b: int)
    requires Prime(p) && !Eq(p, a, 0) && !Eq(p, b, 0)
    ensures !Eq(p, a * b, 0)
  {
    if Eq(p, a * b, 0) {
      Euclid(p, a, b);
    }
  }

  lemma Cancel(p: int, c: int, a: int, b: int)
    requires Prime(p) && !Eq(p, c, 0) && Eq(p, c * a, c * b)
    ensures Eq(p, a, b)
  {
    EqZeroSub(p, c * a, c * b);
    assert c * a - c * b == c * (a - b);
    Euclid(p, c, a - b);
    EqZeroSub(p, a, b);
  }

  // ---------- Fermat's little theorem ----------

  function Choose(n: nat, k: nat): nat {
    if k == 0 then 1 else if n == 0 then 0 else Choose(n - 1, k - 1) + Choose(n - 1, k)
  }

  lemma {:induction false} ChooseAbove(n: nat, k: nat)
    requires k > n
    ensures Choose(n, k) == 0
  {
    if n > 0 {
      ChooseAbove(n - 1, k - 1);
      ChooseAbove(n - 1, k);
    }
  }

  lemma {:induction false} ChooseAll(n: nat)
    ensures Choose(n, n) == 1
  {
    if n > 0 {
      ChooseAll(n - 1);
      ChooseAbove(n - 1, n);
    }
  }

  lemma {:induction false} Absorb(n: nat, k: nat)
    requires n >= 1 && k >= 1
    ensures k * Choose(n, k) == n * Choose(n - 1, k - 1)
  {
    if n == 1 {
      if k > 1 {
        ChooseAbove(1, k);
        ChooseAbove(0, k - 1);
      } else {
        assert Choose(1, 1) == Choose(0, 0) + Choose(0, 1) == 1;
      }
    } else {
      Absorb(n - 1, k);
      if k > 1 {
        Absorb(n - 1, k - 1);
        AbsorbStep(n, k, Choose(n - 1, k - 1), Choose(n - 1, k), Choose(n - 2, k - 2), Choose(n - 2, k - 1));
      } else {
        assert Choose(n - 2, 0) == 1 && Choose(n - 1, 0) == 1;
      }
    }
  }

  lemma AbsorbStep(n: int, k: int, a: int, b: int, c: int, d: int)
    requires (k - 1) * a == (n - 1) * c && k * b == (n - 1) * d && a == c + d
    ensures k * (a + b) == n * a
  {
  }

  /** 1 + n a + ... + C(n, k) a^k. */
  function Binomial(n: nat, a: int, k: nat): int {
    Choose(n, k) * Pow(a, k) + if k == 0 then 0 else Binomial(n, a, k - 1)
  }

  /** One more term of the sum, split by Pascal's rule. */
  lemma PascalTerm(p: int, q: int, a: int, r: int, rest: int, below: int, under: int)
    requires rest == below + a * under
    ensures (p + q) * (a * r) + rest == (q * (a * r) + below) + a * (p * r + under)
  {
    MulDistributes(p, q, a * r);
    MulAssoc(p, a, r);
    MulAssoc(a, p, r);
    MulDistributes(p * r, under, a);
  }

  lemma {:induction false} BinomialPascal(n: nat, a: int, k: nat)
    requires n >= 1 && k >= 1
    ensures Binomial(n, a, k) == Binomial(n - 1, a, k) + a * Binomial(n - 1, a, k - 1)
  {
    var rest, below := Binomial(n, a, k - 1), Binomial(n - 1, a, k - 1);
    var under := if k == 1 then 0 else Binomial(n - 1, a, k - 2);
    if k > 1 {
      BinomialPascal(n, a, k - 1);
    } else {
      assert Binomial(n, a, 0) == 1 && Binomial(n - 1, a, 0) == 1 && a * under == 0;
    }
    PascalTerm(Choose(n - 1, k - 1), Choose(n - 1, k), a, Pow(a, k - 1), rest, below, under);
  }

  lemma {:induction false} BinomialTheorem(n: nat, a: int)
    ensures Binomial(n, a, n) == Pow(a + 1, n)
  {
    if n > 0 {
      BinomialTheorem(n - 1, a);
      BinomialPascal(n, a, n);
      ChooseAbove(n - 1, n);
      var b := Binomial(n - 1, a, n - 1);
      assert Binomial(n - 1, a, n) == b;
      MulDistributes(1, a, b);
    }
  }

  lemma ChoosePrime(p: int, k: nat)
    requires Prime(p) && 0 < k < p
    ensures Eq(p, Choose(p, k), 0)
  {
    Absorb(p, k);
    EqBy(p, k * Choose(p, k), 0, Choose(p - 1, k - 1));
    EuclidBelow(p, k, Choose(p, k));
  }

  lemma {:induction false} BinomialPrime(p: int, a: int, k: nat)
    requires Prime(p) && k < p
    ensures Eq(p, Binomial(p, a, k), 1)
  {
    if k > 0 {
      BinomialPrime(p, a, k - 1);
      ChoosePrime(p, k);
      EqMul(p, Choose(p, k), 0, Pow(a, k), Pow(a, k));
      EqAdd(p, Choose(p, k) * Pow(a, k), 0, Binomial(p, a, k - 1), 1);
    }
  }

  /** (a + 1)^p is a^p + 1. */
  lemma Frobenius(p: int, a: int)
    requires Prime(p)
    ensures Eq(p, Pow(a + 1, p), Pow(a, p) + 1)
  {
    BinomialTheorem(p, a);
    BinomialPrime(p, a, p - 1);
    ChooseAll(p);
    EqAdd(p, Pow(a, p), Pow(a, p), Binomial(p, a, p - 1), 1);
  }

  lemma {:induction false} FermatNat(p: int, a: nat)
    requires Prime(p)
    ensures Eq(p, Pow(a, p), a)
  {
    if a == 0 {
      assert Pow(0, p) == 0 * Pow(0, p - 1);
    } else {
      FermatNat(p, a - 1);
      Frobenius(p, a - 1);
      EqAdd(p, Pow(a - 1, p), a - 1, 1, 1);
    }
  }

  /** a^(p-1) is 1 for every a that p does not divide. */
  lemma Fermat(p: int, a: int)
    requires Prime(p) && !Eq(p, a, 0)
    ensures Eq(p, Pow(a, p - 1), 1)
  {
    FermatNat(p, a % p);
    EqMod(p, a);
    EqPow(p, a % p, a, p);
    assert Pow(a, p) == a * Pow(a, p - 1);
    assert a == a * 1;
    Cancel(p, a, Pow(a, p - 1), 1);
  }

  /** pow(a, p - 2, p) inverts a. */
  function Inv(p: int, a: int): (r: int)
    requires p > 1
  {
    Pow(a, p - 2) % p
  }

  lemma InvIs(p: int, a: int)
    requires Prime(p) && !Eq(p, a, 0)
    ensures Eq(p, a * Inv(p, a), 1)
    ensures !Eq(p, Inv(p, a), 0)
  {
    Fermat(p, a);
    EqMod(p, Pow(a, p - 2));
    EqMul(p, a, a, Inv(p, a), Pow(a, p - 2));
    assert Pow(a, p - 1) == a * Pow(a, p - 2);
    if Eq(p, Inv(p, a), 0) {
      EqMul(p, a, a, Inv(p, a), 0);
      EqResidues(p, 0, 1);
    }
  }
}
