/** A sequence put together from chunks, where each of them lies, and slices. */
module Chunks {

  // ---------- slices ----------

  /** Where an index points among n elements: counted from the end if it is negative, and never outside. */
  function Clamp(n: nat, i: int): (k: nat)
    ensures k <= n
  {
    if i >= n then n else if i >= 0 then i else if i + n >= 0 then i + n else 0
  }

  /** Python's s[lo:hi]. */
  function Slice<T>(s: seq<T>, lo: int, hi: int): seq<T> {
    var a, b := Clamp(|s|, lo), Clamp(|s|, hi);
    if a <= b then s[a..b] else []
  }

  lemma SliceInside<T>(s: seq<T>, lo: nat, hi: nat)
    requires lo <= hi <= |s|
    ensures Slice(s, lo, hi) == s[lo..hi]
  {
  }

  lemma SliceSuffix<T>(s: seq<T>, at: nat, lo: nat, hi: nat)
    requires at <= |s|
    ensures Slice(s[at..], lo, hi) == Slice(s, at + lo, at + hi)
  {
    var t := s[at..];
    var a, b := Clamp(|t|, lo), Clamp(|t|, hi);
    assert at + a == Clamp(|s|, at + lo) && at + b == Clamp(|s|, at + hi);
    if a <= b {
      Inner(s, at, |s|, a, b);
      assert t == s[at..|s|];
    }
  }

  lemma SliceSlice<T>(s: seq<T>, lo: nat, hi: nat, x: nat, y: nat)
    requires x <= y && lo + y <= hi
    ensures Slice(Slice(s, lo, hi), x, y) == Slice(s, lo + x, lo + y)
  {
    var t := Slice(s, lo, hi);
    Inner(s, Clamp(|s|, lo), Clamp(|s|, hi), Clamp(|t|, x), Clamp(|t|, y));
  }

  /** Two sequences that begin alike have the same slices there. */
  lemma SliceAlike<T>(s: seq<T>, t: seq<T>, n: nat, lo: nat, hi: nat)
    requires n <= |s| && n <= |t| && s[..n] == t[..n] && hi <= n
    ensures Slice(s, lo, hi) == Slice(t, lo, hi)
  {
    if lo <= hi {
      Inner(s, 0, n, lo, hi);
      Inner(t, 0, n, lo, hi);
      assert s[0..n] == s[..n] && t[0..n] == t[..n];
    }
  }

  // ---------- chunks ----------

  function Concat<T>(cs: seq<seq<T>>): seq<T> {
    if cs == [] then [] else cs[0] + Concat(cs[1..])
  }

  lemma {:induction false} ConcatAppend<T>(a: seq<seq<T>>, b: seq<seq<T>>)
    ensures Concat(a + b) == Concat(a) + Concat(b)
  {
    if a == [] {
      assert a + b == b;
    } else {
      assert (a + b)[1..] == a[1..] + b;
      ConcatAppend(a[1..], b);
    }
  }

  lemma ConcatOne<T>(c: seq<T>)
    ensures Concat([c]) == c
  {
    assert Concat([c]) == c + Concat([]);
  }

  /** Where the k'th chunk begins. */
  function Start<T>(cs: seq<seq<T>>, k: nat): nat
    requires k <= |cs|
  {
    |Concat(cs[..k])|
  }

  lemma StartNext<T>(cs: seq<seq<T>>, k: nat)
    requires k < |cs|
    ensures Start(cs, k + 1) == Start(cs, k) + |cs[k]|
    ensures Start(cs, 0) == 0
  {
    assert cs[..k + 1] == cs[..k] + [cs[k]];
    ConcatAppend(cs[..k], [cs[k]]);
    ConcatOne(cs[k]);
  }

  lemma StartEnd<T>(cs: seq<seq<T>>)
    ensures Start(cs, |cs|) == |Concat(cs)|
  {
    assert cs[..|cs|] == cs;
  }

  /** The k'th chunk lies at its start. */
  lemma ConcatAt<T>(cs: seq<seq<T>>, k: nat)
    requires k < |cs|
    ensures Start(cs, k) + |cs[k]| <= |Concat(cs)|
    ensures Concat(cs)[Start(cs, k)..Start(cs, k) + |cs[k]|] == cs[k]
  {
    var front, back := Concat(cs[..k]), Concat(cs[k + 1..]);
    assert cs == cs[..k] + ([cs[k]] + cs[k + 1..]);
    ConcatAppend(cs[..k], [cs[k]] + cs[k + 1..]);
    ConcatAppend([cs[k]], cs[k + 1..]);
    ConcatOne(cs[k]);
    assert Concat(cs) == front + (cs[k] + back);
  }

  /** A stretch of the k'th chunk lies that far behind its start. */
  lemma ConcatWithin<T>(cs: seq<seq<T>>, k: nat, x: nat, n: nat)
    requires k < |cs| && x + n <= |cs[k]|
    ensures Start(cs, k) + x + n <= |Concat(cs)|
    ensures Concat(cs)[Start(cs, k) + x..Start(cs, k) + x + n] == cs[k][x..x + n]
  {
    ConcatAt(cs, k);
    var whole, at := Concat(cs), Start(cs, k);
    Inner(whole, at, at + |cs[k]|, x, x + n);
  }

  lemma Inner<T>(s: seq<T>, lo: nat, hi: nat, p: nat, q: nat)
    requires p <= q && lo + q <= hi <= |s|
    ensures s[lo..hi][p..q] == s[lo + p..lo + q]
  {
    var a, b := s[lo..hi][p..q], s[lo + p..lo + q];
    forall i | 0 <= i < |a| ensures a[i] == b[i] {
      assert a[i] == s[lo..hi][p + i];
    }
  }

  lemma Behind<T>(a: seq<T>, b: seq<T>, x: nat, n: nat)
    requires x + n <= |b|
    ensures (a + b)[|a| + x..|a| + x + n] == b[x..x + n]
  {
    var s := a + b;
    Inner(s, |a|, |s|, x, x + n);
    assert s[|a|..|s|] == b;
  }

  /** Chunks of one size lie at its multiples. */
  lemma {:induction false} StartEven<T>(cs: seq<seq<T>>, k: nat, w: nat)
    requires k <= |cs| && forall i :: 0 <= i < |cs| ==> |cs[i]| == w
    ensures Start(cs, k) == k * w
  {
    if k > 0 {
      StartEven(cs, k - 1, w);
      StartNext(cs, k - 1);
    } else {
      assert cs[..0] == [];
    }
  }
}
