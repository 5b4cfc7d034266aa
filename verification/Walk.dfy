/** A loop whose whole state is one number: when it ends, and when it goes round for ever. */
module Walk {
  import opened Wrappers

  /** One turn: where the loop goes on, None where it stops. */
  type Turn = int -> Option<int>

  predicate EndsBy(f: Turn, x: int, k: nat)
    decreases k
  {
    f(x).None? || (k > 0 && EndsBy(f, f(x).value, k - 1))
  }

  ghost predicate Ends(f: Turn, x: int) {
    exists k: nat :: EndsBy(f, x, k)
  }

  function Count(f: Turn, x: int, k: nat): nat
    requires EndsBy(f, x, k)
    decreases k
  {
    if f(x).None? then 0 else 1 + Count(f, f(x).value, k - 1)
  }

  /** How many turns there are. */
  ghost function Turns(f: Turn, x: int): (n: nat)
    requires Ends(f, x)
    ensures exists k: nat :: EndsBy(f, x, k) && n == Count(f, x, k)
  {
    var k: nat :| EndsBy(f, x, k);
    Count(f, x, k)
  }

  lemma {:induction false} CountIs(f: Turn, x: int, j: nat, k: nat)
    requires EndsBy(f, x, j) && EndsBy(f, x, k)
    ensures Count(f, x, j) == Count(f, x, k) <= k
    decreases j
  {
    if f(x).Some? {
      CountIs(f, f(x).value, j - 1, k - 1);
    }
  }

  lemma TurnsOn(f: Turn, x: int)
    requires Ends(f, x) && f(x).Some?
    ensures Ends(f, f(x).value) && Turns(f, x) == Turns(f, f(x).value) + 1
  {
    var k: nat :| EndsBy(f, x, k) && Turns(f, x) == Count(f, x, k);
    var y := f(x).value;
    assert EndsBy(f, y, k - 1);
    var j: nat :| EndsBy(f, y, j) && Turns(f, y) == Count(f, y, j);
    CountIs(f, y, j, k - 1);
  }

  lemma EndsBack(f: Turn, x: int)
    requires f(x).Some? && Ends(f, f(x).value)
    ensures Ends(f, x)
  {
    var k: nat :| EndsBy(f, f(x).value, k);
    assert EndsBy(f, x, k + 1);
  }

  /** A loop that stops wherever another does, and otherwise goes its way, ends where that ends. */
  lemma {:induction false} Sooner(f: Turn, g: Turn, x: int)
    requires Ends(f, x) && forall y :: g(y).None? || g(y) == f(y)
    ensures Ends(g, x)
    decreases Turns(f, x)
  {
    if g(x).None? {
      assert EndsBy(g, x, 0);
    } else {
      TurnsOn(f, x);
      Sooner(f, g, f(x).value);
      EndsBack(g, x);
    }
  }

  // ---------- when it ends ----------

  /** Where it is after k turns. */
  function Place(f: Turn, x: int, k: nat): Option<int>
    decreases k
  {
    if k == 0 then Some(x)
    else
      var y :- f(x);
      Place(f, y, k - 1)
  }

  /** It comes back to where it was. */
  ghost predicate ComesBack(f: Turn, x: int) {
    exists i: nat, j: nat :: i < j && Place(f, x, i).Some? && Place(f, x, i) == Place(f, x, j)
  }

  lemma {:induction false} PlaceTurns(f: Turn, x: int, i: nat)
    requires Ends(f, x) && Place(f, x, i).Some?
    ensures Ends(f, Place(f, x, i).value) && Turns(f, x) == Turns(f, Place(f, x, i).value) + i
    decreases i
  {
    if i > 0 {
      TurnsOn(f, x);
      PlaceTurns(f, f(x).value, i - 1);
    }
  }

  lemma {:induction false} StillRunning(f: Turn, x: int, n: nat, i: nat)
    requires !EndsBy(f, x, n) && i <= n
    ensures Place(f, x, i).Some? && f(Place(f, x, i).value).Some?
    decreases n
  {
    if i > 0 {
      StillRunning(f, f(x).value, n - 1, i - 1);
    }
  }

  function Numbers(lo: int, hi: int): (s: set<int>)
    requires lo <= hi
    ensures |s| == hi - lo && forall n :: n in s <==> lo <= n < hi
    decreases hi - lo
  {
    if lo == hi then {} else Numbers(lo, hi - 1) + {hi - 1}
  }

  lemma SubsetSize(a: set<int>, b: set<int>)
    requires a <= b
    ensures |a| <= |b|
  {
    assert a + (b - a) == b;
  }

  /** Where it is before each of the first k turns. */
  function Visited(f: Turn, x: int, k: nat): set<int> {
    if k == 0 then {} else Visited(f, x, k - 1) + At(Place(f, x, k - 1))
  }

  function At(y: Option<int>): set<int> {
    match y case None => {} case Some(n) => {n}
  }

  lemma {:induction false} VisitedWhere(f: Turn, x: int, k: nat, y: int) returns (i: nat)
    requires y in Visited(f, x, k)
    ensures i < k && Place(f, x, i) == Some(y)
  {
    if y in At(Place(f, x, k - 1)) {
      i := k - 1;
    } else {
      i := VisitedWhere(f, x, k - 1, y);
    }
  }

  lemma NotAgain(f: Turn, x: int, k: nat)
    requires !ComesBack(f, x) && Place(f, x, k).Some?
    ensures Place(f, x, k).value !in Visited(f, x, k)
  {
    hide Place, Visited;
    if Place(f, x, k).value in Visited(f, x, k) {
      var i := VisitedWhere(f, x, k, Place(f, x, k).value);
      assert false;
    }
  }

  /** The places of k turns are k, if none comes twice. */
  lemma {:induction false} PlacesApart(f: Turn, x: int, k: nat, lo: int, hi: int)
    requires !ComesBack(f, x) && lo <= hi
    requires forall i :: 0 <= i < k ==> Place(f, x, i).Some? && lo <= Place(f, x, i).value < hi
    ensures |Visited(f, x, k)| == k && Visited(f, x, k) <= Numbers(lo, hi)
  {
    hide ComesBack, Place, Numbers;
    if k > 0 {
      PlacesApart(f, x, k - 1, lo, hi);
      NotAgain(f, x, k - 1);
      assert Visited(f, x, k) == Visited(f, x, k - 1) + {Place(f, x, k - 1).value};
    }
  }

  /**
   A loop over a range ends exactly if it never comes back to where it was, and exactly if it has
   ended after as many turns as the range is long.
   */
  lemma Exact(f: Turn, x: int, lo: int, hi: int)
    requires lo <= hi && forall y :: f(y).Some? ==> lo <= y < hi
    ensures Ends(f, x) <==> !ComesBack(f, x)
    ensures Ends(f, x) <==> EndsBy(f, x, hi - lo)
  {
    if ComesBack(f, x) && Ends(f, x) {
      var i: nat, j: nat :| i < j && Place(f, x, i).Some? && Place(f, x, i) == Place(f, x, j);
      PlaceTurns(f, x, i);
      PlaceTurns(f, x, j);
      assert false;
    }
    var n := hi - lo;
    if !ComesBack(f, x) && !EndsBy(f, x, n) {
      forall i | 0 <= i < n + 1 ensures Place(f, x, i).Some? && lo <= Place(f, x, i).value < hi {
        StillRunning(f, x, n, i);
      }
      PlacesApart(f, x, n + 1, lo, hi);
      SubsetSize(Visited(f, x, n + 1), Numbers(lo, hi));
      assert false;
    }
  }
}
