/**
 The look-ahead limiter of web/loudness.js over real numbers: a queue of rising needs,
 a running sum and a release filter, against the minimums and averages they stand for.
 */
module Limiter {

  function Abs(a: real): (r: real)
    ensures r >= 0.0
  {
    if a < 0.0 then -a else a
  }


  function Least(a: real, b: real): real { if a < b then a else b }
  function Clip(a: real): real { if a < -1.0 then -1.0 else if a > 1.0 then 1.0 else a }

  // ---------- what is computed ----------

  /** The gain that takes a sample of size a under the ceiling. */
  function NeedOf(a: real, ceiling: real): (r: real)
    requires a >= 0.0 && ceiling >= 0.0
    ensures 0.0 <= r <= 1.0 && a * r <= ceiling
  {
    if a > ceiling then Ratio(ceiling, a); ceiling / a else 1.0
  }

  lemma Ratio(c: real, a: real)
    requires 0.0 <= c < a
    ensures 0.0 <= c / a <= 1.0 && a * (c / a) == c
  {
    var r := c / a;
    assert a * r == c;
    if r > 1.0 {
      assert a * r > a * 1.0;
    }
  }

  /** The size of a sample with the gain on it. */
  function Level(v: real, gain: real): (r: real)
    ensures r >= 0.0
  {
    Abs(v * gain)
  }

  function Needs(x: seq<real>, gain: real, ceiling: real): (r: seq<real>)
    requires ceiling >= 0.0
    ensures |r| == |x|
    ensures forall i :: 0 <= i < |x| ==> r[i] == NeedOf(Level(x[i], gain), ceiling)
  {
    seq(|x|, i requires 0 <= i < |x| => NeedOf(Level(x[i], gain), ceiling))
  }

  function Lowest(s: seq<real>): real
    requires s != []
  {
    if |s| == 1 then s[0] else Least(s[0], Lowest(s[1..]))
  }

  function WindowEnd(n: nat, i: nat, L: nat): nat {
    if i + L < n then i + L else n
  }

  /** The lowest need from each sample on, over the next L. */
  function Minimums(need: seq<real>, L: nat): (r: seq<real>)
    requires L > 0
    ensures |r| == |need|
    ensures forall i :: 0 <= i < |need| ==> r[i] == Lowest(need[i..WindowEnd(|need|, i, L)])
  {
    seq(|need|, i requires 0 <= i < |need| => Lowest(need[i..WindowEnd(|need|, i, L)]))
  }

  /** A minimum, before the start the first one. */
  function Held(min: seq<real>, j: int): real
    requires min != [] && j < |min|
  {
    if j < 0 then min[0] else min[j]
  }

  /** The sum of the count minimums before end. */
  function Total(min: seq<real>, end: int, count: nat): real
    requires min != [] && end <= |min|
    decreases count
  {
    if count == 0 then 0.0 else Held(min, end - 1) + Total(min, end - 1, count - 1)
  }

  function Mean(total: real, L: nat): (r: real)
    requires L > 0
    ensures r * L as real == total
  {
    total / L as real
  }

  /** The release: k of what is missing to full gain. */
  function Relaxed(g: real, k: real): real {
    g + (1.0 - g) * k
  }

  function Shaped(u: real, g: real): real {
    Clip(u * g)
  }

  function Sample(v: real, gain: real, g: real): real {
    Shaped(v * gain, g)
  }

  /** The gain of sample i: the average of the last L minimums, let up again by the release k. */
  function Gain(min: seq<real>, L: nat, k: real, i: int): real
    requires min != [] && L > 0 && i < |min|
    decreases if i < 0 then 0 else i + 1
  {
    if i < 0 then 1.0
    else
      var g := Gain(min, L, k, i - 1);
      Least(Mean(Total(min, i + 1, L), L), Relaxed(g, k))
  }

  function Limited(x: seq<real>, gain: real, ceiling: real, L: nat, k: real): (r: seq<real>)
    requires ceiling >= 0.0 && L > 0
    ensures |r| == |x|
  {
    var min := Minimums(Needs(x, gain, ceiling), L);
    seq(|x|, i requires 0 <= i < |x| => Sample(x[i], gain, Gain(min, L, k, i)))
  }

  // ---------- the minimum of a window ----------

  ghost predicate IsLowest(s: seq<real>, v: real) {
    (forall j :: 0 <= j < |s| ==> v <= s[j]) && v in s
  }

  lemma {:induction false} LowestIs(s: seq<real>)
    requires s != []
    ensures IsLowest(s, Lowest(s))
  {
    if |s| > 1 {
      LowestIs(s[1..]);
      forall j | 0 <= j < |s| ensures Lowest(s) <= s[j] {
        if j > 0 {
          assert s[j] == s[1..][j - 1];
        }
      }
    }
  }

  lemma LowestUnique(s: seq<real>, v: real)
    requires s != [] && IsLowest(s, v)
    ensures v == Lowest(s)
  {
    LowestIs(s);
    assert v <= Lowest(s) && Lowest(s) <= v;
  }

  /** What an index of the queue stands for: w is no lower than an index at or before it. */
  ghost predicate Covered(need: seq<real>, live: seq<nat>, w: nat)
    requires w < |need| && forall t :: 0 <= t < |live| ==> live[t] < |need|
  {
    exists t :: 0 <= t < |live| && live[t] <= w && need[live[t]] <= need[w]
  }

  /** The live part of the queue: indexes between from and end, falling, their needs rising. */
  ghost predicate Rising(need: seq<real>, live: seq<nat>, from: nat, end: nat) {
    && end <= |need|
    && (forall t :: 0 <= t < |live| ==> from <= live[t] < end)
    && (forall t :: 0 < t < |live| ==> live[t - 1] > live[t] && need[live[t - 1]] < need[live[t]])
  }

  /** The queue for the samples from `from` to end: every one of them covered. */
  ghost predicate Queued(need: seq<real>, live: seq<nat>, from: nat, end: nat) {
    Rising(need, live, from, end) && forall w :: from <= w < end ==> Covered(need, live, w)
  }

  lemma {:induction false} FrontBelow(need: seq<real>, live: seq<nat>, from: nat, end: nat, t: nat)
    requires Rising(need, live, from, end) && t < |live|
    ensures need[live[0]] <= need[live[t]] && live[t] <= live[0] && (t > 0 ==> live[t] < live[0])
  {
    if t > 0 {
      FrontBelow(need, live, from, end, t - 1);
    }
  }

  /** The front of the queue is the window's minimum. */
  lemma FrontIsLowest(need: seq<real>, live: seq<nat>, from: nat, end: nat)
    requires Queued(need, live, from, end) && from < end
    ensures live != [] && need[live[0]] == Lowest(need[from..end])
  {
    assert Covered(need, live, from);
    var s := need[from..end];
    forall j | 0 <= j < |s| ensures need[live[0]] <= s[j] {
      assert Covered(need, live, from + j);
      var t :| 0 <= t < |live| && live[t] <= from + j && need[live[t]] <= need[from + j];
      FrontBelow(need, live, from, end, t);
    }
    assert s[live[0] - from] == need[live[0]];
    LowestUnique(s, need[live[0]]);
  }

  ghost predicate CoveredOr(need: seq<real>, live: seq<nat>, i: nat, w: nat)
    requires w < |need| && i < |need| && forall t :: 0 <= t < |live| ==> live[t] < |need|
  {
    Covered(need, live, w) || need[i] <= need[w]
  }

  /** While i is being pushed: what is not covered is no lower than need[i]. */
  ghost predicate Popping(need: seq<real>, live: seq<nat>, i: nat, end: nat) {
    i < end && Rising(need, live, i + 1, end) && forall w :: i + 1 <= w < end ==> CoveredOr(need, live, i, w)
  }

  lemma CoverStays(need: seq<real>, live: seq<nat>, i: nat, w: nat)
    requires live != [] && i < |need| && w < |need| && forall t :: 0 <= t < |live| ==> live[t] < |need|
    requires need[live[|live| - 1]] >= need[i] && CoveredOr(need, live, i, w)
    ensures CoveredOr(need, live[..|live| - 1], i, w)
  {
    var rest := live[..|live| - 1];
    if need[w] < need[i] {
      var t :| 0 <= t < |live| && live[t] <= w && need[live[t]] <= need[w];
      assert t < |rest| && rest[t] == live[t];
    }
  }

  lemma PopKeeps(need: seq<real>, live: seq<nat>, i: nat, end: nat)
    requires Popping(need, live, i, end) && live != [] && need[live[|live| - 1]] >= need[i]
    ensures Popping(need, live[..|live| - 1], i, end)
  {
    var rest := live[..|live| - 1];
    forall w | i + 1 <= w < end ensures CoveredOr(need, rest, i, w) {
      CoverStays(need, live, i, w);
    }
  }

  lemma CoverGrows(need: seq<real>, live: seq<nat>, i: nat, w: nat)
    requires i <= w < |need| && forall t :: 0 <= t < |live| ==> live[t] < |need|
    requires i < w ==> CoveredOr(need, live, i, w)
    ensures Covered(need, live + [i], w)
  {
    var all := live + [i];
    assert all[|live|] == i;
    if i < w && Covered(need, live, w) {
      var t :| 0 <= t < |live| && live[t] <= w && need[live[t]] <= need[w];
      assert all[t] == live[t];
    }
  }

  lemma PushKeeps(need: seq<real>, live: seq<nat>, i: nat, end: nat)
    requires Popping(need, live, i, end) && (live != [] ==> need[live[|live| - 1]] < need[i])
    ensures Queued(need, live + [i], i, end)
  {
    forall w | i <= w < end ensures Covered(need, live + [i], w) {
      CoverGrows(need, live, i, w);
    }
  }

  lemma CoverLeft(need: seq<real>, live: seq<nat>, end: nat, w: nat)
    requires live != [] && w < |need| && w < end && (forall t :: 0 <= t < |live| ==> live[t] < |need|)
    requires Covered(need, live, w)
    ensures Covered(need, if live[0] == end then live[1..] else live, w)
  {
    var t :| 0 <= t < |live| && live[t] <= w && need[live[t]] <= need[w];
    var rest := if live[0] == end then live[1..] else live;
    assert rest[if live[0] == end then t - 1 else t] == live[t];
  }

  /** The window moves off its last sample. */
  lemma ExpireKeeps(need: seq<real>, live: seq<nat>, from: nat, end: nat)
    requires Queued(need, live, from, end + 1) && from < end
    ensures live != [] && live[0] <= end
    ensures Queued(need, if live[0] == end then live[1..] else live, from, end)
  {
    assert Covered(need, live, from);
    var rest := if live[0] == end then live[1..] else live;
    forall t | 0 <= t < |rest| ensures rest[t] < end {
      FrontBelow(need, live, from, end + 1, if live[0] == end then t + 1 else t);
    }
    forall w | from <= w < end ensures Covered(need, rest, w) {
      assert Covered(need, live, w);
      CoverLeft(need, live, end, w);
    }
  }

  /** The pops and the push of sample i: q from its head on is again a queue, of one sample more. */
  method Push(need: array<real>, q: seq<nat>, h: nat, i: nat, ghost end: nat) returns (r: seq<nat>)
    requires h <= |q| && i < end <= need.Length && Queued(need[..], q[h..], i + 1, end)
    ensures h < |r| && Queued(need[..], r[h..], i, end)
  {
    ghost var s := need[..];
    r := q;
    assert Popping(s, r[h..], i, end) by {
      forall w | i + 1 <= w < end ensures CoveredOr(s, r[h..], i, w) {
        assert Covered(s, q[h..], w);
      }
    }
    while |r| > h && need[r[|r| - 1]] >= need[i]
      invariant h <= |r| && Popping(s, r[h..], i, end)
      decreases |r|
    {
      PopKeeps(s, r[h..], i, end);
      assert r[h..][..|r| - h - 1] == r[..|r| - 1][h..];
      r := r[..|r| - 1];
    }
    PushKeeps(s, r[h..], i, end);
    assert (r + [i])[h..] == r[h..] + [i];
    r := r + [i];
  }

  /** The head of the queue, moved on where its index has left the window that now ends at last. */
  method Expire(need: array<real>, q: seq<nat>, h: nat, i: nat, ghost end: nat, L: nat) returns (g: nat)
    requires L > 0 && h < |q| && i < need.Length && Queued(need[..], q[h..], i, end)
    requires end == WindowEnd(need.Length, i + 1, L)
    ensures g < |q| && Queued(need[..], q[g..], i, WindowEnd(need.Length, i, L))
  {
    ghost var last := WindowEnd(need.Length, i, L);
    if last < end {
      ExpireKeeps(need[..], q[h..], i, last);
    }
    g := if q[h] >= i + L then h + 1 else h;
    assert q[h..][1..] == q[h + 1..];
    assert Queued(need[..], q[g..], i, last);
    assert Covered(need[..], q[g..], i);
  }

  /** The first loop and its queue: q with its head h, compacted now and then. */
  method WindowMinimums(need: array<real>, L: nat) returns (min: array<real>)
    requires L > 0
    ensures fresh(min) && min[..] == Minimums(need[..], L)
  {
    var n := need.Length;
    min := new real[n](_ => 0.0);
    ghost var s := need[..];
    ghost var m := Minimums(s, L);
    var q: seq<nat>, h := [], 0;
    var i := n - 1;
    while i >= 0
      invariant -1 <= i < n && h <= |q|
      invariant Queued(s, q[h..], i + 1, WindowEnd(n, i + 1, L))
      invariant forall j :: i < j < n ==> min[j] == m[j]
    {
      ghost var end := WindowEnd(n, i + 1, L);
      q := Push(need, q, h, i, end);
      h := Expire(need, q, h, i, end, L);
      FrontIsLowest(s, q[h..], i, WindowEnd(n, i, L));
      min[i] := need[q[h]];
      if h > 4096 {
        q, h := q[h..], 0;
      }
      i := i - 1;
    }
  }

  // ---------- the running sum ----------

  lemma OneMore(n: real, v: real)
    ensures n * v == v + (n - 1.0) * v
  {
  }

  lemma {:induction false} TotalBefore(min: seq<real>, end: int, count: nat)
    requires min != [] && end <= 0
    ensures Total(min, end, count) == count as real * min[0]
    decreases count
  {
    if count > 0 {
      TotalBefore(min, end - 1, count - 1);
      OneMore(count as real, min[0]);
    }
  }

  /** The sum moves on by the minimum that comes in and the one that goes out. */
  lemma {:induction false} TotalMoves(min: seq<real>, end: int, count: nat)
    requires min != [] && end < |min|
    ensures Total(min, end + 1, count) ==
      Total(min, end, count) + (if count == 0 then 0.0 else Held(min, end) - Held(min, end - count))
    decreases count
  {
    if count > 0 {
      TotalMoves(min, end - 1, count - 1);
      assert Total(min, end + 1, count) == Held(min, end) + Total(min, end, count - 1);
      assert Total(min, end, count) == Held(min, end - 1) + Total(min, end - 1, count - 1);
    }
  }

  /** limit: the whole of it. */
  method Limit(x: array<real>, gain: real, ceiling: real, L: nat, k: real) returns (out: array<real>)
    requires ceiling >= 0.0 && L > 0
    ensures fresh(out) && out[..] == Limited(x[..], gain, ceiling, L, k)
  {
    var n := x.Length;
    var need := new real[n](_ => 0.0);
    var i := 0;
    while i < n
      invariant 0 <= i <= n && forall j :: 0 <= j < i ==> need[j] == Needs(x[..], gain, ceiling)[j]
    {
      need[i] := NeedOf(Level(x[i], gain), ceiling);
      i := i + 1;
    }
    assert need[..] == Needs(x[..], gain, ceiling);
    var min := WindowMinimums(need, L);
    out := Smooth(x, gain, min, L, k);
    assert out[..] == Limited(x[..], gain, ceiling, L, k);
  }

  /** The second loop: sum the last L minimums, g the gain. */
  method Smooth(x: array<real>, gain: real, min: array<real>, L: nat, k: real) returns (out: array<real>)
    requires L > 0 && min.Length == x.Length
    ensures fresh(out) && out.Length == x.Length
    ensures forall i :: 0 <= i < x.Length ==> out[i] == Sample(x[i], gain, Gain(min[..], L, k, i))
  {
    var n := x.Length;
    out := new real[n](_ => 0.0);
    ghost var s := min[..];
    var first := if n > 0 then min[0] else 1.0;
    var sum, g := L as real * first, 1.0;
    if n > 0 {
      TotalBefore(s, 0, L);
    }
    var i := 0;
    while i < n
      invariant 0 <= i <= n
      invariant n > 0 ==> sum == Total(s, i, L) && g == Gain(s, L, k, i - 1)
      invariant forall j :: 0 <= j < i ==> out[j] == Sample(x[j], gain, Gain(s, L, k, j))
    {
      TotalMoves(s, i, L);
      sum := sum + (min[i] - if i >= L then min[i - L] else first);
      g := Least(Mean(sum, L), Relaxed(g, k));
      out[i] := Sample(x[i], gain, g);
      i := i + 1;
    }
  }

  // ---------- the gain ----------

  /** k as the original has it: 1 - e^(-1/3840). */
  predicate Release(k: real) {
    0.0 <= k <= 1.0
  }

  ghost predicate AtMost(min: seq<real>, lo: int, hi: int, top: real)
    requires min != [] && hi <= |min|
  {
    forall j :: lo <= j < hi ==> Held(min, j) <= top
  }

  ghost predicate AtLeast(min: seq<real>, lo: int, hi: int, bottom: real)
    requires min != [] && hi <= |min|
  {
    forall j :: lo <= j < hi ==> Held(min, j) >= bottom
  }

  lemma {:induction false} TotalAtMost(min: seq<real>, end: int, count: nat, top: real)
    requires min != [] && end <= |min| && AtMost(min, end - count, end, top)
    ensures Total(min, end, count) <= count as real * top
    decreases count
  {
    if count > 0 {
      TotalAtMost(min, end - 1, count - 1, top);
      assert Held(min, end - 1) <= top;
    }
  }

  lemma {:induction false} TotalAtLeast(min: seq<real>, end: int, count: nat, bottom: real)
    requires min != [] && end <= |min| && AtLeast(min, end - count, end, bottom)
    ensures Total(min, end, count) >= count as real * bottom
    decreases count
  {
    if count > 0 {
      TotalAtLeast(min, end - 1, count - 1, bottom);
      assert Held(min, end - 1) >= bottom;
    }
  }

  lemma MeanBelow(total: real, L: nat, v: real)
    requires L > 0 && total <= L as real * v
    ensures Mean(total, L) <= v
  {
    var r, n := Mean(total, L), L as real;
    if r > v {
      Scaled(n, v, r);
    }
  }

  lemma MeanAbove(total: real, L: nat, v: real)
    requires L > 0 && total >= L as real * v
    ensures Mean(total, L) >= v
  {
    var r, n := Mean(total, L), L as real;
    if r < v {
      Scaled(n, r, v);
    }
  }

  lemma Scaled(n: real, a: real, b: real)
    requires n > 0.0 && a < b
    ensures n * a < n * b
  {
  }

  /** Each of the L minimums up to sample i already covers it, those before the start included. */
  lemma MinimumsCover(need: seq<real>, L: nat, i: nat)
    requires L > 0 && i < |need|
    ensures AtMost(Minimums(need, L), i + 1 - L, i + 1, need[i])
  {
    var min := Minimums(need, L);
    forall j | i + 1 - L <= j < i + 1 ensures Held(min, j) <= need[i] {
      var at := if j < 0 then 0 else j;
      var w := need[at..WindowEnd(|need|, at, L)];
      LowestIs(w);
      assert w[i - at] == need[i];
    }
  }

  /** The average is never above what the sample needs. */
  lemma AverageCovers(need: seq<real>, L: nat, i: nat)
    requires L > 0 && i < |need|
    ensures Mean(Total(Minimums(need, L), i + 1, L), L) <= need[i]
  {
    var total := Total(Minimums(need, L), i + 1, L);
    MinimumsCover(need, L, i);
    TotalAtMost(Minimums(need, L), i + 1, L, need[i]);
    MeanBelow(total, L, need[i]);
  }

  lemma AverageAbove(need: seq<real>, L: nat, i: nat, bottom: real)
    requires L > 0 && i < |need|
    requires forall j :: 0 <= j < |need| ==> need[j] >= bottom
    ensures Mean(Total(Minimums(need, L), i + 1, L), L) >= bottom
  {
    var total := Total(Minimums(need, L), i + 1, L);
    MinimumsAtLeast(need, L, bottom, i + 1 - L, i + 1);
    TotalAtLeast(Minimums(need, L), i + 1, L, bottom);
    MeanAbove(total, L, bottom);
  }

  lemma MinimumsAtLeast(need: seq<real>, L: nat, bottom: real, lo: int, hi: int)
    requires L > 0 && need != [] && hi <= |need|
    requires forall i :: 0 <= i < |need| ==> need[i] >= bottom
    ensures AtLeast(Minimums(need, L), lo, hi, bottom)
  {
    var min := Minimums(need, L);
    forall j | lo <= j < hi ensures Held(min, j) >= bottom {
      var at := if j < 0 then 0 else j;
      LowestIs(need[at..WindowEnd(|need|, at, L)]);
    }
  }

  lemma Product(a: real, b: real)
    requires a >= 0.0 && b >= 0.0
    ensures a * b >= 0.0
  {
  }

  lemma RelaxedWithin(g: real, k: real, bottom: real)
    requires Release(k) && bottom <= g <= 1.0
    ensures bottom <= g <= Relaxed(g, k) <= 1.0
  {
    Product(1.0 - g, k);
    Product(1.0 - g, 1.0 - k);
  }

  /** The gain is never above what its sample needs, and never under the lowest need there is. */
  lemma {:induction false} GainBounds(need: seq<real>, L: nat, k: real, i: int, bottom: real)
    requires L > 0 && Release(k) && need != [] && i < |need| && bottom <= 1.0
    requires forall j :: 0 <= j < |need| ==> bottom <= need[j] <= 1.0
    ensures bottom <= Gain(Minimums(need, L), L, k, i) <= 1.0
    ensures i >= 0 ==> Gain(Minimums(need, L), L, k, i) <= need[i]
    decreases if i < 0 then 0 else i + 1
  {
    if i >= 0 {
      var min := Minimums(need, L);
      var g, mean := Gain(min, L, k, i - 1), Mean(Total(min, i + 1, L), L);
      GainBounds(need, L, k, i - 1, bottom);
      AverageCovers(need, L, i);
      AverageAbove(need, L, i, bottom);
      RelaxedWithin(g, k, bottom);
      assert Gain(min, L, k, i) == Least(mean, Relaxed(g, k));
    }
  }

  lemma HeldWithin(need: seq<real>, L: nat, j: int)
    requires L > 0 && need != [] && j < |need|
    requires forall i :: 0 <= i < |need| ==> 0.0 <= need[i] <= 1.0
    ensures 0.0 <= Held(Minimums(need, L), j) <= 1.0
  {
    var at := if j < 0 then 0 else j;
    LowestIs(need[at..WindowEnd(|need|, at, L)]);
  }

  lemma MeanMoves(a: real, b: real, L: nat)
    requires L > 0 && a >= b - 1.0
    ensures Mean(a, L) >= Mean(b, L) - 1.0 / L as real
  {
    var n := L as real;
    var q, r := Mean(b, L), 1.0 / n;
    assert n * (q - r) == b - 1.0 by {
      assert n * r == 1.0;
    }
    MeanAbove(a, L, q - r);
  }

  lemma GainSteps(min: seq<real>, L: nat, k: real, i: nat)
    requires L > 0 && i < |min|
    ensures Gain(min, L, k, i) == Least(Mean(Total(min, i + 1, L), L), Relaxed(Gain(min, L, k, i - 1), k))
  {
  }

  lemma HeldSwing(need: seq<real>, L: nat, i: nat)
    requires L > 0 && i < |need|
    requires forall j :: 0 <= j < |need| ==> 0.0 <= need[j] <= 1.0
    ensures Total(Minimums(need, L), i + 1, L) >= Total(Minimums(need, L), i, L) - 1.0
  {
    TotalMoves(Minimums(need, L), i, L);
    HeldWithin(need, L, i);
    HeldWithin(need, L, i - L);
  }

  lemma StepBounds(mean: real, before: real, down: real, g: real, relaxed: real)
    requires g <= before && mean >= before - down && down >= 0.0 && g <= relaxed
    ensures g - down <= Least(mean, relaxed) <= relaxed
  {
  }

  /** No click: from one sample to the next the gain drops by at most 1/L, and rises by at most k of what is missing. */
  lemma NoStep(need: seq<real>, L: nat, k: real, i: nat)
    requires L > 0 && Release(k) && 0 < i < |need|
    requires forall j :: 0 <= j < |need| ==> 0.0 <= need[j] <= 1.0
    ensures var min := Minimums(need, L);
      Gain(min, L, k, i - 1) - 1.0 / L as real <= Gain(min, L, k, i) <= Relaxed(Gain(min, L, k, i - 1), k)
  {
    var min := Minimums(need, L);
    HeldSwing(need, L, i);
    MeanMoves(Total(min, i + 1, L), Total(min, i, L), L);
    GainBounds(need, L, k, i - 1, 0.0);
    RelaxedWithin(Gain(min, L, k, i - 1), k, 0.0);
    GainSteps(min, L, k, i - 1);
    GainSteps(min, L, k, i);
    Part(L);
    StepBounds(Mean(Total(min, i + 1, L), L), Mean(Total(min, i, L), L), 1.0 / L as real, Gain(min, L, k, i - 1),
      Relaxed(Gain(min, L, k, i - 1), k));
  }

  lemma Part(L: nat)
    requires L > 0
    ensures 1.0 / L as real >= 0.0
  {
  }

  // ---------- the promises ----------

  lemma Ordered(a: real, g: real, r: real)
    requires a >= 0.0 && g <= r
    ensures a * g <= a * r
  {
    Product(a, r - g);
  }

  lemma AbsScaled(v: real, g: real)
    requires g >= 0.0
    ensures Abs(Shaped(v, g)) <= Abs(v) * g && Abs(Shaped(v, g)) <= 1.0 && Shaped(v, g) * v >= 0.0
  {
    Product(Abs(v), g);
    if v >= 0.0 {
      Product(Clip(v * g), v);
    } else {
      assert v * g == -(Abs(v) * g);
      Product(-Clip(v * g), -v);
    }
  }

  lemma UnderBoth(a: real, g: real, r: real, ceiling: real)
    requires a >= 0.0 && 0.0 <= g <= r <= 1.0 && a * r <= ceiling
    ensures a * g <= ceiling && a * g <= a
  {
    Ordered(a, g, r);
    Ordered(a, g, 1.0);
  }

  lemma LevelHeld(u: real, g: real, ceiling: real)
    requires ceiling >= 0.0 && 0.0 <= g <= NeedOf(Abs(u), ceiling)
    ensures Abs(Shaped(u, g)) <= ceiling && Abs(Shaped(u, g)) <= 1.0
    ensures Abs(Shaped(u, g)) <= Abs(u) && Shaped(u, g) * u >= 0.0
  {
    hide Shaped, Abs, Clip, NeedOf;
    UnderBoth(Abs(u), g, NeedOf(Abs(u), ceiling), ceiling);
    AbsScaled(u, g);
  }

  /**
   A gain that is not above what the sample needs keeps it under the ceiling; it turns nothing up
   and keeps the sign.
   */
  lemma SampleHeld(v: real, gain: real, g: real, ceiling: real)
    requires ceiling >= 0.0 && 0.0 <= g <= NeedOf(Level(v, gain), ceiling)
    ensures Abs(Sample(v, gain, g)) <= ceiling && Abs(Sample(v, gain, g)) <= 1.0
    ensures Abs(Sample(v, gain, g)) <= Level(v, gain) && Sample(v, gain, g) * (v * gain) >= 0.0
  {
    hide Shaped, Abs, NeedOf;
    LevelHeld(v * gain, g, ceiling);
  }

  /** A sample with the gain on it, held to full scale. */
  function Clipped(v: real, gain: real): (r: real)
    ensures Level(v, gain) <= 1.0 ==> r == v * gain
  {
    Clip(v * gain)
  }

  lemma SampleWhole(v: real, gain: real)
    ensures Sample(v, gain, 1.0) == Clipped(v, gain)
  {
    var u := v * gain;
    assert u * 1.0 == u;
  }

  /** Every output is at most the ceiling and at most full scale. */
  lemma UnderCeiling(x: seq<real>, gain: real, ceiling: real, L: nat, k: real, i: nat)
    requires ceiling >= 0.0 && L > 0 && Release(k) && i < |x|
    ensures Abs(Limited(x, gain, ceiling, L, k)[i]) <= ceiling
    ensures Abs(Limited(x, gain, ceiling, L, k)[i]) <= 1.0
  {
    var need := Needs(x, gain, ceiling);
    GainBounds(need, L, k, i, 0.0);
    SampleHeld(x[i], gain, Gain(Minimums(need, L), L, k, i), ceiling);
  }

  /** The limiter turns nothing up and keeps the sign. */
  lemma OnlyDown(x: seq<real>, gain: real, ceiling: real, L: nat, k: real, i: nat)
    requires ceiling >= 0.0 && L > 0 && Release(k) && i < |x|
    ensures Abs(Limited(x, gain, ceiling, L, k)[i]) <= Level(x[i], gain)
    ensures Limited(x, gain, ceiling, L, k)[i] * (x[i] * gain) >= 0.0
  {
    var need := Needs(x, gain, ceiling);
    GainBounds(need, L, k, i, 0.0);
    SampleHeld(x[i], gain, Gain(Minimums(need, L), L, k, i), ceiling);
  }

  predicate PeaksFit(x: seq<real>, gain: real, ceiling: real) {
    forall j :: 0 <= j < |x| ==> Level(x[j], gain) <= ceiling
  }

  lemma FullGain(x: seq<real>, gain: real, ceiling: real)
    requires ceiling >= 0.0 && PeaksFit(x, gain, ceiling)
    ensures forall j :: 0 <= j < |x| ==> Needs(x, gain, ceiling)[j] == 1.0
  {
  }

  /** A signal whose peaks fit under the ceiling gets the gain and nothing else, but for the clip at full scale. */
  lemma OnlyScaled(x: seq<real>, gain: real, ceiling: real, L: nat, k: real, i: nat)
    requires ceiling >= 0.0 && L > 0 && Release(k) && i < |x| && PeaksFit(x, gain, ceiling)
    ensures Limited(x, gain, ceiling, L, k)[i] == Clipped(x[i], gain)
  {
    var need := Needs(x, gain, ceiling);
    FullGain(x, gain, ceiling);
    GainBounds(need, L, k, i, 1.0);
    SampleWhole(x[i], gain);
  }
}
