/**
 The light ring's designs in web/ring.js: merging the frames of a stock animation does not
 change what is shown at any time.
 */
module RingDesign {
  import opened Wrappers

  type Rgb = (int, int, int)
  type Pixels = seq<Rgb>

  datatype Frame = Frame(ms: nat, px: Pixels)

  /** loop: the frame the repetition goes back to, -1 for played once. */
  datatype Design = Design(leds: nat, loop: int, frames: seq<Frame>)

  const LONGEST := 60000

  function Black(n: nat): Pixels {
    seq(n, _ => (0, 0, 0))
  }

  predicate IsDark(px: Pixels) {
    forall k :: 0 <= k < |px| ==> px[k] == (0, 0, 0)
  }

  // ---------- what is shown ----------

  function TotalMs(fs: seq<Frame>): nat {
    if fs == [] then 0 else fs[0].ms + TotalMs(fs[1..])
  }

  /** t %= c. */
  function Mod(t: real, c: nat): (r: real)
    requires t >= 0.0 && c > 0
  {
    t - (c as real) * (t / c as real).Floor as real
  }

  /** The first loop of frameIndexAt: the frame from i on before lp where the sum of lengths passes t. */
  function IntroIndex(fr: seq<Frame>, i: nat, lp: nat, a: nat, t: real): int
    requires i <= lp <= |fr|
    decreases lp - i
  {
    if i == lp then -1
    else if t < (a + fr[i].ms) as real then i
    else IntroIndex(fr, i + 1, lp, a + fr[i].ms, t)
  }

  /** The second: lengths taken off u. */
  function LoopIndex(fr: seq<Frame>, i: nat, u: real): int
    requires i <= |fr|
    decreases |fr| - i
  {
    if i == |fr| then -1
    else if u < fr[i].ms as real then i
    else LoopIndex(fr, i + 1, u - fr[i].ms as real)
  }

  function Larger(a: nat, b: nat): nat { if a > b then a else b }

  /** How long a preview plays before it starts over. */
  function Cycle(intro: nat, loopMs: nat, once: bool): nat {
    if once then intro + 1200 else intro + loopMs * Larger(1, (4000 + Larger(1, loopMs) - 1) / Larger(1, loopMs))
  }

  predicate ValidDesign(d: Design) {
    -1 <= d.loop <= |d.frames| && forall k :: 0 <= k < |d.frames| ==> d.frames[k].ms > 0
  }

  lemma {:induction false} SomeMs(fs: seq<Frame>)
    requires fs != [] && forall k :: 0 <= k < |fs| ==> fs[k].ms > 0
    ensures TotalMs(fs) > 0
  {
  }

  lemma {:induction false} TotalSplit(a: seq<Frame>, b: seq<Frame>)
    ensures TotalMs(a + b) == TotalMs(a) + TotalMs(b)
  {
    if a == [] {
      assert a + b == b;
    } else {
      assert (a + b)[1..] == a[1..] + b;
      TotalSplit(a[1..], b);
    }
  }

  lemma CyclePositive(d: Design)
    requires ValidDesign(d) && d.frames != []
    ensures var lp := if d.loop < 0 then |d.frames| else d.loop;
      Cycle(TotalMs(d.frames[..lp]), TotalMs(d.frames[lp..]), d.loop < 0) > 0
  {
    var lp := if d.loop < 0 then |d.frames| else d.loop;
    assert d.frames == d.frames[..lp] + d.frames[lp..];
    TotalSplit(d.frames[..lp], d.frames[lp..]);
    SomeMs(d.frames);
    var n := TotalMs(d.frames[lp..]);
    var k := Larger(1, (4000 + Larger(1, n) - 1) / Larger(1, n));
    assert n > 0 ==> n * k >= n;
  }

  /** frameIndexAt. */
  function FrameIndexAt(d: Design, t: real): int
    requires ValidDesign(d) && t >= 0.0
  {
    if d.frames == [] then -1
    else
      var lp := if d.loop < 0 then |d.frames| else d.loop;
      var intro, loopMs := TotalMs(d.frames[..lp]), TotalMs(d.frames[lp..]);
      CyclePositive(d);
      var now := Mod(t, Cycle(intro, loopMs, d.loop < 0));
      if now < intro as real then IntroIndex(d.frames, 0, lp, 0, now)
      else if d.loop >= 0 && loopMs > 0 && now >= intro as real then
        LoopIndex(d.frames, lp, Mod(now - intro as real, loopMs))
      else -1
  }

  lemma {:induction false} IntroWithin(fr: seq<Frame>, i: nat, lp: nat, a: nat, t: real)
    requires i <= lp <= |fr|
    ensures -1 <= IntroIndex(fr, i, lp, a, t) < |fr|
    decreases lp - i
  {
    if i < lp {
      IntroWithin(fr, i + 1, lp, a + fr[i].ms, t);
    }
  }

  lemma {:induction false} LoopWithin(fr: seq<Frame>, i: nat, u: real)
    requires i <= |fr|
    ensures -1 <= LoopIndex(fr, i, u) < |fr|
    decreases |fr| - i
  {
    if i < |fr| {
      LoopWithin(fr, i + 1, u - fr[i].ms as real);
    }
  }

  lemma IndexWithin(d: Design, t: real)
    requires ValidDesign(d) && t >= 0.0
    ensures -1 <= FrameIndexAt(d, t) < |d.frames|
  {
    hide Mod, Cycle, TotalMs;
    if d.frames != [] {
      var lp := if d.loop < 0 then |d.frames| else d.loop;
      var intro, loopMs := TotalMs(d.frames[..lp]), TotalMs(d.frames[lp..]);
      CyclePositive(d);
      var now := Mod(t, Cycle(intro, loopMs, d.loop < 0));
      IntroWithin(d.frames, 0, lp, 0, now);
      if loopMs > 0 && now >= intro as real {
        LoopWithin(d.frames, lp, Mod(now - intro as real, loopMs));
      }
    }
  }

  /** turned: the picture rotated round the ring. */
  function Turned(px: Pixels, turn: nat): Pixels {
    if turn == 0 || px == [] then px else seq(|px|, i requires 0 <= i < |px| => px[(i - turn) % |px|])
  }

  /** frameAt. */
  function FrameAt(d: Design, t: real, turn: nat): Pixels
    requires ValidDesign(d) && t >= 0.0
  {
    IndexWithin(d, t);
    var i := FrameIndexAt(d, t);
    if i < 0 then Black(d.leds) else Turned(d.frames[i].px, turn)
  }

  // ---------- a stretch of frames ----------

  /** What a stretch of frames shows u ms after its start: None once it is over. */
  function Show(fs: seq<Frame>, u: real): Option<Pixels> {
    if fs == [] then None
    else if u < fs[0].ms as real then Some(fs[0].px)
    else Show(fs[1..], u - fs[0].ms as real)
  }

  /** Two stretches of the same length that show the same at every time. */
  ghost predicate SameShow(a: seq<Frame>, b: seq<Frame>) {
    TotalMs(a) == TotalMs(b) && forall u: real :: Show(a, u) == Show(b, u)
  }

  function ShownOr(s: Option<Pixels>, leds: nat, turn: nat): Pixels {
    match s case None => Black(leds) case Some(px) => Turned(px, turn)
  }

  lemma {:induction false} IntroShows(fr: seq<Frame>, i: nat, lp: nat, a: nat, t: real)
    requires i <= lp <= |fr|
    ensures var k := IntroIndex(fr, i, lp, a, t);
      k < |fr| && Show(fr[i..lp], t - a as real) == if k < 0 then None else Some(fr[k].px)
    decreases lp - i
  {
    if i < lp {
      assert fr[i..lp][0] == fr[i] && fr[i..lp][1..] == fr[i + 1..lp];
      IntroShows(fr, i + 1, lp, a + fr[i].ms, t);
      assert t - a as real - fr[i].ms as real == t - (a + fr[i].ms) as real;
    }
  }

  lemma {:induction false} LoopShows(fr: seq<Frame>, i: nat, u: real)
    requires i <= |fr|
    ensures var k := LoopIndex(fr, i, u);
      k < |fr| && Show(fr[i..], u) == if k < 0 then None else Some(fr[k].px)
    decreases |fr| - i
  {
    if i < |fr| {
      assert fr[i..][0] == fr[i] && fr[i..][1..] == fr[i + 1..];
      LoopShows(fr, i + 1, u - fr[i].ms as real);
    }
  }

  /** What is shown of an intro and a loop at a time of the preview's cycle. */
  function ShowParts(intro: seq<Frame>, again: seq<Frame>, once: bool, now: real): Option<Pixels> {
    if now < TotalMs(intro) as real then Show(intro, now)
    else if !once && TotalMs(again) > 0 then Show(again, Mod(now - TotalMs(intro) as real, TotalMs(again)))
    else None
  }

  function IntroOf(d: Design): seq<Frame>
    requires ValidDesign(d)
  {
    if d.loop < 0 then d.frames else d.frames[..d.loop]
  }

  function AgainOf(d: Design): seq<Frame>
    requires ValidDesign(d)
  {
    if d.loop < 0 then [] else d.frames[d.loop..]
  }

  /** A design shows its intro once and its loop again and again. */
  lemma FrameShows(d: Design, t: real, turn: nat)
    requires ValidDesign(d) && t >= 0.0 && d.frames != []
    ensures Cycle(TotalMs(IntroOf(d)), TotalMs(AgainOf(d)), d.loop < 0) > 0
    ensures FrameAt(d, t, turn) ==
      ShownOr(ShowParts(IntroOf(d), AgainOf(d), d.loop < 0,
        Mod(t, Cycle(TotalMs(IntroOf(d)), TotalMs(AgainOf(d)), d.loop < 0))), d.leds, turn)
  {
    hide Mod, Cycle, TotalMs, Show, IntroIndex, LoopIndex;
    var lp := if d.loop < 0 then |d.frames| else d.loop;
    assert d.loop < 0 ==> d.frames[..lp] == d.frames && d.frames[lp..] == [];
    CyclePositive(d);
    var intro, loopMs := TotalMs(d.frames[..lp]), TotalMs(d.frames[lp..]);
    var now := Mod(t, Cycle(intro, loopMs, d.loop < 0));
    IntroShows(d.frames, 0, lp, 0, now);
    assert d.frames[0..lp] == d.frames[..lp] && now - 0 as real == now;
    if loopMs > 0 && now >= intro as real {
      LoopShows(d.frames, lp, Mod(now - intro as real, loopMs));
    }
  }

  /** Designs whose intros show the same and whose loops show the same show the same at every time. */
  lemma SamePlayback(d: Design, e: Design, t: real, turn: nat)
    requires ValidDesign(d) && ValidDesign(e) && t >= 0.0 && d.leds == e.leds && (d.loop < 0 <==> e.loop < 0)
    requires d.frames != [] && e.frames != []
    requires SameShow(IntroOf(d), IntroOf(e)) && SameShow(AgainOf(d), AgainOf(e))
    ensures FrameAt(d, t, turn) == FrameAt(e, t, turn)
  {
    hide Mod, Cycle, FrameAt, TotalMs, Show, IntroOf, AgainOf, ValidDesign;
    FrameShows(d, t, turn);
    FrameShows(e, t, turn);
  }

  // ---------- merging ----------

  lemma {:induction false} ShowAppend(a: seq<Frame>, b: seq<Frame>, u: real)
    ensures Show(a + b, u) == if Show(a, u).Some? then Show(a, u) else Show(b, u - TotalMs(a) as real)
  {
    if a == [] {
      assert a + b == b && u - 0 as real == u;
    } else {
      assert (a + b)[1..] == a[1..] + b;
      ShowAppend(a[1..], b, u - a[0].ms as real);
      assert u - a[0].ms as real - TotalMs(a[1..]) as real == u - TotalMs(a) as real;
    }
  }

  lemma AppendSame(a: seq<Frame>, b: seq<Frame>, x: seq<Frame>, y: seq<Frame>)
    requires SameShow(a, b) && SameShow(x, y)
    ensures SameShow(a + x, b + y)
  {
    hide Show, TotalMs;
    TotalSplit(a, x);
    TotalSplit(b, y);
    forall u: real ensures Show(a + x, u) == Show(b + y, u) {
      ShowAppend(a, x, u);
      ShowAppend(b, y, u);
    }
  }

  /** Two frames of the same colours as one of both lengths. */
  lemma TwoAsOne(g: Frame, f: Frame)
    requires g.px == f.px
    ensures SameShow([g.(ms := g.ms + f.ms)], [g, f])
  {
    var one, two := [g.(ms := g.ms + f.ms)], [g, f];
    assert one[1..] == [] && two[1..] == [f] && [f][1..] == [];
    assert TotalMs(two) == g.ms + TotalMs([f]);
    forall u: real ensures Show(one, u) == Show(two, u) {
      assert Show(two, u) == if u < g.ms as real then Some(g.px) else Show([f], u - g.ms as real);
    }
  }

  datatype Merging = Merging(merged: seq<Frame>, loop: int)

  /** The body of stockDesign's merging loop for the i'th frame. */
  function MergeNext(s: Merging, f: Frame, i: nat, from: int): Merging {
    var n := |s.merged| - 1;
    if n >= 0 && i != from && s.merged[n].px == f.px && s.merged[n].ms + f.ms <= LONGEST then
      s.(merged := s.merged[n := s.merged[n].(ms := s.merged[n].ms + f.ms)])
    else Merging(s.merged + [f], if i == from then |s.merged| else s.loop)
  }

  function MergeTo(frames: seq<Frame>, from: int, n: nat): Merging
    requires n <= |frames|
  {
    if n == 0 then Merging([], from) else MergeNext(MergeTo(frames, from, n - 1), frames[n - 1], n - 1, from)
  }

  lemma MergeNextSame(s: Merging, f: Frame, i: nat, from: int, lo: nat, done: seq<Frame>)
    requires lo <= |s.merged| && SameShow(s.merged[lo..], done)
    requires lo < |s.merged| || i == from || s.merged == []
    ensures var r := MergeNext(s, f, i, from);
      lo <= |r.merged| && r.merged[..lo] == s.merged[..lo] && SameShow(r.merged[lo..], done + [f]) && lo < |r.merged|
  {
    hide SameShow;
    var r, n := MergeNext(s, f, i, from), |s.merged| - 1;
    SameSelf([f]);
    if |r.merged| == |s.merged| {
      var g, head := s.merged[n], s.merged[lo..n];
      var one := g.(ms := g.ms + f.ms);
      TwoAsOne(g, f);
      SameSelf(head);
      AppendSame(head, head, [one], [g, f]);
      AppendSame(s.merged[lo..], done, [f], [f]);
      assert r.merged[lo..] == head + [one] && s.merged[lo..] + [f] == head + [g, f];
      SameTrans(r.merged[lo..], s.merged[lo..] + [f], done + [f]);
    } else {
      assert r.merged[lo..] == s.merged[lo..] + [f];
      AppendSame(s.merged[lo..], done, [f], [f]);
    }
  }

  lemma SameSelf(a: seq<Frame>)
    ensures SameShow(a, a)
  {
  }

  lemma SameTrans(a: seq<Frame>, b: seq<Frame>, c: seq<Frame>)
    requires SameShow(a, b) && SameShow(b, c)
    ensures SameShow(a, c)
  {
  }

  /** Merging keeps what is shown before the loop point and what is shown from it on, and where it is. */
  lemma {:induction false} MergeKeeps(frames: seq<Frame>, from: int, n: nat)
    requires n <= |frames| && -1 <= from
    ensures var s := MergeTo(frames, from, n);
      if 0 <= from < n then
        0 <= s.loop < |s.merged| && SameShow(s.merged[..s.loop], frames[..from]) &&
          SameShow(s.merged[s.loop..], frames[from..n])
      else s.loop == from && SameShow(s.merged, frames[..n]) && (s.merged == [] <==> n == 0)
  {
    hide SameShow, MergeNext;
    if n == 0 {
      SameSelf([]);
      assert frames[..0] == [];
    } else {
      var s, i := MergeTo(frames, from, n - 1), n - 1;
      MergeKeeps(frames, from, i);
      LoopMoves(s, frames[i], i, from);
      if 0 <= from < i {
        MergeNextSame(s, frames[i], i, from, s.loop, frames[from..i]);
        assert frames[from..n] == frames[from..i] + [frames[i]];
      } else if i == from {
        SameSelf([]);
        assert s.merged[|s.merged|..] == [];
        MergeNextSame(s, frames[i], i, from, |s.merged|, []);
        assert s.merged[..|s.merged|] == s.merged && frames[from..n] == [] + [frames[i]];
      } else {
        assert s.merged[0..] == s.merged;
        MergeNextSame(s, frames[i], i, from, 0, frames[..i]);
        assert frames[..n] == frames[..i] + [frames[i]];
        assert MergeTo(frames, from, n).merged[0..] == MergeTo(frames, from, n).merged;
      }
    }
  }

  lemma LoopMoves(s: Merging, f: Frame, i: nat, from: int)
    ensures MergeNext(s, f, i, from).loop == if i == from then |s.merged| else s.loop
  {
  }

  // ---------- the design of a stock animation ----------

  predicate Lengths(fs: seq<Frame>, leds: nat) {
    forall k :: 0 <= k < |fs| ==> 0 < fs[k].ms <= LONGEST && |fs[k].px| == leds
  }

  /** A loop of nothing but dark frames stands for the end. */
  predicate Finishes(frames: seq<Frame>, loopAt: int)
    requires -1 <= loopAt <= |frames|
  {
    loopAt >= 0 && forall k :: loopAt <= k < |frames| ==> IsDark(frames[k].px)
  }

  /** The design as it stands in the file, before its frames are merged. */
  function Plain(frames: seq<Frame>, loopAt: int, leds: nat): Design
    requires -1 <= loopAt <= |frames|
  {
    if Finishes(frames, loopAt) then Design(leds, -1, frames[..loopAt])
    else Design(leds, if loopAt < 0 then 0 else loopAt, frames)
  }

  /** stockDesign, from the frames its lines give on: the design and how many frames it had where it holds fewer. */
  function Stock(frames: seq<Frame>, loopAt: int, leds: nat, max: nat): (Design, nat)
    requires -1 <= loopAt <= |frames| && max > 0
  {
    var p := Plain(frames, loopAt, leds);
    var m := MergeTo(p.frames, p.loop, |p.frames|);
    var frames := if m.merged == [] then [Frame(1000, Black(leds))] else m.merged;
    (Design(leds, if m.loop >= max then 0 else m.loop, if |frames| > max then frames[..max] else frames),
     if |m.merged| > max then |m.merged| else 0)
  }

  /** The merging of stockDesign, frame by frame in place. */
  method StockDesign(frames: seq<Frame>, loopAt: int, leds: nat, max: nat) returns (d: Design, cut: nat)
    requires -1 <= loopAt <= |frames| && max > 0
    ensures (d, cut) == Stock(frames, loopAt, leds, max)
  {
    hide MergeTo;
    var fs, from := frames, if loopAt < 0 then 0 else loopAt;
    if loopAt >= 0 && forall k :: loopAt <= k < |frames| ==> IsDark(frames[k].px) {
      fs, from := frames[..loopAt], -1;
    }
    var loop, merged: seq<Frame> := from, [];
    MergeNone(fs, from);
    var i := 0;
    while i < |fs|
      invariant 0 <= i <= |fs| && Merging(merged, loop) == MergeTo(fs, from, i)
    {
      MergeStep(fs, from, i);
      var f, n := fs[i], |merged| - 1;
      if n >= 0 && i != from && merged[n].px == f.px && merged[n].ms + f.ms <= LONGEST {
        merged := merged[n := merged[n].(ms := merged[n].ms + f.ms)];
      } else {
        if i == from {
          loop := |merged|;
        }
        merged := merged + [f];
      }
      i := i + 1;
    }
    cut := if |merged| > max then |merged| else 0;
    d := Design(leds, if loop >= max then 0 else loop,
                if merged == [] then [Frame(1000, Black(leds))] else if |merged| > max then merged[..max] else merged);
  }

  lemma MergeNone(frames: seq<Frame>, from: int)
    ensures MergeTo(frames, from, 0) == Merging([], from)
  {
  }

  lemma MergeStep(frames: seq<Frame>, from: int, n: nat)
    requires n < |frames|
    ensures MergeTo(frames, from, n + 1) == MergeNext(MergeTo(frames, from, n), frames[n], n, from)
  {
  }

  /**
   Every merged frame has a length a design can hold, and no two that follow each other could be
   merged further, but at the loop point.
   */
  ghost predicate Settled(s: Merging, leds: nat) {
    Lengths(s.merged, leds) && forall k :: 0 < k < |s.merged| && k != s.loop ==> Apart(s.merged[k - 1], s.merged[k])
  }

  predicate Apart(f: Frame, g: Frame) {
    f.px != g.px || f.ms + g.ms > LONGEST
  }

  lemma {:induction false} MergeShort(frames: seq<Frame>, from: int, n: nat)
    requires n <= |frames|
    ensures |MergeTo(frames, from, n).merged| <= n
  {
    if n > 0 {
      MergeShort(frames, from, n - 1);
    }
  }

  lemma NextSettles(s: Merging, f: Frame, i: nat, from: int, leds: nat)
    requires Settled(s, leds) && 0 < f.ms <= LONGEST && |f.px| == leds &&
      (i == from ==> s.loop < 0 || s.loop >= |s.merged|)
    ensures Settled(MergeNext(s, f, i, from), leds)
  {
    var r, n := MergeNext(s, f, i, from), |s.merged|;
    forall k | 0 < k < |r.merged| && k != r.loop ensures Apart(r.merged[k - 1], r.merged[k]) {
      if k < n {
        assert Apart(s.merged[k - 1], s.merged[k]);
      }
    }
  }

  lemma {:induction false} MergeSettles(frames: seq<Frame>, from: int, n: nat, leds: nat)
    requires n <= |frames| && -1 <= from && Lengths(frames, leds)
    ensures Settled(MergeTo(frames, from, n), leds)
  {
    hide SameShow, MergeNext, Settled;
    if n > 0 {
      MergeSettles(frames, from, n - 1, leds);
      MergeKeeps(frames, from, n - 1);
      MergeShort(frames, from, n - 1);
      NextSettles(MergeTo(frames, from, n - 1), frames[n - 1], n - 1, from, leds);
    } else {
      NoneSettled(from, leds);
    }
  }

  lemma NoneSettled(from: int, leds: nat)
    ensures Settled(Merging([], from), leds)
  {
  }

  lemma TurnedBlack(n: nat, turn: nat)
    ensures Turned(Black(n), turn) == Black(n)
  {
  }

  lemma PlainValid(frames: seq<Frame>, loopAt: int, leds: nat)
    requires -1 <= loopAt <= |frames| && Lengths(frames, leds)
    ensures ValidDesign(Plain(frames, loopAt, leds)) && Lengths(Plain(frames, loopAt, leds).frames, leds)
    ensures Plain(frames, loopAt, leds).loop < |Plain(frames, loopAt, leds).frames| ||
      Plain(frames, loopAt, leds).frames == []
  {
  }

  lemma StockValid(frames: seq<Frame>, loopAt: int, leds: nat, max: nat)
    requires -1 <= loopAt <= |frames| && Lengths(frames, leds) && max > 0
    ensures ValidDesign(Stock(frames, loopAt, leds, max).0) && |Stock(frames, loopAt, leds, max).0.frames| <= max
  {
    hide MergeTo, SameShow;
    PlainValid(frames, loopAt, leds);
    var p := Plain(frames, loopAt, leds);
    MergeKeeps(p.frames, p.loop, |p.frames|);
    MergeSettles(p.frames, p.loop, |p.frames|, leds);
  }

  /** Where no frame is cut, the merged design shows at every time what the unmerged one does. */
  lemma MergingKeepsPlayback(frames: seq<Frame>, loopAt: int, leds: nat, max: nat, t: real, turn: nat)
    requires -1 <= loopAt <= |frames| && Lengths(frames, leds) && max > 0 && t >= 0.0
    requires Stock(frames, loopAt, leds, max).1 == 0
    ensures ValidDesign(Stock(frames, loopAt, leds, max).0) && ValidDesign(Plain(frames, loopAt, leds))
    ensures FrameAt(Stock(frames, loopAt, leds, max).0, t, turn) == FrameAt(Plain(frames, loopAt, leds), t, turn)
  {
    hide MergeTo, SameShow, FrameAt, Plain;
    StockValid(frames, loopAt, leds, max);
    PlainValid(frames, loopAt, leds);
    var d, p := Stock(frames, loopAt, leds, max).0, Plain(frames, loopAt, leds);
    var s, n := MergeTo(p.frames, p.loop, |p.frames|), |p.frames|;
    MergeKeeps(p.frames, p.loop, n);
    PlainLeds(frames, loopAt, leds);
    if n == 0 {
      DefaultDark(d, t, turn);
      NothingShown(p, t, turn);
    } else {
      assert p.frames[..n] == p.frames;
      if p.loop >= 0 {
        assert p.frames[p.loop..n] == p.frames[p.loop..];
      }
      SameSelf([]);
      SamePlayback(d, p, t, turn);
    }
  }

  lemma PlainLeds(frames: seq<Frame>, loopAt: int, leds: nat)
    requires -1 <= loopAt <= |frames|
    ensures Plain(frames, loopAt, leds).leds == leds
  {
  }

  lemma NothingShown(d: Design, t: real, turn: nat)
    requires ValidDesign(d) && t >= 0.0 && d.frames == []
    ensures FrameAt(d, t, turn) == Black(d.leds)
  {
  }

  lemma DefaultDark(d: Design, t: real, turn: nat)
    requires ValidDesign(d) && t >= 0.0 && d.frames == [Frame(1000, Black(d.leds))]
    ensures FrameAt(d, t, turn) == Black(d.leds)
  {
    hide FrameIndexAt;
    IndexWithin(d, t);
    TurnedBlack(d.leds, turn);
  }

  // ---------- a dark loop ----------

  lemma ModSmall(t: real, c: nat)
    requires 0.0 <= t < c as real
    ensures Mod(t, c) == t
  {
    Fraction(t, c as real);
    assert (t / c as real).Floor == 0;
  }

  lemma Fraction(t: real, c: real)
    requires 0.0 <= t < c
    ensures 0.0 <= t / c < 1.0
  {
    var q := t / c;
    assert q * c == t;
    BelowOne(q, c);
  }

  lemma BelowOne(q: real, c: real)
    requires c > 0.0 && 0.0 <= q * c < c
    ensures 0.0 <= q < 1.0
  {
  }

  /** A preview plays for four seconds of its loop at least. */
  lemma CycleLong(intro: nat, loopMs: nat)
    requires loopMs > 0
    ensures Cycle(intro, loopMs, false) >= intro + 4000
  {
    var k := (4000 + loopMs - 1) / loopMs;
    Ceiling(4000 + loopMs - 1, loopMs, k);
    assert Larger(1, loopMs) == loopMs;
    assert Larger(1, k) == k;
  }

  lemma Ceiling(n: nat, d: nat, k: nat)
    requires d > 0 && k == n / d && n >= d
    ensures d * k > n - d && k >= 1
  {
    assert n == d * k + n % d;
  }

  /** Dark frames show as nothing does. */
  lemma {:induction false} DarkShows(fs: seq<Frame>, u: real, leds: nat, turn: nat)
    requires Lengths(fs, leds) && forall k :: 0 <= k < |fs| ==> IsDark(fs[k].px)
    ensures ShownOr(Show(fs, u), leds, turn) == Black(leds)
  {
    if fs != [] {
      if u < fs[0].ms as real {
        assert fs[0].px == Black(leds);
        TurnedBlack(leds, turn);
      } else {
        DarkShows(fs[1..], u - fs[0].ms as real, leds, turn);
      }
    }
  }

  /** Until a preview starts over, a dark loop shows what playing once shows. */
  lemma DarkLoopIsOnce(frames: seq<Frame>, loopAt: nat, leds: nat, t: real, turn: nat)
    requires loopAt < |frames| && Lengths(frames, leds) && Finishes(frames, loopAt)
    requires 0.0 <= t < (TotalMs(frames[..loopAt]) + 1200) as real
    ensures ValidDesign(Design(leds, loopAt, frames)) && ValidDesign(Plain(frames, loopAt, leds))
    ensures FrameAt(Design(leds, loopAt, frames), t, turn) == FrameAt(Plain(frames, loopAt, leds), t, turn)
  {
    hide Mod, TotalMs, Show, FrameAt, Cycle;
    var d, p := Design(leds, loopAt, frames), Plain(frames, loopAt, leds);
    var intro, again := frames[..loopAt], frames[loopAt..];
    SomeMs(again);
    CycleLong(TotalMs(intro), TotalMs(again));
    FrameShows(d, t, turn);
    ModSmall(t, Cycle(TotalMs(intro), TotalMs(again), false));
    if t >= TotalMs(intro) as real {
      DarkShows(again, Mod(t - TotalMs(intro) as real, TotalMs(again)), leds, turn);
    }
    if intro == [] {
      NothingShown(p, t, turn);
      EmptyShows(t);
    } else {
      FrameShows(p, t, turn);
      OnceLong(TotalMs(intro));
      ModSmall(t, Cycle(TotalMs(intro), TotalMs([]), true));
    }
  }

  lemma EmptyShows(t: real)
    ensures TotalMs([]) == 0 && Show([], t) == None
  {
  }

  lemma OnceLong(intro: nat)
    ensures Cycle(intro, TotalMs([]), true) == intro + 1200
  {
  }
}
