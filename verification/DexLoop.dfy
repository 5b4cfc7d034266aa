/**
 The verifier's loop as tools/dexasm.py runs it: it ends, and it decides exactly
 what the step-by-step description of the worklist decides.
 */
module DexLoop {
  import opened Wrappers
  import opened DexCode
  import opened DexVerify
  import opened DexFixpoint

  // ---------- the measure ----------

  function Slack(regs: Regs): nat {
    if regs == [] then 0 else 4 - Height(regs[0]) + Slack(regs[1..])
  }

  lemma {:induction false} SlackDrops(s: Regs, t: Regs)
    requires BelowRegs(s, t)
    ensures Slack(t) <= Slack(s) <= 4 * |s|
    ensures s != t ==> Slack(t) < Slack(s)
  {
    if s != [] {
      MergeIsJoin(s[0], t[0], t[0]);
      assert BelowRegs(s[1..], t[1..]);
      SlackDrops(s[1..], t[1..]);
      if s[0] == t[0] && s != t {
        assert s == [s[0]] + s[1..] && t == [t[0]] + t[1..];
      }
    }
  }

  function Room(m: Code, states: States, n: nat): nat {
    if n !in states then 4 * m.nregs + 2
    else Slack(states[n].regs) + if states[n].pending.None? then 1 else 0
  }

  /** How much the entries at the given instructions can still change. */
  function Potential(m: Code, states: States, starts: seq<nat>): nat {
    if starts == [] then 0 else Room(m, states, starts[0]) + Potential(m, states, starts[1..])
  }

  lemma {:induction false} PotentialDrops(m: Code, s: States, t: States, starts: seq<nat>, n: nat)
    requires forall x :: x in starts && x != n ==> Room(m, s, x) == Room(m, t, x)
    requires Room(m, t, n) < Room(m, s, n)
    ensures Potential(m, t, starts) <= Potential(m, s, starts)
    ensures n in starts ==> Potential(m, t, starts) < Potential(m, s, starts)
  {
    if starts != [] {
      PotentialDrops(m, s, t, starts[1..], n);
    }
  }

  lemma PushDrops(m: Code, starts: seq<nat>, w: Work, at: nat, f: Flow, n: int, v: Work)
    requires Flowing(m, starts, w, at, f) && Pushed(m, starts, w, f, n, v) && Ready(m, v)
    ensures v == w || Potential(m, v.states, starts) < Potential(m, w.states, starts)
  {
    if v != w {
      if n in w.states {
        SlackDrops(w.states[n].regs, v.states[n].regs);
      } else {
        MergedAbove(v.states[n].regs, v.states[n].regs);
        assert MergeRegs(v.states[n].regs, v.states[n].regs) == v.states[n].regs;
        SlackDrops(v.states[n].regs, v.states[n].regs);
      }
      PotentialDrops(m, w.states, v.states, starts, n);
    }
  }

  // ---------- the loop ----------

  lemma VisitIs(m: Code, starts: seq<nat>, w: Work)
    requires Ready(m, w) && w.stack != []
    ensures var last := |w.stack| - 1; var at := w.stack[last];
      var t := Transfer(m, at, w.states[at].regs, w.states[at].pending);
      Visit(m, starts, w) ==
      if t.None? then None else PushAll(m, starts, Work(w.states, w.stack[..last]), t.value, t.value.next)
  {
  }

  /** One pass of the inner loop: what flows out of a visit, merged into one successor. */
  method PushInto(m: Code, starts: seq<nat>, w: Work, f: Flow, n: int) returns (r: Option<Work>)
    requires |f.regs| == m.nregs && Sized(m, w.states)
    ensures r == Push(m, starts, w, f, n)
  {
    var states: States, stack: seq<nat> := w.states, w.stack;
    if n < 0 || n !in starts {
      return None;
    }
    if n in states {
      var was := states[n];
      var merged := MergeRegs(was.regs, f.regs);
      if !((was.pending.None? && f.result.None?) || n == f.fall) {
        return None;
      }
      if merged != was.regs || was.pending != f.result {
        states, stack := states[n := Entry(merged, f.result)], stack + [n];
      }
    } else {
      states, stack := states[n := Entry(f.regs, f.result)], stack + [n];
    }
    return Some(Work(states, stack));
  }

  /** The inner loop of verify: what flows out of a visit, pushed into each successor. */
  method Spread(m: Code, starts: seq<nat>, was: Work, at: nat, f: Flow) returns (r: Option<Work>)
    requires Flowing(m, starts, was, at, f) && Doomed(m, starts, was, false)
    ensures r == PushAll(m, starts, was, f, f.next)
    ensures r.Some? ==> r.value == was || Potential(m, r.value.states, starts) < Potential(m, was.states, starts)
  {
    hide Transfer, Push, Pushed, Potential, Closed, Entered, AtSites, Before, IsMoveResult;
    var w := was;
    var j := 0;
    assert f.next[0..] == f.next;
    FlowShape(m, at, was.states[at].regs, was.states[at].pending);
    while j < |f.next|
      invariant 0 <= j <= |f.next|
      invariant Flowing(m, starts, w, at, f)
      invariant Doomed(m, starts, w, j == |f.next|)
      invariant PushAll(m, starts, w, f, f.next[j..]) == PushAll(m, starts, was, f, f.next)
      invariant w == was || Potential(m, w.states, starts) < Potential(m, was.states, starts)
    {
      assert f.next[j..][1..] == f.next[j + 1..];
      var pushed := PushInto(m, starts, w, f, f.next[j]);
      if pushed.None? {
        return None;
      }
      PushKeeps(m, starts, w, at, f, f.next[j], pushed.value);
      PushDrops(m, starts, w, at, f, f.next[j], pushed.value);
      w := pushed.value;
      j := j + 1;
    }
    return Some(w);
  }

  /** verify, and read's check of the frame before it: the states it ends with, or None where an assertion fails. */
  method Verify(m: Code) returns (r: Option<States>)
    ensures r.Some? ==> Accepts(m, r.value)
    ensures r.None? ==> Rejects(m)
  {
    if m.ins > m.nregs || m.ins != |m.params| || "J" in m.params || "D" in m.params {
      return None;
    }
    var swept := Sweep(m.units, 0);
    if swept.None? {
      return None;
    }
    if m.units == [] {  // the first visit finds no instruction at 0
      EmptyRunsOnce(m, 1);
      return None;
    }
    var starts := swept.value;
    var states: States := map[0 := Entry(EntryRegs(m), None)];
    var stack: seq<nat> := [0];
    ghost var k: nat := 0;
    StartKeeps(m);
    while stack != []
      invariant After(m, k) == Running(Work(states, stack))
      invariant Inv(m, starts, Work(states, stack))
      decreases Potential(m, states, starts), |stack|
    {
      ghost var w := Work(states, stack);
      var at := stack[|stack| - 1];
      stack := stack[..|stack| - 1];
      var t := Transfer(m, at, states[at].regs, states[at].pending);
      VisitIs(m, starts, w);
      var spread := None;
      if t.Some? {
        FlowAtSites(m, at, states[at].regs, states[at].pending);
        Popped(m, starts, w, t.value);
        spread := Spread(m, starts, Work(states, stack), at, t.value);
      }
      k := k + 1;
      if spread.None? {
        assert After(m, k) == Rejected;
        return None;
      }
      VisitKeeps(m, starts, w, spread.value);
      states, stack := spread.value.states, spread.value.stack;
    }
    assert After(m, k + 1) == Accepted(states);
    return Some(states);
  }

  /** A run has one verdict: it ends once, and with one set of states. */
  lemma {:induction false} DoneStays(m: Code, j: nat, k: nat)
    requires Framed(m) && j <= k && !After(m, j).Running?
    ensures After(m, k) == After(m, j)
  {
    if j < k {
      DoneStays(m, j, k - 1);
    }
  }

  lemma VerdictUnique(m: Code, states: States)
    requires Accepts(m, states)
    ensures !Rejects(m)
    ensures forall other :: Accepts(m, other) ==> other == states
  {
    var k: nat :| After(m, k) == Accepted(states);
    forall j: nat | !After(m, j).Running? ensures After(m, j) == Accepted(states) {
      DoneStays(m, j, if j < k then k else j);
      DoneStays(m, k, if j < k then k else j);
    }
  }
}
