/**
 What the verifier's worklist keeps on every visit, why it ends, and what the
 states it accepts with mean: an inductive annotation of the method.
 */
module DexFixpoint {
  import opened Wrappers
  import opened DexCode
  import opened DexVerify

  predicate IsMoveResult(m: Code, n: nat) {
    Decode(m.units, n).Some? && Decode(m.units, n).value.MoveResult?
  }

  function ResultOf(ret: string): Option<string> {
    if ret == "V" then None else Some(ret)
  }

  /** What an instruction leaves for a move-result behind it. */
  function LeftBy(m: Code, i: Insn): Option<string> {
    if i.Invoke? && i.idx < |m.ids.methods| then ResultOf(m.ids.methods[i.idx].proto.ret) else None
  }

  function Leaves(m: Code, p: nat): Option<string> {
    match Decode(m.units, p)
    case Some(i) => LeftBy(m, i)
    case None => None
  }

  /** The result of the invoke that ends where n starts, if there is one. */
  function Before(m: Code, starts: seq<nat>, n: nat): Option<string> {
    if n >= 3 && n - 3 in starts then Leaves(m, n - 3) else None
  }

  /** An unconstructed object sits only in the register its new-instance names. */
  predicate AtSites(m: Code, regs: Regs) {
    forall r :: 0 <= r < |regs| && regs[r].New? ==> MadeAt(m, regs[r], r)
  }

  predicate MadeAt(m: Code, k: Kind, r: nat)
    requires k.New?
  {
    match Decode(m.units, k.site)
    case Some(NewInstance(a, idx)) => a == r && idx < |m.ids.types| && m.ids.types[idx] == k.cls
    case _ => false
  }

  /** The flow f out of some instruction is covered by what is known at n. */
  predicate Covered(m: Code, states: States, f: Flow, n: int) {
    0 <= n && n in states && BelowRegs(f.regs, states[n].regs) &&
    (IsMoveResult(m, n) ==> states[n].pending == f.result)
  }

  predicate Settled(m: Code, states: States, at: nat)
    requires at in states && |states[at].regs| == m.nregs
  {
    var f := Transfer(m, at, states[at].regs, states[at].pending);
    f.Some? && forall k :: 0 <= k < |f.value.next| ==> Covered(m, states, f.value, f.value.next[k])
  }

  /** The meaning of an accepting run: every instruction reached passes its checks and covers its successors. */
  ghost predicate Inductive(m: Code, states: States) {
    && Framed(m)
    && 0 in states && !IsMoveResult(m, 0) && BelowRegs(EntryRegs(m), states[0].regs)
    && Sized(m, states)
    && forall n :: n in states ==>
         n in Sweep(m.units, 0).value && AtSites(m, states[n].regs) && Settled(m, states, n)
  }

  // ---------- the invariant ----------

  ghost predicate Known(m: Code, starts: seq<nat>, w: Work) {
    && Sweep(m.units, 0) == Some(starts)
    && Ready(m, w)
    && (forall n :: n in w.states ==> n in starts && AtSites(m, w.states[n].regs))
    && (forall n :: n in w.states && w.states[n].pending.Some? ==> w.states[n].pending == Before(m, starts, n))
  }

  /** A move-result reached without a result waits on the stack, where it will be refused. */
  ghost predicate Doomed(m: Code, starts: seq<nat>, w: Work, top: bool) {
    forall n :: n in w.states && IsMoveResult(m, n) && w.states[n].pending.None? ==>
      n in w.stack && (Before(m, starts, n).None? || (top && n == w.stack[|w.stack| - 1]))
  }

  ghost predicate Closed(m: Code, w: Work, except: set<nat>)
    requires Sized(m, w.states)
  {
    forall n :: n in w.states && n !in w.stack && n !in except ==> Settled(m, w.states, n)
  }

  ghost predicate Entered(m: Code, w: Work) {
    Framed(m) && 0 in w.states && BelowRegs(EntryRegs(m), w.states[0].regs)
  }

  ghost predicate Inv(m: Code, starts: seq<nat>, w: Work) {
    Known(m, starts, w) && Doomed(m, starts, w, true) && Closed(m, w, {}) && Entered(m, w)
  }

  // ---------- one instruction ----------

  /** Only new-instance makes an unconstructed object, and nothing copies one. */
  lemma EffectMakes(m: Code, at: nat, i: Insn, regs: Regs, pending: Option<string>, r: nat)
    requires EffectOf(m, at, i, regs, pending).Some?
    requires r < |EffectOf(m, at, i, regs, pending).value.regs| && EffectOf(m, at, i, regs, pending).value.regs[r].New?
    ensures var k := EffectOf(m, at, i, regs, pending).value.regs[r];
      || (r < |regs| && regs[r] == k)
      || (i.NewInstance? && i.a == r && i.idx < |m.ids.types| && k == New(m.ids.types[i.idx], at))
  {
  }

  lemma EffectAtSites(m: Code, at: nat, i: Insn, regs: Regs, pending: Option<string>)
    requires AtSites(m, regs) && Decode(m.units, at) == Some(i)
    requires EffectOf(m, at, i, regs, pending).Some?
    ensures AtSites(m, EffectOf(m, at, i, regs, pending).value.regs)
  {
    var e := EffectOf(m, at, i, regs, pending).value;
    forall r | 0 <= r < |e.regs| && e.regs[r].New? ensures MadeAt(m, e.regs[r], r) {
      EffectMakes(m, at, i, regs, pending, r);
    }
  }

  lemma FlowAtSites(m: Code, at: nat, regs: Regs, pending: Option<string>)
    requires |regs| == m.nregs && AtSites(m, regs) && Transfer(m, at, regs, pending).Some?
    ensures AtSites(m, Transfer(m, at, regs, pending).value.regs)
  {
    EffectAtSites(m, at, Decode(m.units, at).value, regs, pending);
  }

  lemma InvokeResult(m: Code, op: nat, idx: nat, args: seq<nat>, regs: Regs)
    requires InvokeEffect(m, op, idx, args, regs).Some?
    ensures InvokeEffect(m, op, idx, args, regs).value.result == LeftBy(m, Invoke(op, idx, args))
  {
    hide CheckArgs, Constructed;
  }

  lemma EffectResult(m: Code, at: nat, i: Insn, regs: Regs, pending: Option<string>)
    requires EffectOf(m, at, i, regs, pending).Some?
    ensures EffectOf(m, at, i, regs, pending).value.result == LeftBy(m, i)
  {
    hide InvokeEffect, NeedInt, NeedRef, Get, Component, TypeAt;
    if i.Invoke? {
      InvokeResult(m, i.op, i.idx, i.args, regs);
    }
  }

  lemma FlowShape(m: Code, at: nat, regs: Regs, pending: Option<string>)
    requires |regs| == m.nregs && Transfer(m, at, regs, pending).Some?
    ensures var f := Transfer(m, at, regs, pending).value;
      && Decode(m.units, at).Some? && f.fall == at + Width(Decode(m.units, at).value)
      && (f.result.Some? ==> f.next == [f.fall])
      && (|f.next| == 2 ==> f.next[0] == f.fall)
      && at !in f.next
  {
    hide EffectOf, Decode;
    EffectResult(m, at, Decode(m.units, at).value, regs, pending);
  }

  lemma FlowResult(m: Code, at: nat, regs: Regs, pending: Option<string>)
    requires |regs| == m.nregs && Transfer(m, at, regs, pending).Some?
    ensures Transfer(m, at, regs, pending).value.result == Leaves(m, at)
  {
    hide EffectOf, Decode;
    EffectResult(m, at, Decode(m.units, at).value, regs, pending);
  }

  /** The only instruction that ends where n starts decides what is pending there. */
  lemma SoleBefore(m: Code, starts: seq<nat>, at: nat, n: nat)
    requires Sweep(m.units, 0) == Some(starts) && at in starts
    requires Decode(m.units, at).Some? && n == at + Width(Decode(m.units, at).value)
    ensures Leaves(m, at) == Before(m, starts, n)
  {
    hide Decode, Leaves, Sweep, Width;
    SweepSpaced(m.units, 0, at);
    LeavesInvoke(m, at);
    if n >= 3 && n - 3 in starts && n - 3 != at && Leaves(m, n - 3).Some? {
      SweepSpaced(m.units, 0, n - 3);
      LeavesInvoke(m, n - 3);
      assert false;
    }
  }

  lemma LeavesInvoke(m: Code, p: nat)
    ensures Leaves(m, p).Some? ==> Decode(m.units, p).Some? && Width(Decode(m.units, p).value) == 3
  {
    hide Decode;
  }

  lemma FallBefore(m: Code, starts: seq<nat>, at: nat, regs: Regs, pending: Option<string>)
    requires Sweep(m.units, 0) == Some(starts) && at in starts && |regs| == m.nregs
    requires Transfer(m, at, regs, pending).Some?
    ensures var f := Transfer(m, at, regs, pending).value; f.result == Before(m, starts, f.fall)
  {
    FlowShape(m, at, regs, pending);
    FlowResult(m, at, regs, pending);
    SoleBefore(m, starts, at, Transfer(m, at, regs, pending).value.fall);
  }

  // ---------- one push ----------

  /** Facts about a visit in progress: f flows out of `at`, whose entry stands. */
  ghost predicate Flowing(m: Code, starts: seq<nat>, w: Work, at: nat, f: Flow) {
    && Known(m, starts, w) && Entered(m, w) && at in w.states
    && Transfer(m, at, w.states[at].regs, w.states[at].pending) == Some(f)
    && Closed(m, w, {at})
    && AtSites(m, f.regs)
  }

  lemma MergedAbove(s: Regs, t: Regs)
    requires |s| == |t|
    ensures BelowRegs(s, MergeRegs(s, t)) && BelowRegs(t, MergeRegs(s, t))
  {
    forall r | 0 <= r < |s| ensures Below(s[r], MergeRegs(s, t)[r]) && Below(t[r], MergeRegs(s, t)[r]) {
      MergeIsJoin(s[r], t[r], t[r]);
    }
  }

  lemma BelowTransitive(s: Regs, t: Regs, u: Regs)
    requires BelowRegs(s, t) && BelowRegs(t, u)
    ensures BelowRegs(s, u)
  {
    forall r | 0 <= r < |s| ensures Below(s[r], u[r]) {
      MergeIsJoin(s[r], t[r], u[r]);
    }
  }

  lemma MergedAtSites(m: Code, s: Regs, t: Regs)
    requires |s| == |t| && AtSites(m, s) && AtSites(m, t)
    ensures AtSites(m, MergeRegs(s, t))
  {
    var u := MergeRegs(s, t);
    forall r | 0 <= r < |u| && u[r].New? ensures MadeAt(m, u[r], r) {
      assert u[r] == Merge(s[r], t[r]) == s[r];
    }
  }

  /** An entry only climbs, and a pending result once there stays. */
  predicate Grown(e: Entry, g: Entry) {
    BelowRegs(e.regs, g.regs) && (e.pending.Some? ==> g.pending == e.pending)
  }

  /** What a push does to the map and the stack: nothing, or one entry raised and due again. */
  ghost predicate Pushed(m: Code, starts: seq<nat>, w: Work, f: Flow, n: int, v: Work) {
    && n >= 0 && n in starts && n in v.states
    && BelowRegs(f.regs, v.states[n].regs) && v.states[n].pending == f.result
    && AtSites(m, v.states[n].regs)
    && (n in w.states ==> Grown(w.states[n], v.states[n]))
    && (n in w.states && n != f.fall ==> w.states[n].pending.None? && f.result.None?)
    && (v == w ||
        (v == Work(w.states[n := v.states[n]], w.stack + [n]) &&
         (n in w.states ==> v.states[n] != w.states[n])))
  }

  lemma PushShape(m: Code, starts: seq<nat>, w: Work, at: nat, f: Flow, n: int, v: Work)
    requires Flowing(m, starts, w, at, f)
    requires n in f.next && Push(m, starts, w, f, n) == Some(v)
    ensures Pushed(m, starts, w, f, n, v)
  {
    FlowShape(m, at, w.states[at].regs, w.states[at].pending);
    FallBefore(m, starts, at, w.states[at].regs, w.states[at].pending);
    if n in w.states {
      MergedAbove(w.states[n].regs, f.regs);
      MergedAtSites(m, w.states[n].regs, f.regs);
    } else {
      MergedAbove(f.regs, f.regs);
      assert MergeRegs(f.regs, f.regs) == f.regs;
    }
  }

  lemma CoveredGrows(m: Code, starts: seq<nat>, w: Work, at: nat, f: Flow, n: int, v: Work, g: Flow, y: int)
    requires Flowing(m, starts, w, at, f) && Doomed(m, starts, w, false) && n in f.next
    requires Pushed(m, starts, w, f, n, v)
    requires Covered(m, w.states, g, y)
    ensures Covered(m, v.states, g, y)
  {
    if y == n {
      FlowShape(m, at, w.states[at].regs, w.states[at].pending);
      FallBefore(m, starts, at, w.states[at].regs, w.states[at].pending);
      BelowTransitive(g.regs, w.states[n].regs, v.states[n].regs);
    }
  }

  lemma PushKeepsClosed(m: Code, starts: seq<nat>, w: Work, at: nat, f: Flow, n: int, v: Work)
    requires Flowing(m, starts, w, at, f) && Doomed(m, starts, w, false) && n in f.next
    requires Pushed(m, starts, w, f, n, v) && Ready(m, v) && n != at
    ensures Closed(m, v, {at})
  {
    forall x | x in v.states && x !in v.stack && x != at ensures Settled(m, v.states, x) {
      if v != w {
        assert n in v.stack && x in w.states && x !in w.stack;
      }
      var g := Transfer(m, x, w.states[x].regs, w.states[x].pending).value;
      forall k | 0 <= k < |g.next| ensures Covered(m, v.states, g, g.next[k]) {
        CoveredGrows(m, starts, w, at, f, n, v, g, g.next[k]);
      }
    }
  }

  /** A push keeps the invariant: only the target changes, and only upwards. */
  lemma PushKeeps(m: Code, starts: seq<nat>, w: Work, at: nat, f: Flow, n: int, v: Work)
    requires Flowing(m, starts, w, at, f) && Doomed(m, starts, w, false)
    requires n in f.next && Push(m, starts, w, f, n) == Some(v)
    ensures Flowing(m, starts, v, at, f)
    ensures Pushed(m, starts, w, f, n, v)
    ensures Doomed(m, starts, v, n != f.fall)
  {
    PushShape(m, starts, w, at, f, n, v);
    PushKeepsReady(m, starts, w, f, n);
    FlowShape(m, at, w.states[at].regs, w.states[at].pending);
    FallBefore(m, starts, at, w.states[at].regs, w.states[at].pending);
    PushKeepsClosed(m, starts, w, at, f, n, v);
    if n == 0 {
      BelowTransitive(EntryRegs(m), w.states[0].regs, v.states[0].regs);
    }
  }

  /** Pushing all successors in turn settles the instruction visited. */
  lemma {:induction false} PushAllKeeps(m: Code, starts: seq<nat>, w: Work, at: nat, f: Flow, k: nat, v: Work)
    requires Flowing(m, starts, w, at, f) && k <= |f.next|
    requires Doomed(m, starts, w, k == |f.next|)
    requires forall j :: 0 <= j < k ==> Covered(m, w.states, f, f.next[j])
    requires PushAll(m, starts, w, f, f.next[k..]) == Some(v)
    ensures Flowing(m, starts, v, at, f) && Doomed(m, starts, v, true)
    ensures forall j :: 0 <= j < |f.next| ==> Covered(m, v.states, f, f.next[j])
    decreases |f.next| - k
  {
    if k < |f.next| {
      var n := f.next[k];
      FlowShape(m, at, w.states[at].regs, w.states[at].pending);
      var u := Push(m, starts, w, f, n).value;
      PushKeeps(m, starts, w, at, f, n, u);
      forall j | 0 <= j < k + 1 ensures Covered(m, u.states, f, f.next[j]) {
        if j < k {
          CoveredGrows(m, starts, w, at, f, n, u, f, f.next[j]);
        }
      }
      assert f.next[k..][1..] == f.next[k + 1..];
      PushAllKeeps(m, starts, u, at, f, k + 1, v);
    }
  }

  /** One pass of the worklist loop keeps the invariant. */
  lemma VisitKeeps(m: Code, starts: seq<nat>, w: Work, v: Work)
    requires Inv(m, starts, w) && w.stack != [] && Visit(m, starts, w) == Some(v)
    ensures Inv(m, starts, v)
  {
    var last := |w.stack| - 1;
    var at := w.stack[last];
    var u := Work(w.states, w.stack[..last]);
    var f := Transfer(m, at, w.states[at].regs, w.states[at].pending).value;
    FlowAtSites(m, at, w.states[at].regs, w.states[at].pending);
    Popped(m, starts, w, f);
    assert f.next[0..] == f.next;
    PushAllKeeps(m, starts, u, at, f, 0, v);
    FlowShape(m, at, w.states[at].regs, w.states[at].pending);
  }

  lemma Popped(m: Code, starts: seq<nat>, w: Work, f: Flow)
    requires Inv(m, starts, w) && w.stack != []
    requires var e := w.states[w.stack[|w.stack| - 1]];
      Transfer(m, w.stack[|w.stack| - 1], e.regs, e.pending) == Some(f) && AtSites(m, f.regs)
    ensures var u := Work(w.states, w.stack[..|w.stack| - 1]);
      Flowing(m, starts, u, w.stack[|w.stack| - 1], f) && Doomed(m, starts, u, false)
  {
    hide Transfer, AtSites, Settled, Leaves, Before, EntryRegs, BelowRegs, IsMoveResult;
    var last := |w.stack| - 1;
    var at := w.stack[last];
    assert w.stack == w.stack[..last] + [at];
    Delivered(m, at, w.states[at].regs, w.states[at].pending);
  }

  /** A move-result passes its check only with a result pending. */
  lemma Delivered(m: Code, at: nat, regs: Regs, pending: Option<string>)
    requires |regs| == m.nregs && Transfer(m, at, regs, pending).Some?
    ensures IsMoveResult(m, at) ==> pending.Some?
  {
  }

  lemma StartKeeps(m: Code)
    requires Framed(m)
    ensures After(m, 0).Running? && (Sweep(m.units, 0).value != [] ==> Inv(m, Sweep(m.units, 0).value, After(m, 0).w))
  {
    var e := EntryRegs(m);
    if Sweep(m.units, 0).value != [] {
      assert Sweep(m.units, 0).value[0] == 0;
      assert AtSites(m, e);
      MergedAbove(e, e);
      assert MergeRegs(e, e) == e;
    }
  }

  lemma DoneIsInductive(m: Code, starts: seq<nat>, w: Work)
    requires Inv(m, starts, w) && w.stack == []
    ensures Inductive(m, w.states)
  {
    assert forall n :: n in w.states ==> Settled(m, w.states, n);
  }

  lemma {:induction false} RunKeeps(m: Code, k: nat)
    requires Framed(m) && |m.units| > 0
    ensures After(m, k).Running? ==> Inv(m, Sweep(m.units, 0).value, After(m, k).w)
    ensures After(m, k).Accepted? ==> Inductive(m, After(m, k).states)
  {
    if k == 0 {
      StartKeeps(m);
    } else {
      RunKeeps(m, k - 1);
      StepKeeps(m, k);
    }
  }

  lemma StepKeeps(m: Code, k: nat)
    requires Framed(m) && k > 0
    requires After(m, k - 1).Running? ==> Inv(m, Sweep(m.units, 0).value, After(m, k - 1).w)
    requires After(m, k - 1).Accepted? ==> Inductive(m, After(m, k - 1).states)
    ensures After(m, k).Running? ==> Inv(m, Sweep(m.units, 0).value, After(m, k).w)
    ensures After(m, k).Accepted? ==> Inductive(m, After(m, k).states)
  {
    var starts := Sweep(m.units, 0).value;
    match After(m, k - 1)
    case Running(w) =>
      if w.stack == [] {
        DoneIsInductive(m, starts, w);
      } else {
        match Visit(m, starts, w) {
          case Some(v) => VisitKeeps(m, starts, w, v);
          case None =>
        }
      }
    case Accepted(_) =>
    case Rejected =>
  }

  lemma {:induction false} EmptyRejected(m: Code, k: nat)
    requires Framed(m) && |m.units| == 0
    ensures !After(m, k).Accepted?
  {
    if k > 0 {
      EmptyRejected(m, k - 1);
      if k > 1 {
        EmptyRunsOnce(m, k - 1);
      }
    }
  }

  lemma {:induction false} EmptyRunsOnce(m: Code, k: nat)
    requires Framed(m) && |m.units| == 0 && k >= 1
    ensures After(m, k).Rejected?
  {
    if k > 1 {
      EmptyRunsOnce(m, k - 1);
    } else {
      assert After(m, 0) == Running(Work(map[0 := Entry(EntryRegs(m), None)], [0]));
    }
  }

  function StatesOf(s: Status): States {
    match s
    case Running(w) => w.states
    case Accepted(states) => states
    case Rejected => map[]
  }

  /** Whatever a run has reached so far, an unconstructed object sits only where its new-instance put it. */
  lemma UnbuiltAtSites(m: Code, k: nat, n: nat)
    requires Framed(m) && n in StatesOf(After(m, k))
    ensures AtSites(m, StatesOf(After(m, k))[n].regs)
  {
    if |m.units| > 0 {
      RunKeeps(m, k);
    } else if k > 0 {
      EmptyRunsOnce(m, k);
    }
  }

  /** The states an accepting run ends with are an inductive annotation of the method. */
  lemma AcceptedIsInductive(m: Code, states: States)
    requires Accepts(m, states)
    ensures Inductive(m, states)
  {
    var k: nat :| After(m, k) == Accepted(states);
    if |m.units| == 0 {
      EmptyRejected(m, k);
    } else {
      RunKeeps(m, k);
    }
  }

  /** In an accepted method control reaches a move-result only from the invoke directly before it. */
  lemma MoveResultFollowsInvoke(m: Code, states: States, p: nat, n: nat)
    requires Accepts(m, states) && p in states && n in states && IsMoveResult(m, n)
    requires |states[p].regs| == m.nregs && Transfer(m, p, states[p].regs, states[p].pending).Some?
    requires n in Transfer(m, p, states[p].regs, states[p].pending).value.next
    ensures Decode(m.units, p).value.Invoke? && n == p + 3 && Leaves(m, p).Some?
  {
    AcceptedIsInductive(m, states);
    assert Settled(m, states, p) && Settled(m, states, n);
    FlowShape(m, p, states[p].regs, states[p].pending);
    FlowResult(m, p, states[p].regs, states[p].pending);
  }

  /** What a constructor call does: the receiver's kind is replaced wherever it stands. */
  lemma InitEffect(m: Code, at: nat, i: Insn, regs: Regs, pending: Option<string>)
    requires i.Invoke? && EffectOf(m, at, i, regs, pending).Some? && m.ids.methods[i.idx].name == INIT
    ensures i.args != [] && i.args[0] < |regs|
    ensures regs[i.args[0]].New? && regs[i.args[0]].cls == m.ids.methods[i.idx].cls
    ensures var callee := m.ids.methods[i.idx];
      EffectOf(m, at, i, regs, pending) ==
      Some(Effect(Constructed(regs, regs[i.args[0]], callee.cls), ResultOf(callee.proto.ret)))
  {
  }

  /** In an accepted method a constructor call changes what is known of its receiver's register alone. */
  lemma InitChangesOneRegister(m: Code, states: States, p: nat)
    requires Accepts(m, states) && p in states
    requires Decode(m.units, p).Some? && Decode(m.units, p).value.Invoke?
    requires var i := Decode(m.units, p).value; i.idx < |m.ids.methods| && m.ids.methods[i.idx].name == INIT
    ensures var i := Decode(m.units, p).value; var regs := states[p].regs;
      && i.args != [] && i.args[0] < |regs| && regs[i.args[0]].New?
      && EffectOf(m, p, i, regs, states[p].pending).Some?
      && EffectOf(m, p, i, regs, states[p].pending).value.regs == regs[i.args[0] := Ref(m.ids.methods[i.idx].cls)]
  {
    AcceptedIsInductive(m, states);
    var i, regs := Decode(m.units, p).value, states[p].regs;
    SettledPasses(m, states, p);
    hide EffectOf, Decode, Settled;
    InitEffect(m, p, i, regs, states[p].pending);
    SoleHolder(m, regs, i.args[0], m.ids.methods[i.idx].cls);
  }

  lemma SettledPasses(m: Code, states: States, p: nat)
    requires p in states && |states[p].regs| == m.nregs && Settled(m, states, p)
    ensures Decode(m.units, p).Some?
    ensures EffectOf(m, p, Decode(m.units, p).value, states[p].regs, states[p].pending).Some?
  {
    hide EffectOf, Decode;
  }

  lemma SoleHolder(m: Code, regs: Regs, r: nat, cls: string)
    requires AtSites(m, regs) && r < |regs| && regs[r].New?
    ensures Constructed(regs, regs[r], cls) == regs[r := Ref(cls)]
  {
    forall s | 0 <= s < |regs| && regs[s] == regs[r] ensures s == r {
      assert MadeAt(m, regs[s], s) && MadeAt(m, regs[r], r);
    }
  }
}
