/**
 What the verifier of tools/dexasm.py leaves to others: the class of an object that is
 passed, beyond its being a reference. A method that it accepts and that goes wrong so,
 and exactly at which calls a method can.
 */
module DexMisfit {
  import opened Wrappers
  import opened DexCode
  import opened DexVerify
  import opened DexFixpoint
  import opened DexMachine
  import opened DexSound

  /** The class of an object it passes: String.length() on the parameter of a method that takes an Object. */
  function LengthOfObject(): Code {
    var length := MethodId(STRING, Proto("I", []), "length");
    Code([0x106e, 0, 0, 0x000e], 1, 1, 1, [OBJECT], "V", Ids(0, [], [], [length]))
  }

  lemma SweepFrom(units: seq<unit>, at: nat, i: Insn, rest: seq<nat>)
    requires Decode(units, at) == Some(i) && Sweep(units, at + Width(i)) == Some(rest)
    ensures Sweep(units, at) == Some([at] + rest)
  {
  }

  lemma LengthOfObjectDecodes(units: seq<unit>)
    requires units == [0x106e, 0, 0, 0x000e]
    ensures Decode(units, 0) == Some(Invoke(0x6e, 0, [0])) && Decode(units, 3) == Some(ReturnVoid)
    ensures Sweep(units, 0) == Some([0, 3])
  {
    assert units[0] % 256 == 0x6e && units[0] / 256 == 0x10;
    assert Operands(0x6e, 0x10, 0, 0) == Some(Invoke(0x6e, 0, [0])) by {
      assert Nibbles(0, 1) == [0] + Nibbles(0, 0) == [0];
    }
    var i := Decode(units, 0);
    assert i == Operands(0x6e, 0x10, units[1], units[2]);
    assert Decode(units, 3) == Operands(0x0e, 0, 0, 0) == Some(ReturnVoid);
    SweepFrom(units, 3, ReturnVoid, []);
    assert [3] + [] == [3];
    SweepFrom(units, 0, Invoke(0x6e, 0, [0]), [3]);
    assert [0] + [3] == [0, 3];
  }

  lemma LengthOfObjectFlows(m: Code, regs: Regs)
    requires m == LengthOfObject() && regs == [Ref(OBJECT)]
    requires Decode(m.units, 0) == Some(Invoke(0x6e, 0, [0])) && Decode(m.units, 3) == Some(ReturnVoid)
    ensures Transfer(m, 0, regs, None) == Some(Flow(regs, Some("I"), [3], 3))
    ensures Transfer(m, 3, regs, Some("I")) == Some(Flow(regs, None, [], 4))
  {
    hide Decode;
    assert CheckArgs(regs, [], []);
    assert InvokeEffect(m, 0x6e, 0, [0], regs) == Some(Effect(regs, Some("I")));
  }

  lemma LengthOfObjectAccepted(m: Code) returns (states: States)
    requires m == LengthOfObject()
    ensures Accepts(m, states)
  {
    hide Decode, Sweep, EffectOf, Transfer;
    LengthOfObjectDecodes(m.units);
    var regs: Regs := [Ref(OBJECT)];
    LengthOfObjectFlows(m, regs);
    assert EntryRegs(m) == regs;
    var one := map[0 := Entry(regs, None)];
    var two := one[3 := Entry(regs, Some("I"))];
    assert After(m, 0) == Running(Work(one, [0]));
    var f := Flow(regs, Some("I"), [3], 3);
    assert [0][..0] == [] && [] + [3] == [3] && f.next[1..] == [];
    assert Push(m, [0, 3], Work(one, []), f, 3) == Some(Work(two, [3]));
    assert PushAll(m, [0, 3], Work(two, [3]), f, []) == Some(Work(two, [3]));
    assert After(m, 1) == Running(Work(two, [3]));
    assert [3][..0] == [];
    assert After(m, 2) == Running(Work(two, []));
    assert After(m, 3) == Accepted(two);
    states := two;
  }

  lemma LengthOfObjectCalled(sub: Subtype, m: Code, c: Config)
    requires Loader(sub) && m == LengthOfObject()
    requires c == Config(0, [Ptr(0)], None, map[0 := Instance(OBJECT, true)])
    ensures Called(sub, m, c)
  {
    assert c.regs[m.nregs - m.ins..] == [Ptr(0)];
    assert IsA(sub, c.heap, Ptr(0), OBJECT);
  }

  /** That method is accepted, and a misfit on every object that is no String. */
  lemma AcceptedMisfits(sub: Subtype)
    requires Loader(sub) && !sub(OBJECT, STRING)
    ensures exists states, c, ev ::
      Accepts(LengthOfObject(), states) && Tables(LengthOfObject().ids) && Called(sub, LengthOfObject(), c) &&
      Conforming(sub, LengthOfObject(), c, ev) && Run(sub, LengthOfObject(), c, [ev]) == Misfit
  {
    hide Decode, Sweep, Loader;
    var m := LengthOfObject();
    LengthOfObjectDecodes(m.units);
    var states := LengthOfObjectAccepted(m);
    var h: Heap := map[0 := Instance(OBJECT, true)];
    var c := Config(0, [Ptr(0)], None, h);
    var ev := Event(1, false, NULL, h);
    assert Tables(m.ids) by {
      assert Descriptor("I");
    }
    LengthOfObjectCalled(sub, m, c);
    assert Extends(h, h, {}) && GoodHeap(sub, h);
    assert Conforming(sub, m, c, ev);
    assert Exec(sub, m, c, Invoke(0x6e, 0, [0]), ev) == Misfit;
    assert Run(sub, m, c, [ev]) == Misfit;
  }

  // ---------- where it goes wrong ----------

  /** Every class known of a register is one that objects can have. */
  predicate Inhabited(regs: Regs) {
    forall r :: 0 <= r < |regs| ==>
      (regs[r].Ref? ==> IsRefDesc(regs[r].desc)) && (regs[r].New? ==> regs[r].cls != "" && regs[r].cls[0] == 'L')
  }

  /** An object of the class known. */
  function Sample(k: Kind): Object {
    match k
    case Ref(t) => if IsArray(t) then Array(t, []) else Instance(t, true)
    case New(cls, _) => Instance(cls, false)
    case _ => Instance(OBJECT, true)
  }

  function Holding(k: Kind, r: nat): Value {
    match k
    case Zero | Int => NULL
    case Ref(_) | New(_, _) => Ptr(r)
    case Conflict | Unset => Garbage
  }

  /** An object in every register known to hold one, each of exactly the class known. */
  function Samples(regs: Regs): (h: Heap)
    ensures forall r: nat :: r in h <==> r < |regs|
    ensures forall r: nat :: r in h ==> h[r] == Sample(regs[r])
  {
    map r: nat | r < |regs| :: Sample(regs[r])
  }

  function Held(regs: Regs): (vals: seq<Value>)
    ensures |vals| == |regs| && forall r :: 0 <= r < |regs| ==> vals[r] == Holding(regs[r], r)
  {
    seq(|regs|, r requires 0 <= r < |regs| => Holding(regs[r], r))
  }

  lemma SamplesFit(sub: Subtype, regs: Regs)
    requires Loader(sub) && Inhabited(regs)
    ensures GoodHeap(sub, Samples(regs)) && FitsAll(sub, Samples(regs), Held(regs), regs)
  {
    var h := Samples(regs);
    forall r | 0 <= r < |regs| ensures GoodObject(sub, h, h[r]) && Fits(sub, h, Held(regs)[r], regs[r]) {
      assert h[r] == Sample(regs[r]);
    }
  }

  /** The heap a call leaves: as it was, but for the object it constructs. */
  function Left(h: Heap, built: set<nat>): (g: Heap)
    ensures g.Keys == h.Keys
    ensures forall a :: a in h ==> g[a] == if a in built && h[a].Instance? then h[a].(ready := true) else h[a]
  {
    map a | a in h :: if a in built && h[a].Instance? then h[a].(ready := true) else h[a]
  }

  lemma LeftFits(sub: Subtype, h: Heap, built: set<nat>)
    requires GoodHeap(sub, h)
    ensures GoodHeap(sub, Left(h, built)) && Extends(h, Left(h, built), built)
  {
    var g := Left(h, built);
    assert Extends(h, g, built);
    forall a | a in g ensures GoodObject(sub, g, g[a]) {
      assert GoodObject(sub, h, h[a]);
      if h[a].Array? && !IsPrim(h[a].cls[1..]) {
        forall k | 0 <= k < |h[a].elems| ensures IsA(sub, g, h[a].elems[k], h[a].cls[1..]) {
          IsAExtends(sub, h, g, built, h[a].elems[k], h[a].cls[1..]);
        }
      }
    }
  }

  /** A configuration at a call, each register holding an object of exactly its known class, and an answer to it. */
  function At(regs: Regs, at: nat): Config {
    Config(at, Held(regs), None, Samples(regs))
  }

  function Answer(m: Code, c: Config, i: Insn, free: nat): Event {
    Event(free, false, NULL, Left(c.heap, Building(m, c, i)))
  }

  lemma AnswerConforms(sub: Subtype, m: Code, regs: Regs, at: nat, i: Insn)
    requires Loader(sub) && Inhabited(regs) && Decode(m.units, at) == Some(i) && i.Invoke?
    ensures var c := At(regs, at); Conforming(sub, m, c, Answer(m, c, i, |regs|))
  {
    hide Decode, Samples, Left, Building, GoodHeap, Loader;
    var c := At(regs, at);
    SamplesFit(sub, regs);
    LeftFits(sub, c.heap, Building(m, c, i));
  }

  /** An object of exactly the known class is refused where that class is not assignable. */
  lemma SampleRefused(sub: Subtype, regs: Regs, at: nat, r: nat, desc: string)
    requires r < |regs| && regs[r].Ref? && !Assignable(sub, regs, r, desc)
    ensures var c := At(regs, at);
      ReadReg(c, r) == Ptr(r) && c.heap[r].cls == regs[r].desc && IsReady(c.heap, ReadReg(c, r)) &&
      !sub(c.heap[r].cls, desc) && !IsA(sub, c.heap, ReadReg(c, r), desc)
  {
    assert Samples(regs)[r] == Sample(regs[r]);
  }

  lemma NotSuited(sub: Subtype, regs: Regs, at: nat, args: seq<nat>, params: seq<string>)
    requires |args| == |params| && !AllAssignable(sub, regs, args, params)
    ensures !Suited(sub, At(regs, at), args, params)
  {
    var k :| 0 <= k < |args| && !IsPrim(params[k]) && !Assignable(sub, regs, args[k], params[k]);
    SampleRefused(sub, regs, at, args[k], params[k]);
  }

  lemma SampleReceiver(regs: Regs, at: nat, r: nat)
    requires r < |regs| && (regs[r].Ref? || regs[r].New?)
    ensures var c := At(regs, at); ReadReg(c, r) == Ptr(r) && r in c.heap && c.heap[r] == Sample(regs[r])
  {
  }

  /** A call that passes the checks although a known class is not assignable: on those objects it is a misfit. */
  lemma CallMisfits(sub: Subtype, m: Code, regs: Regs, at: nat, i: Insn, ev: Event)
    requires Loader(sub) && Tables(m.ids) && Inhabited(regs)
    requires i.Invoke? && EffectOf(m, at, i, regs, None).Some? && !Matched(sub, m, regs, i)
    ensures Exec(sub, m, At(regs, at), i, ev) == Misfit
  {
    hide At, Suited, GoodArgs, AllAssignable, Inhabited, Loader;
    var c, callee := At(regs, at), m.ids.methods[i.idx];
    var params := callee.proto.params;
    var args := if IsStatic(i.op) then i.args else i.args[1..];
    SamplesFit(sub, regs);
    AtHolds(regs, at);
    ArgsFit(sub, m, c, regs, args, params);
    if !AllAssignable(sub, regs, args, params) {
      NotSuited(sub, regs, at, args, params);
    } else {
      SampleRefused(sub, regs, at, i.args[0], callee.cls);
    }
    if !IsStatic(i.op) {
      SampleReceiver(regs, at, i.args[0]);
    }
  }

  lemma AtHolds(regs: Regs, at: nat)
    ensures At(regs, at).regs == Held(regs) && At(regs, at).heap == Samples(regs)
  {
  }

  /** A configuration at `at` that agrees with the states, and is a misfit. */
  ghost predicate GoesWrong(sub: Subtype, m: Code, states: States, at: nat, c: Config, ev: Event) {
    c.pc == at && Agrees(sub, m, states, c) && Conforming(sub, m, c, ev) && Step(sub, m, c, ev) == Misfit
  }

  lemma MisfitThere(sub: Subtype, m: Code, states: States, at: nat)
    requires Inductive(m, states) && Loader(sub) && Tables(m.ids) && at in states && Inhabited(states[at].regs)
    requires MisfitAt(sub, m, states, at)
    ensures exists c, ev :: GoesWrong(sub, m, states, at, c, ev)
  {
    var i, regs := Decode(m.units, at).value, states[at].regs;
    assert Settled(m, states, at);
    SettledPasses(m, states, at);
    hide Decode, EffectOf, Settled, Loader, GoodHeap, FitsAll, Samples, Held;
    SamplesFit(sub, regs);
    var c := At(regs, at);
    var ev := Answer(m, c, i, |regs|);
    AnswerConforms(sub, m, regs, at, i);
    InvokePending(m, at, i, regs, states[at].pending);
    CallMisfits(sub, m, regs, at, i, ev);
    assert GoesWrong(sub, m, states, at, c, ev);
  }

  /**
   Exactly the calls at which a class the accepted states know is not assignable can go wrong: such a
   call is a misfit on some configuration that agrees with the states, and no other call is on any.
   */
  lemma MisfitExactly(sub: Subtype, m: Code, states: States, at: nat)
    requires Accepts(m, states) && Loader(sub) && Tables(m.ids) && at in states && Inhabited(states[at].regs)
    ensures MisfitAt(sub, m, states, at) <==> exists c, ev :: GoesWrong(sub, m, states, at, c, ev)
  {
    hide MisfitAt, Agrees, Step, Loader, Inhabited;
    AcceptedIsInductive(m, states);
    forall c, ev | GoesWrong(sub, m, states, at, c, ev) ensures MisfitAt(sub, m, states, at) {
      StepAgrees(sub, m, states, c, ev);
    }
    if MisfitAt(sub, m, states, at) {
      MisfitThere(sub, m, states, at);
    }
  }

  lemma InvokePending(m: Code, at: nat, i: Insn, regs: Regs, pending: Option<string>)
    requires i.Invoke?
    ensures EffectOf(m, at, i, regs, None) == EffectOf(m, at, i, regs, pending)
  {
  }
}
