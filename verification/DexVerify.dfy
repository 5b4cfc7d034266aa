/**
 The type-flow verifier of tools/dexasm.py: what it knows about a register, what
 one instruction does to that knowledge, and the worklist that runs it to a fixpoint.
 */
module DexVerify {
  import opened Wrappers
  import opened DexCode

  // ---------- what is known about a register ----------

  /** "0", "I", ("R", t), ("N", t, site), "X" and "U" of the original. */
  datatype Kind = Zero | Int | Ref(desc: string) | New(cls: string, site: nat) | Conflict | Unset {
    predicate IsInt() { Int? || Zero? }
    predicate IsRef() { Zero? || Ref? }
    predicate Known() { !Unset? && !Conflict? }
  }

  const OBJECT := "Ljava/lang/Object;"
  const STRING := "Ljava/lang/String;"

  predicate IsPrim(desc: string) {
    desc in {"Z", "B", "S", "C", "I"}
  }

  predicate IsArray(desc: string) {
    desc != "" && desc[0] == '['
  }

  predicate IsRefDesc(desc: string) {
    desc != "" && desc[0] in {'L', '['}
  }

  function KindOf(desc: string): Kind {
    if IsPrim(desc) then Int else Ref(desc)
  }

  function Merge(a: Kind, b: Kind): Kind {
    if a == b then a
    else if a.Unset? || b.Unset? then Unset
    else if {a, b} == {Zero, Int} then Int
    else if a.Zero? && b.Ref? then b
    else if b.Zero? && a.Ref? then a
    else if a.Ref? && b.Ref? then Ref(OBJECT)
    else Conflict
  }

  /** a says at least as much as b. */
  predicate Below(a: Kind, b: Kind) {
    Merge(b, a) == b
  }

  function Height(k: Kind): nat {
    match k
    case Zero => 0
    case Int => 2
    case Ref(t) => if t == OBJECT then 2 else 1
    case New(_, _) => 2
    case Conflict => 3
    case Unset => 4
  }

  /** Merge is the least upper bound of a partial order in which every strict step is upwards. */
  lemma MergeIsJoin(a: Kind, b: Kind, c: Kind)
    ensures Below(a, a) && Merge(a, b) == Merge(b, a)
    ensures Below(a, b) && Below(b, a) ==> a == b
    ensures Below(a, b) && Below(b, c) ==> Below(a, c)
    ensures Below(a, Merge(a, b)) && Below(b, Merge(a, b))
    ensures Below(a, c) && Below(b, c) ==> Below(Merge(a, b), c)
    ensures Below(a, b) && a != b ==> Height(a) < Height(b) <= 4
  {
  }

  // ---------- registers ----------

  type Regs = seq<Kind>

  function MergeRegs(s: Regs, t: Regs): (r: Regs)
    requires |s| == |t|
    ensures |r| == |s| && forall i :: 0 <= i < |r| ==> r[i] == Merge(s[i], t[i])
  {
    seq(|s|, i requires 0 <= i < |s| => Merge(s[i], t[i]))
  }

  predicate BelowRegs(a: Regs, b: Regs) {
    |a| == |b| && forall r :: 0 <= r < |a| ==> Below(a[r], b[r])
  }

  // ---------- a method and the tables it names ----------

  datatype Proto = Proto(ret: string, params: seq<string>)
  datatype FieldId = FieldId(cls: string, desc: string, name: string)
  datatype MethodId = MethodId(cls: string, proto: Proto, name: string)
  datatype Ids = Ids(strs: nat, types: seq<string>, fields: seq<FieldId>, methods: seq<MethodId>)
  datatype Code = Code(units: seq<unit>, nregs: nat, ins: nat, outs: nat, params: seq<string>, ret: string, ids: Ids)

  // ---------- one instruction ----------

  /** Registers and pending result after an instruction; None: an assertion failed. */
  datatype Effect = Effect(regs: Regs, result: Option<string>)

  function Get(regs: Regs, r: nat): Option<Kind> {
    if r < |regs| && regs[r].Known() then Some(regs[r]) else None
  }

  function NeedInt(regs: Regs, r: nat): Option<Kind> {
    var t :- Get(regs, r);
    var _ :- Need(t.IsInt());
    Some(t)
  }

  function NeedRef(regs: Regs, r: nat): Option<Kind> {
    var t :- Get(regs, r);
    var _ :- Need(t.IsRef());
    Some(t)
  }

  function Put(regs: Regs, r: nat, t: Kind): (e: Option<Effect>)
    ensures e.Some? <==> r < |regs|
    ensures e.Some? ==> e.value == Effect(regs[r := t], None)
  {
    if r < |regs| then Some(Effect(regs[r := t], None)) else None
  }

  function TypeAt(ids: Ids, i: nat): Option<string> {
    if i < |ids.types| then Some(ids.types[i]) else None
  }

  /** The component type of a register that holds an array for certain. */
  function Component(t: Kind): Option<string> {
    if t.Ref? && IsArray(t.desc) then Some(t.desc[1..]) else None
  }

  predicate CheckArg(t: Kind, desc: string) {
    if IsPrim(desc) then t.IsInt()
    else
      t.IsRef() &&
      (t.Ref? && desc != OBJECT ==>
         IsArray(t.desc) == IsArray(desc) && (IsArray(desc) ==> t.desc == desc))
  }

  predicate CheckArgs(regs: Regs, args: seq<nat>, params: seq<string>)
    requires |args| == |params|
  {
    forall i :: 0 <= i < |args| ==>
      Get(regs, args[i]).Some? && CheckArg(Get(regs, args[i]).value, params[i])
  }

  const INIT := "<init>"

  predicate IsStatic(op: nat) {
    op in {0x71, 0x77}
  }

  function Constructed(regs: Regs, made: Kind, cls: string): (r: Regs)
    ensures |r| == |regs|
    ensures forall i :: 0 <= i < |r| ==> r[i] == if regs[i] == made then Ref(cls) else regs[i]
  {
    seq(|regs|, i requires 0 <= i < |regs| => if regs[i] == made then Ref(cls) else regs[i])
  }

  function InvokeEffect(m: Code, op: nat, idx: nat, args: seq<nat>, regs: Regs): Option<Effect> {
    if idx >= |m.ids.methods| then None
    else
      var callee := m.ids.methods[idx];
      var params := callee.proto.params;
      var this_ := if IsStatic(op) then 0 else 1;
      var _ :- Need(|args| == |params| + this_ && |args| <= m.outs);
      var _ :- Need(callee.name == INIT ==> op == 0x70);
      var result := if callee.proto.ret == "V" then None else Some(callee.proto.ret);
      if IsStatic(op) then
        var _ :- Need(CheckArgs(regs, args, params));
        Some(Effect(regs, result))
      else
        var t :- Get(regs, args[0]);
        var _ :- Need(if callee.name == INIT then t.New? && t.cls == callee.cls else t.Ref?);
        var _ :- Need(CheckArgs(regs, args[1..], params));
        Some(Effect(if callee.name == INIT then Constructed(regs, t, callee.cls) else regs, result))
  }

  function EffectOf(m: Code, at: nat, i: Insn, regs: Regs, pending: Option<string>): Option<Effect> {
    match i
    case Move(isObj, a, b) =>
      var t :- if isObj then NeedRef(regs, b) else NeedInt(regs, b);
      Put(regs, a, t)
    case MoveResult(isObj, a) =>
      var d :- pending;
      var _ :- Need(d != "V" && IsPrim(d) == !isObj);
      Put(regs, a, KindOf(d))
    case ReturnVoid =>
      var _ :- Need(m.ret == "V");
      Some(Effect(regs, None))
    case Return(isObj, a) =>
      var _ :- Need(m.ret != "V" && IsPrim(m.ret) == !isObj);
      var _ :- if isObj then NeedRef(regs, a) else NeedInt(regs, a);
      Some(Effect(regs, None))
    case Const(_, a, lit) =>
      Put(regs, a, if lit == 0 then Zero else Int)
    case ConstString(a, idx) =>
      var _ :- Need(idx < m.ids.strs);
      Put(regs, a, Ref(STRING))
    case CheckCast(a, idx) =>
      var _ :- NeedRef(regs, a);
      var t :- TypeAt(m.ids, idx);
      Put(regs, a, Ref(t))
    case ArrayLength(a, b) =>
      var t :- NeedRef(regs, b);
      var _ :- Component(t);
      Put(regs, a, Int)
    case NewInstance(a, idx) =>
      var t :- TypeAt(m.ids, idx);
      var _ :- Need(t != "" && t[0] == 'L');
      Put(regs, a, New(t, at))
    case NewArray(a, b, idx) =>
      var _ :- NeedInt(regs, b);
      var t :- TypeAt(m.ids, idx);
      var _ :- Need(IsArray(t));
      Put(regs, a, Ref(t))
    case Goto(_) =>
      Some(Effect(regs, None))
    case If2(op, a, b, _) =>
      var s :- Get(regs, a);
      var t :- Get(regs, b);
      var _ :- Need((s.IsInt() && t.IsInt()) || (op in {0x32, 0x33} && s.IsRef() && t.IsRef()));
      Some(Effect(regs, None))
    case IfZ(op, a, _) =>
      var t :- Get(regs, a);
      var _ :- Need(t.IsInt() || (op in {0x38, 0x39} && t.IsRef()));
      Some(Effect(regs, None))
    case AGetObject(a, b, c) =>
      var _ :- NeedInt(regs, c);
      var t :- NeedRef(regs, b);
      var comp :- Component(t);
      var _ :- Need(IsRefDesc(comp));
      Put(regs, a, Ref(comp))
    case APutObject(a, b, c) =>
      var _ :- NeedInt(regs, c);
      var t :- NeedRef(regs, b);
      var comp :- Component(t);
      var _ :- Need(IsRefDesc(comp));
      var _ :- NeedRef(regs, a);
      Some(Effect(regs, None))
    case APutByte(a, b, c) =>
      var _ :- NeedInt(regs, c);
      var t :- NeedRef(regs, b);
      var comp :- Component(t);
      var _ :- Need(comp in {"B", "Z"});
      var _ :- NeedInt(regs, a);
      Some(Effect(regs, None))
    case SGetObject(a, idx) =>
      var _ :- Need(idx < |m.ids.fields|);
      var d := m.ids.fields[idx].desc;
      var _ :- Need(IsRefDesc(d));
      Put(regs, a, Ref(d))
    case Invoke(op, idx, args) =>
      InvokeEffect(m, op, idx, args, regs)
    case Binop(_, a, b, c) =>
      var _ :- NeedInt(regs, b);
      var _ :- NeedInt(regs, c);
      Put(regs, a, Int)
    case BinopLit8(_, a, b, _) =>
      var _ :- NeedInt(regs, b);
      Put(regs, a, Int)
    case IntToByte(a, b) =>
      var _ :- NeedInt(regs, b);
      Put(regs, a, Int)
  }

  /** Where control goes next: fall through first, then the branch; None: a branch to itself. */
  function Successors(at: nat, i: Insn): Option<seq<int>> {
    match i
    case ReturnVoid | Return(_, _) => Some([])
    case Goto(off) => if off == 0 then None else Some([at + off])
    case If2(_, _, _, off) => if off == 0 then None else Some([at + Width(i), at + off])
    case IfZ(_, _, off) => if off == 0 then None else Some([at + Width(i), at + off])
    case _ => Some([at + Width(i)])
  }

  /** Everything one visit to `at` derives from the state there. */
  datatype Flow = Flow(regs: Regs, result: Option<string>, next: seq<int>, fall: int)

  function Transfer(m: Code, at: nat, regs: Regs, pending: Option<string>): (f: Option<Flow>)
    requires |regs| == m.nregs
    ensures f.Some? ==> |f.value.regs| == m.nregs && |f.value.next| <= 2
  {
    var i :- Decode(m.units, at);
    var e :- EffectOf(m, at, i, regs, pending);
    EffectKeepsLength(m, at, i, regs, pending);
    var next :- Successors(at, i);
    Some(Flow(e.regs, e.result, next, at + Width(i)))
  }

  lemma EffectKeepsLength(m: Code, at: nat, i: Insn, regs: Regs, pending: Option<string>)
    ensures var e := EffectOf(m, at, i, regs, pending); e.Some? ==> |e.value.regs| == |regs|
  {
  }

  // ---------- the worklist ----------

  datatype Entry = Entry(regs: Regs, pending: Option<string>)
  type States = map<nat, Entry>

  /** The variables of the loop: what is known at each instruction reached, and the stack of visits due. */
  datatype Work = Work(states: States, stack: seq<nat>)

  /** One pass of the inner loop: what flows from a visit into its successor n. */
  function Push(m: Code, starts: seq<nat>, w: Work, f: Flow, n: int): Option<Work>
    requires |f.regs| == m.nregs && Sized(m, w.states)
  {
    if n < 0 || n !in starts then None
    else if n !in w.states then
      Some(Work(w.states[n := Entry(f.regs, f.result)], w.stack + [n]))
    else
      var was := w.states[n];
      var merged := MergeRegs(was.regs, f.regs);
      var _ :- Need((was.pending.None? && f.result.None?) || n == f.fall);
      if merged != was.regs || was.pending != f.result then
        Some(Work(w.states[n := Entry(merged, f.result)], w.stack + [n]))
      else Some(w)
  }

  predicate Sized(m: Code, states: States) {
    forall n :: n in states ==> |states[n].regs| == m.nregs
  }

  lemma PushKeepsReady(m: Code, starts: seq<nat>, w: Work, f: Flow, n: int)
    requires |f.regs| == m.nregs && Ready(m, w)
    ensures Push(m, starts, w, f, n).Some? ==> Ready(m, Push(m, starts, w, f, n).value)
  {
  }

  function PushAll(m: Code, starts: seq<nat>, w: Work, f: Flow, next: seq<int>): (r: Option<Work>)
    requires |f.regs| == m.nregs && Ready(m, w)
    ensures r.Some? ==> Ready(m, r.value)
    decreases next
  {
    if next == [] then Some(w)
    else
      var v :- Push(m, starts, w, f, next[0]);
      PushKeepsReady(m, starts, w, f, next[0]);
      PushAll(m, starts, v, f, next[1..])
  }

  predicate Ready(m: Code, w: Work) {
    Sized(m, w.states) && forall n :: n in w.stack ==> n in w.states
  }

  /** One pass of the outer loop on a non-empty stack. */
  function Visit(m: Code, starts: seq<nat>, w: Work): (r: Option<Work>)
    requires Ready(m, w) && w.stack != []
    ensures r.Some? ==> Ready(m, r.value)
  {
    var last := |w.stack| - 1;
    var at := w.stack[last];
    var f :- Transfer(m, at, w.states[at].regs, w.states[at].pending);
    PushAll(m, starts, Work(w.states, w.stack[..last]), f, f.next)
  }

  /** Parameters arrive in the last registers. */
  function EntryRegs(m: Code): (r: Regs)
    requires m.ins == |m.params| <= m.nregs
    ensures |r| == m.nregs && forall i :: 0 <= i < |r| ==> !r[i].New?
    ensures r[m.nregs - m.ins..] == KindsOf(m.params)
  {
    seq(m.nregs - m.ins, _ => Unset) + KindsOf(m.params)
  }

  function KindsOf(params: seq<string>): (r: Regs)
    ensures |r| == |params| && forall i :: 0 <= i < |r| ==> r[i] == KindOf(params[i])
  {
    seq(|params|, i requires 0 <= i < |params| => KindOf(params[i]))
  }

  /** What verify refuses before it looks at the flow, and what read demands of the frame before it calls verify. */
  predicate Framed(m: Code) {
    m.ins == |m.params| <= m.nregs && "J" !in m.params && "D" !in m.params && Sweep(m.units, 0).Some?
  }

  datatype Status = Running(w: Work) | Accepted(states: States) | Rejected

  /** The loop after k passes. */
  function After(m: Code, k: nat): (s: Status)
    requires Framed(m)
    ensures s.Running? ==> Ready(m, s.w)
  {
    if k == 0 then Running(Work(map[0 := Entry(EntryRegs(m), None)], [0]))
    else
      match After(m, k - 1)
      case Running(w) =>
        if w.stack == [] then Accepted(w.states)
        else
          (match Visit(m, Sweep(m.units, 0).value, w)
           case None => Rejected
           case Some(v) => Running(v))
      case done => done
  }

  ghost predicate Accepts(m: Code, states: States) {
    Framed(m) && exists k: nat :: After(m, k) == Accepted(states)
  }

  ghost predicate Rejects(m: Code) {
    !Framed(m) || exists k: nat :: After(m, k) == Rejected
  }
}
