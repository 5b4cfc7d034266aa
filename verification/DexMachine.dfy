/**
 What a method of the subset does when it runs: registers, a heap of instances and
 arrays. A step is Stuck on a value of the wrong kind, a register or an index out of
 range and a jump into an instruction; it is a Misfit at a call of a method of some
 class on an object of another. Calls, fields and allocation are answered by an event
 from outside.
 */
module DexMachine {
  import opened Wrappers
  import opened DexCode
  import opened DexVerify
  import ModArith

  /** An untyped register: nothing yet, 32 bits (0 is also null), or an object. */
  datatype Value = Garbage | Word(n: int) | Ptr(addr: nat)

  const NULL := Word(0)

  /** ready: its constructor has run. */
  datatype Object =
    | Instance(cls: string, ready: bool)
    | Array(cls: string, elems: seq<Value>)

  type Heap = map<nat, Object>

  datatype Config = Config(pc: int, regs: seq<Value>, result: Option<Value>, heap: Heap)

  /** What the outside supplies to a step: a free address, and a call's or a field's answer. */
  datatype Event = Event(addr: nat, throws: bool, answer: Value, heap: Heap)

  datatype Outcome = Next(c: Config) | Returned(v: Option<Value>) | Threw | Stuck | Misfit

  /** Assignability of descriptors, as the class loader knows it. */
  type Subtype = (string, string) -> bool

  predicate IsReady(h: Heap, v: Value) {
    v.Ptr? && v.addr in h && (h[v.addr].Instance? ==> h[v.addr].ready)
  }

  /** A reference an instruction may use: null or a constructed object. */
  predicate IsRefValue(h: Heap, v: Value) {
    v == NULL || IsReady(h, v)
  }

  predicate IsA(sub: Subtype, h: Heap, v: Value, desc: string) {
    v == NULL || (IsReady(h, v) && sub(h[v.addr].cls, desc))
  }

  function ReadReg(c: Config, r: nat): Value {
    if r < |c.regs| then c.regs[r] else Garbage
  }

  /** On to the next instruction with v in register r. */
  function SetReg(c: Config, i: Insn, r: nat, v: Value, h: Heap): Outcome {
    if r < |c.regs| then Next(Config(c.pc + Width(i), c.regs[r := v], None, h)) else Stuck
  }

  function Wrap32(n: int): int {
    Signed(n % 0x1_0000_0000, 0x8000_0000)
  }

  /** n / d and n % d as Java has them: towards zero. */
  function Quotient(n: int, d: int): int
    requires d != 0
  {
    if n >= 0 then n / d else -((-n) / d)
  }

  function Bits(n: int): bv32 {
    (n % 0x1_0000_0000) as bv32
  }

  /** add, sub, mul, div, rem, and, or, xor, shl, shr, ushr: 0 .. 10; None: division by zero. */
  function Alu(f: nat, x: int, y: int): Option<int> {
    match f
    case 0 => Some(Wrap32(x + y))
    case 1 => Some(Wrap32(x - y))
    case 2 => Some(Wrap32(x * y))
    case 3 => if y == 0 then None else Some(Wrap32(Quotient(x, y)))
    case 4 => if y == 0 then None else Some(Wrap32(x - Quotient(x, y) * y))
    case 5 => Some(Wrap32((Bits(x) & Bits(y)) as int))
    case 6 => Some(Wrap32((Bits(x) | Bits(y)) as int))
    case 7 => Some(Wrap32((Bits(x) ^ Bits(y)) as int))
    case 8 => Some(Wrap32((Bits(x) << (y % 32)) as int))
    case 9 => Some(Wrap32(x) / ModArith.Pow2(y % 32))
    case _ => Some(Wrap32((Bits(x) >> (y % 32)) as int))
  }

  /** lit8 operations: add, rsub, mul, div, rem, and, or, xor, shl, shr, ushr. */
  function AluLit(f: nat, x: int, lit: int): Option<int> {
    if f == 1 then Alu(1, lit, x) else Alu(f, x, lit)
  }

  function Arith(c: Config, i: Insn, a: nat, r: Option<int>): Outcome {
    match r
    case None => Threw
    case Some(n) => SetReg(c, i, a, Word(n), c.heap)
  }

  /** eq, ne, lt, ge, gt, le: 0 .. 5 on integers. */
  predicate Holds(f: nat, x: int, y: int) {
    match f
    case 0 => x == y
    case 1 => x != y
    case 2 => x < y
    case 3 => x >= y
    case 4 => x > y
    case _ => x <= y
  }

  function Branch(c: Config, i: Insn, f: nat, x: Value, y: Value, off: int): Outcome {
    if x.Word? && y.Word? then Jump(c, i, Holds(f, x.n, y.n), off)
    else if f <= 1 && IsRefValue(c.heap, x) && IsRefValue(c.heap, y) then
      Jump(c, i, (x == y) == (f == 0), off)
    else Stuck
  }

  function Jump(c: Config, i: Insn, taken: bool, off: int): Outcome {
    Next(Config(if taken then c.pc + off else c.pc + Width(i), c.regs, None, c.heap))
  }

  /** The array an instruction indexes: Some(elements) in bounds, None for a throw. */
  datatype Access = Elements(o: Object) | Throws | Wrong

  function ArrayAt(c: Config, b: nat, x: nat): Access {
    var arr, at := ReadReg(c, b), ReadReg(c, x);
    if !at.Word? then Wrong
    else if arr == NULL then Throws
    else if !(arr.Ptr? && arr.addr in c.heap && c.heap[arr.addr].Array?) then Wrong
    else if 0 <= at.n < |c.heap[arr.addr].elems| then Elements(c.heap[arr.addr])
    else Throws
  }

  function Stored(c: Config, i: Insn, b: nat, x: nat, v: Value): Outcome
    requires ArrayAt(c, b, x).Elements?
  {
    var addr, at, o := ReadReg(c, b).addr, ReadReg(c, x).n, c.heap[ReadReg(c, b).addr];
    Next(Config(c.pc + Width(i), c.regs, None, c.heap[addr := Array(o.cls, o.elems[at := v])]))
  }

  function ElementDesc(cls: string): string {
    if IsArray(cls) then cls[1..] else ""
  }

  predicate GoodArg(sub: Subtype, h: Heap, v: Value, desc: string) {
    if IsPrim(desc) then v.Word?
    else if IsArray(desc) then IsA(sub, h, v, desc)
    else IsRefValue(h, v)
  }

  predicate GoodArgs(sub: Subtype, c: Config, args: seq<nat>, params: seq<string>) {
    |args| == |params| && forall i :: 0 <= i < |args| ==> GoodArg(sub, c.heap, ReadReg(c, args[i]), params[i])
  }

  function AfterCall(c: Config, i: Insn, ret: string, ev: Event): Outcome {
    if ev.throws then Threw
    else Next(Config(c.pc + Width(i), c.regs, if ret == "V" then None else Some(ev.answer), ev.heap))
  }

  /** Every object among the arguments is of a class its parameter admits. */
  predicate Suited(sub: Subtype, c: Config, args: seq<nat>, params: seq<string>) {
    |args| == |params| &&
    forall i :: 0 <= i < |args| ==> IsPrim(params[i]) || IsA(sub, c.heap, ReadReg(c, args[i]), params[i])
  }

  /** A call with arguments of the right kinds: a misfit unless their classes are right too. */
  function Enter(c: Config, i: Insn, ret: string, ev: Event, suited: bool): Outcome {
    if suited then AfterCall(c, i, ret, ev) else Misfit
  }

  /** A call: stuck on a receiver or an argument of the wrong kind; else whatever the callee answers. */
  function Call(sub: Subtype, m: Code, c: Config, i: Insn, op: nat, idx: nat, args: seq<nat>, ev: Event): Outcome {
    if idx >= |m.ids.methods| then Stuck
    else
      var callee := m.ids.methods[idx];
      var params, ret := callee.proto.params, callee.proto.ret;
      if IsStatic(op) then
        if callee.name != INIT && GoodArgs(sub, c, args, params) then
          Enter(c, i, ret, ev, Suited(sub, c, args, params))
        else Stuck
      else if args == [] then Stuck
      else
        var this_, suited := ReadReg(c, args[0]), Suited(sub, c, args[1..], params);
        if !GoodArgs(sub, c, args[1..], params) then Stuck
        else if callee.name == INIT then
          if op == 0x70 && this_.Ptr? && this_.addr in c.heap && c.heap[this_.addr] == Instance(callee.cls, false)
          then Enter(c, i, ret, ev, suited) else Stuck
        else if this_ == NULL then Threw
        else if IsReady(c.heap, this_) then
          Enter(c, i, ret, ev, suited && sub(c.heap[this_.addr].cls, callee.cls))
        else Stuck
  }

  function Exec(sub: Subtype, m: Code, c: Config, i: Insn, ev: Event): Outcome {
    match i
    case Move(isObj, a, b) =>
      var v := ReadReg(c, b);
      if (if isObj then IsRefValue(c.heap, v) else v.Word?) then SetReg(c, i, a, v, c.heap) else Stuck
    case MoveResult(isObj, a) =>
      (match c.result
       case Some(v) =>
         if (if isObj then IsRefValue(c.heap, v) else v.Word?) then SetReg(c, i, a, v, c.heap) else Stuck
       case None => Stuck)
    case ReturnVoid => if m.ret == "V" then Returned(None) else Stuck
    case Return(isObj, a) =>
      var v := ReadReg(c, a);
      if m.ret != "V" && IsPrim(m.ret) != isObj && (if isObj then IsRefValue(c.heap, v) else v.Word?)
      then Returned(Some(v)) else Stuck
    case Const(_, a, lit) => SetReg(c, i, a, Word(lit), c.heap)
    case ConstString(a, idx) =>
      if idx >= m.ids.strs then Stuck
      else if ev.throws then Threw
      else SetReg(c, i, a, Ptr(ev.addr), c.heap[ev.addr := Instance(STRING, true)])
    case CheckCast(a, idx) =>
      var v := ReadReg(c, a);
      if idx >= |m.ids.types| || !IsRefValue(c.heap, v) then Stuck
      else if IsA(sub, c.heap, v, m.ids.types[idx]) then SetReg(c, i, a, v, c.heap)
      else Threw
    case ArrayLength(a, b) =>
      var v := ReadReg(c, b);
      if v == NULL then Threw
      else if v.Ptr? && v.addr in c.heap && c.heap[v.addr].Array?
      then SetReg(c, i, a, Word(|c.heap[v.addr].elems|), c.heap) else Stuck
    case NewInstance(a, idx) =>
      if idx >= |m.ids.types| || IsArray(m.ids.types[idx]) || IsPrim(m.ids.types[idx]) then Stuck
      else if ev.throws then Threw
      else SetReg(c, i, a, Ptr(ev.addr), c.heap[ev.addr := Instance(m.ids.types[idx], false)])
    case NewArray(a, b, idx) =>
      var n := ReadReg(c, b);
      if idx >= |m.ids.types| || !IsArray(m.ids.types[idx]) || !n.Word? then Stuck
      else if ev.throws || n.n < 0 then Threw
      else SetReg(c, i, a, Ptr(ev.addr), c.heap[ev.addr := Array(m.ids.types[idx], seq(n.n, _ => NULL))])
    case Goto(off) => Jump(c, i, true, off)
    case If2(op, a, b, off) =>
      if 0x32 <= op <= 0x37 then Branch(c, i, op - 0x32, ReadReg(c, a), ReadReg(c, b), off) else Stuck
    case IfZ(op, a, off) =>
      if 0x38 <= op <= 0x3d then Branch(c, i, op - 0x38, ReadReg(c, a), NULL, off) else Stuck
    case AGetObject(a, b, x) =>
      (match ArrayAt(c, b, x)
       case Elements(o) =>
         if IsPrim(ElementDesc(o.cls)) then Stuck else SetReg(c, i, a, o.elems[ReadReg(c, x).n], c.heap)
       case Throws => Threw
       case Wrong => Stuck)
    case APutObject(a, b, x) =>
      var v := ReadReg(c, a);
      (match ArrayAt(c, b, x)
       case Elements(o) =>
         if IsPrim(ElementDesc(o.cls)) || !IsRefValue(c.heap, v) then Stuck
         else if IsA(sub, c.heap, v, ElementDesc(o.cls)) then Stored(c, i, b, x, v)
         else Threw
       case Throws => if IsRefValue(c.heap, v) then Threw else Stuck
       case Wrong => Stuck)
    case APutByte(a, b, x) =>
      var v := ReadReg(c, a);
      (match ArrayAt(c, b, x)
       case Elements(o) =>
         if ElementDesc(o.cls) in {"B", "Z"} && v.Word? then Stored(c, i, b, x, Word(Signed(v.n % 256, 128))) else Stuck
       case Throws => if v.Word? then Threw else Stuck
       case Wrong => Stuck)
    case SGetObject(a, idx) =>
      if idx >= |m.ids.fields| || !IsRefDesc(m.ids.fields[idx].desc) then Stuck
      else if ev.throws then Threw
      else SetReg(c, i, a, ev.answer, ev.heap)
    case Invoke(op, idx, args) => Call(sub, m, c, i, op, idx, args, ev)
    case Binop(op, a, b, x) =>
      var v, w := ReadReg(c, b), ReadReg(c, x);
      if op >= 0x90 && v.Word? && w.Word? then Arith(c, i, a, Alu(op - 0x90, v.n, w.n)) else Stuck
    case BinopLit8(op, a, b, lit) =>
      var v := ReadReg(c, b);
      if op >= 0xd8 && v.Word? then Arith(c, i, a, AluLit(op - 0xd8, v.n, lit)) else Stuck
    case IntToByte(a, b) =>
      var v := ReadReg(c, b);
      if v.Word? then SetReg(c, i, a, Word(Signed(v.n % 256, 128)), c.heap) else Stuck
  }

  /** One step: stuck also where control is not at the start of an instruction. */
  function Step(sub: Subtype, m: Code, c: Config, ev: Event): Outcome {
    var starts := Sweep(m.units, 0);
    if starts.None? || c.pc < 0 || c.pc !in starts.value || Decode(m.units, c.pc).None? then Stuck
    else Exec(sub, m, c, Decode(m.units, c.pc).value, ev)
  }

  /** A run: the outcome after the events given, one a step. */
  function Run(sub: Subtype, m: Code, c: Config, evs: seq<Event>): Outcome
    decreases |evs|
  {
    if evs == [] then Next(c)
    else
      match Step(sub, m, c, evs[0])
      case Next(d) => Run(sub, m, d, evs[1..])
      case o => o
  }
}
