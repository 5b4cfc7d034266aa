/**
 Renumbering keeps meaning: the units the assembler makes, run with the arguments in
 the last registers, do step by step what the emitted lines do with them in v0, v1, ...
 */
module DexRename {
  import opened Wrappers
  import opened DexCode
  import opened DexEncode
  import ModArith
  import opened DexAsm
  import opened DexAssembler
  import DexVerify
  import opened DexMachine

  /** Logical registers as the frame holds them: physical r is logical (r + ins) mod nregs. */
  function Turned(regs: seq<Value>, ins: nat): (r: seq<Value>)
    ensures |r| == |regs|
  {
    seq(|regs|, r requires 0 <= r < |regs| => regs[Physical(r + ins, 0, |regs|)])
  }

  function TurnConfig(c: Config, ins: nat): Config {
    Config(c.pc, Turned(c.regs, ins), c.result, c.heap)
  }

  function TurnOutcome(o: Outcome, ins: nat): Outcome {
    match o
    case Next(c) => Next(TurnConfig(c, ins))
    case _ => o
  }

  lemma PhysicalBack(r: nat, ins: nat, nregs: nat)
    requires r < nregs && ins <= nregs
    ensures Physical(Physical(r + ins, 0, nregs), ins, nregs) == r
    ensures Physical(r + ins, 0, nregs) == if r + ins < nregs then r + ins else r + ins - nregs
  {
    ModArith.ModIs(r + ins, nregs, if r + ins < nregs then 0 else 1);
    PhysicalIs(Physical(r + ins, 0, nregs), ins, nregs);
  }

  /** Reading and setting a renumbered register is reading and setting the logical one. */
  lemma TurnedAt(regs: seq<Value>, ins: nat, v: nat, x: Value)
    requires v < |regs| && ins <= |regs|
    ensures Turned(regs, ins)[Physical(v, ins, |regs|)] == regs[v]
    ensures Turned(regs, ins)[Physical(v, ins, |regs|) := x] == Turned(regs[v := x], ins)
  {
    PhysicalIs(v, ins, |regs|);
    var s, t := Turned(regs, ins)[Physical(v, ins, |regs|) := x], Turned(regs[v := x], ins);
    forall r | 0 <= r < |regs| ensures s[r] == t[r] {
      PhysicalBack(r, ins, |regs|);
    }
  }

  /** A caller's arguments, last in the frame, are the first logical registers. */
  lemma ArgumentsFirst(regs: seq<Value>, ins: nat)
    requires ins <= |regs|
    ensures Turned(regs, ins)[|regs| - ins..] == regs[..ins]
  {
    forall k | 0 <= k < ins ensures Turned(regs, ins)[|regs| - ins + k] == regs[k] {
      PhysicalIs(k, ins, |regs|);
      TurnedAt(regs, ins, k, regs[k]);
    }
  }

  // ---------- one instruction ----------

  ghost predicate Framed(c: Config, i: Insn, ins: nat) {
    RegsBelow(i, |c.regs|) && ins <= |c.regs|
  }

  /** Every register an instruction names reads the same renumbered. */
  lemma ReadTurned(c: Config, ins: nat, v: nat)
    requires v < |c.regs| && ins <= |c.regs|
    ensures ReadReg(TurnConfig(c, ins), Physical(v, ins, |c.regs|)) == ReadReg(c, v)
  {
    TurnedAt(c.regs, ins, v, c.regs[v]);
  }

  lemma SetTurned(c: Config, i: Insn, ins: nat, a: nat, v: Value, h: Heap)
    requires RegsBelow(i, |c.regs|) && a < |c.regs| && ins <= |c.regs|
    ensures SetReg(TurnConfig(c, ins), Rename(i, ins, |c.regs|), Physical(a, ins, |c.regs|), v, h) ==
      TurnOutcome(SetReg(c, i, a, v, h), ins)
  {
    TurnedAt(c.regs, ins, a, v);
    RenameKeepsWidth(i, ins, |c.regs|);
  }

  lemma MoveTurned(sub: Subtype, m: DexVerify.Code, c: Config, i: Insn, ins: nat, ev: Event)
    requires Framed(c, i, ins) &&
      (i.Move? || i.MoveResult? || i.Const? || i.ConstString? || i.NewInstance? || i.SGetObject? || i.CheckCast?)
    ensures Exec(sub, m, TurnConfig(c, ins), Rename(i, ins, |c.regs|), ev) == TurnOutcome(Exec(sub, m, c, i, ev), ins)
  {
    if i.Move? {
      ReadTurned(c, ins, i.b);
    }
    ReadTurned(c, ins, i.a);
    var o := Exec(sub, m, c, i, ev);
    if o.Next? {
      SetTurned(c, i, ins, i.a, o.c.regs[i.a], o.c.heap);
    }
  }

  lemma LengthTurned(sub: Subtype, m: DexVerify.Code, c: Config, i: Insn, ins: nat, ev: Event)
    requires Framed(c, i, ins) && (i.ArrayLength? || i.NewArray?)
    ensures Exec(sub, m, TurnConfig(c, ins), Rename(i, ins, |c.regs|), ev) == TurnOutcome(Exec(sub, m, c, i, ev), ins)
  {
    ReadTurned(c, ins, i.b);
    var o := Exec(sub, m, c, i, ev);
    if o.Next? {
      SetTurned(c, i, ins, i.a, o.c.regs[i.a], o.c.heap);
    }
  }

  lemma ArithTurned(c: Config, i: Insn, ins: nat, a: nat, r: Option<int>)
    requires RegsBelow(i, |c.regs|) && a < |c.regs| && ins <= |c.regs|
    ensures Arith(TurnConfig(c, ins), Rename(i, ins, |c.regs|), Physical(a, ins, |c.regs|), r) ==
      TurnOutcome(Arith(c, i, a, r), ins)
  {
    if r.Some? {
      SetTurned(c, i, ins, a, Word(r.value), c.heap);
    }
  }

  lemma BinopTurned(sub: Subtype, m: DexVerify.Code, c: Config, i: Insn, ins: nat, ev: Event)
    requires Framed(c, i, ins) && i.Binop?
    ensures Exec(sub, m, TurnConfig(c, ins), Rename(i, ins, |c.regs|), ev) == TurnOutcome(Exec(sub, m, c, i, ev), ins)
  {
    hide Alu, Arith, TurnOutcome, TurnConfig, Turned, Physical;
    ReadTurned(c, ins, i.b);
    ReadTurned(c, ins, i.c);
    var v, w := ReadReg(c, i.b), ReadReg(c, i.c);
    if i.op >= 0x90 && v.Word? && w.Word? {
      ArithTurned(c, i, ins, i.a, Alu(i.op - 0x90, v.n, w.n));
    } else {
      StuckTurned(ins);
    }
  }

  lemma StuckTurned(ins: nat)
    ensures TurnOutcome(Stuck, ins) == Stuck && TurnOutcome(Threw, ins) == Threw
  {
  }

  lemma LitTurned(sub: Subtype, m: DexVerify.Code, c: Config, i: Insn, ins: nat, ev: Event)
    requires Framed(c, i, ins) && i.BinopLit8?
    ensures Exec(sub, m, TurnConfig(c, ins), Rename(i, ins, |c.regs|), ev) == TurnOutcome(Exec(sub, m, c, i, ev), ins)
  {
    hide AluLit, Arith, TurnOutcome, TurnConfig, Turned, Physical;
    ReadTurned(c, ins, i.b);
    var v := ReadReg(c, i.b);
    if i.op >= 0xd8 && v.Word? {
      ArithTurned(c, i, ins, i.a, AluLit(i.op - 0xd8, v.n, i.lit));
    } else {
      StuckTurned(ins);
    }
  }

  lemma IntTurned(sub: Subtype, m: DexVerify.Code, c: Config, i: Insn, ins: nat, ev: Event)
    requires Framed(c, i, ins) && (i.IntToByte? || i.Binop? || i.BinopLit8?)
    ensures Exec(sub, m, TurnConfig(c, ins), Rename(i, ins, |c.regs|), ev) == TurnOutcome(Exec(sub, m, c, i, ev), ins)
  {
    hide Alu, AluLit, Arith;
    if i.Binop? {
      BinopTurned(sub, m, c, i, ins, ev);
    } else if i.BinopLit8? {
      LitTurned(sub, m, c, i, ins, ev);
    } else {
      ReadTurned(c, ins, i.b);
      var v := ReadReg(c, i.b);
      if v.Word? {
        SetTurned(c, i, ins, i.a, Word(Signed(v.n % 256, 128)), c.heap);
      }
    }
  }

  lemma AGetTurned(sub: Subtype, m: DexVerify.Code, c: Config, i: Insn, ins: nat, ev: Event)
    requires Framed(c, i, ins) && i.AGetObject?
    ensures Exec(sub, m, TurnConfig(c, ins), Rename(i, ins, |c.regs|), ev) == TurnOutcome(Exec(sub, m, c, i, ev), ins)
  {
    ReadTurned(c, ins, i.b);
    ReadTurned(c, ins, i.c);
    var acc := ArrayAt(c, i.b, i.c);
    if acc.Elements? {
      SetTurned(c, i, ins, i.a, acc.o.elems[ReadReg(c, i.c).n], c.heap);
    }
  }

  lemma ArrayTurned(sub: Subtype, m: DexVerify.Code, c: Config, i: Insn, ins: nat, ev: Event)
    requires Framed(c, i, ins) && (i.AGetObject? || i.APutObject? || i.APutByte?)
    ensures Exec(sub, m, TurnConfig(c, ins), Rename(i, ins, |c.regs|), ev) == TurnOutcome(Exec(sub, m, c, i, ev), ins)
  {
    if i.AGetObject? {
      AGetTurned(sub, m, c, i, ins, ev);
    } else {
      hide Turned, SetReg;
      ReadTurned(c, ins, i.a);
      ReadTurned(c, ins, i.b);
      ReadTurned(c, ins, i.c);
      RenameKeepsWidth(i, ins, |c.regs|);
    }
  }

  lemma FlowTurned(sub: Subtype, m: DexVerify.Code, c: Config, i: Insn, ins: nat, ev: Event)
    requires Framed(c, i, ins) && (i.Goto? || i.If2? || i.IfZ? || i.Return? || i.ReturnVoid?)
    ensures Exec(sub, m, TurnConfig(c, ins), Rename(i, ins, |c.regs|), ev) == TurnOutcome(Exec(sub, m, c, i, ev), ins)
  {
    RenameKeepsWidth(i, ins, |c.regs|);
    if i.If2? || i.IfZ? || i.Return? {
      ReadTurned(c, ins, i.a);
    }
    if i.If2? {
      ReadTurned(c, ins, i.b);
    }
  }

  lemma ArgsTurned(sub: Subtype, c: Config, ins: nat, args: seq<nat>, phys: seq<nat>, params: seq<string>)
    requires ins <= |c.regs| && |phys| == |args|
    requires forall k :: 0 <= k < |args| ==> args[k] < |c.regs| && phys[k] == Physical(args[k], ins, |c.regs|)
    ensures GoodArgs(sub, TurnConfig(c, ins), phys, params) == GoodArgs(sub, c, args, params)
    ensures Suited(sub, TurnConfig(c, ins), phys, params) == Suited(sub, c, args, params)
  {
    forall k | 0 <= k < |args| ensures ReadReg(TurnConfig(c, ins), phys[k]) == ReadReg(c, args[k]) {
      ReadTurned(c, ins, args[k]);
    }
  }

  lemma InvokeTurned(sub: Subtype, m: DexVerify.Code, c: Config, i: Insn, ins: nat, ev: Event)
    requires Framed(c, i, ins) && i.Invoke?
    ensures Exec(sub, m, TurnConfig(c, ins), Rename(i, ins, |c.regs|), ev) == TurnOutcome(Exec(sub, m, c, i, ev), ins)
  {
    RenameKeepsWidth(i, ins, |c.regs|);
    if i.idx < |m.ids.methods| {
      var params := m.ids.methods[i.idx].proto.params;
      var phys := Rename(i, ins, |c.regs|).args;
      if |c.regs| > 0 {
        ArgsTurned(sub, c, ins, i.args, phys, params);
        if i.args != [] {
          ReadTurned(c, ins, i.args[0]);
          ArgsTurned(sub, c, ins, i.args[1..], phys[1..], params);
        }
      } else {
        assert i.args == [] && phys == [];
        assert GoodArgs(sub, TurnConfig(c, ins), phys, params) == GoodArgs(sub, c, i.args, params);
        assert Suited(sub, TurnConfig(c, ins), phys, params) == Suited(sub, c, i.args, params);
      }
    }
  }

  /** One instruction, renumbered, does the same to the renumbered frame. */
  lemma ExecTurned(sub: Subtype, m: DexVerify.Code, c: Config, i: Insn, ins: nat, ev: Event)
    requires Framed(c, i, ins)
    ensures Exec(sub, m, TurnConfig(c, ins), Rename(i, ins, |c.regs|), ev) == TurnOutcome(Exec(sub, m, c, i, ev), ins)
  {
    match i
    case Invoke(_, _, _) => InvokeTurned(sub, m, c, i, ins, ev);
    case Goto(_) | If2(_, _, _, _) | IfZ(_, _, _) | Return(_, _) | ReturnVoid => FlowTurned(sub, m, c, i, ins, ev);
    case AGetObject(_, _, _) | APutObject(_, _, _) | APutByte(_, _, _) => ArrayTurned(sub, m, c, i, ins, ev);
    case ArrayLength(_, _) | NewArray(_, _, _) => LengthTurned(sub, m, c, i, ins, ev);
    case IntToByte(_, _) | Binop(_, _, _, _) | BinopLit8(_, _, _, _) => IntTurned(sub, m, c, i, ins, ev);
    case _ => MoveTurned(sub, m, c, i, ins, ev);
  }

  // ---------- the whole method ----------

  /** The lines as their author reads them: logical registers, resolved names and labels. */
  datatype Listing = Listing(prog: seq<Line>, frame: Frame, labels: Labels, index: Index)

  /** The line, from k on, that starts at pc. */
  function LineFrom(bs: seq<Block>, k: nat, pc: int): (j: Option<nat>)
    requires k <= |bs|
    ensures j.Some? ==> k <= j.value < |bs| && At(bs, j.value) == pc
    decreases |bs| - k
  {
    if k == |bs| then None else if At(bs, k) == pc then Some(k) else LineFrom(bs, k + 1, pc)
  }

  /** A step of the listing: the line at pc, on logical registers; stuck where no line starts. */
  function ListingStep(sub: Subtype, m: DexVerify.Code, l: Listing, c: Config, ev: Event): Outcome
    requires AllWritable(l.prog, l.frame)
  {
    match LineFrom(BlocksOf(l.prog, l.frame), 0, c.pc)
    case None => Stuck
    case Some(k) =>
      match Resolve(l.prog[k], c.pc, l.labels, l.index)
      case None => Stuck
      case Some(i) => Exec(sub, m, c, i, ev)
  }

  lemma ResolveInFrame(l: Line, f: Frame, at: nat, labels: Labels, index: Index)
    requires Writable(l, f) && Resolve(l, at, labels, index).Some?
    ensures RegsBelow(Resolve(l, at, labels, index).value, f.nregs)
  {
    var idx := if l.sym.Some? then OneUnit(Ref(l.sym.value), index).value else 0;
    var off := if l.target.Some? then Offset(labels, at, l.target.value) else 0;
    RenameFills(l.insn, f.ins, f.nregs, idx, off);
  }

  lemma {:induction false} StartsAre(bs: seq<Block>, k: nat, pc: nat)
    requires k <= |bs|
    ensures pc in Starts(bs, k) <==> LineFrom(bs, k, pc).Some?
    decreases |bs| - k
  {
    if k < |bs| {
      StartsAre(bs, k + 1, pc);
    }
  }

  lemma LineTurned(sub: Subtype, m: DexVerify.Code, l: Line, f: Frame, labels: Labels, index: Index, c: Config,
      ev: Event)
    requires Writable(l, f) && c.pc >= 0 && Reads(l, f, c.pc, labels, index, m.units)
    requires |c.regs| == f.nregs && f.ins <= f.nregs
    ensures Resolve(l, c.pc, labels, index).Some?
    ensures var i := Resolve(l, c.pc, labels, index).value;
      Exec(sub, m, TurnConfig(c, f.ins), Decode(m.units, c.pc).value, ev) == TurnOutcome(Exec(sub, m, c, i, ev), f.ins)
  {
    ResolveInFrame(l, f, c.pc, labels, index);
    ExecTurned(sub, m, c, Resolve(l, c.pc, labels, index).value, f.ins, ev);
  }

  /** A step of the assembled units is the step of the listing, renumbered. */
  lemma StepTurned(sub: Subtype, m: DexVerify.Code, l: Listing, c: Config, ev: Event)
    requires AllWritable(l.prog, l.frame) && CodeOf(l.prog, l.frame, l.labels, l.index, m.units)
    requires |c.regs| == l.frame.nregs && l.frame.ins <= l.frame.nregs
    ensures Step(sub, m, TurnConfig(c, l.frame.ins), ev) == TurnOutcome(ListingStep(sub, m, l, c, ev), l.frame.ins)
  {
    var bs := BlocksOf(l.prog, l.frame);
    if c.pc >= 0 {
      StartsAre(bs, 0, c.pc);
      match LineFrom(bs, 0, c.pc)
      case None =>
      case Some(k) =>
        assert Reads(l.prog[k], l.frame, At(bs, k), l.labels, l.index, m.units);
        LineTurned(sub, m, l.prog[k], l.frame, l.labels, l.index, c, ev);
    }
  }

  /** A run of the listing, event by event. */
  function ListingRun(sub: Subtype, m: DexVerify.Code, l: Listing, c: Config, evs: seq<Event>): Outcome
    requires AllWritable(l.prog, l.frame)
    decreases |evs|
  {
    if evs == [] then Next(c)
    else
      match ListingStep(sub, m, l, c, evs[0])
      case Next(d) => ListingRun(sub, m, l, d, evs[1..])
      case o => o
  }

  lemma ExecKeepsFrame(sub: Subtype, m: DexVerify.Code, c: Config, i: Insn, ev: Event)
    requires Exec(sub, m, c, i, ev).Next?
    ensures |Exec(sub, m, c, i, ev).c.regs| == |c.regs|
  {
  }

  /** The assembler preserves meaning: any run of the units is the listing's run, renumbered. */
  lemma {:induction false} AssemblyPreservesMeaning(sub: Subtype, m: DexVerify.Code, l: Listing, c: Config,
      evs: seq<Event>)
    requires AllWritable(l.prog, l.frame) && CodeOf(l.prog, l.frame, l.labels, l.index, m.units)
    requires |c.regs| == l.frame.nregs && l.frame.ins <= l.frame.nregs
    ensures Run(sub, m, TurnConfig(c, l.frame.ins), evs) == TurnOutcome(ListingRun(sub, m, l, c, evs), l.frame.ins)
    decreases |evs|
  {
    if evs != [] {
      StepTurned(sub, m, l, c, evs[0]);
      var o := ListingStep(sub, m, l, c, evs[0]);
      if o.Next? {
        var k := LineFrom(BlocksOf(l.prog, l.frame), 0, c.pc).value;
        ExecKeepsFrame(sub, m, c, Resolve(l.prog[k], c.pc, l.labels, l.index).value, evs[0]);
        AssemblyPreservesMeaning(sub, m, l, o.c, evs[1..]);
      }
    }
  }
}
