/**
 The assembler object of tools/dexasm.py: one method for each instruction, labels,
 and assemble, whose units a sweep of the decoder reads back as the lines emitted.
 */
module DexWriter {
  import opened Wrappers
  import opened DexCode
  import opened DexEncode
  import opened DexAsm
  import opened DexAssembler

  class Assembler {
    const frame: Frame
    var units: seq<Unit>
    var labels: Labels
    var branches: seq<(int, string)>
    var outs: nat
    ghost var prog: seq<Line>

    ghost predicate Valid()
      reads this
    {
      && AllWritable(prog, frame)
      && units == Flat(BlocksOf(prog, frame))
      && branches == Slots(BlocksOf(prog, frame))
      && LabelsAtLines(BlocksOf(prog, frame), labels)
      && OutsCover(prog, outs)
    }

    constructor (nregs: nat, ins: nat)
      ensures Valid() && prog == [] && labels == map[] && frame == Frame(nregs, ins)
    {
      frame := Frame(nregs, ins);
      units, labels, branches, outs, prog := [], map[], [], 0, [];
    }

    /** _r: the physical number of a logical register. */
    function R(v: nat): (r: nat)
      requires v < frame.nregs
      ensures r < frame.nregs
    {
      Physical(v, frame.ins, frame.nregs)
    }

    /** A register that a field of the given size can hold. */
    predicate Fits(v: nat, size: nat) {
      v < frame.nregs && R(v) < size
    }

    method Label(name: string)
      requires Valid() && name !in labels
      modifies this`labels
      ensures Valid() && labels == old(labels)[name := |units|]
    {
      labels := labels[name := |units|];
      EndIsStart(BlocksOf(prog, frame));
    }

    /** units += us, and a branch to patch in the last of them. */
    method Add(us: seq<Unit>, ghost l: Line, n: nat)
      requires Valid() && Writable(l, frame) && us == LineUnits(l, frame)
      requires l.insn.Invoke? ==> n == |l.insn.args|
      modifies this`units, this`prog, this`outs
      ensures AllWritable(prog, frame) && prog == old(prog) + [l]
      ensures units == Flat(BlocksOf(prog, frame)) &&
        Slots(BlocksOf(prog, frame)) == branches + if l.target.Some? then [(|units| - 1, l.target.value)] else []
      ensures LabelsAtLines(BlocksOf(prog, frame), labels) && OutsCover(prog, outs)
      ensures outs == if n > old(outs) then n else old(outs)
    {
      hide Flat, Slots, BlocksOf, AllWritable, Writable, LineUnits, LabelsAtLines, OutsCover;
      AppendLine(prog, frame, l);
      StartsStay(BlocksOf(prog, frame), BlockOf(l, frame), labels);
      OutsGrow(prog, outs, l, n);
      units := units + us;
      outs := if n > outs then n else outs;
      prog := prog + [l];
    }

    /** An instruction without a branch. */
    method Put(us: seq<Unit>, ghost l: Line)
      requires Valid() && Writable(l, frame) && us == LineUnits(l, frame) && l.target.None? && !l.insn.Invoke?
      modifies this`units, this`prog, this`outs
      ensures Valid() && prog == old(prog) + [l] && outs == old(outs)
    {
      Add(us, l, 0);
    }

    /** _branch: appends a line whose last unit is patched once the labels are known. */
    method Branch(us: seq<Unit>, name: string, ghost l: Line)
      requires Valid() && Writable(l, frame) && us == LineUnits(l, frame) && l.target == Some(name)
      modifies this`units, this`prog, this`outs, this`branches
      ensures Valid() && prog == old(prog) + [l] && outs == old(outs)
    {
      Add(us, l, 0);
      branches := branches + [(|units| - 1, name)];
    }

    method ConstString(v: nat, s: string)
      requires Valid() && Fits(v, 256)
      modifies this`units, this`prog, this`outs
      ensures Valid() && prog == old(prog) + [Line(Insn.ConstString(v, 0), Some(Sym("str", s)), None)] &&
        outs == old(outs)
    {
      hide Valid;
      Put([Lit(R(v) * 256 + 0x1a), Ref(Sym("str", s))], Line(Insn.ConstString(v, 0), Some(Sym("str", s)), None));
    }

    method Const4(v: nat, n: int)
      requires Valid() && -8 <= n <= 7 && Fits(v, 16)
      modifies this`units, this`prog, this`outs
      ensures Valid() && prog == old(prog) + [Line(Const(1, v, n), None, None)] && outs == old(outs)
    {
      hide Valid;
      Put([Lit((Unsigned(n, 16) * 16 + R(v)) * 256 + 0x12)], Line(Const(1, v, n), None, None));
    }

    method Const16(v: nat, n: int)
      requires Valid() && Fits(v, 256)
      modifies this`units, this`prog, this`outs
      ensures Valid() && prog == old(prog) + [Line(Const(2, v, Signed(Unsigned(n, 0x10000), 0x8000)), None, None)] &&
        outs == old(outs)
    {
      hide Valid;
      ResignedMod(n);
      Put([Lit(R(v) * 256 + 0x13), Lit(Unsigned(n, 0x10000))],
        Line(Const(2, v, Signed(Unsigned(n, 0x10000), 0x8000)), None, None));
    }

    method Const32(v: nat, n: int)
      requires Valid() && InSigned(n, 0x8000_0000) && Fits(v, 256)
      modifies this`units, this`prog, this`outs
      ensures Valid() && prog == old(prog) + [Line(Const(3, v, n), None, None)] && outs == old(outs)
    {
      hide Valid;
      Put([Lit(R(v) * 256 + 0x14), Lit(Unsigned(n, 0x10000)), Lit(Unsigned(n / 0x10000, 0x10000))],
        Line(Const(3, v, n), None, None));
    }

    /** The shortest const for n. */
    method LoadLit(v: nat, n: int)
      requires Valid() && InSigned(n, 0x8000_0000) && Fits(v, if -8 <= n <= 7 then 16 else 256)
      modifies this`units, this`prog, this`outs
      ensures Valid() && outs == old(outs)
      ensures prog ==
        old(prog) + [Line(Const(if InSigned(n, 8) then 1 else if InSigned(n, 0x8000) then 2 else 3, v, n), None, None)]
    {
      if -8 <= n <= 7 {
        Const4(v, n);
      } else if -32768 <= n <= 32767 {
        SignedUnsigned(n, 0x8000);
        Const16(v, n);
      } else {
        Const32(v, n);
      }
    }

    method Move(a: nat, b: nat, isObj: bool)
      requires Valid() && Fits(a, 16) && Fits(b, 16)
      modifies this`units, this`prog, this`outs
      ensures Valid() && prog == old(prog) + [Line(Insn.Move(isObj, a, b), None, None)] && outs == old(outs)
    {
      hide Valid;
      Put([Lit((R(b) * 16 + R(a)) * 256 + if isObj then 0x07 else 0x01)], Line(Insn.Move(isObj, a, b), None, None));
    }

    method MoveResult(v: nat, isObj: bool)
      requires Valid() && Fits(v, 256)
      modifies this`units, this`prog, this`outs
      ensures Valid() && prog == old(prog) + [Line(Insn.MoveResult(isObj, v), None, None)] && outs == old(outs)
    {
      hide Valid;
      Put([Lit(R(v) * 256 + if isObj then 0x0c else 0x0a)], Line(Insn.MoveResult(isObj, v), None, None));
    }

    method CheckCast(v: nat, t: string)
      requires Valid() && Fits(v, 256)
      modifies this`units, this`prog, this`outs
      ensures Valid() && prog == old(prog) + [Line(Insn.CheckCast(v, 0), Some(Sym("type", t)), None)] &&
        outs == old(outs)
    {
      hide Valid;
      Put([Lit(R(v) * 256 + 0x1f), Ref(Sym("type", t))], Line(Insn.CheckCast(v, 0), Some(Sym("type", t)), None));
    }

    method NewInstance(v: nat, t: string)
      requires Valid() && Fits(v, 256)
      modifies this`units, this`prog, this`outs
      ensures Valid() && prog == old(prog) + [Line(Insn.NewInstance(v, 0), Some(Sym("type", t)), None)] &&
        outs == old(outs)
    {
      hide Valid;
      Put([Lit(R(v) * 256 + 0x22), Ref(Sym("type", t))], Line(Insn.NewInstance(v, 0), Some(Sym("type", t)), None));
    }

    method NewArray(a: nat, b: nat, t: string)
      requires Valid() && Fits(a, 16) && Fits(b, 16)
      modifies this`units, this`prog, this`outs
      ensures Valid() && prog == old(prog) + [Line(Insn.NewArray(a, b, 0), Some(Sym("type", t)), None)] &&
        outs == old(outs)
    {
      hide Valid;
      Put([Lit((R(b) * 16 + R(a)) * 256 + 0x23), Ref(Sym("type", t))],
        Line(Insn.NewArray(a, b, 0), Some(Sym("type", t)), None));
    }

    method ArrayLength(a: nat, b: nat)
      requires Valid() && Fits(a, 16) && Fits(b, 16)
      modifies this`units, this`prog, this`outs
      ensures Valid() && prog == old(prog) + [Line(Insn.ArrayLength(a, b), None, None)] && outs == old(outs)
    {
      hide Valid;
      Put([Lit((R(b) * 16 + R(a)) * 256 + 0x21)], Line(Insn.ArrayLength(a, b), None, None));
    }

    method AGet(a: nat, b: nat, c: nat, op: nat)
      requires Valid() && op == 0x46 && Fits(a, 256) && Fits(b, 256) && Fits(c, 256)
      modifies this`units, this`prog, this`outs
      ensures Valid() && prog == old(prog) + [Line(AGetObject(a, b, c), None, None)] && outs == old(outs)
    {
      hide Valid;
      Put([Lit(R(a) * 256 + op), Lit(R(c) * 256 + R(b))], Line(AGetObject(a, b, c), None, None));
    }

    /** Loads the element at a literal index, which register a takes until the load. */
    method AGetAt(a: nat, b: nat, k: int)
      requires Valid() && -8 <= k <= 7 && Fits(a, 16) && Fits(b, 256)
      modifies this`units, this`prog, this`outs
      ensures Valid() && outs == old(outs)
      ensures prog == old(prog) + [Line(Const(1, a, k), None, None), Line(AGetObject(a, b, a), None, None)]
    {
      hide Valid;
      Const4(a, k);
      AGet(a, b, a, 0x46);
    }

    method APut(a: nat, b: nat, c: nat, op: nat)
      requires Valid() && op in {0x4d, 0x4f} && Fits(a, 256) && Fits(b, 256) && Fits(c, 256)
      modifies this`units, this`prog, this`outs
      ensures Valid() &&
        prog == old(prog) + [Line(if op == 0x4d then APutObject(a, b, c) else APutByte(a, b, c), None, None)] &&
          outs == old(outs)
    {
      hide Valid;
      Put([Lit(R(a) * 256 + op), Lit(R(c) * 256 + R(b))],
        Line(if op == 0x4d then APutObject(a, b, c) else APutByte(a, b, c), None, None));
    }

    method GotoLabel(name: string)
      requires Valid()
      modifies this`units, this`prog, this`outs, this`branches
      ensures Valid() && prog == old(prog) + [Line(Goto(0), None, Some(name))] && outs == old(outs)
    {
      hide Valid;
      Branch([Lit(0x0029), Lit(0)], name, Line(Goto(0), None, Some(name)));
    }

    method BranchIf2(op: nat, a: nat, b: nat, name: string)
      requires Valid() && 0x32 <= op <= 0x37 && Fits(a, 16) && Fits(b, 16)
      modifies this`units, this`prog, this`outs, this`branches
      ensures Valid() && prog == old(prog) + [Line(If2(op, a, b, 0), None, Some(name))] && outs == old(outs)
    {
      hide Valid;
      Branch([Lit((R(b) * 16 + R(a)) * 256 + op), Lit(0)], name, Line(If2(op, a, b, 0), None, Some(name)));
    }

    method BranchIfZ(op: nat, a: nat, name: string)
      requires Valid() && 0x38 <= op <= 0x3d && Fits(a, 256)
      modifies this`units, this`prog, this`outs, this`branches
      ensures Valid() && prog == old(prog) + [Line(IfZ(op, a, 0), None, Some(name))] && outs == old(outs)
    {
      hide Valid;
      Branch([Lit(R(a) * 256 + op), Lit(0)], name, Line(IfZ(op, a, 0), None, Some(name)));
    }

    /** 35c: up to four argument registers. */
    method Invoke(op: nat, m: string, regs: seq<nat>)
      requires Valid() && op in {0x6e, 0x70, 0x71, 0x72} && |regs| <= 4
      requires forall k :: 0 <= k < |regs| ==> Fits(regs[k], 16)
      modifies this`units, this`prog, this`outs
      ensures Valid() && prog == old(prog) + [Line(Insn.Invoke(op, 0, regs), Some(Sym("method", m)), None)]
      ensures outs == if |regs| > old(outs) then |regs| else old(outs)
    {
      var c := if |regs| > 0 then R(regs[0]) else 0;
      var d := if |regs| > 1 then R(regs[1]) else 0;
      var e := if |regs| > 2 then R(regs[2]) else 0;
      var f := if |regs| > 3 then R(regs[3]) else 0;
      ghost var l := Line(Insn.Invoke(op, 0, regs), Some(Sym("method", m)), None);
      CallUnits(l, frame);
      assert c == Field4(l, frame, 0) && d == Field4(l, frame, 1) && e == Field4(l, frame, 2) &&
        f == Field4(l, frame, 3);
      hide Valid, Writable, LineUnits, Field4;
      Add([Lit(|regs| * 4096 + op), Ref(Sym("method", m)), Lit(c + d * 16 + e * 256 + f * 4096)], l, |regs|);
    }

    /** 3rc: n consecutive registers from first, which must not wrap past the parameters. */
    method InvokeRange(op: nat, m: string, first: nat, n: nat)
      requires Valid() && op == 0x77 && 0 < n < 256 && first + n <= frame.nregs
      requires Consecutive(frame, first, n, R(first))
      modifies this`units, this`prog, this`outs
      ensures Valid() && prog == old(prog) + [Line(Insn.Invoke(op, 0, Range(first, n)), Some(Sym("method", m)), None)]
      ensures outs == if n > old(outs) then n else old(outs)
    {
      ghost var l := Line(Insn.Invoke(op, 0, Range(first, n)), Some(Sym("method", m)), None);
      RangeUnits(l, frame, first, n, R(first));
      hide Valid, Writable, LineUnits, Range;
      Add([Lit(n * 256 + op), Ref(Sym("method", m)), Lit(R(first))], l, n);
    }

    method SGetObj(v: nat, f: string)
      requires Valid() && Fits(v, 256)
      modifies this`units, this`prog, this`outs
      ensures Valid() && prog == old(prog) + [Line(SGetObject(v, 0), Some(Sym("field", f)), None)] && outs == old(outs)
    {
      hide Valid;
      Put([Lit(R(v) * 256 + 0x62), Ref(Sym("field", f))], Line(SGetObject(v, 0), Some(Sym("field", f)), None));
    }

    method Binop(op: nat, a: nat, b: nat, c: nat)
      requires Valid() && 0x90 <= op <= 0x9a && Fits(a, 256) && Fits(b, 256) && Fits(c, 256)
      modifies this`units, this`prog, this`outs
      ensures Valid() && prog == old(prog) + [Line(Insn.Binop(op, a, b, c), None, None)] && outs == old(outs)
    {
      hide Valid;
      Put([Lit(R(a) * 256 + op), Lit(R(c) * 256 + R(b))], Line(Insn.Binop(op, a, b, c), None, None));
    }

    method BinopLit8(op: nat, a: nat, b: nat, n: int)
      requires Valid() && 0xd8 <= op <= 0xe2 && -128 <= n <= 127 && Fits(a, 256) && Fits(b, 256)
      modifies this`units, this`prog, this`outs
      ensures Valid() && prog == old(prog) + [Line(Insn.BinopLit8(op, a, b, n), None, None)] && outs == old(outs)
    {
      hide Valid;
      Put([Lit(R(a) * 256 + op), Lit(Unsigned(n, 256) * 256 + R(b))], Line(Insn.BinopLit8(op, a, b, n), None, None));
    }

    method IntToByte(a: nat, b: nat)
      requires Valid() && Fits(a, 16) && Fits(b, 16)
      modifies this`units, this`prog, this`outs
      ensures Valid() && prog == old(prog) + [Line(Insn.IntToByte(a, b), None, None)] && outs == old(outs)
    {
      hide Valid;
      Put([Lit((R(b) * 16 + R(a)) * 256 + 0x8d)], Line(Insn.IntToByte(a, b), None, None));
    }

    method RetVoid()
      requires Valid()
      modifies this`units, this`prog, this`outs
      ensures Valid() && prog == old(prog) + [Line(ReturnVoid, None, None)] && outs == old(outs)
    {
      hide Valid;
      Put([Lit(0x0e)], Line(ReturnVoid, None, None));
    }

    method Ret(v: nat, isObj: bool)
      requires Valid() && Fits(v, 256)
      modifies this`units, this`prog, this`outs
      ensures Valid() && prog == old(prog) + [Line(Return(isObj, v), None, None)] && outs == old(outs)
    {
      hide Valid;
      Put([Lit(R(v) * 256 + if isObj then 0x11 else 0x0f)], Line(Return(isObj, v), None, None));
    }

    /** The first half of assemble: the units with every branch's offset in place. */
    method PatchBranches() returns (r: Option<seq<Unit>>)
      requires Valid()
      ensures r == Patch(units, branches, labels)
    {
      hide Flat, BlocksOf, AllWritable, LabelsAtLines;
      var out := units;
      var j := 0;
      while j < |branches|
        invariant j <= |branches| && Patch(units, branches[..j], labels) == Some(out)
      {
        var slot := branches[j];
        PatchOneMore(units, branches, labels, j);
        SlotInside(prog, frame, j);
        if !InRange(labels, slot.0 - 1, slot.1) {
          PatchFailed(units, branches, labels, j + 1);
          return None;
        }
        out := out[slot.0 := OffsetUnit(labels, slot)];
        j := j + 1;
      }
      assert branches[..j] == branches;
      return Some(out);
    }

    /** The second half: every unit as a number. */
    method Pack(index: Index, out: seq<Unit>) returns (r: Option<seq<unit>>)
      ensures r == PackUnits(out, index)
    {
      hide OneUnit;
      var packed: seq<unit> := [];
      var i := 0;
      while i < |out|
        invariant i <= |out| && PackUnits(out[..i], index) == Some(packed)
      {
        var u := OneUnit(out[i], index);
        assert out[..i + 1][..i] == out[..i];
        if u.None? {
          PackFailed(out, index, i + 1);
          return None;
        }
        packed := packed + [u.value];
        i := i + 1;
      }
      assert out[..i] == out;
      return Some(packed);
    }

    /** The code with its branches patched, as build is given it. */
    function Patched(): Option<Body>
      reads this
    {
      var out :- Patch(units, branches, labels);
      Some(Body(frame.nregs, frame.ins, outs, out))
    }

    /** assemble: the code item, or None where an assertion, a look-up or a struct field refuses. */
    method Assemble(index: Index) returns (r: Option<Item>)
      requires Valid()
      ensures r == if Patched().None? then None else PackBody(Patched().value, index)
      ensures r.Some? ==> CodeOf(prog, frame, labels, index, r.value.units)
      ensures r.None? <==> Unresolved(prog, frame, labels, index) || Oversized()
    {
      hide Flat, BlocksOf, Slots, CodeOf, Unresolved, Patch, PackUnits, AllWritable, LabelsAtLines, OutsCover;
      Assembles(prog, frame, labels, index);
      var out := PatchBranches();
      if out.None? {
        return None;
      }
      var packed := Pack(index, out.value);
      if packed.None? {
        return None;
      }
      if frame.nregs >= 0x10000 || frame.ins >= 0x10000 || outs >= 0x10000 || |packed.value| >= 0x1_0000_0000 {
        return None;
      }
      return Some(Item.Item(frame.nregs, frame.ins, outs, packed.value));
    }

    /** A count that does not fit the code item's header. */
    predicate Oversized()
      reads this
    {
      frame.nregs >= 0x10000 || frame.ins >= 0x10000 || outs >= 0x10000 || |units| >= 0x1_0000_0000
    }
  }

  // ---------- lemmas the methods rest on ----------

  ghost predicate LineStart(bs: seq<Block>, at: nat) {
    exists k :: 0 <= k <= |bs| && at == At(bs, k)
  }

  lemma EndIsStart(bs: seq<Block>)
    ensures LineStart(bs, |Flat(bs)|)
  {
    assert bs[..|bs|] == bs;
    assert At(bs, |bs|) == |Flat(bs)|;
  }

  lemma StartStays(bs: seq<Block>, b: Block, at: nat)
    requires LineStart(bs, at)
    ensures LineStart(bs + [b], at)
  {
    var k :| 0 <= k <= |bs| && at == At(bs, k);
    assert (bs + [b])[..k] == bs[..k];
    assert at == At(bs + [b], k);
  }

  /** Every label stands where some line starts, or at the end. */
  ghost predicate LabelsAtLines(bs: seq<Block>, labels: Labels) {
    forall name :: name in labels ==> LineStart(bs, labels[name])
  }

  /** The frame has room for the arguments of every call. */
  predicate OutsCover(prog: seq<Line>, outs: nat) {
    forall k :: 0 <= k < |prog| && prog[k].insn.Invoke? ==> |prog[k].insn.args| <= outs
  }

  lemma OutsGrow(prog: seq<Line>, outs: nat, l: Line, n: nat)
    requires OutsCover(prog, outs) && (l.insn.Invoke? ==> n == |l.insn.args|)
    ensures OutsCover(prog + [l], if n > outs then n else outs)
  {
  }

  lemma StartsStay(bs: seq<Block>, b: Block, labels: Labels)
    requires LabelsAtLines(bs, labels)
    ensures LabelsAtLines(bs + [b], labels)
  {
    forall name | name in labels ensures LineStart(bs + [b], labels[name]) {
      StartStays(bs, b, labels[name]);
    }
  }

  lemma BlocksAppend(prog: seq<Line>, f: Frame, l: Line)
    requires AllWritable(prog, f) && Writable(l, f)
    ensures AllWritable(prog + [l], f)
    ensures BlocksOf(prog + [l], f) == BlocksOf(prog, f) + [BlockOf(l, f)]
  {
  }

  lemma TargetWidth(l: Line, f: Frame)
    requires Writable(l, f)
    ensures l.target.Some? ==> |LineUnits(l, f)| == 2
  {
  }

  lemma AppendLine(prog: seq<Line>, f: Frame, l: Line)
    requires AllWritable(prog, f) && Writable(l, f)
    ensures AllWritable(prog + [l], f)
    ensures BlocksOf(prog + [l], f) == BlocksOf(prog, f) + [BlockOf(l, f)]
    ensures Flat(BlocksOf(prog + [l], f)) == Flat(BlocksOf(prog, f)) + LineUnits(l, f)
    ensures Slots(BlocksOf(prog + [l], f)) ==
      Slots(BlocksOf(prog, f)) +
      if l.target.Some? then [(|Flat(BlocksOf(prog + [l], f))| - 1, l.target.value)] else []
  {
    TargetWidth(l, f);
    BlocksAppend(prog, f, l);
    FlatAppend(BlocksOf(prog, f), BlockOf(l, f));
  }

  lemma ResignedMod(n: int)
    ensures InSigned(Signed(Unsigned(n, 0x10000), 0x8000), 0x8000)
    ensures Unsigned(Signed(Unsigned(n, 0x10000), 0x8000), 0x10000) == Unsigned(n, 0x10000)
  {
  }

  /** The physical number of the k'th register from first. */
  function NthOf(f: Frame, first: nat, k: nat): nat
    requires first + k < f.nregs
  {
    Physical(first + k, f.ins, f.nregs)
  }

  /** The n registers from first are numbered from r on, without a gap. */
  predicate Consecutive(f: Frame, first: nat, n: nat, r: nat)
    requires first + n <= f.nregs
  {
    forall k :: 0 <= k < n ==> NthOf(f, first, k) == r + k < 0x10000
  }

  /** The units of a range call, whose registers follow each other. */
  lemma RangeUnits(l: Line, f: Frame, first: nat, n: nat, r: nat)
    requires l.insn == Insn.Invoke(0x77, 0, Range(first, n)) && 0 < n < 256 && first + n <= f.nregs
    requires Consecutive(f, first, n, r)
    requires l.sym.Some? && l.target.None?
    ensures Writable(l, f) && LineUnits(l, f) == [Lit(n * 256 + 0x77), Ref(l.sym.value), Lit(r)]
  {
    hide Physical;
    var args := Rename(l.insn, f.ins, f.nregs).args;
    forall k | 0 <= k < n ensures args[k] == r + k {
      assert Range(first, n)[k] == first + k;
      assert NthOf(f, first, k) == r + k;
    }
    assert args == Range(r, n);
    assert NthOf(f, first, 0) == r && args[0] == r;
    assert Encodable(Rename(l.insn, f.ins, f.nregs));
  }

  /** The units of a call of up to four registers. */
  lemma CallUnits(l: Line, f: Frame)
    requires l.insn.Invoke? && l.insn.idx == 0 && l.insn.op in {0x6e, 0x70, 0x71, 0x72} && |l.insn.args| <= 4
    requires f.nregs > 0 || l.insn.args == []
    requires forall k :: 0 <= k < |l.insn.args| ==>
      l.insn.args[k] < f.nregs && Physical(l.insn.args[k], f.ins, f.nregs) < 16
    requires l.sym.Some? && l.target.None?
    ensures Writable(l, f)
    ensures LineUnits(l, f) ==
      [Lit(|l.insn.args| * 4096 + l.insn.op), Ref(l.sym.value),
       Lit(Field4(l, f, 0) + Field4(l, f, 1) * 16 + Field4(l, f, 2) * 256 + Field4(l, f, 3) * 4096)]
  {
    var args := Rename(l.insn, f.ins, f.nregs).args;
    PackedFour(args);
  }

  /** The k'th argument register, 0 where there is none. */
  function Field4(l: Line, f: Frame, k: nat): nat
    requires l.insn.Invoke? && forall j :: 0 <= j < |l.insn.args| ==> l.insn.args[j] < f.nregs
  {
    if k < |l.insn.args| then Physical(l.insn.args[k], f.ins, f.nregs) else 0
  }

  lemma PackedFour(args: seq<nat>)
    requires |args| <= 4
    ensures Packed4(args)
  {
    if |args| > 0 {
      assert Packed(args) == args[0] + 16 * Packed(args[1..]);
      if |args| > 1 {
        assert Packed(args[1..]) == args[1] + 16 * Packed(args[1..][1..]);
        if |args| > 2 {
          assert Packed(args[1..][1..]) == args[2] + 16 * Packed(args[1..][1..][1..]);
          if |args| > 3 {
            assert Packed(args[1..][1..][1..]) == args[3] + 16 * Packed(args[1..][1..][1..][1..]);
          }
        }
      }
    }
  }

  predicate Packed4(args: seq<nat>)
    requires |args| <= 4
  {
    DexEncode.Packed(args) ==
    (if |args| > 0 then args[0] else 0) + (if |args| > 1 then args[1] else 0) * 16 +
    (if |args| > 2 then args[2] else 0) * 256 + (if |args| > 3 then args[3] else 0) * 4096
  }
}
