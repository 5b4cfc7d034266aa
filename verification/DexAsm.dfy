/**
 The assembler of tools/dexasm.py: a method's instructions appended one by one,
 registers renumbered as they are written, labels and table indices patched at the end.
 */
module DexAsm {
  import opened Wrappers
  import opened DexCode
  import opened DexEncode
  import ModArith

  // ---------- register numbers ----------

  /** Logical v (parameters first) to physical (parameters last). */
  function Physical(v: int, ins: nat, nregs: nat): (r: nat)
    requires nregs > 0
    ensures r < nregs
  {
    (v - ins) % nregs
  }

  /** The renumbering is a bijection of the frame that takes parameter i to register nregs - ins + i. */
  lemma PhysicalIs(v: nat, ins: nat, nregs: nat)
    requires v < nregs && ins <= nregs
    ensures Physical(v, ins, nregs) == if v < ins then nregs - ins + v else v - ins
    ensures Physical(Physical(v, ins, nregs) + ins, 0, nregs) == v
  {
    ModArith.ModIs(v - ins, nregs, if v < ins then -1 else 0);
    var r := if v < ins then nregs - ins + v else v - ins;
    ModArith.ModIs(r + ins, nregs, if v < ins then 1 else 0);
  }

  function MapRegs(i: Insn, f: nat -> nat): Insn {
    match i
    case Move(o, a, b) => Move(o, f(a), f(b))
    case MoveResult(o, a) => MoveResult(o, f(a))
    case ReturnVoid => ReturnVoid
    case Return(o, a) => Return(o, f(a))
    case Const(size, a, lit) => Const(size, f(a), lit)
    case ConstString(a, idx) => ConstString(f(a), idx)
    case CheckCast(a, idx) => CheckCast(f(a), idx)
    case ArrayLength(a, b) => ArrayLength(f(a), f(b))
    case NewInstance(a, idx) => NewInstance(f(a), idx)
    case NewArray(a, b, idx) => NewArray(f(a), f(b), idx)
    case Goto(off) => Goto(off)
    case If2(op, a, b, off) => If2(op, f(a), f(b), off)
    case IfZ(op, a, off) => IfZ(op, f(a), off)
    case AGetObject(a, b, c) => AGetObject(f(a), f(b), f(c))
    case APutObject(a, b, c) => APutObject(f(a), f(b), f(c))
    case APutByte(a, b, c) => APutByte(f(a), f(b), f(c))
    case SGetObject(a, idx) => SGetObject(f(a), idx)
    case Invoke(op, idx, args) => Invoke(op, idx, MapAll(args, f))
    case Binop(op, a, b, c) => Binop(op, f(a), f(b), f(c))
    case BinopLit8(op, a, b, lit) => BinopLit8(op, f(a), f(b), lit)
    case IntToByte(a, b) => IntToByte(f(a), f(b))
  }

  function MapAll(args: seq<nat>, f: nat -> nat): (r: seq<nat>)
    ensures |r| == |args| && forall k :: 0 <= k < |r| ==> r[k] == f(args[k])
  {
    seq(|args|, k requires 0 <= k < |args| => f(args[k]))
  }

  predicate RegsBelow(i: Insn, n: nat) {
    match i
    case Move(_, a, b) => a < n && b < n
    case ArrayLength(a, b) => a < n && b < n
    case IntToByte(a, b) => a < n && b < n
    case NewArray(a, b, _) => a < n && b < n
    case If2(_, a, b, _) => a < n && b < n
    case BinopLit8(_, a, b, _) => a < n && b < n
    case AGetObject(a, b, c) => a < n && b < n && c < n
    case APutObject(a, b, c) => a < n && b < n && c < n
    case APutByte(a, b, c) => a < n && b < n && c < n
    case Binop(_, a, b, c) => a < n && b < n && c < n
    case Invoke(_, _, args) => forall k :: 0 <= k < |args| ==> args[k] < n
    case ReturnVoid | Goto(_) => true
    case MoveResult(_, a) => a < n
    case Return(_, a) => a < n
    case Const(_, a, _) => a < n
    case ConstString(a, _) => a < n
    case CheckCast(a, _) => a < n
    case NewInstance(a, _) => a < n
    case IfZ(_, a, _) => a < n
    case SGetObject(a, _) => a < n
  }

  /** An instruction over logical registers with its operands renumbered. */
  function Rename(i: Insn, ins: nat, nregs: nat): Insn
    requires RegsBelow(i, nregs)
  {
    MapRegs(i, v => if nregs > 0 then Physical(v, ins, nregs) else 0)
  }

  // ---------- lines ----------

  /** A table entry named by code, and a unit that is either a number or such a name. */
  datatype Sym = Sym(kind: string, name: string)
  datatype Unit = Lit(n: int) | Ref(sym: Sym)

  /** One emitted instruction, over logical registers: its index is sym's, its offset goes to target. */
  datatype Line = Line(insn: Insn, sym: Option<Sym>, target: Option<string>)

  datatype Frame = Frame(nregs: nat, ins: nat)

  predicate HasIndex(i: Insn) {
    i.ConstString? || i.CheckCast? || i.NewInstance? || i.NewArray? || i.SGetObject? || i.Invoke?
  }

  predicate HasOffset(i: Insn) {
    i.Goto? || i.If2? || i.IfZ?
  }

  predicate Writable(l: Line, f: Frame) {
    && RegsBelow(l.insn, f.nregs) && Encodable(Rename(l.insn, f.ins, f.nregs))
    && (l.sym.Some? <==> HasIndex(l.insn)) && (l.target.Some? <==> HasOffset(l.insn))
  }

  function Lits(u: seq<int>): (r: seq<Unit>)
    ensures |r| == |u| && forall k :: 0 <= k < |r| ==> r[k] == Lit(u[k])
  {
    seq(|u|, k requires 0 <= k < |u| => Lit(u[k]))
  }

  function LineUnits(l: Line, f: Frame): (r: seq<Unit>)
    requires Writable(l, f)
    ensures |r| == Width(l.insn)
  {
    var u := Lits(Encode(Rename(l.insn, f.ins, f.nregs)));
    if l.sym.Some? then u[1 := Ref(l.sym.value)] else u
  }

  predicate AllWritable(prog: seq<Line>, f: Frame) {
    forall k :: 0 <= k < |prog| ==> Writable(prog[k], f)
  }

  /** The units a line puts into the method, and where its offset goes. */
  datatype Block = Block(units: seq<Unit>, target: Option<string>)

  function BlocksOf(prog: seq<Line>, f: Frame): (r: seq<Block>)
    requires AllWritable(prog, f)
    ensures |r| == |prog|
    ensures forall k :: 0 <= k < |r| ==> r[k] == BlockOf(prog[k], f)
  {
    seq(|prog|, k requires 0 <= k < |prog| => BlockOf(prog[k], f))
  }

  function Flat(bs: seq<Block>): seq<Unit> {
    if bs == [] then [] else Flat(bs[..|bs| - 1]) + bs[|bs| - 1].units
  }

  /** Where block k starts. */
  function At(bs: seq<Block>, k: nat): nat
    requires k <= |bs|
  {
    |Flat(bs[..k])|
  }

  /** The units to patch with an offset, in order. */
  function Slots(bs: seq<Block>): seq<(int, string)> {
    if bs == [] then []
    else
      var n := |bs| - 1;
      Slots(bs[..n]) + if bs[n].target.Some? then [(|Flat(bs[..n])| + 1, bs[n].target.value)] else []
  }

  lemma {:induction false} FlatAt(bs: seq<Block>, k: nat)
    requires k < |bs|
    ensures At(bs, k + 1) == At(bs, k) + |bs[k].units| <= |Flat(bs)|
    ensures Flat(bs)[At(bs, k)..At(bs, k + 1)] == bs[k].units
  {
    var n := |bs| - 1;
    assert bs[..k + 1][..k] == bs[..k];
    if k < n {
      FlatAt(bs[..n], k);
      assert bs[..n][..k] == bs[..k] && bs[..n][..k + 1] == bs[..k + 1];
    } else {
      assert bs[..k + 1] == bs;
    }
  }

  lemma {:induction false} AtAscends(bs: seq<Block>, j: nat, k: nat)
    requires j < k <= |bs|
    ensures At(bs, j) + |bs[j].units| <= At(bs, k)
    decreases k
  {
    FlatAt(bs, k - 1);
    if j < k - 1 {
      AtAscends(bs, j, k - 1);
    }
  }

  /** Every slot is the second unit of a line with a target. */
  lemma {:induction false} SlotsAt(bs: seq<Block>, s: nat) returns (k: nat)
    requires s < |Slots(bs)|
    ensures k < |bs| && bs[k].target == Some(Slots(bs)[s].1) && Slots(bs)[s].0 == At(bs, k) + 1
  {
    var n := |bs| - 1;
    if s < |Slots(bs[..n])| {
      k := SlotsAt(bs[..n], s);
      assert bs[..n][..k] == bs[..k];
    } else {
      k := n;
    }
  }

  lemma {:induction false} SlotOf(bs: seq<Block>, k: nat) returns (s: nat)
    requires k < |bs| && bs[k].target.Some?
    ensures s < |Slots(bs)| && Slots(bs)[s] == (At(bs, k) + 1, bs[k].target.value)
  {
    var n := |bs| - 1;
    if k == n {
      s := |Slots(bs[..n])|;
    } else {
      s := SlotOf(bs[..n], k);
      assert bs[..n][..k] == bs[..k];
    }
  }

  lemma {:induction false} SlotsAscend(bs: seq<Block>, s: nat, t: nat)
    requires s < t < |Slots(bs)|
    requires forall k :: 0 <= k < |bs| && bs[k].target.Some? ==> |bs[k].units| >= 2
    ensures Slots(bs)[s].0 < Slots(bs)[t].0
  {
    var n := |bs| - 1;
    if t < |Slots(bs[..n])| {
      SlotsAscend(bs[..n], s, t);
    } else {
      var k := SlotsAt(bs[..n], s);
      FlatAt(bs[..n], k);
      assert bs[..n][..k] == bs[..k];
    }
  }

  lemma FlatAppend(bs: seq<Block>, b: Block)
    ensures Flat(bs + [b]) == Flat(bs) + b.units
    ensures Slots(bs + [b]) == Slots(bs) + if b.target.Some? then [(|Flat(bs)| + 1, b.target.value)] else []
  {
    assert (bs + [b])[..|bs|] == bs;
  }

  // ---------- patching ----------

  type Labels = map<string, nat>
  type Index = Sym -> Option<nat>

  function Offset(labels: Labels, at: int, target: string): int
    requires target in labels
  {
    var l: int := labels[target];
    l - at
  }

  /** The branch at `at` reaches its label with 16 bits. */
  predicate InRange(labels: Labels, at: int, target: string) {
    target in labels && InSigned(Offset(labels, at, target), 0x8000)
  }

  function OneUnit(u: Unit, index: Index): Option<unit> {
    match u
    case Lit(n) => if 0 <= n < 0x10000 then Some(n) else None
    case Ref(sym) =>
      (match index(sym)
       case Some(i) => if i < 0x10000 then Some(i) else None
       case None => None)
  }

  function WithIndex(i: Insn, idx: nat): Insn {
    match i
    case ConstString(a, _) => ConstString(a, idx)
    case CheckCast(a, _) => CheckCast(a, idx)
    case NewInstance(a, _) => NewInstance(a, idx)
    case NewArray(a, b, _) => NewArray(a, b, idx)
    case SGetObject(a, _) => SGetObject(a, idx)
    case Invoke(op, _, args) => Invoke(op, idx, args)
    case _ => i
  }

  function WithOffset(i: Insn, off: int): Insn {
    match i
    case Goto(_) => Goto(off)
    case If2(op, a, b, _) => If2(op, a, b, off)
    case IfZ(op, a, _) => IfZ(op, a, off)
    case _ => i
  }

  /** A line's instruction with its index and its offset filled in; None: it cannot be. */
  function Resolve(l: Line, at: nat, labels: Labels, index: Index): Option<Insn> {
    if l.sym.Some? then
      var u :- OneUnit(Ref(l.sym.value), index);
      Some(WithIndex(l.insn, u))
    else if l.target.Some? then
      var _ :- Need(InRange(labels, at, l.target.value));
      Some(WithOffset(l.insn, Offset(labels, at, l.target.value)))
    else Some(l.insn)
  }

  lemma IndexEncodes(i: Insn, idx: nat)
    requires Encodable(i) && HasIndex(i) && idx < 0x10000
    ensures Encodable(WithIndex(i, idx)) && |Encode(i)| >= 2 && Encode(WithIndex(i, idx)) == Encode(i)[1 := idx]
  {
  }

  lemma OffsetEncodes(i: Insn, off: int)
    requires Encodable(i) && HasOffset(i) && InSigned(off, 0x8000)
    ensures Encodable(WithOffset(i, off)) && |Encode(i)| >= 2
    ensures Encode(WithOffset(i, off)) == Encode(i)[1 := Unsigned(off, 0x10000)]
  {
  }

  lemma RenameFills(i: Insn, ins: nat, nregs: nat, idx: nat, off: int)
    requires RegsBelow(i, nregs)
    ensures RegsBelow(WithIndex(i, idx), nregs) &&
      Rename(WithIndex(i, idx), ins, nregs) == WithIndex(Rename(i, ins, nregs), idx)
    ensures RegsBelow(WithOffset(i, off), nregs) &&
      Rename(WithOffset(i, off), ins, nregs) == WithOffset(Rename(i, ins, nregs), off)
    ensures HasIndex(Rename(i, ins, nregs)) == HasIndex(i) && HasOffset(Rename(i, ins, nregs)) == HasOffset(i)
    ensures Width(WithIndex(i, idx)) == Width(WithOffset(i, off)) == Width(i)
  {
  }

  /** A block's units with its offset filled in. */
  function PatchedUnits(b: Block, at: nat, labels: Labels): Option<seq<Unit>>
    requires b.target.Some? ==> |b.units| >= 2
  {
    if b.target.None? then Some(b.units)
    else if InRange(labels, at, b.target.value) then
      Some(b.units[1 := Lit(Unsigned(Offset(labels, at, b.target.value), 0x10000))])
    else None
  }

  function BlockOf(l: Line, f: Frame): (b: Block)
    requires Writable(l, f)
    ensures |b.units| == Width(l.insn) && (b.target.Some? ==> |b.units| >= 2)
  {
    Block(LineUnits(l, f), l.target)
  }

  /** The numbers packed for a patched line are the units of its instruction filled in. */
  lemma LineMeans(l: Line, f: Frame, at: nat, labels: Labels, index: Index, w: seq<Unit>, x: seq<int>)
    requires Writable(l, f) && PatchedUnits(BlockOf(l, f), at, labels) == Some(w)
    requires |x| == |w| && forall q :: 0 <= q < |w| ==> OneUnit(w[q], index) == Some(x[q])
    ensures Resolve(l, at, labels, index).Some?
    ensures var i := Resolve(l, at, labels, index).value;
      RegsBelow(i, f.nregs) && Width(i) == Width(l.insn) &&
      Encodable(Rename(i, f.ins, f.nregs)) && x == Encode(Rename(i, f.ins, f.nregs))
  {
    var p := Rename(l.insn, f.ins, f.nregs);
    assert l.sym.Some? ==> w[1] == Ref(l.sym.value);
    var idx := if l.sym.Some? then OneUnit(Ref(l.sym.value), index).value else 0;
    var off := if l.target.Some? then Offset(labels, at, l.target.value) else 0;
    RenameFills(l.insn, f.ins, f.nregs, idx, off);
    if l.sym.Some? {
      IndexEncodes(p, idx);
      assert x == Encode(p)[1 := idx];
    } else if l.target.Some? {
      OffsetEncodes(p, off);
      assert x == Encode(p)[1 := Unsigned(off, 0x10000)];
    } else {
      assert x == Encode(p);
    }
  }

  /** Packing fails only on a name without a table entry that fits. */
  lemma UnpackedUnresolved(l: Line, f: Frame, at: nat, labels: Labels, index: Index, w: seq<Unit>, q: nat)
    requires Writable(l, f) && PatchedUnits(BlockOf(l, f), at, labels) == Some(w)
    requires q < |w| && OneUnit(w[q], index).None?
    ensures Resolve(l, at, labels, index).None?
  {
    EncodeUnits(Rename(l.insn, f.ins, f.nregs));
  }

  // ---------- assembling ----------

  /** A method's code with its branches patched: numbers, and names for the tables. */
  datatype Body = Body(nregs: nat, ins: nat, outs: nat, units: seq<Unit>)

  /** A code item: the header's register counts and the units. */
  datatype Item = Item(nregs: nat, ins: nat, outs: nat, units: seq<unit>)

  function OffsetUnit(labels: Labels, slot: (int, string)): Unit
    requires slot.1 in labels
  {
    Lit(Unsigned(Offset(labels, slot.0 - 1, slot.1), 0x10000))
  }

  /** The units with every branch's offset in its place; None: one has no label or does not reach it. */
  function Patch(units: seq<Unit>, branches: seq<(int, string)>, labels: Labels): (r: Option<seq<Unit>>)
    ensures r.Some? ==> |r.value| == |units|
  {
    if branches == [] then Some(units)
    else
      var n := |branches| - 1;
      var slot := branches[n];
      var out :- Patch(units, branches[..n], labels);
      var _ :- Need(0 <= slot.0 < |units| && InRange(labels, slot.0 - 1, slot.1));
      Some(out[slot.0 := OffsetUnit(labels, slot)])
  }

  /** Every unit as a number. */
  function PackUnits(units: seq<Unit>, index: Index): (r: Option<seq<unit>>)
    ensures r.Some? ==> |r.value| == |units|
  {
    if units == [] then Some([])
    else
      var n := |units| - 1;
      var front :- PackUnits(units[..n], index);
      var u :- OneUnit(units[n], index);
      Some(front + [u])
  }

  function PackBody(b: Body, index: Index): Option<Item> {
    var units :- PackUnits(b.units, index);
    var _ :- Need(b.nregs < 0x10000 && b.ins < 0x10000 && b.outs < 0x10000 && |units| < 0x1_0000_0000);
    Some(Item.Item(b.nregs, b.ins, b.outs, units))
  }
}
