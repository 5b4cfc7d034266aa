/**
 Soundness of the verifier: a method it accepts never gets stuck, whatever
 well-behaved callees, fields and allocations answer, and passes an object of a
 wrong class only where it knows the class and did not compare it.
 */
module DexSound {
  import opened Wrappers
  import opened DexCode
  import opened DexVerify
  import opened DexFixpoint
  import opened DexMachine

  // ---------- what is assumed of the outside ----------

  /** Class loading: assignability is a preorder under Object, and arrays are covariant in reference components only. */
  ghost predicate Loader(sub: Subtype) {
    && (forall c :: sub(c, c))
    && (forall c, d, e :: sub(c, d) && sub(d, e) ==> sub(c, e))
    && (forall c :: IsRefDesc(c) ==> sub(c, OBJECT))
    && (forall c, d :: sub(c, d) && IsArray(d) ==> IsArray(c) && SubElement(sub, c[1..], d[1..]))
  }

  predicate SubElement(sub: Subtype, e: string, f: string) {
    e == f || (!IsPrim(e) && !IsPrim(f) && sub(e, f))
  }

  /** No floats and nothing wide: the descriptors the verifier's two kinds stand for. */
  predicate Descriptor(d: string) {
    IsPrim(d) || IsRefDesc(d)
  }

  ghost predicate Tables(ids: Ids) {
    forall i :: 0 <= i < |ids.methods| ==>
      (ids.methods[i].proto.ret == "V" || Descriptor(ids.methods[i].proto.ret)) &&
      forall k :: 0 <= k < |ids.methods[i].proto.params| ==> Descriptor(ids.methods[i].proto.params[k])
  }

  ghost predicate GoodObject(sub: Subtype, h: Heap, o: Object) {
    match o
    case Instance(cls, _) => cls != "" && cls[0] == 'L'
    case Array(cls, elems) =>
      IsArray(cls) &&
      forall k :: 0 <= k < |elems| ==>
        if IsPrim(cls[1..]) then elems[k].Word? else IsA(sub, h, elems[k], cls[1..])
  }

  ghost predicate GoodHeap(sub: Subtype, h: Heap) {
    forall a :: a in h ==> GoodObject(sub, h, h[a])
  }

  /** Objects keep their class, arrays stay arrays, and only `built` is constructed meanwhile. */
  ghost predicate Extends(h: Heap, g: Heap, built: set<nat>) {
    forall a :: a in h ==> a in g && Kept(h[a], g[a], a in built)
  }

  predicate Kept(o: Object, p: Object, built: bool) {
    o.cls == p.cls && o.Instance? == p.Instance? && (o.Instance? ==> p.ready == (o.ready || built))
  }

  /** A value of the given descriptor. */
  predicate Typed(sub: Subtype, h: Heap, v: Value, desc: string) {
    if IsPrim(desc) then v.Word? else IsA(sub, h, v, desc)
  }

  /** The object whose constructor the instruction calls. */
  function Building(m: Code, c: Config, i: Insn): set<nat> {
    if i.Invoke? && i.idx < |m.ids.methods| && m.ids.methods[i.idx].name == INIT && i.args != [] &&
      ReadReg(c, i.args[0]).Ptr?
    then {ReadReg(c, i.args[0]).addr} else {}
  }

  ghost predicate Answers(sub: Subtype, m: Code, c: Config, i: Insn, ev: Event) {
    && GoodHeap(sub, ev.heap) && Extends(c.heap, ev.heap, Building(m, c, i))
    && (i.Invoke? && i.idx < |m.ids.methods| && m.ids.methods[i.idx].proto.ret != "V" ==>
          Typed(sub, ev.heap, ev.answer, m.ids.methods[i.idx].proto.ret))
    && (i.SGetObject? && i.idx < |m.ids.fields| ==> Typed(sub, ev.heap, ev.answer, m.ids.fields[i.idx].desc))
  }

  /** Allocation finds a free address, and calls and fields answer by their prototypes. */
  ghost predicate Conforming(sub: Subtype, m: Code, c: Config, ev: Event) {
    ev.addr !in c.heap &&
    (c.pc >= 0 && Decode(m.units, c.pc).Some? ==> Answers(sub, m, c, Decode(m.units, c.pc).value, ev))
  }

  // ---------- registers and what is known of them ----------

  predicate Fits(sub: Subtype, h: Heap, v: Value, k: Kind) {
    match k
    case Zero => v == NULL
    case Int => v.Word?
    case Ref(t) => IsA(sub, h, v, t)
    case New(t, _) => v.Ptr? && v.addr in h && h[v.addr] == Instance(t, false)
    case Conflict | Unset => true
  }

  /** Every register holds what is known of it, and no unconstructed object sits in two. */
  ghost predicate FitsAll(sub: Subtype, h: Heap, vals: seq<Value>, regs: Regs) {
    && |vals| == |regs|
    && (forall r :: 0 <= r < |regs| ==> Fits(sub, h, vals[r], regs[r]))
    && (forall r, s :: 0 <= r < s < |regs| && regs[r].New? && regs[s].New? ==> vals[r] != vals[s])
  }

  lemma FitsBelow(sub: Subtype, h: Heap, v: Value, a: Kind, b: Kind)
    requires Loader(sub) && GoodHeap(sub, h) && Fits(sub, h, v, a) && Below(a, b)
    ensures Fits(sub, h, v, b)
  {
    if b == Ref(OBJECT) && v.Ptr? {
      assert GoodObject(sub, h, h[v.addr]);
    }
  }

  lemma FitsAllBelow(sub: Subtype, h: Heap, vals: seq<Value>, a: Regs, b: Regs)
    requires Loader(sub) && GoodHeap(sub, h) && FitsAll(sub, h, vals, a) && BelowRegs(a, b)
    ensures FitsAll(sub, h, vals, b)
  {
    forall r | 0 <= r < |b| ensures Fits(sub, h, vals[r], b[r]) && (b[r].New? ==> a[r] == b[r]) {
      assert Below(a[r], b[r]);
      FitsBelow(sub, h, vals[r], a[r], b[r]);
    }
  }

  lemma FitsExtends(sub: Subtype, h: Heap, g: Heap, built: set<nat>, v: Value, k: Kind)
    requires Fits(sub, h, v, k) && Extends(h, g, built)
    requires k.New? ==> v.addr !in built
    ensures Fits(sub, g, v, k)
  {
  }

  /** Setting one register, while the heap grows. */
  lemma FitsPut(sub: Subtype, h: Heap, g: Heap, vals: seq<Value>, regs: Regs, r: nat, v: Value, k: Kind)
    requires FitsAll(sub, h, vals, regs) && Extends(h, g, {}) && r < |regs|
    requires Fits(sub, g, v, k) && (k.New? ==> v.addr !in h)
    ensures FitsAll(sub, g, vals[r := v], regs[r := k])
  {
    forall s | 0 <= s < |regs| && s != r ensures Fits(sub, g, vals[s], regs[s]) {
      FitsExtends(sub, h, g, {}, vals[s], regs[s]);
    }
  }

  // ---------- heaps ----------

  lemma IsAExtends(sub: Subtype, h: Heap, g: Heap, built: set<nat>, v: Value, d: string)
    requires IsA(sub, h, v, d) && Extends(h, g, built)
    ensures IsA(sub, g, v, d)
  {
  }

  lemma GoodObjectExtends(sub: Subtype, h: Heap, g: Heap, o: Object)
    requires GoodObject(sub, h, o) && Extends(h, g, {})
    ensures GoodObject(sub, g, o)
  {
    if o.Array? && !IsPrim(o.cls[1..]) {
      forall k | 0 <= k < |o.elems| ensures IsA(sub, g, o.elems[k], o.cls[1..]) {
        IsAExtends(sub, h, g, {}, o.elems[k], o.cls[1..]);
      }
    }
  }

  lemma Allocated(sub: Subtype, h: Heap, a: nat, o: Object)
    requires GoodHeap(sub, h) && a !in h && GoodObject(sub, h, o)
    ensures GoodHeap(sub, h[a := o]) && Extends(h, h[a := o], {})
  {
    var g := h[a := o];
    forall x | x in g ensures GoodObject(sub, g, g[x]) {
      GoodObjectExtends(sub, h, g, g[x]);
    }
  }

  lemma Overwritten(sub: Subtype, h: Heap, a: nat, at: nat, v: Value)
    requires GoodHeap(sub, h) && a in h && h[a].Array? && at < |h[a].elems|
    requires if IsPrim(h[a].cls[1..]) then v.Word? else IsA(sub, h, v, h[a].cls[1..])
    ensures var g := h[a := Array(h[a].cls, h[a].elems[at := v])]; GoodHeap(sub, g) && Extends(h, g, {})
  {
    var o := Array(h[a].cls, h[a].elems[at := v]);
    var g := h[a := o];
    assert GoodObject(sub, h, h[a]);
    assert GoodObject(sub, h, o);
    forall x | x in g ensures GoodObject(sub, g, g[x]) {
      GoodObjectExtends(sub, h, g, g[x]);
    }
  }

  // ---------- calls ----------

  /** What is known of register r does not contradict the class demanded of it. */
  predicate Assignable(sub: Subtype, regs: Regs, r: nat, desc: string) {
    r < |regs| && regs[r].Ref? ==> sub(regs[r].desc, desc)
  }

  predicate AllAssignable(sub: Subtype, regs: Regs, args: seq<nat>, params: seq<string>) {
    forall k :: 0 <= k < |args| && k < |params| && !IsPrim(params[k]) ==> Assignable(sub, regs, args[k], params[k])
  }

  /** No argument of a call, its receiver included, is known by a class that its parameter does not admit. */
  predicate Matched(sub: Subtype, m: Code, regs: Regs, i: Insn) {
    i.Invoke? && i.idx < |m.ids.methods| ==>
      var callee := m.ids.methods[i.idx];
      if IsStatic(i.op) then AllAssignable(sub, regs, i.args, callee.proto.params)
      else
        i.args == [] ||
        (AllAssignable(sub, regs, i.args[1..], callee.proto.params) &&
         (callee.name == INIT || Assignable(sub, regs, i.args[0], callee.cls)))
  }

  // ---------- one instruction ----------

  /** Where a step starts from: registers that fit, a good heap and a conforming event. */
  ghost predicate Here(sub: Subtype, m: Code, c: Config, i: Insn, regs: Regs, ev: Event) {
    && Loader(sub) && Tables(m.ids) && GoodHeap(sub, c.heap) && FitsAll(sub, c.heap, c.regs, regs)
    && c.pc >= 0 && Decode(m.units, c.pc) == Some(i) && Conforming(sub, m, c, ev)
  }

  /** What a step out of an accepted instruction may do. */
  ghost predicate Fine(sub: Subtype, m: Code, c: Config, i: Insn, regs: Regs, e: Effect, o: Outcome) {
    match o
    case Stuck => false
    case Misfit => !Matched(sub, m, regs, i)
    case Threw => true
    case Returned(v) => (m.ret == "V" <==> v.None?) &&
      (m.ret != "V" ==> if IsPrim(m.ret) then v.value.Word? else IsRefValue(c.heap, v.value))
    case Next(d) =>
      && FitsAll(sub, d.heap, d.regs, e.regs) && GoodHeap(sub, d.heap)
      && (e.result.Some? ==> d.result.Some? && Typed(sub, d.heap, d.result.value, e.result.value))
      && c.pc >= 0 && Successors(c.pc, i).Some? && d.pc in Successors(c.pc, i).value
  }

  lemma DecodedOps(units: seq<unit>, at: nat)
    requires Decode(units, at).Some?
    ensures match Decode(units, at).value
            case If2(op, _, _, _) => 0x32 <= op <= 0x37
            case IfZ(op, _, _) => 0x38 <= op <= 0x3d
            case Binop(op, _, _, _) => op >= 0x90
            case BinopLit8(op, _, _, _) => op >= 0xd8
            case _ => true
  {
  }

  /** An instruction that puts a value of kind k into register a and goes on. */
  lemma PutFine(sub: Subtype, m: Code, c: Config, i: Insn, regs: Regs, ev: Event, a: nat, v: Value, k: Kind, g: Heap)
    requires Here(sub, m, c, i, regs, ev) && a < |regs|
    requires GoodHeap(sub, g) && Extends(c.heap, g, {}) && Fits(sub, g, v, k) && (k.New? ==> v.addr !in c.heap)
    requires Successors(c.pc, i) == Some([c.pc + Width(i)])
    ensures Fine(sub, m, c, i, regs, Effect(regs[a := k], None), SetReg(c, i, a, v, g))
  {
    FitsPut(sub, c.heap, g, c.regs, regs, a, v, k);
  }

  lemma ReadFits(sub: Subtype, c: Config, regs: Regs, r: nat)
    requires FitsAll(sub, c.heap, c.regs, regs) && Get(regs, r).Some?
    ensures Fits(sub, c.heap, ReadReg(c, r), regs[r])
    ensures regs[r].IsInt() ==> ReadReg(c, r).Word?
    ensures regs[r].IsRef() ==> IsRefValue(c.heap, ReadReg(c, r))
  {
  }

  lemma MoveFine(sub: Subtype, m: Code, c: Config, i: Insn, regs: Regs, ev: Event)
    requires Here(sub, m, c, i, regs, ev) && i.Move? && EffectOf(m, c.pc, i, regs, None).Some?
    ensures Fine(sub, m, c, i, regs, EffectOf(m, c.pc, i, regs, None).value, Exec(sub, m, c, i, ev))
  {
    ReadFits(sub, c, regs, i.b);
    PutFine(sub, m, c, i, regs, ev, i.a, ReadReg(c, i.b), regs[i.b], c.heap);
  }

  lemma IntFine(sub: Subtype, m: Code, c: Config, i: Insn, regs: Regs, ev: Event)
    requires Here(sub, m, c, i, regs, ev) && (i.Const? || i.IntToByte? || i.BinopLit8? || i.Binop?)
    requires EffectOf(m, c.pc, i, regs, None).Some?
    ensures Fine(sub, m, c, i, regs, EffectOf(m, c.pc, i, regs, None).value, Exec(sub, m, c, i, ev))
  {
    DecodedOps(m.units, c.pc);
    if !i.Const? {
      ReadFits(sub, c, regs, i.b);
    }
    if i.Binop? {
      ReadFits(sub, c, regs, i.c);
    }
    var o := Exec(sub, m, c, i, ev);
    if o.Next? {
      var k := if i.Const? && i.lit == 0 then Zero else Int;
      PutFine(sub, m, c, i, regs, ev, i.a, o.c.regs[i.a], k, c.heap);
    }
  }

  lemma CastFine(sub: Subtype, m: Code, c: Config, i: Insn, regs: Regs, ev: Event)
    requires Here(sub, m, c, i, regs, ev) && i.CheckCast? && EffectOf(m, c.pc, i, regs, None).Some?
    ensures Fine(sub, m, c, i, regs, EffectOf(m, c.pc, i, regs, None).value, Exec(sub, m, c, i, ev))
  {
    ReadFits(sub, c, regs, i.a);
    if IsA(sub, c.heap, ReadReg(c, i.a), m.ids.types[i.idx]) {
      PutFine(sub, m, c, i, regs, ev, i.a, ReadReg(c, i.a), Ref(m.ids.types[i.idx]), c.heap);
    }
  }

  /** A register known to hold an array holds null or an array whose components are at least that good. */
  lemma ArrayFits(sub: Subtype, h: Heap, v: Value, k: Kind)
    requires Loader(sub) && GoodHeap(sub, h) && Fits(sub, h, v, k) && Component(k).Some?
    ensures v == NULL || (v.Ptr? && v.addr in h && h[v.addr].Array? && IsArray(h[v.addr].cls) &&
                          GoodObject(sub, h, h[v.addr]) && SubElement(sub, h[v.addr].cls[1..], k.desc[1..]))
  {
    if v != NULL {
      assert GoodObject(sub, h, h[v.addr]);
    }
  }

  lemma LengthFine(sub: Subtype, m: Code, c: Config, i: Insn, regs: Regs, ev: Event)
    requires Here(sub, m, c, i, regs, ev) && i.ArrayLength? && EffectOf(m, c.pc, i, regs, None).Some?
    ensures Fine(sub, m, c, i, regs, EffectOf(m, c.pc, i, regs, None).value, Exec(sub, m, c, i, ev))
  {
    ReadFits(sub, c, regs, i.b);
    var v := ReadReg(c, i.b);
    ArrayFits(sub, c.heap, v, regs[i.b]);
    if v != NULL {
      PutFine(sub, m, c, i, regs, ev, i.a, Word(|c.heap[v.addr].elems|), Int, c.heap);
    }
  }

  lemma AllocFine(sub: Subtype, m: Code, c: Config, i: Insn, regs: Regs, ev: Event)
    requires Here(sub, m, c, i, regs, ev) && (i.ConstString? || i.NewInstance?)
    requires EffectOf(m, c.pc, i, regs, None).Some?
    ensures Fine(sub, m, c, i, regs, EffectOf(m, c.pc, i, regs, None).value, Exec(sub, m, c, i, ev))
  {
    var o := if i.ConstString? then Instance(STRING, true) else Instance(m.ids.types[i.idx], false);
    var k := if i.ConstString? then Ref(STRING) else New(m.ids.types[i.idx], c.pc);
    Allocated(sub, c.heap, ev.addr, o);
    PutFine(sub, m, c, i, regs, ev, i.a, Ptr(ev.addr), k, c.heap[ev.addr := o]);
  }

  lemma NewArrayFine(sub: Subtype, m: Code, c: Config, i: Insn, regs: Regs, ev: Event)
    requires Here(sub, m, c, i, regs, ev) && i.NewArray? && EffectOf(m, c.pc, i, regs, None).Some?
    ensures Fine(sub, m, c, i, regs, EffectOf(m, c.pc, i, regs, None).value, Exec(sub, m, c, i, ev))
  {
    ReadFits(sub, c, regs, i.b);
    var n := ReadReg(c, i.b).n;
    if n >= 0 {
      var o := Array(m.ids.types[i.idx], seq(n, _ => NULL));
      Allocated(sub, c.heap, ev.addr, o);
      PutFine(sub, m, c, i, regs, ev, i.a, Ptr(ev.addr), Ref(m.ids.types[i.idx]), c.heap[ev.addr := o]);
    }
  }

  lemma GotoFine(sub: Subtype, m: Code, c: Config, i: Insn, regs: Regs, ev: Event)
    requires Here(sub, m, c, i, regs, ev) && i.Goto? && Successors(c.pc, i).Some?
    ensures Fine(sub, m, c, i, regs, EffectOf(m, c.pc, i, regs, None).value, Exec(sub, m, c, i, ev))
  {
  }

  lemma BranchFine(sub: Subtype, m: Code, c: Config, i: Insn, regs: Regs, ev: Event)
    requires Here(sub, m, c, i, regs, ev) && (i.If2? || i.IfZ?)
    requires EffectOf(m, c.pc, i, regs, None).Some? && Successors(c.pc, i).Some?
    ensures Fine(sub, m, c, i, regs, Effect(regs, None), Exec(sub, m, c, i, ev))
    ensures EffectOf(m, c.pc, i, regs, None).value == Effect(regs, None)
  {
    DecodedOps(m.units, c.pc);
    ReadFits(sub, c, regs, i.a);
    if i.If2? {
      ReadFits(sub, c, regs, i.b);
    }
  }

  lemma AGetFine(sub: Subtype, m: Code, c: Config, i: Insn, regs: Regs, ev: Event)
    requires Here(sub, m, c, i, regs, ev) && i.AGetObject? && EffectOf(m, c.pc, i, regs, None).Some?
    ensures Fine(sub, m, c, i, regs, EffectOf(m, c.pc, i, regs, None).value, Exec(sub, m, c, i, ev))
  {
    ReadFits(sub, c, regs, i.b);
    ReadFits(sub, c, regs, i.c);
    var v := ReadReg(c, i.b);
    ArrayFits(sub, c.heap, v, regs[i.b]);
    var acc := ArrayAt(c, i.b, i.c);
    if acc.Elements? {
      var e, comp := acc.o.elems[ReadReg(c, i.c).n], regs[i.b].desc[1..];
      assert IsA(sub, c.heap, e, acc.o.cls[1..]);
      PutFine(sub, m, c, i, regs, ev, i.a, e, Ref(comp), c.heap);
    }
  }

  /** A store into an array in bounds, of a value its component type admits. */
  lemma StoredFine(sub: Subtype, m: Code, c: Config, i: Insn, regs: Regs, ev: Event, b: nat, x: nat, v: Value)
    requires Here(sub, m, c, i, regs, ev) && ArrayAt(c, b, x).Elements?
    requires var o := ArrayAt(c, b, x).o;
      IsArray(o.cls) && if IsPrim(o.cls[1..]) then v.Word? else IsA(sub, c.heap, v, o.cls[1..])
    requires Successors(c.pc, i) == Some([c.pc + Width(i)])
    ensures Fine(sub, m, c, i, regs, Effect(regs, None), Stored(c, i, b, x, v))
  {
    var addr, n := ReadReg(c, b).addr, ReadReg(c, x).n;
    Overwritten(sub, c.heap, addr, n, v);
    AllFitExtends(sub, c.heap, Stored(c, i, b, x, v).c.heap, {}, c.regs, regs);
  }

  lemma APutObjectFine(sub: Subtype, m: Code, c: Config, i: Insn, regs: Regs, ev: Event)
    requires Here(sub, m, c, i, regs, ev) && i.APutObject? && EffectOf(m, c.pc, i, regs, None).Some?
    ensures Fine(sub, m, c, i, regs, EffectOf(m, c.pc, i, regs, None).value, Exec(sub, m, c, i, ev))
  {
    ReadFits(sub, c, regs, i.a);
    ReadFits(sub, c, regs, i.b);
    ReadFits(sub, c, regs, i.c);
    ArrayFits(sub, c.heap, ReadReg(c, i.b), regs[i.b]);
    var acc, v := ArrayAt(c, i.b, i.c), ReadReg(c, i.a);
    if acc.Elements? && IsA(sub, c.heap, v, ElementDesc(acc.o.cls)) {
      StoredFine(sub, m, c, i, regs, ev, i.b, i.c, v);
    }
  }

  lemma APutByteFine(sub: Subtype, m: Code, c: Config, i: Insn, regs: Regs, ev: Event)
    requires Here(sub, m, c, i, regs, ev) && i.APutByte? && EffectOf(m, c.pc, i, regs, None).Some?
    ensures Fine(sub, m, c, i, regs, EffectOf(m, c.pc, i, regs, None).value, Exec(sub, m, c, i, ev))
  {
    ReadFits(sub, c, regs, i.a);
    ReadFits(sub, c, regs, i.b);
    ReadFits(sub, c, regs, i.c);
    ArrayFits(sub, c.heap, ReadReg(c, i.b), regs[i.b]);
    if ArrayAt(c, i.b, i.c).Elements? {
      StoredFine(sub, m, c, i, regs, ev, i.b, i.c, Word(Signed(ReadReg(c, i.a).n % 256, 128)));
    }
  }

  lemma AllFitExtends(sub: Subtype, h: Heap, g: Heap, built: set<nat>, vals: seq<Value>, regs: Regs)
    requires FitsAll(sub, h, vals, regs) && Extends(h, g, built)
    requires forall r :: 0 <= r < |regs| && regs[r].New? ==> vals[r].addr !in built
    ensures FitsAll(sub, g, vals, regs)
  {
    forall r | 0 <= r < |regs| ensures Fits(sub, g, vals[r], regs[r]) {
      FitsExtends(sub, h, g, built, vals[r], regs[r]);
    }
  }

  lemma SGetFine(sub: Subtype, m: Code, c: Config, i: Insn, regs: Regs, ev: Event)
    requires Here(sub, m, c, i, regs, ev) && i.SGetObject? && EffectOf(m, c.pc, i, regs, None).Some?
    ensures Fine(sub, m, c, i, regs, EffectOf(m, c.pc, i, regs, None).value, Exec(sub, m, c, i, ev))
  {
    var d := m.ids.fields[i.idx].desc;
    PutFine(sub, m, c, i, regs, ev, i.a, ev.answer, Ref(d), ev.heap);
  }

  /** The pending result, where the instruction is a move-result. */
  ghost predicate Delivered(sub: Subtype, c: Config, i: Insn, pending: Option<string>) {
    i.MoveResult? ==>
      pending.Some? && c.result.Some? && Descriptor(pending.value) && Typed(sub, c.heap, c.result.value, pending.value)
  }

  lemma MoveResultFine(sub: Subtype, m: Code, c: Config, i: Insn, regs: Regs, pending: Option<string>, ev: Event)
    requires Here(sub, m, c, i, regs, ev) && i.MoveResult? && EffectOf(m, c.pc, i, regs, pending).Some?
    requires Delivered(sub, c, i, pending)
    ensures Fine(sub, m, c, i, regs, EffectOf(m, c.pc, i, regs, pending).value, Exec(sub, m, c, i, ev))
  {
    PutFine(sub, m, c, i, regs, ev, i.a, c.result.value, KindOf(pending.value), c.heap);
  }

  lemma ReturnFine(sub: Subtype, m: Code, c: Config, i: Insn, regs: Regs, ev: Event)
    requires Here(sub, m, c, i, regs, ev) && (i.Return? || i.ReturnVoid?) && EffectOf(m, c.pc, i, regs, None).Some?
    ensures Fine(sub, m, c, i, regs, EffectOf(m, c.pc, i, regs, None).value, Exec(sub, m, c, i, ev))
  {
    if i.Return? {
      ReadFits(sub, c, regs, i.a);
    }
  }

  lemma ArgsFit(sub: Subtype, m: Code, c: Config, regs: Regs, args: seq<nat>, params: seq<string>)
    requires Loader(sub) && GoodHeap(sub, c.heap) && FitsAll(sub, c.heap, c.regs, regs) && |args| == |params|
    requires CheckArgs(regs, args, params) && forall k :: 0 <= k < |params| ==> Descriptor(params[k])
    ensures GoodArgs(sub, c, args, params)
  {
    forall k | 0 <= k < |args| ensures GoodArg(sub, c.heap, ReadReg(c, args[k]), params[k]) {
      ReadFits(sub, c, regs, args[k]);
      assert CheckArg(Get(regs, args[k]).value, params[k]);
    }
  }

  /** A register known by an assignable class, or null, holds what is demanded. */
  lemma AssignableFits(sub: Subtype, c: Config, regs: Regs, r: nat, desc: string)
    requires Loader(sub) && FitsAll(sub, c.heap, c.regs, regs) && Get(regs, r).Some? && regs[r].IsRef()
    requires Assignable(sub, regs, r, desc)
    ensures IsA(sub, c.heap, ReadReg(c, r), desc)
  {
    ReadFits(sub, c, regs, r);
  }

  lemma ArgsSuit(sub: Subtype, m: Code, c: Config, regs: Regs, args: seq<nat>, params: seq<string>)
    requires Loader(sub) && FitsAll(sub, c.heap, c.regs, regs) && |args| == |params|
    requires CheckArgs(regs, args, params) && AllAssignable(sub, regs, args, params)
    ensures Suited(sub, c, args, params)
  {
    forall k | 0 <= k < |args| && !IsPrim(params[k]) ensures IsA(sub, c.heap, ReadReg(c, args[k]), params[k]) {
      assert CheckArg(Get(regs, args[k]).value, params[k]);
      AssignableFits(sub, c, regs, args[k], params[k]);
    }
  }

  lemma StaticFine(sub: Subtype, m: Code, c: Config, i: Insn, regs: Regs, ev: Event)
    requires Here(sub, m, c, i, regs, ev) && i.Invoke? && EffectOf(m, c.pc, i, regs, None).Some?
    requires m.ids.methods[i.idx].name != INIT && IsStatic(i.op)
    ensures Fine(sub, m, c, i, regs, EffectOf(m, c.pc, i, regs, None).value, Exec(sub, m, c, i, ev))
  {
    var params := m.ids.methods[i.idx].proto.params;
    ArgsFit(sub, m, c, regs, i.args, params);
    if Matched(sub, m, regs, i) {
      ArgsSuit(sub, m, c, regs, i.args, params);
    }
    AllFitExtends(sub, c.heap, ev.heap, {}, c.regs, regs);
  }

  lemma VirtualFine(sub: Subtype, m: Code, c: Config, i: Insn, regs: Regs, ev: Event)
    requires Here(sub, m, c, i, regs, ev) && i.Invoke? && EffectOf(m, c.pc, i, regs, None).Some?
    requires m.ids.methods[i.idx].name != INIT && !IsStatic(i.op)
    ensures Fine(sub, m, c, i, regs, EffectOf(m, c.pc, i, regs, None).value, Exec(sub, m, c, i, ev))
  {
    var params := m.ids.methods[i.idx].proto.params;
    ArgsFit(sub, m, c, regs, i.args[1..], params);
    if Matched(sub, m, regs, i) {
      ArgsSuit(sub, m, c, regs, i.args[1..], params);
    }
    ReadFits(sub, c, regs, i.args[0]);
    AllFitExtends(sub, c.heap, ev.heap, {}, c.regs, regs);
  }

  /** A call that passes its checks is entered, throws on null, or is a misfit the checks let through. */
  lemma CallFine(sub: Subtype, m: Code, c: Config, i: Insn, regs: Regs, ev: Event)
    requires Here(sub, m, c, i, regs, ev) && i.Invoke? && EffectOf(m, c.pc, i, regs, None).Some?
    requires m.ids.methods[i.idx].name != INIT
    ensures Fine(sub, m, c, i, regs, EffectOf(m, c.pc, i, regs, None).value, Exec(sub, m, c, i, ev))
  {
    hide Here, Fine, Exec;
    if IsStatic(i.op) {
      StaticFine(sub, m, c, i, regs, ev);
    } else {
      VirtualFine(sub, m, c, i, regs, ev);
    }
  }

  /** Once a constructor has run, the one register that held its object fits as a reference. */
  lemma BuiltFits(sub: Subtype, m: Code, h: Heap, g: Heap, vals: seq<Value>, regs: Regs, r: nat)
    requires Loader(sub) && FitsAll(sub, h, vals, regs) && AtSites(m, regs)
    requires r < |regs| && regs[r].New? && Extends(h, g, {vals[r].addr})
    ensures FitsAll(sub, g, vals, Constructed(regs, regs[r], regs[r].cls))
  {
    var after := Constructed(regs, regs[r], regs[r].cls);
    forall s | 0 <= s < |regs| ensures Fits(sub, g, vals[s], after[s]) {
      if s != r {
        if regs[s].New? {
          assert MadeAt(m, regs[s], s) && MadeAt(m, regs[r], r);
        }
        FitsExtends(sub, h, g, {vals[r].addr}, vals[s], regs[s]);
      }
    }
  }

  lemma InitRuns(sub: Subtype, m: Code, c: Config, i: Insn, regs: Regs, ev: Event)
    requires Here(sub, m, c, i, regs, ev) && i.Invoke? && EffectOf(m, c.pc, i, regs, None).Some?
    requires m.ids.methods[i.idx].name == INIT && i.args != [] && i.args[0] < |regs|
    ensures Building(m, c, i) == {c.regs[i.args[0]].addr}
    ensures var callee := m.ids.methods[i.idx];
      Exec(sub, m, c, i, ev) ==
      Enter(c, i, callee.proto.ret, ev, Suited(sub, c, i.args[1..], callee.proto.params))
    ensures Matched(sub, m, regs, i) ==> Suited(sub, c, i.args[1..], m.ids.methods[i.idx].proto.params)
  {
    var params := m.ids.methods[i.idx].proto.params;
    ArgsFit(sub, m, c, regs, i.args[1..], params);
    ReadFits(sub, c, regs, i.args[0]);
    if Matched(sub, m, regs, i) {
      ArgsSuit(sub, m, c, regs, i.args[1..], params);
    }
  }

  /** A call that goes on: the answer is pending, and the registers fit the heap it left. */
  lemma AnsweredFine(sub: Subtype, m: Code, c: Config, i: Insn, regs: Regs, after: Regs, ev: Event)
    requires Here(sub, m, c, i, regs, ev) && i.Invoke? && i.idx < |m.ids.methods|
    requires FitsAll(sub, ev.heap, c.regs, after)
    ensures var ret := m.ids.methods[i.idx].proto.ret;
      Fine(sub, m, c, i, regs, Effect(after, ResultOf(ret)), AfterCall(c, i, ret, ev))
  {
  }

  lemma InitFine(sub: Subtype, m: Code, c: Config, i: Insn, regs: Regs, ev: Event)
    requires Here(sub, m, c, i, regs, ev) && i.Invoke? && EffectOf(m, c.pc, i, regs, None).Some?
    requires m.ids.methods[i.idx].name == INIT && AtSites(m, regs)
    ensures Fine(sub, m, c, i, regs, EffectOf(m, c.pc, i, regs, None).value, Exec(sub, m, c, i, ev))
  {
    InitEffect(m, c.pc, i, regs, None);
    InitRuns(sub, m, c, i, regs, ev);
    var made := regs[i.args[0]];
    assert Extends(c.heap, ev.heap, {c.regs[i.args[0]].addr});
    BuiltFits(sub, m, c.heap, ev.heap, c.regs, regs, i.args[0]);
    AnsweredFine(sub, m, c, i, regs, Constructed(regs, made, made.cls), ev);
  }

  /** Every instruction that passes its checks does as its effect says. */
  lemma ExecFine(sub: Subtype, m: Code, c: Config, i: Insn, regs: Regs, pending: Option<string>, ev: Event)
    requires Here(sub, m, c, i, regs, ev) && AtSites(m, regs) && Delivered(sub, c, i, pending)
    requires EffectOf(m, c.pc, i, regs, pending).Some? && Successors(c.pc, i).Some?
    ensures Fine(sub, m, c, i, regs, EffectOf(m, c.pc, i, regs, pending).value, Exec(sub, m, c, i, ev))
  {
    match i
    case Move(_, _, _) => MoveFine(sub, m, c, i, regs, ev);
    case MoveResult(_, _) => MoveResultFine(sub, m, c, i, regs, pending, ev);
    case ReturnVoid | Return(_, _) => ReturnFine(sub, m, c, i, regs, ev);
    case Const(_, _, _) | IntToByte(_, _) | Binop(_, _, _, _) | BinopLit8(_, _, _, _) =>
      IntFine(sub, m, c, i, regs, ev);
    case ConstString(_, _) | NewInstance(_, _) => AllocFine(sub, m, c, i, regs, ev);
    case CheckCast(_, _) => CastFine(sub, m, c, i, regs, ev);
    case ArrayLength(_, _) => LengthFine(sub, m, c, i, regs, ev);
    case NewArray(_, _, _) => NewArrayFine(sub, m, c, i, regs, ev);
    case Goto(_) => GotoFine(sub, m, c, i, regs, ev);
    case If2(_, _, _, _) | IfZ(_, _, _) => BranchFine(sub, m, c, i, regs, ev);
    case AGetObject(_, _, _) => AGetFine(sub, m, c, i, regs, ev);
    case APutObject(_, _, _) => APutObjectFine(sub, m, c, i, regs, ev);
    case APutByte(_, _, _) => APutByteFine(sub, m, c, i, regs, ev);
    case SGetObject(_, _) => SGetFine(sub, m, c, i, regs, ev);
    case Invoke(_, idx, _) =>
      if m.ids.methods[idx].name == INIT {
        InitFine(sub, m, c, i, regs, ev);
      } else {
        CallFine(sub, m, c, i, regs, ev);
      }
  }

  // ---------- runs ----------

  /** The machine is where the annotation says, holding what it says. */
  ghost predicate Agrees(sub: Subtype, m: Code, states: States, c: Config) {
    && c.pc >= 0 && c.pc in states
    && GoodHeap(sub, c.heap) && FitsAll(sub, c.heap, c.regs, states[c.pc].regs)
    && (IsMoveResult(m, c.pc) ==>
          states[c.pc].pending.Some? && c.result.Some? && Descriptor(states[c.pc].pending.value) &&
          Typed(sub, c.heap, c.result.value, states[c.pc].pending.value))
  }

  /** What a method hands back: nothing, an int, or a usable reference. */
  predicate GoodReturn(m: Code, h: Heap, v: Option<Value>) {
    if m.ret == "V" then v.None?
    else v.Some? && if IsPrim(m.ret) then v.value.Word? else IsRefValue(h, v.value)
  }

  predicate ReturnKind(m: Code, v: Option<Value>) {
    if m.ret == "V" then v.None?
    else v.Some? && if IsPrim(m.ret) then v.value.Word? else v.value == NULL || v.value.Ptr?
  }

  /** A call the states accept although they know an argument by a class its parameter does not admit. */
  ghost predicate MisfitAt(sub: Subtype, m: Code, states: States, at: int) {
    at >= 0 && at in states && Decode(m.units, at).Some? &&
    !Matched(sub, m, states[at].regs, Decode(m.units, at).value)
  }

  lemma StepAgrees(sub: Subtype, m: Code, states: States, c: Config, ev: Event)
    requires Loader(sub) && Tables(m.ids) && Inductive(m, states) && Agrees(sub, m, states, c) &&
      Conforming(sub, m, c, ev)
    ensures match Step(sub, m, c, ev)
            case Stuck => false
            case Misfit => MisfitAt(sub, m, states, c.pc)
            case Threw => true
            case Returned(v) => GoodReturn(m, c.heap, v)
            case Next(d) => Agrees(sub, m, states, d)
  {
    var e := states[c.pc];
    assert Settled(m, states, c.pc);
    var f := Transfer(m, c.pc, e.regs, e.pending).value;
    var i := Decode(m.units, c.pc).value;
    ExecFine(sub, m, c, i, e.regs, e.pending, ev);
    var o := Exec(sub, m, c, i, ev);
    if o.Next? {
      Lands(sub, m, states, c, i, f, o.c);
    }
  }

  lemma Lands(sub: Subtype, m: Code, states: States, c: Config, i: Insn, f: Flow, d: Config)
    requires Loader(sub) && Tables(m.ids) && Inductive(m, states) && c.pc >= 0 && c.pc in states
    requires Transfer(m, c.pc, states[c.pc].regs, states[c.pc].pending) == Some(f) && Decode(m.units, c.pc) == Some(i)
    requires Fine(sub, m, c, i, states[c.pc].regs, Effect(f.regs, f.result), Next(d))
    ensures Agrees(sub, m, states, d)
  {
    FlowResult(m, c.pc, states[c.pc].regs, states[c.pc].pending);
    assert Settled(m, states, c.pc);
    var k :| 0 <= k < |f.next| && f.next[k] == d.pc;
    assert Covered(m, states, f, f.next[k]);
    FitsAllBelow(sub, d.heap, d.regs, f.regs, states[d.pc].regs);
    if IsMoveResult(m, d.pc) {
      assert Settled(m, states, d.pc);
    }
  }

  ghost predicate AllConforming(sub: Subtype, m: Code, c: Config, evs: seq<Event>)
    decreases |evs|
  {
    evs == [] ||
    (Conforming(sub, m, c, evs[0]) &&
     (Step(sub, m, c, evs[0]).Next? ==> AllConforming(sub, m, Step(sub, m, c, evs[0]).c, evs[1..])))
  }

  /** A frame as a caller makes it: the arguments in the last registers, anything in the others. */
  ghost predicate Called(sub: Subtype, m: Code, c: Config) {
    && c.pc == 0 && GoodHeap(sub, c.heap) && |c.regs| == m.nregs && m.ins == |m.params| <= m.nregs
    && TypedAll(sub, c.heap, c.regs[m.nregs - m.ins..], m.params)
  }

  ghost predicate TypedAll(sub: Subtype, h: Heap, vals: seq<Value>, params: seq<string>) {
    |vals| == |params| && forall i :: 0 <= i < |params| ==> Typed(sub, h, vals[i], params[i])
  }

  lemma EntryFits(sub: Subtype, m: Code, h: Heap, vals: seq<Value>)
    requires m.ins == |m.params| <= m.nregs == |vals|
    requires TypedAll(sub, h, vals[m.nregs - m.ins..], m.params)
    ensures FitsAll(sub, h, vals, EntryRegs(m))
  {
    var regs, args := EntryRegs(m), vals[m.nregs - m.ins..];
    forall r | 0 <= r < |regs| ensures Fits(sub, h, vals[r], regs[r]) {
      var i := r - (m.nregs - m.ins);
      if i >= 0 {
        assert regs[r] == KindsOf(m.params)[i] && vals[r] == args[i];
        ArgumentFits(sub, h, args, m.params, i);
      }
    }
  }

  lemma ArgumentFits(sub: Subtype, h: Heap, args: seq<Value>, params: seq<string>, i: nat)
    requires TypedAll(sub, h, args, params) && i < |params|
    ensures Fits(sub, h, args[i], KindsOf(params)[i])
  {
  }

  lemma CalledAgrees(sub: Subtype, m: Code, states: States, c: Config)
    requires Loader(sub) && Inductive(m, states) && Called(sub, m, c)
    ensures Agrees(sub, m, states, c)
  {
    EntryFits(sub, m, c.heap, c.regs);
    FitsAllBelow(sub, c.heap, c.regs, EntryRegs(m), states[0].regs);
  }

  /** The run gets to a call the states know to be a misfit. */
  ghost predicate ReachesMisfit(sub: Subtype, m: Code, states: States, c: Config, evs: seq<Event>) {
    exists k :: 0 <= k < |evs| && Run(sub, m, c, evs[..k]).Next? &&
                MisfitAt(sub, m, states, Run(sub, m, c, evs[..k]).c.pc)
  }

  lemma ReachesLater(sub: Subtype, m: Code, states: States, c: Config, evs: seq<Event>)
    requires evs != [] && Step(sub, m, c, evs[0]).Next?
    requires ReachesMisfit(sub, m, states, Step(sub, m, c, evs[0]).c, evs[1..])
    ensures ReachesMisfit(sub, m, states, c, evs)
  {
    var d, rest := Step(sub, m, c, evs[0]).c, evs[1..];
    var k :| 0 <= k < |rest| && Run(sub, m, d, rest[..k]).Next? &&
             MisfitAt(sub, m, states, Run(sub, m, d, rest[..k]).c.pc);
    assert evs[..k + 1][0] == evs[0] && evs[..k + 1][1..] == rest[..k];
    assert Run(sub, m, c, evs[..k + 1]) == Run(sub, m, d, rest[..k]);
  }

  lemma {:induction false} RunAgrees(sub: Subtype, m: Code, states: States, c: Config, evs: seq<Event>)
    requires Loader(sub) && Tables(m.ids) && Inductive(m, states) && Agrees(sub, m, states, c)
    requires AllConforming(sub, m, c, evs)
    ensures !Run(sub, m, c, evs).Stuck?
    ensures Run(sub, m, c, evs).Misfit? ==> ReachesMisfit(sub, m, states, c, evs)
    ensures Run(sub, m, c, evs).Next? ==> Agrees(sub, m, states, Run(sub, m, c, evs).c)
    ensures Run(sub, m, c, evs).Returned? ==> ReturnKind(m, Run(sub, m, c, evs).v)
    decreases |evs|
  {
    if evs != [] {
      StepAgrees(sub, m, states, c, evs[0]);
      var o := Step(sub, m, c, evs[0]);
      if o.Next? {
        RunAgrees(sub, m, states, o.c, evs[1..]);
        if Run(sub, m, c, evs).Misfit? {
          ReachesLater(sub, m, states, c, evs);
        }
      } else if o.Misfit? {
        assert evs[..0] == [] && Run(sub, m, c, evs[..0]) == Next(c);
      }
    }
  }

  /**
   The verifier is sound: no run of an accepted method gets stuck, however long it is, and it is
   a misfit only at a call where a class the verifier knows is not the one demanded.
   */
  lemma AcceptedNeverStuck(sub: Subtype, m: Code, states: States, c: Config, evs: seq<Event>)
    requires Accepts(m, states) && Loader(sub) && Tables(m.ids)
    requires Called(sub, m, c) && AllConforming(sub, m, c, evs)
    ensures !Run(sub, m, c, evs).Stuck?
    ensures Run(sub, m, c, evs).Misfit? ==> ReachesMisfit(sub, m, states, c, evs)
    ensures Run(sub, m, c, evs).Returned? ==> ReturnKind(m, Run(sub, m, c, evs).v)
  {
    AcceptedIsInductive(m, states);
    CalledAgrees(sub, m, states, c);
    RunAgrees(sub, m, states, c, evs);
  }
}
