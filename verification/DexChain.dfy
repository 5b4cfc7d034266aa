/**
 The whole tool chain: what read accepts never gets stuck, and so the lines a program was
 assembled from do not, run as they are written.
 */
module DexChain {
  import opened Wrappers
  import opened DexCode
  import opened DexVerify
  import opened DexMachine
  import DexAsm
  import DexAssembler
  import DexTables
  import DexLayout
  import DexReader
  import opened DexSound
  import DexRename
  import DexWriter
  import opened DexBuild

  // ---------- any file read accepts ----------

  /** Each method of a file read is one of its class, and passed verify. */
  ghost predicate Vetted(b: DexTables.Tables, me: string, c: DexReader.Coded) {
    c.id < |b.m| && b.m[c.id].cls == me && DexReader.Passes(b, me, b.m[c.id].proto, c.item)
  }

  lemma {:induction false} MethodsVetted(
    d: DexLayout.Bytes, b: DexTables.Tables, me: string, first: nat, n: nat, o: nat, idx: nat)
    requires DexReader.MethodsRead(d, b, me, first, n, o, idx).Some?
    ensures forall c :: c in DexReader.MethodsRead(d, b, me, first, n, o, idx).value ==> Vetted(b, me, c)
  {
    hide DexReader.Passes, DexReader.ItemAt, DexReader.UlebAt;
    if n > 0 {
      var (diff, o1) := DexReader.UlebAt(d, o).value;
      var (access, o2) := DexReader.UlebAt(d, o1).value;
      var (co, o3) := DexReader.UlebAt(d, o2).value;
      MethodsVetted(d, b, me, first, n - 1, o3, idx + diff);
    }
  }

  /** No run of a method of a file read accepts gets stuck. */
  lemma ReadNeverStuck(
    h: DexLayout.Hashes, d: DexLayout.Bytes, me: string, count: nat, k: nat, sub: Subtype, c: Config, evs: seq<Event>)
    requires DexReader.Read(h, d, me, count).Some? && k < |DexReader.Read(h, d, me, count).value.code|
    ensures var r := DexReader.Read(h, d, me, count).value; r.code[k].id < |r.ids.m|
    ensures var r := DexReader.Read(h, d, me, count).value;
      var m := DexReader.MethodCode(r.ids, r.ids.m[r.code[k].id].proto, r.code[k].item);
      Loader(sub) && Tables(m.ids) && Called(sub, m, c) && AllConforming(sub, m, c, evs) ==>
        !Run(sub, m, c, evs).Stuck?
  {
    hide DexReader.HeadWords, DexReader.HeadOk, DexReader.MapRead, DexReader.MapOk, DexReader.IdsRead;
    hide DexReader.MethodsRead, DexReader.OwnCalls, Loader, Tables, Called, AllConforming, Run, Accepts;
    var r := DexReader.Read(h, d, me, count).value;
    ReadVetted(h, d, me, count);
    var x := r.code[k];
    assert Vetted(r.ids, me, x);
    var m := DexReader.MethodCode(r.ids, r.ids.m[x.id].proto, x.item);
    if Loader(sub) && Tables(m.ids) && Called(sub, m, c) && AllConforming(sub, m, c, evs) {
      var states :| Accepts(m, states);
      AcceptedNeverStuck(sub, m, states, c, evs);
    }
  }

  lemma ReadVetted(h: DexLayout.Hashes, d: DexLayout.Bytes, me: string, count: nat)
    requires DexReader.Read(h, d, me, count).Some?
    ensures var r := DexReader.Read(h, d, me, count).value; forall c :: c in r.code ==> Vetted(r.ids, me, c)
  {
    hide DexReader.HeadWords, DexReader.HeadOk, DexReader.MapRead, DexReader.MapOk, DexReader.IdsRead;
    hide DexReader.MethodsRead, Vetted;
    var b := DexReader.Read(h, d, me, count).value.ids;
    forall first, n, o | DexReader.MethodsRead(d, b, me, first, n, o, 0).Some?
      ensures forall c :: c in DexReader.MethodsRead(d, b, me, first, n, o, 0).value ==> Vetted(b, me, c)
    {
      MethodsVetted(d, b, me, first, n, o, 0);
    }
  }

  // ---------- what the assembler emitted ----------

  /** The body is what an assembler holds after the lines of the listing, its branches patched. */
  ghost predicate EmittedAs(l: DexRename.Listing, code: DexAsm.Body) {
    && DexAsm.AllWritable(l.prog, l.frame) && code.nregs == l.frame.nregs && code.ins == l.frame.ins
    && var bs := DexAsm.BlocksOf(l.prog, l.frame);
       DexAsm.Patch(DexAsm.Flat(bs), DexAsm.Slots(bs), l.labels) == Some(code.units)
  }

  /** That is what the assembler object has emitted. */
  lemma AssemblerEmits(a: DexWriter.Assembler, index: DexAsm.Index)
    requires a.Valid() && a.Patched().Some?
    ensures EmittedAs(DexRename.Listing(a.prog, a.frame, a.labels, index), a.Patched().value)
  {
    hide DexAsm.Flat, DexAsm.Slots, DexAsm.Patch;
  }

  lemma EmittedCode(l: DexRename.Listing, code: DexAsm.Body)
    requires EmittedAs(l, code) && DexAsm.PackBody(code, l.index).Some?
    ensures var item := DexAsm.PackBody(code, l.index).value;
      && item.nregs == l.frame.nregs && item.ins == l.frame.ins
      && DexAssembler.CodeOf(l.prog, l.frame, l.labels, l.index, item.units)
  {
    hide DexAsm.Flat, DexAsm.Slots, DexAsm.Patch, DexAsm.PackUnits, DexAssembler.CodeOf, DexAssembler.Unresolved;
    DexAssembler.Assembles(l.prog, l.frame, l.labels, l.index);
  }

  /** A frame as its author sees it: the arguments in the first registers. */
  ghost predicate CalledLogically(sub: Subtype, l: DexRename.Listing, params: seq<string>, c: Config) {
    && c.pc == 0 && GoodHeap(sub, c.heap) && |c.regs| == l.frame.nregs && l.frame.ins <= l.frame.nregs
    && TypedAll(sub, c.heap, c.regs[..l.frame.ins], params)
  }

  /**
   A program emitted line by line, built, and accepted by read: no method gets stuck, run as its
   lines are written, on registers in the author's order.
   */
  lemma AssembledNeverStuck(
    h: DexLayout.Hashes, prog: DexTables.Program, codes: Codes, k: nat, l: DexRename.Listing, m: Code,
    sub: Subtype, c: Config, evs: seq<Event>)
    requires DexLayout.ValidHashes(h) && Build(h, prog, codes).Some? && PlanOf(prog, codes).Some?
    requires DexReader.Read(h, Build(h, prog, codes).value, prog.me, |prog.own|).Some?
    requires k < |codes| && EmittedAs(l, codes[k].1) && l.index == Indexer(prog, PlanOf(prog, codes).value.b)
    requires IsMethod(prog, PlanOf(prog, codes).value.b, codes[k], m)
    requires Loader(sub) && Tables(m.ids) && CalledLogically(sub, l, m.params, c)
    requires AllConforming(sub, m, DexRename.TurnConfig(c, l.frame.ins), evs)
    ensures !DexRename.ListingRun(sub, m, l, c, evs).Stuck?
    ensures var o := DexRename.ListingRun(sub, m, l, c, evs); o.Returned? ==> ReturnKind(m, o.v)
  {
    hide DexReader.Read, PlanOf, Build, Loader, Tables, AllConforming, Run, DexReader.OwnCalls, Accepts;
    hide DexAsm.PackBody, DexRename.ListingRun, EmittedAs, DexAssembler.CodeOf, DexAsm.AllWritable, GoodHeap;
    BuiltReads(h, prog, codes);
    assert CodePasses(prog, PlanOf(prog, codes).value.b, codes[k]);
    EmittedCode(l, codes[k].1);
    var states :| Accepts(m, states);
    assert DexAsm.AllWritable(l.prog, l.frame) by { EmittedWritable(l, codes[k].1); }
    TurnedCalled(sub, l, m, c);
    AcceptedNeverStuck(sub, m, states, DexRename.TurnConfig(c, l.frame.ins), evs);
    DexRename.AssemblyPreservesMeaning(sub, m, l, c, evs);
  }

  /** m is what verify is given of a method of the program. */
  ghost predicate IsMethod(prog: DexTables.Program, b: DexTables.Tables, code: (string, DexAsm.Body), m: Code) {
    var id, item := DexTables.MethodNamed(prog, code.0), DexAsm.PackBody(code.1, Indexer(prog, b));
    id.Some? && item.Some? && m == DexReader.MethodCode(b, id.value.proto, item.value)
  }

  lemma EmittedWritable(l: DexRename.Listing, code: DexAsm.Body)
    requires EmittedAs(l, code)
    ensures DexAsm.AllWritable(l.prog, l.frame)
  {
  }

  lemma TurnedCalled(sub: Subtype, l: DexRename.Listing, m: Code, c: Config)
    requires CalledLogically(sub, l, m.params, c) && m.nregs == l.frame.nregs && m.ins == l.frame.ins
    ensures Called(sub, m, DexRename.TurnConfig(c, l.frame.ins))
  {
    hide GoodHeap, TypedAll;
    DexRename.ArgumentsFirst(c.regs, l.frame.ins);
    TypedLength(sub, c.heap, c.regs[..l.frame.ins], m.params);
  }

  lemma TypedLength(sub: Subtype, h: Heap, vals: seq<Value>, params: seq<string>)
    requires TypedAll(sub, h, vals, params)
    ensures |vals| == |params|
  {
  }
}
