/** From a program and its code to the dex file, and back. */
module DexBuild {
  import opened Wrappers
  import opened Ordering
  import opened Chunks
  import opened LittleEndian
  import opened DexVerify
  import opened DexAsm
  import DexAssembler
  import opened DexTables
  import opened DexLayout
  import opened DexSections
  import opened DexReader
  import opened DexRoundTrip

  type Codes = seq<(string, Body)>

  function NamesOf(codes: Codes): (r: seq<string>)
    ensures |r| == |codes| && forall k :: 0 <= k < |r| ==> r[k] == codes[k].0
  {
    seq(|codes|, k requires 0 <= k < |codes| => codes[k].0)
  }

  predicate Distinct(xs: seq<string>) {
    forall i, j :: 0 <= i < j < |xs| ==> xs[i] != xs[j]
  }

  function OwnNames(prog: Program): (r: seq<string>)
    ensures |r| == |prog.own| && forall k :: 0 <= k < |r| ==> r[k] == prog.own[k].0
  {
    seq(|prog.own|, k requires 0 <= k < |prog.own| => prog.own[k].0)
  }

  /** Code for each of the program's methods and for nothing else, as the two sorted lists of names compare. */
  predicate NamesMatch(prog: Program, codes: Codes) {
    Distinct(NamesOf(codes)) && (forall x :: x in NamesOf(codes) ==> x in OwnNames(prog)) &&
      forall x :: x in OwnNames(prog) ==> x in NamesOf(codes)
  }

  /** What Program asks: no method of ours named like a key. */
  predicate Proper(prog: Program) {
    forall x :: x in OwnNames(prog) ==> x !in prog.methods
  }

  function MethodSyms(names: seq<string>): (r: seq<Sym>)
    ensures |r| == |names| && forall k :: 0 <= k < |r| ==> r[k] == Sym("method", names[k])
  {
    seq(|names|, k requires 0 <= k < |names| => Sym("method", names[k]))
  }

  function CodeRefs(codes: Codes): seq<Sym> {
    if codes == [] then [] else Refs(codes[0].1.units) + CodeRefs(codes[1..])
  }

  /** The names of the first pass: the program's own methods, the superclass, and whatever the code names. */
  function AllSyms(prog: Program, codes: Codes): seq<Sym> {
    MethodSyms(OwnNames(prog)) + [Sym("type", OBJECT)] + CodeRefs(codes)
  }

  function PackAll(codes: Codes, index: Index): (r: Option<seq<Item>>)
    ensures r.Some? ==> |r.value| == |codes| && forall k :: 0 <= k < |codes| ==>
      PackBody(codes[k].1, index) == Some(r.value[k])
  {
    if codes == [] then Some([])
    else
      var i :- PackBody(codes[0].1, index);
      var rest :- PackAll(codes[1..], index);
      Some([i] + rest)
  }

  function Indexer(prog: Program, b: Tables): Index {
    (sym: Sym) => IndexOf(prog, b, sym)
  }

  function IdOf(prog: Program, b: Tables, name: string): nat {
    match IndexOf(prog, b, Sym("method", name))
    case Some(i) => i
    case None => |b.m|
  }

  function IdsOf(prog: Program, b: Tables, names: seq<string>): (r: seq<nat>)
    ensures |r| == |names|
    ensures forall k :: 0 <= k < |r| ==> r[k] == IdOf(prog, b, names[k])
  {
    seq(|names|, k requires 0 <= k < |names| => IdOf(prog, b, names[k]))
  }

  /** The assertions of Tables. */
  predicate Limits(b: Tables) {
    |b.s| < 0x10000 && |b.m| < 0x10000 && forall k :: 0 <= k < |b.s| ==> |b.s[k]| < 128
  }

  /**
   What build makes of its arguments before it lays the file out; None where an assertion fails or a
   look-up raises.
   */
  function PlanOf(prog: Program, codes: Codes): Option<Plan> {
    var _ :- Need(Proper(prog) && NamesMatch(prog, codes) && codes != []);
    var q :- WithSyms(prog, EMPTY, AllSyms(prog, codes));
    var b := TablesOf(q);
    var _ :- Need(Limits(b) && |b.p| <= 0x10000 && forall k :: 0 <= k < |b.s| ==> Ascii(b.s[k]));
    var items :- PackAll(codes, Indexer(prog, b));
    Some(Plan(prog.me, b, NamesOf(codes), IdsOf(prog, b, NamesOf(codes)), items))
  }

  /** build; None also for a file of 2^32 bytes, whose offsets do not fit. */
  function Build(h: Hashes, prog: Program, codes: Codes): Option<Bytes> {
    var p :- PlanOf(prog, codes);
    var _ :- Need(|File(h, p)| < Pow256(4));
    Some(File(h, p))
  }

  // ---------- the bytes, appended one after the other ----------

  /** out += row, for each row. */
  method Extend(out: Bytes, rows: seq<Bytes>) returns (r: Bytes)
    ensures r == out + Concat(rows)
  {
    r := out;
    var i := 0;
    assert rows[..0] == [];
    while i < |rows|
      invariant 0 <= i <= |rows| && r == out + Concat(rows[..i])
    {
      assert rows[..i + 1] == rows[..i] + [rows[i]];
      ConcatAppend(rows[..i], [rows[i]]);
      ConcatOne(rows[i]);
      r := r + rows[i];
      i := i + 1;
    }
    assert rows[..|rows|] == rows;
  }

  /** The sections, behind room for the header. */
  method Serialize(p: Plan) returns (out: Bytes)
    ensures out == Zeros(HEADER) + Concat(Body11(p))
  {
    hide SectionBytes;
    out := Zeros(HEADER);
    var k := 0;
    assert Body11(p)[..0] == [];
    while k < 11
      invariant 0 <= k <= 11 && out == Zeros(HEADER) + Concat(Body11(p)[..k])
    {
      assert Body11(p)[..k + 1] == Body11(p)[..k] + [Body11(p)[k]];
      ConcatAppend(Body11(p)[..k], [Body11(p)[k]]);
      ConcatOne(Body11(p)[k]);
      out := AppendSection(out, p, k);
      k := k + 1;
    }
    assert Body11(p)[..11] == Body11(p);
  }

  method AppendSection(out: Bytes, p: Plan, k: nat) returns (r: Bytes)
    requires k < 11
    ensures r == out + SectionBytes(p, k)
  {
    hide Concat, ClassData, MapOf;
    if k == 0 {
      r := Extend(out, StringRows(p));
    } else if k == 1 {
      r := Extend(out, TypeRows(p));
    } else if k == 2 {
      r := Extend(out, ProtoRows(p));
    } else if k == 3 {
      r := Extend(out, FieldRows(p));
    } else if k == 4 {
      r := Extend(out, MethodRows(p));
    } else if k == 5 {
      r := out + ClassDef(p);
    } else if k == 6 {
      r := Extend(out, ListChunks(p));
    } else if k == 7 {
      r := Extend(out, CodeChunks(p));
    } else if k == 8 {
      var s := Extend([], StringChunks(p));
      r := out + Padded(s);
    } else if k == 9 {
      r := out + Padded(ClassData(p));
    } else {
      r := Extend(out + U(|MapOf(p)|, 4), MapRows(MapOf(p)));
    }
  }

  /** The signature over what follows it, the checksum over what follows that, and the magic, put in front. */
  method Sign(h: Hashes, file: Bytes) returns (out: Bytes)
    requires ValidHashes(h) && |file| >= 32
    ensures var summed := h.sha1(file[32..]) + file[32..]; out == MAGIC + U(h.adler(summed), 4) + summed
  {
    hide U;
    ghost var signed := file[32..];
    assert |h.sha1(signed)| == 20;
    out := file[..12] + h.sha1(file[32..]) + file[32..];
    ghost var summed := h.sha1(signed) + signed;
    assert out[12..] == summed;
    out := out[..8] + U(h.adler(out[12..]), 4) + out[12..];
    assert out[8..] == U(h.adler(summed), 4) + summed;
    out := MAGIC + out[8..];
    assert out == MAGIC + U(h.adler(summed), 4) + summed;
  }

  /** build's bytearray: the sections appended, then the header patched. */
  method WriteFile(h: Hashes, p: Plan) returns (out: Bytes)
    requires ValidHashes(h)
    ensures out == File(h, p)
  {
    hide Body11, Words, Concat, U;
    out := Serialize(p);
    assert out[HEADER..] == Concat(Body11(p));
    ghost var rows := WordRows(Words(p, |out|));
    var words := Extend([], WordRows(Words(p, |out|)));
    EvenSize(rows, 4);
    assert words == Concat(rows);
    out := out[..32] + words + out[HEADER..];
    assert out[32..] == words + Concat(Body11(p));
    out := Sign(h, out);
  }

  // ---------- names resolve ----------

  lemma EmptyClosed()
    ensures Closed(EMPTY)
  {
  }

  /** Whatever the first pass collected the second finds, at the entry the name stands for. */
  lemma PassesAgree(prog: Program, codes: Codes, k: nat)
    requires WithSyms(prog, EMPTY, AllSyms(prog, codes)).Some? && k < |AllSyms(prog, codes)|
    ensures var b, sym := TablesOf(WithSyms(prog, EMPTY, AllSyms(prog, codes)).value), AllSyms(prog, codes)[k];
      IndexOf(prog, b, sym).Some? && Names(prog, b, sym, IndexOf(prog, b, sym).value)
  {
    hide TablesOf, WithSyms, Closed, Within, IndexOf, Names, AllSyms;
    EmptyClosed();
    var syms := AllSyms(prog, codes);
    var q := WithSyms(prog, EMPTY, syms).value;
    SymsKeep(prog, EMPTY, syms);
    WithinSelf(q);
    AllResolve(prog, EMPTY, syms, q);
  }

  lemma {:induction false} RefIn(units: seq<Unit>, j: nat) returns (k: nat)
    requires j < |units| && units[j].Ref?
    ensures k < |Refs(units)| && Refs(units)[k] == units[j].sym
  {
    if j == 0 {
      k := 0;
    } else {
      var i := RefIn(units[1..], j - 1);
      k := i + if units[0].Ref? then 1 else 0;
    }
  }

  lemma {:induction false} CodeRefIn(codes: Codes, c: nat, j: nat) returns (k: nat)
    requires c < |codes| && j < |codes[c].1.units| && codes[c].1.units[j].Ref?
    ensures k < |CodeRefs(codes)| && CodeRefs(codes)[k] == codes[c].1.units[j].sym
  {
    if c == 0 {
      k := RefIn(codes[0].1.units, j);
    } else {
      var i := CodeRefIn(codes[1..], c - 1, j);
      k := |Refs(codes[0].1.units)| + i;
    }
  }

  /** Every id named by code in the first pass resolves in the second to the table entry it names. */
  lemma CodeResolves(prog: Program, codes: Codes, c: nat, j: nat)
    requires WithSyms(prog, EMPTY, AllSyms(prog, codes)).Some?
    requires c < |codes| && j < |codes[c].1.units| && codes[c].1.units[j].Ref?
    ensures var b, sym := TablesOf(WithSyms(prog, EMPTY, AllSyms(prog, codes)).value), codes[c].1.units[j].sym;
      IndexOf(prog, b, sym).Some? && Names(prog, b, sym, IndexOf(prog, b, sym).value)
  {
    hide TablesOf, WithSyms, IndexOf, Names;
    var k := CodeRefIn(codes, c, j);
    var front := MethodSyms(OwnNames(prog)) + [Sym("type", OBJECT)];
    assert AllSyms(prog, codes)[|front| + k] == CodeRefs(codes)[k];
    PassesAgree(prog, codes, |front| + k);
  }

  /** A program's own method is found at its id, with the program's class. */
  lemma OwnResolves(prog: Program, codes: Codes, name: string)
    requires WithSyms(prog, EMPTY, AllSyms(prog, codes)).Some? && name in OwnNames(prog) && Proper(prog)
    ensures var b := TablesOf(WithSyms(prog, EMPTY, AllSyms(prog, codes)).value);
      var i := IndexOf(prog, b, Sym("method", name));
      i.Some? && i.value < |b.m| && MethodNamed(prog, name) == Some(b.m[i.value]) && b.m[i.value].cls == prog.me &&
        b.m[i.value].name == name
  {
    hide TablesOf, WithSyms;
    var j :| 0 <= j < |OwnNames(prog)| && OwnNames(prog)[j] == name;
    assert AllSyms(prog, codes)[j] == Sym("method", name);
    PassesAgree(prog, codes, j);
  }

  lemma ObjectResolves(prog: Program, codes: Codes)
    requires WithSyms(prog, EMPTY, AllSyms(prog, codes)).Some?
    ensures OBJECT in TablesOf(WithSyms(prog, EMPTY, AllSyms(prog, codes)).value).t
  {
    hide TablesOf, WithSyms;
    var j := |OwnNames(prog)|;
    assert AllSyms(prog, codes)[j] == Sym("type", OBJECT);
    PassesAgree(prog, codes, j);
  }

  lemma PackedFits(codes: Codes, index: Index)
    requires PackAll(codes, index).Some?
    ensures forall k :: 0 <= k < |codes| ==> Fits(PackAll(codes, index).value[k])
  {
    hide PackAll, PackUnits;
    forall k | 0 <= k < |codes| ensures Fits(PackAll(codes, index).value[k]) {
      assert PackBody(codes[k].1, index) == Some(PackAll(codes, index).value[k]);
    }
  }

  /** A plan build makes is sound. */
  lemma PlanSound(prog: Program, codes: Codes)
    requires PlanOf(prog, codes).Some?
    ensures Sound(PlanOf(prog, codes).value)
  {
    hide TablesOf, WithSyms, AllSyms, PackAll, IndexOf, Closed, Sorted, MethodNamed, Ascii;
    var p := PlanOf(prog, codes).value;
    var q := WithSyms(prog, EMPTY, AllSyms(prog, codes)).value;
    EmptyClosed();
    SymsKeep(prog, EMPTY, AllSyms(prog, codes));
    TablesSorted(q);
    PackedFits(codes, Indexer(prog, p.b));
    ObjectResolves(prog, codes);
    forall k | 0 <= k < |codes|
      ensures p.ids[k] < |p.b.m| && p.b.m[p.ids[k]].cls == p.me && p.b.m[p.ids[k]].name == p.names[k]
    {
      assert p.names[k] in NamesOf(codes);
      OwnResolves(prog, codes, p.names[k]);
    }
    ClassInTypes(q, p.b, p.ids[0]);
  }

  lemma ClassInTypes(q: Pool, b: Tables, i: nat)
    requires Closed(q) && Sorted(q, b) && i < |b.m|
    ensures b.m[i].cls in b.t
  {
    hide Ascending;
    assert b.m[i] in b.m;
  }

  // ---------- build, then read ----------

  /** The code passes the checks read makes of the method it is for, against the tables of the file. */
  ghost predicate CodePasses(prog: Program, b: Tables, code: (string, Body)) {
    var m, item := MethodNamed(prog, code.0), PackBody(code.1, Indexer(prog, b));
    m.Some? && item.Some? && Passes(b, prog.me, m.value.proto, item.value)
  }

  /**
   Reading what build made: it succeeds exactly if the program lists no method twice and the code
   of each one passes: a frame read takes, a body verify accepts, and static calls of the own class.
   */
  lemma BuiltReads(h: Hashes, prog: Program, codes: Codes)
    requires ValidHashes(h) && Build(h, prog, codes).Some?
    ensures PlanOf(prog, codes).Some?
    ensures var b, r := PlanOf(prog, codes).value.b, Read(h, Build(h, prog, codes).value, prog.me, |prog.own|);
      r.Some? <==> Distinct(OwnNames(prog)) && forall k :: 0 <= k < |codes| ==> CodePasses(prog, b, codes[k])
  {
    hide Read, PlanOf, File, CodedOf, Entries, Sound, PassesAs, CodePasses, Distinct, OwnNames;
    var p := PlanOf(prog, codes).value;
    BuiltGood(h, prog, codes);
    ReadsBack(h, p, |prog.own|);
    GoodSound(h, p);
    CodeReadBack(p);
    PlanParts(prog, codes);
    ListedOnce(prog, codes);
    forall k | 0 <= k < |codes| ensures PassesAs(p, p.ids[k], p.items[k]) <==> CodePasses(prog, p.b, codes[k]) {
      PassesWhere(prog, codes, k);
    }
  }

  lemma PassesWhere(prog: Program, codes: Codes, k: nat)
    requires PlanOf(prog, codes).Some? && k < |codes|
    ensures var p := PlanOf(prog, codes).value;
      |p.ids| == |p.items| == |codes| &&
      (PassesAs(p, p.ids[k], p.items[k]) <==> CodePasses(prog, p.b, codes[k]))
  {
    hide PlanOf, PackBody, MethodNamed, Passes;
    PlanParts(prog, codes);
    MethodReadAs(prog, codes, k);
  }

  function Elements(xs: seq<string>): set<string> {
    set x | x in xs
  }

  /** A list without repetitions is as long as the set of its elements, any other is longer. */
  lemma {:induction false} DistinctSize(xs: seq<string>)
    ensures |Elements(xs)| <= |xs|
    ensures |Elements(xs)| == |xs| <==> Distinct(xs)
  {
    if xs == [] {
      assert Elements(xs) == {};
    } else {
      var n := |xs| - 1;
      DistinctSize(xs[..n]);
      assert xs == xs[..n] + [xs[n]];
      assert Elements(xs) == Elements(xs[..n]) + {xs[n]};
      if Distinct(xs) {
        assert xs[n] !in xs[..n];
      } else if Distinct(xs[..n]) {
        assert xs[n] in xs[..n];
      }
    }
  }

  /** There is code for each name once, so the program lists as many names only if it repeats none. */
  lemma ListedOnce(prog: Program, codes: Codes)
    requires PlanOf(prog, codes).Some?
    ensures |prog.own| == |codes| <==> Distinct(OwnNames(prog))
  {
    hide TablesOf, WithSyms, AllSyms, PackAll;
    var own, names := OwnNames(prog), NamesOf(codes);
    assert Elements(own) == Elements(names);
    DistinctSize(own);
    DistinctSize(names);
  }

  lemma GoodSound(h: Hashes, p: Plan)
    requires Good(h, p)
    ensures Sound(p)
  {
  }

  lemma BuiltGood(h: Hashes, prog: Program, codes: Codes)
    requires ValidHashes(h) && Build(h, prog, codes).Some?
    ensures PlanOf(prog, codes).Some? && Good(h, PlanOf(prog, codes).value)
    ensures Build(h, prog, codes).value == File(h, PlanOf(prog, codes).value)
  {
    hide PlanOf, File, Sound, Concat, Body11;
    PlanSound(prog, codes);
    FileParts(h, PlanOf(prog, codes).value);
  }

  lemma PlanParts(prog: Program, codes: Codes)
    requires PlanOf(prog, codes).Some?
    ensures var p := PlanOf(prog, codes).value;
      && p.me == prog.me && |p.items| == |p.ids| == |p.names| == |codes|
      && (forall k :: 0 <= k < |codes| ==> p.names[k] == codes[k].0)
      && forall k :: 0 <= k < |codes| ==> PackBody(codes[k].1, Indexer(prog, p.b)) == Some(p.items[k])
  {
    hide TablesOf, WithSyms, AllSyms, PackAll, IndexOf, PackBody;
  }

  /**
   The tables read are those build sorted, and the code read is each method's own, under the id of
   that method, every number as it was and every name the entry it stands for.
   */
  lemma BuiltReadsBack(h: Hashes, prog: Program, codes: Codes)
    requires ValidHashes(h) && Build(h, prog, codes).Some?
    requires Read(h, Build(h, prog, codes).value, prog.me, |prog.own|).Some?
    ensures PlanOf(prog, codes).Some?
    ensures var p, r := PlanOf(prog, codes).value, Read(h, Build(h, prog, codes).value, prog.me, |prog.own|).value;
      && r.ids == p.b && |r.code| == |codes|
      && forall k :: 0 <= k < |codes| ==> exists c :: c in r.code && ReadAs(prog, p.b, codes[k], c)
  {
    hide Read, PlanOf, File, CodedOf, Entries, Sound, ReadAs, PassesAs;
    var p := PlanOf(prog, codes).value;
    BuiltGood(h, prog, codes);
    ReadsBack(h, p, |prog.own|);
    GoodSound(h, p);
    CodeReadBack(p);
    PlanParts(prog, codes);
    var code := CodedOf(p, Entries(p)).value;
    forall k | 0 <= k < |codes| ensures exists c :: c in code && ReadAs(prog, p.b, codes[k], c) {
      var c := Coded(p.ids[k], if p.names[k] == "main" then 9 else 8, p.items[k]);
      MethodReadAs(prog, codes, k);
      assert c in code;
    }
  }

  /** A unit read is the number that was to be written, or the place of the entry that was named. */
  ghost predicate UnitReadAs(prog: Program, b: Tables, u: Unit, n: nat) {
    match u
    case Lit(m) => n == m
    case Ref(sym) => Names(prog, b, sym, n)
  }

  /** An entry read stands for a named body: its id is that method's in the table, its code the body's, packed. */
  ghost predicate ReadAs(prog: Program, b: Tables, code: (string, Body), c: Coded) {
    && c.id < |b.m| && MethodNamed(prog, code.0) == Some(b.m[c.id])
    && c.access == (if code.0 == "main" then 9 else 8)
    && PackBody(code.1, Indexer(prog, b)) == Some(c.item)
    && |c.item.units| == |code.1.units|
    && forall j :: 0 <= j < |c.item.units| ==> UnitReadAs(prog, b, code.1.units[j], c.item.units[j])
  }

  lemma MethodReadAs(prog: Program, codes: Codes, k: nat)
    requires PlanOf(prog, codes).Some? && k < |codes|
    ensures var p := PlanOf(prog, codes).value;
      |p.ids| == |p.names| == |p.items| == |codes| &&
      ReadAs(prog, p.b, codes[k], Coded(p.ids[k], if p.names[k] == "main" then 9 else 8, p.items[k]))
  {
    hide TablesOf, WithSyms, AllSyms, PackAll, IndexOf, PackBody, MethodNamed, UnitReadAs;
    PlanParts(prog, codes);
    assert NamesOf(codes)[k] in NamesOf(codes);
    OwnResolves(prog, codes, codes[k].0);
    var p := PlanOf(prog, codes).value;
    PackBodyUnits(codes[k].1, Indexer(prog, p.b));
    forall j | 0 <= j < |p.items[k].units|
      ensures UnitReadAs(prog, p.b, codes[k].1.units[j], p.items[k].units[j])
    {
      UnitReads(prog, codes, k, j);
    }
  }

  lemma PackBodyUnits(code: Body, index: Index)
    requires PackBody(code, index).Some?
    ensures PackUnits(code.units, index) == Some(PackBody(code, index).value.units)
    ensures |PackBody(code, index).value.units| == |code.units|
  {
    hide PackUnits;
  }

  lemma UnitReads(prog: Program, codes: Codes, k: nat, j: nat)
    requires PlanOf(prog, codes).Some? && k < |codes| && j < |codes[k].1.units|
    requires PackBody(codes[k].1, Indexer(prog, PlanOf(prog, codes).value.b)).Some?
    ensures var b := PlanOf(prog, codes).value.b; var item := PackBody(codes[k].1, Indexer(prog, b)).value;
      |item.units| == |codes[k].1.units| && UnitReadAs(prog, b, codes[k].1.units[j], item.units[j])
  {
    hide TablesOf, WithSyms, AllSyms, PackAll, PackUnits, IndexOf, Names;
    var b := PlanOf(prog, codes).value.b;
    PackBodyUnits(codes[k].1, Indexer(prog, b));
    DexAssembler.UnitsPacked(codes[k].1.units, Indexer(prog, b));
    if codes[k].1.units[j].Ref? {
      CodeResolves(prog, codes, k, j);
    }
  }
}
