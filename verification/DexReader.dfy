/** The reader of dex files in tools/dexasm.py: its layout and order checks, the tables and the code it finds. */
module DexReader {
  import opened Wrappers
  import opened Ordering
  import opened LittleEndian
  import opened DexCode
  import opened DexVerify
  import opened DexTables
  import opened DexLayout
  import DexAsm

  /** What was read: the tables, and each method's id, access and code in the order of the class data. */
  datatype Parsed = Parsed(ids: Tables, code: seq<Coded>)
  datatype Coded = Coded(id: nat, access: nat, item: Item)

  /** A list built in a loop that any element can end. */
  function Gather<T>(n: nat, f: nat -> Option<T>): (r: Option<seq<T>>)
    ensures r.Some? ==> |r.value| == n
  {
    if n == 0 then Some([])
    else
      var front :- Gather(n - 1, f);
      var last :- f(n - 1);
      Some(front + [last])
  }

  function Pick<T>(xs: seq<T>, i: nat): Option<T> {
    if i < |xs| then Some(xs[i]) else None
  }

  // ---------- header and map ----------

  function WordsFrom(d: Bytes, o: nat): nat -> Option<nat> { (i: nat) => Word(d, o + 4 * i, 4) }

  function HeadWords(d: Bytes): (r: Option<seq<nat>>)
    ensures r.Some? ==> |r.value| == 20
  {
    Gather(20, WordsFrom(d, 32))
  }

  predicate HeadOk(h: Hashes, d: Bytes, ws: seq<nat>)
    requires |ws| == 20
  {
    && |d| >= HEADER && d[..8] == MAGIC && ws[0] == |d| && ws[1] == HEADER && ws[2] == 0x12345678
    && Word(d, 8, 4) == Some(h.adler(d[12..])) && h.sha1(d[32..]) == d[12..32]
  }

  function MapAt(d: Bytes, o: nat): Option<Section> {
    var kind :- Word(d, o, 2);
    var size :- Word(d, o + 4, 4);
    var off :- Word(d, o + 8, 4);
    Some(Section(kind, size, off))
  }

  function MapFrom(d: Bytes, o: nat): nat -> Option<Section> { (i: nat) => MapAt(d, o + 12 * i) }

  function MapRead(d: Bytes, o: nat): Option<seq<Section>> {
    var n :- Word(d, o, 4);
    Gather(n, MapFrom(d, o + 4))
  }

  /** where: the last entry of its kind. */
  function Where(es: seq<Section>, kind: nat): Option<Section> {
    if es == [] then None
    else if es[|es| - 1].kind == kind then Some(es[|es| - 1])
    else Where(es[..|es| - 1], kind)
  }

  predicate Counted(es: seq<Section>, kind: nat, size: nat) {
    Where(es, kind).Some? && Where(es, kind).value.size == size
  }

  /** An id section is where the map has it; an empty one has neither an offset nor an entry. */
  predicate IdSection(es: seq<Section>, kind: nat, size: nat, off: nat) {
    if size == 0 then off == 0 && Where(es, kind).None? else Where(es, kind) == Some(Section(kind, size, off))
  }

  predicate MapOk(es: seq<Section>, ws: seq<nat>)
    requires |ws| == 20
  {
    && (forall i :: 0 < i < |es| ==> es[i - 1].off <= es[i].off)
    && Counted(es, 1, ws[6]) && Counted(es, 2, ws[8]) && Counted(es, 3, ws[10]) && Counted(es, 5, ws[14])
    && Counted(es, 6, ws[16])
    && Counted(es, 0x1000, 1)
    && IdSection(es, 1, ws[6], ws[7]) && IdSection(es, 2, ws[8], ws[9]) && IdSection(es, 3, ws[10], ws[11])
    && IdSection(es, 4, ws[12], ws[13]) && IdSection(es, 5, ws[14], ws[15]) && IdSection(es, 6, ws[16], ws[17])
  }

  // ---------- ids ----------

  predicate AsciiBytes(b: Bytes) {
    forall k :: 0 <= k < |b| ==> b[k] < 128
  }

  function Decoded(b: Bytes): string {
    seq(|b|, k requires 0 <= k < |b| => b[k] as char)
  }

  function StringAt(d: Bytes, row: nat): Option<string> {
    var o :- Word(d, row, 4);
    var l :- Word(d, o, 1);
    var end :- Word(d, o + 1 + l, 1);
    var s := d[o + 1..o + 1 + l];
    if end == 0 && AsciiBytes(s) then Some(Decoded(s)) else None
  }

  function TypeNamed(d: Bytes, types: seq<string>, o: nat, w: nat): Option<string> {
    var i :- Word(d, o, w);
    Pick(types, i)
  }

  function NamedFrom(d: Bytes, names: seq<string>, o: nat, w: nat): nat -> Option<string> {
    (i: nat) => TypeNamed(d, names, o + w * i, w)
  }

  function ParamsAt(d: Bytes, types: seq<string>, o: nat): Option<seq<string>> {
    if o == 0 then Some([])
    else
      var n :- Word(d, o, 4);
      Gather(n, NamedFrom(d, types, o + 4, 2))
  }

  function ProtoAt(d: Bytes, types: seq<string>, o: nat): Option<Proto> {
    var _ :- Word(d, o, 4);
    var ret :- TypeNamed(d, types, o + 4, 4);
    var list :- Word(d, o + 8, 4);
    var params :- ParamsAt(d, types, list);
    Some(Proto(ret, params))
  }

  function FieldAt(d: Bytes, strs: seq<string>, types: seq<string>, o: nat): Option<FieldId> {
    var cls :- TypeNamed(d, types, o, 2);
    var desc :- TypeNamed(d, types, o + 2, 2);
    var name :- TypeNamed(d, strs, o + 4, 4);
    Some(FieldId(cls, desc, name))
  }

  function MethodAt(d: Bytes, strs: seq<string>, types: seq<string>, protos: seq<Proto>, o: nat): Option<MethodId> {
    var cls :- TypeNamed(d, types, o, 2);
    var i :- Word(d, o + 2, 2);
    var proto :- Pick(protos, i);
    var name :- TypeNamed(d, strs, o + 4, 4);
    Some(MethodId(cls, proto, name))
  }

  predicate InOrder(ks: seq<Key>) {
    forall i :: 0 < i < |ks| ==> !Less(ks[i], ks[i - 1])
  }

  function AllChars(ss: seq<string>): (r: seq<Key>)
    ensures |r| == |ss| && forall k :: 0 <= k < |r| ==> r[k] == Chars(ss[k])
  {
    seq(|ss|, k requires 0 <= k < |ss| => Chars(ss[k]))
  }

  predicate Rising(ns: seq<nat>) {
    forall i :: 0 < i < |ns| ==> ns[i - 1] <= ns[i]
  }

  function StringsFrom(d: Bytes, o: nat): nat -> Option<string> { (i: nat) => StringAt(d, o + 4 * i) }
  function ProtosFrom(d: Bytes, types: seq<string>, o: nat): nat -> Option<Proto> {
    (i: nat) => ProtoAt(d, types, o + 12 * i)
  }
  function FieldsFrom(d: Bytes, strs: seq<string>, types: seq<string>, o: nat): nat -> Option<FieldId> {
    (i: nat) => FieldAt(d, strs, types, o + 8 * i)
  }
  function MethodsFrom(d: Bytes, strs: seq<string>, types: seq<string>, protos: seq<Proto>, o: nat)
    : nat -> Option<MethodId>
  {
    (i: nat) => MethodAt(d, strs, types, protos, o + 8 * i)
  }

  /** The tables, by the header's counts and offsets. */
  function IdsRead(d: Bytes, ws: seq<nat>): Option<Tables>
    requires |ws| == 20
  {
    var strs :- Gather(ws[6], StringsFrom(d, ws[7]));
    var _ :- Need(InOrder(AllChars(strs)));
    var tids :- Gather(ws[8], WordsFrom(d, ws[9]));
    var _ :- Need(Rising(tids));
    var types :- Gather(ws[8], NamedFrom(d, strs, ws[9], 4));
    var protos :- Gather(ws[10], ProtosFrom(d, types, ws[11]));
    var fields :- Gather(ws[12], FieldsFrom(d, strs, types, ws[13]));
    var methods :- Gather(ws[14], MethodsFrom(d, strs, types, protos, ws[15]));
    Some(Tables(strs, types, protos, fields, methods))
  }

  // ---------- class data and code ----------

  /** uleb_at: the number at o and where it ends. */
  function UlebAt(d: Bytes, o: nat): (r: Option<(nat, nat)>)
    ensures r.Some? ==> o < r.value.1 <= |d|
    decreases |d| - o
  {
    if o >= |d| then None
    else if d[o] < 128 then Some((d[o], o + 1))
    else
      var (n, end) :- UlebAt(d, o + 1);
      Some((d[o] - 128 + 128 * n, end))
  }

  function UnitsFrom(d: Bytes, o: nat): nat -> Option<unit> { (k: nat) => UnitAt(d, o + 2 * k) }

  function ItemAt(d: Bytes, o: nat): Option<Item> {
    var regs :- Word(d, o, 2);
    var ins :- Word(d, o + 2, 2);
    var outs :- Word(d, o + 4, 2);
    var tries :- Word(d, o + 6, 2);
    var debug :- Word(d, o + 8, 4);
    var n :- Word(d, o + 12, 4);
    var _ :- Need(tries == 0 && debug == 0);
    var units :- Gather(n, UnitsFrom(d, o + 16));
    Some(DexAsm.Item.Item(regs, ins, outs, units))
  }

  function UnitAt(d: Bytes, o: nat): Option<unit> {
    var n :- Word(d, o, 2);
    if n < 0x10000 then Some(n) else None
  }

  /** What read asks of a method's frame. */
  predicate Runs(c: Item) {
    c.ins <= c.nregs <= 16 && c.outs <= 6
  }

  /** A method read, as verify is given it. */
  function MethodCode(b: Tables, proto: Proto, c: Item): Code {
    Code(c.units, c.nregs, c.ins, c.outs, proto.params, proto.ret, Ids(|b.s|, b.t, b.f, b.m))
  }

  /** A call of a method of the file's own class is a static one. */
  predicate OwnCall(b: Tables, me: string, i: Insn) {
    i.Invoke? ==> i.idx < |b.m| && (b.m[i.idx].cls == me ==> IsStatic(i.op))
  }

  /** So is every one in the code, reached or not. */
  predicate OwnCalls(b: Tables, me: string, units: seq<unit>) {
    Sweep(units, 0).Some? &&
    forall at :: at in Sweep(units, 0).value && Decode(units, at).Some? ==> OwnCall(b, me, Decode(units, at).value)
  }

  /** What read asks of a method's code: a frame it takes, verify's consent, and static calls of its own class. */
  ghost predicate Passes(b: Tables, me: string, proto: Proto, c: Item) {
    Runs(c) && (exists states :: Accepts(MethodCode(b, proto, c), states)) && OwnCalls(b, me, c.units)
  }

  /** The methods of the class data from o on, ids counted up from idx. */
  ghost function MethodsRead(d: Bytes, b: Tables, me: string, first: nat, n: nat, o: nat, idx: nat)
    : Option<seq<Coded>>
  {
    if n == 0 then Some([])
    else
      var (diff, o1) :- UlebAt(d, o);
      var (access, o2) :- UlebAt(d, o1);
      var (co, o3) :- UlebAt(d, o2);
      var m :- Pick(b.m, idx + diff);
      var _ :- Need(m.cls == me && access / 8 % 2 == 1 && first <= co < |d|);
      var item :- ItemAt(d, co);
      var _ :- Need(Passes(b, me, m.proto, item));
      var rest :- MethodsRead(d, b, me, first, n - 1, o3, idx + diff);
      Some([Coded(idx + diff, access, item)] + rest)
  }

  /** The class: its name, and no fields and no virtual methods beside the direct ones, count in number. */
  ghost function CodeRead(d: Bytes, b: Tables, me: string, count: nat, cdo: nat, first: nat): Option<seq<Coded>> {
    var o :- Word(d, cdo + 24, 4);
    var (statics, o1) :- UlebAt(d, o);
    var (fields, o2) :- UlebAt(d, o1);
    var (direct, o3) :- UlebAt(d, o2);
    var (virtuals, o4) :- UlebAt(d, o3);
    var _ :- Need(statics == 0 && fields == 0 && virtuals == 0 && direct == count);
    var cls :- TypeNamed(d, b.t, cdo, 4);
    var _ :- Need(cls == me);
    MethodsRead(d, b, me, first, direct, o4, 0)
  }

  /** read: None where an assertion fails or a look-up raises. */
  ghost function Read(h: Hashes, d: Bytes, me: string, count: nat): Option<Parsed> {
    var ws :- HeadWords(d);
    var _ :- Need(HeadOk(h, d, ws));
    var es :- MapRead(d, ws[5]);
    var _ :- Need(MapOk(es, ws));
    var b :- IdsRead(d, ws);
    var codes :- Where(es, 0x2001);
    var _ :- Need(ws[16] == 1);
    var code :- CodeRead(d, b, me, count, ws[17], codes.off);
    Some(Parsed(b, code))
  }
}
