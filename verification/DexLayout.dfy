/**
 The dex file that tools/dexasm.py builds: its sections, the offsets recorded for them, and
 the bytes put together from them.
 */
module DexLayout {
  import opened Wrappers
  import opened Ordering
  import opened Chunks
  import opened LittleEndian
  import opened DexCode
  import opened DexVerify
  import opened DexAsm
  import opened DexTables
  import ByteText

  type Bytes = seq<byte>
  type Item = DexAsm.Item

  /** SHA-1 and Adler-32. */
  datatype Hashes = Hashes(sha1: Bytes -> Bytes, adler: Bytes -> nat)

  ghost predicate ValidHashes(h: Hashes) {
    forall d {:trigger h.sha1(d)} {:trigger h.adler(d)} :: |h.sha1(d)| == 20 && h.adler(d) < Pow256(4)
  }

  function U(n: nat, w: nat): (r: Bytes)
    ensures |r| == w
  {
    EncodeLittleEndian(n, w)
  }

  function Padded(b: Bytes): (r: Bytes)
    ensures |r| == ByteText.Up4(|b|) && r[..|b|] == b
  {
    b + Zeros(ByteText.Up4(|b|) - |b|)
  }

  // ---------- code ----------

  function Refs(units: seq<Unit>): seq<Sym> {
    if units == [] then [] else (if units[0].Ref? then [units[0].sym] else []) + Refs(units[1..])
  }

  function UnitRows(units: seq<unit>): (r: seq<Bytes>)
    ensures |r| == |units| && forall i :: 0 <= i < |r| ==> r[i] == U(units[i], 2) && |r[i]| == 2
  {
    seq(|units|, i requires 0 <= i < |units| => U(units[i], 2))
  }

  /** A code item: its header, and its units. */
  function Blob(c: Item): Bytes {
    U(c.nregs, 2) + U(c.ins, 2) + U(c.outs, 2) + U(0, 2) + U(0, 4) + U(|c.units|, 4) + Concat(UnitRows(c.units))
  }

  lemma BlobLength(c: Item)
    ensures |Blob(c)| == 16 + 2 * |c.units|
  {
    StartEven(UnitRows(c.units), |c.units|, 2);
    StartEnd(UnitRows(c.units));
  }

  // ---------- what goes into the file ----------

  /** The tables, and the methods' names and code in the order of the file. */
  datatype Plan = Plan(me: string, b: Tables, names: seq<string>, ids: seq<nat>, items: seq<Item>)

  /** Every id in the tables is made of entries of the tables, and every number fits its field. */
  ghost predicate Sound(p: Plan) {
    && (exists q :: Closed(q) && Sorted(q, p.b))
    && p.me in p.b.t && OBJECT in p.b.t
    && |p.names| == |p.ids| == |p.items| > 0
    && (forall k :: 0 <= k < |p.ids| ==> p.ids[k] < |p.b.m| && p.b.m[p.ids[k]].cls == p.me)
    && (forall j, k :: 0 <= j < k < |p.ids| ==> p.ids[j] != p.ids[k])
    && (forall k :: 0 <= k < |p.b.s| ==> |p.b.s[k]| < 128 && Ascii(p.b.s[k]))
    && |p.b.s| < 0x10000 && |p.b.m| < 0x10000 && |p.b.p| <= 0x10000
    && forall k :: 0 <= k < |p.items| ==> Fits(p.items[k])
  }

  predicate Fits(c: Item) {
    c.nregs < 0x10000 && c.ins < 0x10000 && c.outs < 0x10000 && |c.units| < 0x1_0000_0000
  }

  predicate Ascii(s: string) {
    forall k :: 0 <= k < |s| ==> s[k] as int < 128
  }

  // ---------- offsets, as build adds them up ----------

  const HEADER := 112

  function DataOff(b: Tables): nat {
    HEADER + 4 * |b.s| + 4 * |b.t| + 12 * |b.p| + 8 * |b.f| + 8 * |b.m| + 32
  }

  /** o behind the type lists of the first k prototypes. */
  function ListsEnd(ps: seq<Proto>, k: nat, o: nat): nat
    requires k <= |ps|
  {
    if k == 0 then o
    else
      var e := ListsEnd(ps, k - 1, o);
      if ps[k - 1].params == [] then e else ByteText.Up4(e + 4 + 2 * |ps[k - 1].params|)
  }

  function ListOff(p: Plan, k: nat): nat
    requires k < |p.b.p|
  {
    if p.b.p[k].params == [] then 0 else ListsEnd(p.b.p, k, DataOff(p.b))
  }

  function CodesEnd(items: seq<Item>, k: nat, o: nat): nat
    requires k <= |items|
  {
    if k == 0 then o else CodesEnd(items, k - 1, o) + ByteText.Up4(|Blob(items[k - 1])|)
  }

  function CodesOff(p: Plan): nat {
    ByteText.Up4(ListsEnd(p.b.p, |p.b.p|, DataOff(p.b)))
  }

  function CodeOff(p: Plan, k: nat): nat
    requires k <= |p.items|
  {
    CodesEnd(p.items, k, CodesOff(p))
  }

  function StringsEnd(ss: seq<string>, k: nat, o: nat): nat
    requires k <= |ss|
  {
    if k == 0 then o else StringsEnd(ss, k - 1, o) + 2 + |ss[k - 1]|
  }

  function StringOff(p: Plan, k: nat): nat
    requires k <= |p.b.s|
  {
    StringsEnd(p.b.s, k, CodeOff(p, |p.items|))
  }

  function ClassOff(p: Plan): nat {
    ByteText.Up4(StringOff(p, |p.b.s|))
  }

  function MapOff(p: Plan): nat {
    ByteText.Up4(ClassOff(p) + |ClassData(p)|)
  }

  // ---------- class data ----------

  function Uleb(n: nat): (r: Bytes)
    ensures r != []
  {
    if n < 128 then [n] else [n % 128 + 128] + Uleb(n / 128)
  }

  datatype Method = Method(id: nat, access: nat, off: nat)

  function Methods(p: Plan): (r: seq<Method>)
    requires |p.names| == |p.ids| == |p.items|
    ensures |r| == |p.ids|
    ensures forall k :: 0 <= k < |r| ==> r[k] == Method(p.ids[k], if p.names[k] == "main" then 9 else 8, CodeOff(p, k))
  {
    seq(|p.ids|, k requires 0 <= k < |p.ids| => Method(p.ids[k], if p.names[k] == "main" then 9 else 8, CodeOff(p, k)))
  }

  function ById(): Method -> Key {
    (m: Method) => [m.id, m.access, m.off]
  }

  /** The methods' ids as differences, their access and code offsets. */
  function Encoded(ms: seq<Method>, prev: nat): Bytes {
    if ms == [] then []
    else
      var diff := if ms[0].id >= prev then ms[0].id - prev else 0;
      Uleb(diff) + Uleb(ms[0].access) + Uleb(ms[0].off) + Encoded(ms[1..], ms[0].id)
  }

  function ClassData(p: Plan): Bytes {
    if |p.names| == |p.ids| == |p.items| then
      Uleb(0) + Uleb(0) + Uleb(|p.ids|) + Uleb(0) + Encoded(SortBy(Methods(p), ById()), 0)
    else []
  }

  // ---------- sections ----------

  function StringRows(p: Plan): (r: seq<Bytes>)
    ensures |r| == |p.b.s| && forall i :: 0 <= i < |r| ==> r[i] == U(StringOff(p, i), 4) && |r[i]| == 4
  {
    seq(|p.b.s|, i requires 0 <= i < |p.b.s| => U(StringOff(p, i), 4))
  }

  function TypeRows(p: Plan): (r: seq<Bytes>)
    ensures |r| == |p.b.t| && forall i :: 0 <= i < |r| ==> r[i] == U(Place(p.b.s, p.b.t[i]), 4) && |r[i]| == 4
  {
    seq(|p.b.t|, i requires 0 <= i < |p.b.t| => U(Place(p.b.s, p.b.t[i]), 4))
  }

  function ProtoRow(p: Plan, i: nat): (r: Bytes)
    requires i < |p.b.p|
    ensures |r| == 12
  {
    U(Place(p.b.s, Shorty(p.b.p[i])), 4) + U(Place(p.b.t, p.b.p[i].ret), 4) + U(ListOff(p, i), 4)
  }

  function ProtoRows(p: Plan): (r: seq<Bytes>)
    ensures |r| == |p.b.p| && forall i :: 0 <= i < |r| ==> r[i] == ProtoRow(p, i) && |r[i]| == 12
  {
    seq(|p.b.p|, i requires 0 <= i < |p.b.p| => ProtoRow(p, i))
  }

  function FieldRow(p: Plan, f: FieldId): (r: Bytes)
    ensures |r| == 8
  {
    U(Place(p.b.t, f.cls), 2) + U(Place(p.b.t, f.desc), 2) + U(Place(p.b.s, f.name), 4)
  }

  function FieldRows(p: Plan): (r: seq<Bytes>)
    ensures |r| == |p.b.f| && forall i :: 0 <= i < |r| ==> r[i] == FieldRow(p, p.b.f[i]) && |r[i]| == 8
  {
    seq(|p.b.f|, i requires 0 <= i < |p.b.f| => FieldRow(p, p.b.f[i]))
  }

  function MethodRow(p: Plan, m: MethodId): (r: Bytes)
    ensures |r| == 8
  {
    U(Place(p.b.t, m.cls), 2) + U(Place(p.b.p, m.proto), 2) + U(Place(p.b.s, m.name), 4)
  }

  function MethodRows(p: Plan): (r: seq<Bytes>)
    ensures |r| == |p.b.m| && forall i :: 0 <= i < |r| ==> r[i] == MethodRow(p, p.b.m[i]) && |r[i]| == 8
  {
    seq(|p.b.m|, i requires 0 <= i < |p.b.m| => MethodRow(p, p.b.m[i]))
  }

  function ClassDef(p: Plan): (r: Bytes)
    ensures |r| == 32
  {
    U(Place(p.b.t, p.me), 4) + U(1, 4) + U(Place(p.b.t, OBJECT), 4) + U(0, 4) + U(0xFFFFFFFF, 4) + U(0, 4)
      + U(ClassOff(p), 4) + U(0, 4)
  }

  function ParamRows(t: seq<string>, params: seq<string>): (r: seq<Bytes>)
    ensures |r| == |params| && forall i :: 0 <= i < |r| ==> r[i] == U(Place(t, params[i]), 2) && |r[i]| == 2
  {
    seq(|params|, i requires 0 <= i < |params| => U(Place(t, params[i]), 2))
  }

  function TypeList(t: seq<string>, params: seq<string>): Bytes {
    U(|params|, 4) + Concat(ParamRows(t, params))
  }

  function ListChunk(t: seq<string>, params: seq<string>): Bytes {
    if params == [] then [] else Padded(TypeList(t, params))
  }

  function ListChunks(p: Plan): (r: seq<Bytes>)
    ensures |r| == |p.b.p| && forall i :: 0 <= i < |r| ==> r[i] == ListChunk(p.b.t, p.b.p[i].params)
  {
    seq(|p.b.p|, i requires 0 <= i < |p.b.p| => ListChunk(p.b.t, p.b.p[i].params))
  }

  function CodeChunks(p: Plan): (r: seq<Bytes>)
    ensures |r| == |p.items| && forall i :: 0 <= i < |r| ==> r[i] == Padded(Blob(p.items[i]))
  {
    seq(|p.items|, i requires 0 <= i < |p.items| => Padded(Blob(p.items[i])))
  }

  function Encode(s: string): (r: Bytes)
    requires Ascii(s)
    ensures |r| == |s| && forall k :: 0 <= k < |s| ==> r[k] == s[k] as int
  {
    seq(|s|, k requires 0 <= k < |s| => s[k] as int)
  }

  function StringData(s: string): Bytes {
    if Ascii(s) then Uleb(|s|) + Encode(s) + [0] else []
  }

  function StringChunks(p: Plan): (r: seq<Bytes>)
    ensures |r| == |p.b.s| && forall i :: 0 <= i < |r| ==> r[i] == StringData(p.b.s[i])
  {
    seq(|p.b.s|, i requires 0 <= i < |p.b.s| => StringData(p.b.s[i]))
  }

  // ---------- the map ----------

  datatype Section = Section(kind: nat, size: nat, off: nat)

  function FieldsOff(p: Plan): nat {
    if p.b.f == [] then 0 else HEADER + 4 * |p.b.s| + 4 * |p.b.t| + 12 * |p.b.p|
  }

  function WithParams(ps: seq<Proto>): nat {
    if ps == [] then 0 else (if ps[0].params == [] then 0 else 1) + WithParams(ps[1..])
  }

  function If(c: bool, s: Section): seq<Section> {
    if c then [s] else []
  }

  /** The map's entries; the order they are listed in is that of their offsets. */
  function MapOf(p: Plan): seq<Section> {
    var b := p.b;
    var so := HEADER;
    var to := so + 4 * |b.s|;
    var po := to + 4 * |b.t|;
    var fo := po + 12 * |b.p|;
    var mo := fo + 8 * |b.f|;
    var co := mo + 8 * |b.m|;
    [Section(0, 1, 0)] + If(b.s != [], Section(1, |b.s|, so)) + If(b.t != [], Section(2, |b.t|, to))
      + If(b.p != [], Section(3, |b.p|, po))
    + If(b.f != [], Section(4, |b.f|, fo)) + If(b.m != [], Section(5, |b.m|, mo)) + [Section(6, 1, co)]
    + If(WithParams(b.p) > 0, Section(0x1001, WithParams(b.p), DataOff(b)))
    + [Section(0x2001, |p.items|, CodesOff(p)), Section(0x2002, |b.s|, StringOff(p, 0)),
      Section(0x2000, 1, ClassOff(p)), Section(0x1000, 1, MapOff(p))]
  }

  function MapRow(s: Section): (r: Bytes)
    ensures |r| == 12
  {
    U(s.kind, 2) + U(0, 2) + U(s.size, 4) + U(s.off, 4)
  }

  function MapRows(es: seq<Section>): (r: seq<Bytes>)
    ensures |r| == |es| && forall i :: 0 <= i < |r| ==> r[i] == MapRow(es[i]) && |r[i]| == 12
  {
    seq(|es|, i requires 0 <= i < |es| => MapRow(es[i]))
  }

  // ---------- the file ----------

  /** What lies behind the header: the id sections, the class, and the data. */
  function SectionBytes(p: Plan, k: nat): Bytes {
    if k == 0 then Concat(StringRows(p))
    else if k == 1 then Concat(TypeRows(p))
    else if k == 2 then Concat(ProtoRows(p))
    else if k == 3 then Concat(FieldRows(p))
    else if k == 4 then Concat(MethodRows(p))
    else if k == 5 then ClassDef(p)
    else if k == 6 then Concat(ListChunks(p))
    else if k == 7 then Concat(CodeChunks(p))
    else if k == 8 then Padded(Concat(StringChunks(p)))
    else if k == 9 then Padded(ClassData(p))
    else U(|MapOf(p)|, 4) + Concat(MapRows(MapOf(p)))
  }

  function Body11(p: Plan): (r: seq<Bytes>)
    ensures |r| == 11 && forall k :: 0 <= k < 11 ==> r[k] == SectionBytes(p, k)
  {
    seq(11, k requires 0 <= k < 11 => SectionBytes(p, k))
  }

  function Words(p: Plan, size: nat): (r: seq<nat>)
    ensures |r| == 20
  {
    var b := p.b;
    var to := HEADER + 4 * |b.s|;
    var po := to + 4 * |b.t|;
    var mo := po + 12 * |b.p| + 8 * |b.f|;
    [size, HEADER, 0x12345678, 0, 0, MapOff(p),
     |b.s|, HEADER, |b.t|, to, |b.p|, po, |b.f|, FieldsOff(p), |b.m|, mo, 1, mo + 8 * |b.m|,
     if size >= DataOff(b) then size - DataOff(b) else 0, DataOff(b)]
  }

  function WordRows(ws: seq<nat>): (r: seq<Bytes>)
    ensures |r| == |ws| && forall i :: 0 <= i < |r| ==> r[i] == U(ws[i], 4) && |r[i]| == 4
  {
    seq(|ws|, i requires 0 <= i < |ws| => U(ws[i], 4))
  }

  const MAGIC: Bytes := [0x64, 0x65, 0x78, 0x0a, 0x30, 0x33, 0x35, 0]

  /** The file: magic, checksum and signature over what follows them, the header's words, and the sections. */
  function File(h: Hashes, p: Plan): Bytes {
    var signed := Concat(WordRows(Words(p, HEADER + |Concat(Body11(p))|))) + Concat(Body11(p));
    var summed := h.sha1(signed) + signed;
    MAGIC + U(h.adler(summed), 4) + summed
  }
}
