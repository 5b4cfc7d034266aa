/** Every section of a built dex file lies at the offset recorded for it. */
module DexSections {
  import opened Chunks
  import opened LittleEndian
  import opened DexVerify
  import opened DexTables
  import opened DexLayout
  import ByteText

  lemma EvenSize(rows: seq<Bytes>, w: nat)
    requires forall i :: 0 <= i < |rows| ==> |rows[i]| == w
    ensures |Concat(rows)| == |rows| * w
  {
    StartEven(rows, |rows|, w);
    StartEnd(rows);
  }

  lemma ListSize(t: seq<string>, params: seq<string>)
    ensures |TypeList(t, params)| == 4 + 2 * |params|
  {
    EvenSize(ParamRows(t, params), 2);
  }

  lemma Aligned(e: nat, n: nat)
    requires e % 4 == 0
    ensures ByteText.Up4(e + n) == e + ByteText.Up4(n)
  {
  }

  function ListRoom(params: seq<string>): nat {
    if params == [] then 0 else ByteText.Up4(4 + 2 * |params|)
  }

  lemma ListChunkSize(t: seq<string>, params: seq<string>)
    ensures |ListChunk(t, params)| == ListRoom(params) && |ListChunk(t, params)| % 4 == 0
  {
    hide TypeList;
    ListSize(t, params);
  }

  lemma ListsNext(ps: seq<Proto>, k: nat, o: nat)
    requires 0 < k <= |ps| && ListsEnd(ps, k - 1, o) % 4 == 0
    ensures ListsEnd(ps, k, o) == ListsEnd(ps, k - 1, o) + ListRoom(ps[k - 1].params)
  {
    Aligned(ListsEnd(ps, k - 1, o), 4 + 2 * |ps[k - 1].params|);
  }

  /** The offset added up for a type list is where it is put. */
  lemma {:induction false} ListsLie(p: Plan, k: nat)
    requires k <= |p.b.p|
    ensures ListsEnd(p.b.p, k, DataOff(p.b)) == DataOff(p.b) + Start(ListChunks(p), k)
    ensures ListsEnd(p.b.p, k, DataOff(p.b)) % 4 == 0
  {
    hide Start, ListChunk, ListsEnd, ListRoom;
    if k > 0 {
      ListsLie(p, k - 1);
      StartNext(ListChunks(p), k - 1);
      ListsNext(p.b.p, k, DataOff(p.b));
      ListChunkSize(p.b.t, p.b.p[k - 1].params);
    } else {
      NoChunks(ListChunks(p));
      NoLists(p.b.p, DataOff(p.b));
    }
  }

  lemma NoLists(ps: seq<Proto>, o: nat)
    ensures ListsEnd(ps, 0, o) == o
  {
  }

  lemma NoChunks(cs: seq<Bytes>)
    ensures Start(cs, 0) == 0
  {
  }

  lemma CodesNext(items: seq<Item>, k: nat, o: nat)
    requires 0 < k <= |items|
    ensures CodesEnd(items, k, o) == CodesEnd(items, k - 1, o) + ByteText.Up4(|Blob(items[k - 1])|)
  {
    hide Blob;
  }

  lemma {:induction false} CodesLie(p: Plan, k: nat)
    requires k <= |p.items|
    ensures CodeOff(p, k) == CodesOff(p) + Start(CodeChunks(p), k) && CodeOff(p, k) % 4 == 0
  {
    hide Blob, Start, CodesOff, Padded, CodesEnd;
    if k > 0 {
      CodesLie(p, k - 1);
      CodesNext(p.items, k, CodesOff(p));
      StartNext(CodeChunks(p), k - 1);
      assert |CodeChunks(p)[k - 1]| == ByteText.Up4(|Blob(p.items[k - 1])|);
    } else {
      NoCodes(p);
      NoChunks(CodeChunks(p));
    }
  }

  lemma NoCodes(p: Plan)
    ensures CodeOff(p, 0) == CodesOff(p) && CodesOff(p) % 4 == 0
  {
    hide ListsEnd;
  }

  lemma StringSize(s: string)
    requires Ascii(s) && |s| < 128
    ensures |StringData(s)| == 2 + |s| && StringData(s) == [|s|] + Encode(s) + [0]
  {
  }

  lemma {:induction false} StringsLie(p: Plan, k: nat)
    requires k <= |p.b.s| && forall i :: 0 <= i < |p.b.s| ==> |p.b.s[i]| < 128 && Ascii(p.b.s[i])
    ensures StringOff(p, k) == StringOff(p, 0) + Start(StringChunks(p), k)
  {
    hide Concat, CodeOff, StringData;
    if k > 0 {
      StringsLie(p, k - 1);
      StartNext(StringChunks(p), k - 1);
      StringSize(p.b.s[k - 1]);
    } else {
      NoChunks(StringChunks(p));
    }
  }

  /** The sizes of the id sections. */
  lemma IdSizes(p: Plan)
    ensures |Concat(StringRows(p))| == 4 * |p.b.s| && |Concat(TypeRows(p))| == 4 * |p.b.t| &&
      |Concat(ProtoRows(p))| == 12 * |p.b.p|
    ensures |Concat(FieldRows(p))| == 8 * |p.b.f| && |Concat(MethodRows(p))| == 8 * |p.b.m|
  {
    hide Concat;
    EvenSize(StringRows(p), 4);
    EvenSize(TypeRows(p), 4);
    EvenSize(ProtoRows(p), 12);
    EvenSize(FieldRows(p), 8);
    EvenSize(MethodRows(p), 8);
  }

  lemma Sizes(p: Plan)
    ensures var s := Body11(p);
      |s[0]| == 4 * |p.b.s| && |s[1]| == 4 * |p.b.t| && |s[2]| == 12 * |p.b.p| && |s[3]| == 8 * |p.b.f| &&
        |s[4]| == 8 * |p.b.m| && |s[5]| == 32
  {
    hide Concat, MapOf, ClassData, StringRows, TypeRows, ProtoRows, FieldRows, MethodRows, ClassDef;
    hide ListChunks, CodeChunks, StringChunks, MapRows;
    IdSizes(p);
  }

  /** Where each section is recorded to lie. */
  function Recorded(p: Plan, k: nat): nat
    requires k < 11
  {
    var so := HEADER;
    var to := so + 4 * |p.b.s|;
    var po := to + 4 * |p.b.t|;
    var fo := po + 12 * |p.b.p|;
    var mo := fo + 8 * |p.b.f|;
    if k == 0 then so else if k == 1 then to else if k == 2 then po else if k == 3 then fo else if k == 4 then mo
    else if k == 5 then mo + 8 * |p.b.m| else if k == 6 then DataOff(p.b) else if k == 7 then CodesOff(p)
      else if k == 8 then StringOff(p, 0)
    else if k == 9 then ClassOff(p) else MapOff(p)
  }

  /** Each section lies where it is recorded. */
  lemma SectionsLie(p: Plan, k: nat)
    requires k < 11 && forall i :: 0 <= i < |p.b.s| ==> |p.b.s[i]| < 128 && Ascii(p.b.s[i])
    ensures Recorded(p, k) == HEADER + Start(Body11(p), k)
  {
    hide Start, Body11, SectionBytes, CodesOff, StringOff, ClassOff, MapOff;
    Sizes(p);
    LateSizes(p);
    Starts(Body11(p), k);
  }

  /** The sizes of the sections of the data, against the offsets added up. */
  lemma LateSizes(p: Plan)
    requires forall i :: 0 <= i < |p.b.s| ==> |p.b.s[i]| < 128 && Ascii(p.b.s[i])
    ensures var s := Body11(p);
      && CodesOff(p) == DataOff(p.b) + |s[6]| && StringOff(p, 0) == CodesOff(p) + |s[7]|
      && ClassOff(p) == StringOff(p, 0) + |s[8]| && MapOff(p) == ClassOff(p) + |s[9]|
  {
    hide Concat, MapOf, ClassData, StringRows, TypeRows, ProtoRows, FieldRows, MethodRows, ClassDef;
    hide ListChunks, CodeChunks, StringChunks, MapRows;
    hide CodesOff, CodeOff, StringOff, ClassOff, MapOff, DataOff;
    CodesBegin(p);
    StringsBegin(p);
    ClassBegins(p);
    MapBegins(p);
  }

  lemma CodesBegin(p: Plan)
    ensures CodesOff(p) == DataOff(p.b) + |Concat(ListChunks(p))| && CodesOff(p) % 4 == 0
  {
    hide Concat, ListChunks, ListsEnd, DataOff;
    ListsLie(p, |p.b.p|);
    StartEnd(ListChunks(p));
  }

  lemma StringsBegin(p: Plan)
    ensures StringOff(p, 0) == CodesOff(p) + |Concat(CodeChunks(p))| && StringOff(p, 0) % 4 == 0
  {
    hide Concat, CodeChunks, CodesOff, CodesEnd;
    CodesLie(p, |p.items|);
    StartEnd(CodeChunks(p));
  }

  lemma ClassBegins(p: Plan)
    requires forall i :: 0 <= i < |p.b.s| ==> |p.b.s[i]| < 128 && Ascii(p.b.s[i])
    ensures ClassOff(p) == StringOff(p, 0) + |Padded(Concat(StringChunks(p)))| && ClassOff(p) % 4 == 0
  {
    hide Concat, StringChunks, StringOff;
    StringsLie(p, |p.b.s|);
    StartEnd(StringChunks(p));
    StringsBegin(p);
    Aligned(StringOff(p, 0), |Concat(StringChunks(p))|);
  }

  lemma ClassEven(p: Plan)
    ensures ClassOff(p) % 4 == 0
  {
    hide StringOff;
  }

  lemma MapBegins(p: Plan)
    ensures MapOff(p) == ClassOff(p) + |Padded(ClassData(p))| && MapOff(p) % 4 == 0
  {
    hide ClassData, ClassOff, Padded;
    ClassEven(p);
    Aligned(ClassOff(p), |ClassData(p)|);
  }

  /** Starts, added up one by one. */
  lemma Starts(s: seq<Bytes>, k: nat)
    requires |s| == 11 && k < 11
    ensures Start(s, 0) == 0
    ensures k > 0 ==> Start(s, k) == Start(s, k - 1) + |s[k - 1]|
    ensures Start(s, 1) == |s[0]| && Start(s, 2) == |s[0]| + |s[1]| && Start(s, 3) == |s[0]| + |s[1]| + |s[2]|
    ensures Start(s, 4) == Start(s, 3) + |s[3]| && Start(s, 5) == Start(s, 4) + |s[4]| &&
      Start(s, 6) == Start(s, 5) + |s[5]|
    ensures Start(s, 7) == Start(s, 6) + |s[6]| && Start(s, 8) == Start(s, 7) + |s[7]| &&
      Start(s, 9) == Start(s, 8) + |s[8]|
    ensures Start(s, 10) == Start(s, 9) + |s[9]|
  {
    hide Start;
    StartNext(s, 0);
    StartNext(s, 1);
    StartNext(s, 2);
    StartNext(s, 3);
    StartNext(s, 4);
    StartNext(s, 5);
    StartNext(s, 6);
    StartNext(s, 7);
    StartNext(s, 8);
    StartNext(s, 9);
  }

  /** The file is a header of 112 bytes and the sections. */
  lemma FileParts(h: Hashes, p: Plan)
    requires ValidHashes(h)
    ensures var d := File(h, p);
      && |d| == HEADER + |Concat(Body11(p))| && d[HEADER..] == Concat(Body11(p))
      && d[..8] == MAGIC && d[12..32] == h.sha1(d[32..]) && d[8..12] == U(h.adler(d[12..]), 4)
      && d[32..HEADER] == Concat(WordRows(Words(p, |d|)))
  {
    hide Concat, Body11, Words;
    var size := HEADER + |Concat(Body11(p))|;
    var words := Concat(WordRows(Words(p, size)));
    EvenSize(WordRows(Words(p, size)), 4);
    var signed := words + Concat(Body11(p));
    var summed := h.sha1(signed) + signed;
    var d := File(h, p);
    assert |h.sha1(signed)| == 20;
    assert d == (MAGIC + U(h.adler(summed), 4)) + summed;
    assert d[12..] == summed && summed[20..] == signed;
    assert d[32..] == d[12..][20..];
    assert d[HEADER..] == d[32..][80..] == signed[80..];
    assert d[32..HEADER] == d[32..][..80];
    assert d[12..32] == d[12..][..20];
  }

  /** A stretch of a section, in the file. */
  lemma InSection(h: Hashes, p: Plan, k: nat, x: nat, n: nat)
    requires ValidHashes(h) && k < 11 && x + n <= |SectionBytes(p, k)|
    requires forall i :: 0 <= i < |p.b.s| ==> |p.b.s[i]| < 128 && Ascii(p.b.s[i])
    ensures var d, at := File(h, p), Recorded(p, k) + x; at + n <= |d| && d[at..at + n] == SectionBytes(p, k)[x..x + n]
  {
    hide Concat, Body11, SectionBytes, File, Recorded;
    FileParts(h, p);
    SectionsLie(p, k);
    ConcatWithin(Body11(p), k, x, n);
    var d, at := File(h, p), Recorded(p, k) + x;
    Inner(d, HEADER, |d|, at - HEADER, at - HEADER + n);
    assert d[HEADER..|d|] == d[HEADER..];
  }
}
