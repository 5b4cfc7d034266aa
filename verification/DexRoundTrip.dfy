/**
 Reading a built dex file back: every layout and order check holds, and the tables and the code come
 out as they went in.
 */
module DexRoundTrip {
  import opened Wrappers
  import opened Ordering
  import opened Chunks
  import opened LittleEndian
  import opened DexCode
  import opened DexVerify
  import opened DexTables
  import opened DexLayout
  import opened DexSections
  import opened DexReader
  import ByteText

  /** A sound plan whose file has less than 2^32 bytes. */
  ghost predicate Good(h: Hashes, p: Plan) {
    ValidHashes(h) && Sound(p) && HEADER + |Concat(Body11(p))| < Pow256(4)
  }

  lemma Pow256Is()
    ensures Pow256(1) == 0x100 && Pow256(2) == 0x10000 && Pow256(4) == 0x1_0000_0000
  {
    assert Pow256(1) == 256 * Pow256(0);
    assert Pow256(2) == 256 * Pow256(1);
    assert Pow256(3) == 256 * Pow256(2);
    assert Pow256(4) == 256 * Pow256(3);
  }

  lemma {:induction false} GatherIs<T>(n: nat, f: nat -> Option<T>, xs: seq<T>)
    requires |xs| == n && forall i :: 0 <= i < n ==> f(i) == Some(xs[i])
    ensures Gather(n, f) == Some(xs)
  {
    if n > 0 {
      GatherIs(n - 1, f, xs[..n - 1]);
      assert xs == xs[..n - 1] + [xs[n - 1]];
    }
  }

  lemma WordAt(d: Bytes, o: nat, w: nat, n: nat)
    requires o + w <= |d| && d[o..o + w] == U(n, w) && n < Pow256(w)
    ensures Word(d, o, w) == Some(n)
  {
    DecodeEncode(n, w);
  }

  /** A stretch of a section, in the file. */
  lemma Stretch(h: Hashes, p: Plan, k: nat, x: nat, n: nat)
    requires Good(h, p) && k < 11 && x + n <= |SectionBytes(p, k)|
    ensures var d, at := File(h, p), Recorded(p, k) + x; at + n <= |d| && d[at..at + n] == SectionBytes(p, k)[x..x + n]
  {
    hide SectionBytes, File, Recorded, Closed, Sorted, Concat, Body11;
    InSection(h, p, k, x, n);
  }

  /** A number written into a section reads back. */
  lemma WordIn(h: Hashes, p: Plan, k: nat, x: nat, w: nat, n: nat)
    requires Good(h, p) && k < 11 && x + w <= |SectionBytes(p, k)| && SectionBytes(p, k)[x..x + w] == U(n, w) &&
      n < Pow256(w)
    ensures Word(File(h, p), Recorded(p, k) + x, w) == Some(n)
  {
    hide SectionBytes, File, Recorded, Word, Good;
    Stretch(h, p, k, x, w);
    WordAt(File(h, p), Recorded(p, k) + x, w, n);
  }

  /** A number in a row of a section reads back. */
  lemma RowWord(h: Hashes, p: Plan, k: nat, rows: seq<Bytes>, i: nat, x: nat, n: nat, v: nat)
    requires Good(h, p) && k < 11 && SectionBytes(p, k) == Concat(rows)
    requires i < |rows| && x + n <= |rows[i]| && rows[i][x..x + n] == U(v, n) && v < Pow256(n)
    ensures Word(File(h, p), Recorded(p, k) + Start(rows, i) + x, n) == Some(v)
  {
    hide Concat, SectionBytes, File, Recorded, Word, Good, Start;
    ConcatWithin(rows, i, x, n);
    WordIn(h, p, k, Start(rows, i) + x, n, v);
    assert Recorded(p, k) + (Start(rows, i) + x) == Recorded(p, k) + Start(rows, i) + x;
  }

  // ---------- bounds ----------

  /** Offsets lie inside the file. */
  lemma OffsetsBelow(h: Hashes, p: Plan)
    requires Good(h, p)
    ensures forall k :: 0 <= k < 11 ==> Recorded(p, k) <= |File(h, p)|
    ensures |File(h, p)| == HEADER + |Concat(Body11(p))|
  {
    hide Concat, Body11, File, Recorded;
    FileParts(h, p);
    forall k | 0 <= k < 11 ensures Recorded(p, k) <= |File(h, p)| {
      SectionsLie(p, k);
      ConcatAt(Body11(p), k);
    }
  }

  lemma LessOne(a: nat, b: nat)
    ensures Less([a], [b]) <==> a < b
  {
    assert [a][1..] == [] && [b][1..] == [];
  }

  lemma FileSmall(h: Hashes, p: Plan)
    requires Good(h, p)
    ensures |File(h, p)| < Pow256(4)
  {
    hide File, Concat, Sound;
    OffsetsBelow(h, p);
  }

  /** Types are strings in the strings' order, so there are no more of them. */
  lemma {:induction false} TypesFew(s: seq<string>, t: seq<string>, k: nat)
    requires Ascending(t, TypeKey(s)) && k < |t|
    ensures Place(s, t[k]) >= k
  {
    if k > 0 {
      TypesFew(s, t, k - 1);
      var a, b := TypeKey(s)(t[k - 1]), TypeKey(s)(t[k]);
      assert Less(a, b) && a == [Place(s, t[k - 1])] && b == [Place(s, t[k])];
      LessOne(Place(s, t[k - 1]), Place(s, t[k]));
    }
  }

  lemma TypesBelow(p: Plan)
    requires Sound(p)
    ensures |p.b.t| <= |p.b.s| && (forall x :: x in p.b.t ==> x in p.b.s)
    ensures forall x :: x in p.b.p ==> Shorty(x) in p.b.s && x.ret in p.b.t && forall k :: 0 <= k < |x.params| ==>
      x.params[k] in p.b.t
    ensures forall x :: x in p.b.f ==> x.cls in p.b.t && x.desc in p.b.t && x.name in p.b.s
    ensures forall x :: x in p.b.m ==> x.cls in p.b.t && x.name in p.b.s && x.proto in p.b.p
    ensures Ascending(p.b.s, Chars) && Ascending(p.b.t, TypeKey(p.b.s))
  {
    hide Ascending, Shorty, Fits, Ascii;
    var q :| Closed(q) && Sorted(q, p.b);
    if p.b.t != [] {
      TypesFew(p.b.s, p.b.t, |p.b.t| - 1);
    }
    forall x | x in p.b.p ensures Shorty(x) in p.b.s {
      assert x in q.p;
      var k :| 0 <= k < |q.p| && q.p[k] == x;
      assert Shorties(q.p)[k] == Shorty(x);
      assert Shorty(x) in q.s + Shorties(q.p);
    }
  }

  /** The tables are small enough for their numbers. */
  lemma TablesSmall(h: Hashes, p: Plan)
    requires Good(h, p)
    ensures |p.b.s| < 0x10000 && |p.b.t| < 0x10000 && |p.b.p| <= 0x10000 && |p.b.m| < 0x10000
    ensures forall k :: 0 <= k < |p.b.s| ==> |p.b.s[k]| < 128 && Ascii(p.b.s[k])
  {
    hide Ascending, Shorty, Ascii, Concat, Closed, Sorted;
    TypesBelow(p);
  }

  /** Ids are made of entries of the tables. */
  lemma IdsIn(h: Hashes, p: Plan)
    requires Good(h, p)
    ensures forall x :: x in p.b.t ==> x in p.b.s
    ensures forall x :: x in p.b.p ==> Shorty(x) in p.b.s && x.ret in p.b.t && forall k :: 0 <= k < |x.params| ==>
      x.params[k] in p.b.t
    ensures forall x :: x in p.b.f ==> x.cls in p.b.t && x.desc in p.b.t && x.name in p.b.s
    ensures forall x :: x in p.b.m ==> x.cls in p.b.t && x.name in p.b.s && x.proto in p.b.p
    ensures Ascending(p.b.s, Chars) && Ascending(p.b.t, TypeKey(p.b.s))
  {
    hide Ascending, Shorty, Ascii, Concat, Closed, Sorted;
    TypesBelow(p);
  }

  // ---------- the header ----------

  lemma WordsSmall(h: Hashes, p: Plan)
    requires Good(h, p)
    ensures var ws := Words(p, |File(h, p)|); forall i :: 0 <= i < 20 ==> ws[i] < Pow256(4)
  {
    hide Concat, Body11, File, Sound, MapOff, CodesOff, StringOff, ClassOff;
    OffsetsBelow(h, p);
    Pow256Is();
    assert Recorded(p, 10) <= |File(h, p)|;
    assert Recorded(p, 6) <= |File(h, p)|;
  }

  /** The header reads back, and its checks hold. */
  lemma HeadReads(h: Hashes, p: Plan)
    requires Good(h, p)
    ensures HeadWords(File(h, p)) == Some(Words(p, |File(h, p)|)) && HeadOk(h, File(h, p), Words(p, |File(h, p)|))
  {
    hide Concat, Body11, File, Words, Word, U;
    FileParts(h, p);
    WordsSmall(h, p);
    var d := File(h, p);
    var ws := Words(p, |d|);
    forall i | 0 <= i < 20 ensures WordsFrom(d, 32)(i) == Some(ws[i]) {
      StartEven(WordRows(ws), i, 4);
      ConcatWithin(WordRows(ws), i, 0, 4);
      Inner(d, 32, HEADER, 4 * i, 4 * i + 4);
      WordAt(d, 32 + 4 * i, 4, ws[i]);
    }
    GatherIs(20, WordsFrom(d, 32), ws);
    WordAt(d, 8, 4, h.adler(d[12..]));
    WordsHead(p, |d|);
  }

  lemma WordsHead(p: Plan, size: nat)
    ensures var ws := Words(p, size); ws[0] == size && ws[1] == HEADER && ws[2] == 0x12345678
  {
  }

  // ---------- the map ----------

  lemma {:induction false} WhereIs(es: seq<Section>, s: Section)
    requires s in es && forall x :: x in es && x.kind == s.kind ==> x == s
    ensures Where(es, s.kind) == Some(s)
  {
    var n := |es| - 1;
    if es[n].kind != s.kind {
      assert es == es[..n] + [es[n]];
      WhereIs(es[..n], s);
    }
  }

  lemma {:induction false} WhereNot(es: seq<Section>, kind: nat)
    requires forall x :: x in es ==> x.kind != kind
    ensures Where(es, kind).None?
  {
    if es != [] {
      var n := |es| - 1;
      assert es[n] in es && forall x :: x in es[..n] ==> x in es;
      WhereNot(es[..n], kind);
    }
  }

  /** Offsets from lo to hi, none before the one ahead of it. */
  predicate Rises(es: seq<Section>, lo: nat, hi: nat) {
    lo <= hi && (forall i :: 0 <= i < |es| ==> lo <= es[i].off <= hi) && forall i :: 0 < i < |es| ==>
      es[i - 1].off <= es[i].off
  }

  lemma RisesAppend(a: seq<Section>, b: seq<Section>, lo: nat, mid: nat, hi: nat)
    requires Rises(a, lo, mid) && Rises(b, mid, hi)
    ensures Rises(a + b, lo, hi)
  {
    var es := a + b;
    forall i | 0 < i < |es| ensures es[i - 1].off <= es[i].off {
      if i < |a| {
        assert a[i - 1].off <= a[i].off;
      } else if i > |a| {
        assert b[i - 1 - |a|].off <= b[i - |a|].off;
      }
    }
  }

  lemma RisesIf(c: bool, s: Section, hi: nat)
    requires s.off <= hi
    ensures Rises(If(c, s), s.off, hi) && Rises([s], s.off, hi)
  {
  }

  lemma DataOrder(p: Plan)
    requires Sound(p)
    ensures DataOff(p.b) <= CodesOff(p) <= StringOff(p, 0) <= ClassOff(p) <= MapOff(p)
  {
    hide Concat, Body11, MapOf, Closed, Sorted, CodesOff, StringOff, ClassOff, MapOff;
    LateSizes(p);
  }

  /** The map's entries are listed in the order of their offsets, so sorting them changes nothing. */
  lemma MapRises(p: Plan)
    requires Sound(p)
    ensures Rises(MapOf(p), 0, MapOff(p))
  {
    hide Rises, If, CodesOff, StringOff, ClassOff, MapOff, Sound, WithParams;
    DataOrder(p);
    var b := p.b;
    var to := HEADER + 4 * |b.s|;
    var po := to + 4 * |b.t|;
    var fo := po + 12 * |b.p|;
    var mo := fo + 8 * |b.f|;
    var co := mo + 8 * |b.m|;
    RisesIf(true, Section(0, 1, 0), HEADER);
    RisesIf(b.s != [], Section(1, |b.s|, HEADER), to);
    RisesIf(b.t != [], Section(2, |b.t|, to), po);
    RisesIf(b.p != [], Section(3, |b.p|, po), fo);
    RisesIf(b.f != [], Section(4, |b.f|, fo), mo);
    RisesIf(b.m != [], Section(5, |b.m|, mo), co);
    RisesIf(true, Section(6, 1, co), DataOff(b));
    RisesIf(WithParams(b.p) > 0, Section(0x1001, WithParams(b.p), DataOff(b)), CodesOff(p));
    var e0 := [Section(0, 1, 0)];
    var e1 := e0 + If(b.s != [], Section(1, |b.s|, HEADER));
    var e2 := e1 + If(b.t != [], Section(2, |b.t|, to));
    var e3 := e2 + If(b.p != [], Section(3, |b.p|, po));
    var e4 := e3 + If(b.f != [], Section(4, |b.f|, fo));
    var e5 := e4 + If(b.m != [], Section(5, |b.m|, mo));
    var e6 := e5 + [Section(6, 1, co)];
    RisesAppend(e0, If(b.s != [], Section(1, |b.s|, HEADER)), 0, HEADER, to);
    RisesAppend(e1, If(b.t != [], Section(2, |b.t|, to)), 0, to, po);
    RisesAppend(e2, If(b.p != [], Section(3, |b.p|, po)), 0, po, fo);
    RisesAppend(e3, If(b.f != [], Section(4, |b.f|, fo)), 0, fo, mo);
    RisesAppend(e4, If(b.m != [], Section(5, |b.m|, mo)), 0, mo, co);
    RisesAppend(e5, [Section(6, 1, co)], 0, co, DataOff(b));
    RisesAppend(e6, If(WithParams(b.p) > 0, Section(0x1001, WithParams(b.p), DataOff(b))), 0, DataOff(b), CodesOff(p));
    LastRise(p);
    RisesAppend(e6 + If(WithParams(b.p) > 0, Section(0x1001, WithParams(b.p), DataOff(b))), LastOf(p), 0, CodesOff(p),
      MapOff(p));
  }

  function LastOf(p: Plan): seq<Section> {
    [Section(0x2001, |p.items|, CodesOff(p)), Section(0x2002, |p.b.s|, StringOff(p, 0)),
      Section(0x2000, 1, ClassOff(p)), Section(0x1000, 1, MapOff(p))]
  }

  lemma LastRise(p: Plan)
    requires Sound(p)
    ensures Rises(LastOf(p), CodesOff(p), MapOff(p))
  {
    hide CodesOff, StringOff, ClassOff, MapOff, Sound;
    DataOrder(p);
  }

  /** What the map holds. */
  lemma MapHolds(p: Plan, x: Section)
    ensures var b := p.b;
      var to := HEADER + 4 * |b.s|; var po := to + 4 * |b.t|; var fo := po + 12 * |b.p|; var mo := fo + 8 * |b.f|;
      x in MapOf(p) <==>
        || x == Section(0, 1, 0)
        || (b.s != [] && x == Section(1, |b.s|, HEADER)) || (b.t != [] && x == Section(2, |b.t|, to))
        || (b.p != [] && x == Section(3, |b.p|, po)) || (b.f != [] && x == Section(4, |b.f|, fo))
        || (b.m != [] && x == Section(5, |b.m|, mo))
        || x == Section(6, 1, mo + 8 * |b.m|)
        || (WithParams(b.p) > 0 && x == Section(0x1001, WithParams(b.p), DataOff(b)))
        || x in LastOf(p)
  {
    hide WithParams, CodesOff, StringOff, ClassOff, MapOff, DataOff;
  }

  lemma {:induction false} CodesGrow(items: seq<Item>, k: nat, o: nat)
    requires k <= |items|
    ensures CodesEnd(items, k, o) >= o + k
  {
    hide Blob;
    if k > 0 {
      CodesGrow(items, k - 1, o);
      BlobLength(items[k - 1]);
    }
  }

  lemma {:induction false} ParamsFew(ps: seq<Proto>)
    ensures WithParams(ps) <= |ps|
  {
    if ps != [] {
      ParamsFew(ps[1..]);
    }
  }

  lemma SectionsSmall(h: Hashes, p: Plan, x: Section)
    requires Good(h, p) && x in MapOf(p)
    ensures x.kind < Pow256(2) && x.size < Pow256(4) && x.off < Pow256(4)
  {
    hide CodesOff, StringOff, ClassOff, MapOff, MapOf, WithParams, File, Body11, Concat;
    MapHolds(p, x);
    Pow256Is();
    OffsetsBelow(h, p);
    DataOrder(p);
    assert Recorded(p, 10) <= |File(h, p)|;
    ParamsFew(p.b.p);
    CodesBounded(p);
  }

  lemma CodesBounded(p: Plan)
    ensures |p.items| <= StringOff(p, 0)
  {
    hide CodesOff, CodesEnd;
    CodesGrow(p.items, |p.items|, CodesOff(p));
  }

  lemma MapRowParts(s: Section)
    ensures MapRow(s)[0..2] == U(s.kind, 2) && MapRow(s)[4..8] == U(s.size, 4) && MapRow(s)[8..12] == U(s.off, 4)
  {
    hide U;
    var r := U(s.kind, 2) + U(0, 2) + (U(s.size, 4) + U(s.off, 4));
    assert MapRow(s) == r;
    assert r[4..] == U(s.size, 4) + U(s.off, 4);
    assert r[4..8] == r[4..][..4] && r[8..12] == r[4..][4..8];
  }

  lemma MapEntryReads(h: Hashes, p: Plan, i: nat)
    requires Good(h, p) && i < |MapOf(p)|
    ensures MapAt(File(h, p), MapOff(p) + 4 + 12 * i) == Some(MapOf(p)[i])
  {
    hide Concat, File, MapOf, MapRow, Word, U, Good, MapOff;
    var s, rows := MapOf(p)[i], MapRows(MapOf(p));
    SectionsSmall(h, p, s);
    MapRowParts(s);
    StartEven(rows, i, 12);
    MapWord(h, p, i, 0, 2, s.kind);
    MapWord(h, p, i, 4, 4, s.size);
    MapWord(h, p, i, 8, 4, s.off);
  }

  lemma MapSlice(es: seq<Section>, i: nat, x: nat, n: nat)
    requires i < |es| && x + n <= 12
    ensures var sec := U(|es|, 4) + Concat(MapRows(es)); var at := 4 + 12 * i + x;
      at + n <= |sec| && sec[at..at + n] == MapRow(es[i])[x..x + n]
  {
    hide Concat, MapRow, U, Start;
    var rows := MapRows(es);
    StartEven(rows, i, 12);
    ConcatWithin(rows, i, x, n);
    Behind(U(|es|, 4), Concat(rows), 12 * i + x, n);
  }

  lemma MapWord(h: Hashes, p: Plan, i: nat, x: nat, n: nat, v: nat)
    requires Good(h, p) && i < |MapOf(p)| && x + n <= 12 && MapRow(MapOf(p)[i])[x..x + n] == U(v, n) && v < Pow256(n)
    ensures Word(File(h, p), MapOff(p) + 4 + 12 * i + x, n) == Some(v)
  {
    hide Concat, File, MapOf, MapRow, Word, U, Good, MapOff, MapRows, Pow256;
    MapSlice(MapOf(p), i, x, n);
    WordIn(h, p, 10, 4 + 12 * i + x, n, v);
    assert Recorded(p, 10) + (4 + 12 * i + x) == MapOff(p) + 4 + 12 * i + x;
  }

  lemma MapShort(p: Plan)
    ensures |MapOf(p)| <= 12
  {
    hide WithParams, CodesOff, StringOff, ClassOff, MapOff, DataOff;
  }

  lemma MapCount(h: Hashes, p: Plan)
    requires Good(h, p)
    ensures Word(File(h, p), MapOff(p), 4) == Some(|MapOf(p)|)
  {
    hide Concat, File, Word, U, Good, MapOff, MapOf;
    MapShort(p);
    Pow256Is();
    assert SectionBytes(p, 10)[0..4] == U(|MapOf(p)|, 4);
    WordIn(h, p, 10, 0, 4, |MapOf(p)|);
  }

  lemma MapReads(h: Hashes, p: Plan)
    requires Good(h, p)
    ensures MapRead(File(h, p), MapOff(p)) == Some(MapOf(p))
  {
    hide File, Word, Good, MapOff, MapAt, MapOf, Gather;
    var d, es := File(h, p), MapOf(p);
    MapCount(h, p);
    forall i | 0 <= i < |es| ensures MapFrom(d, MapOff(p) + 4)(i) == Some(es[i]) {
      MapEntryReads(h, p, i);
    }
    GatherIs(|es|, MapFrom(d, MapOff(p) + 4), es);
  }

  lemma MapFinds(p: Plan, s: Section)
    requires s in MapOf(p)
    ensures Where(MapOf(p), s.kind) == Some(s)
  {
    hide MapOf, WithParams, CodesOff, StringOff, ClassOff, MapOff, DataOff;
    MapHolds(p, s);
    forall x | x in MapOf(p) && x.kind == s.kind ensures x == s {
      MapHolds(p, x);
    }
    WhereIs(MapOf(p), s);
  }

  lemma MapLacks(p: Plan)
    requires p.b.f == []
    ensures Where(MapOf(p), 4).None?
  {
    hide MapOf, WithParams, CodesOff, StringOff, ClassOff, MapOff, DataOff;
    forall x | x in MapOf(p) ensures x.kind != 4 {
      MapHolds(p, x);
    }
    WhereNot(MapOf(p), 4);
  }

  /** Nothing is missing: strings, types, prototypes and methods. */
  lemma NoneEmpty(p: Plan)
    requires Sound(p)
    ensures p.b.s != [] && p.b.t != [] && p.b.p != [] && p.b.m != []
  {
    hide Ascending, Shorty, Fits, Ascii;
    TypesBelow(p);
    assert p.ids[0] < |p.b.m|;
    assert p.b.m[0] in p.b.m;
  }

  /** The checks of the map hold. */
  lemma MapChecks(p: Plan, size: nat)
    requires Sound(p)
    ensures MapOk(MapOf(p), Words(p, size))
  {
    hide MapOf, WithParams, CodesOff, StringOff, ClassOff, MapOff, Sound;
    NoneEmpty(p);
    MapRises(p);
    var b := p.b;
    var to := HEADER + 4 * |b.s|;
    var po := to + 4 * |b.t|;
    var mo := po + 12 * |b.p| + 8 * |b.f|;
    Finds(p, Section(1, |b.s|, HEADER));
    Finds(p, Section(2, |b.t|, to));
    Finds(p, Section(3, |b.p|, po));
    Finds(p, Section(5, |b.m|, mo));
    Finds(p, Section(6, 1, mo + 8 * |b.m|));
    Finds(p, Section(0x1000, 1, MapOff(p)));
    if b.f == [] {
      MapLacks(p);
    } else {
      Finds(p, Section(4, |b.f|, po + 12 * |b.p|));
    }
  }

  lemma Finds(p: Plan, s: Section)
    requires var b := p.b; var to := HEADER + 4 * |b.s|; var po := to + 4 * |b.t|; var fo := po + 12 * |b.p|;
      var mo := fo + 8 * |b.f|;
      (b.s != [] && s == Section(1, |b.s|, HEADER)) || (b.t != [] && s == Section(2, |b.t|, to))
      || (b.p != [] && s == Section(3, |b.p|, po)) || (b.f != [] && s == Section(4, |b.f|, fo))
      || (b.m != [] && s == Section(5, |b.m|, mo))
      || s == Section(6, 1, mo + 8 * |b.m|) || s in LastOf(p)
    ensures Where(MapOf(p), s.kind) == Some(s)
  {
    hide MapOf, WithParams, CodesOff, StringOff, ClassOff, MapOff;
    MapHolds(p, s);
    MapFinds(p, s);
  }

  // ---------- strings and types ----------

  /** The number in the first place of a row, and in any place of a row of three or fewer numbers. */
  lemma OneByte(n: nat)
    requires n < 256
    ensures U(n, 1) == [n]
  {
    assert U(n, 1) == [n % 256] + U(n / 256, 0);
  }

  /** A stretch of a chunk in a padded section of chunks. */
  lemma PaddedAt(cs: seq<Bytes>, k: nat, x: nat, n: nat)
    requires k < |cs| && x + n <= |cs[k]|
    ensures Start(cs, k) + x + n <= |Padded(Concat(cs))|
    ensures Padded(Concat(cs))[Start(cs, k) + x..Start(cs, k) + x + n] == cs[k][x..x + n]
  {
    hide Concat, Start;
    ConcatWithin(cs, k, x, n);
    var all, whole := Padded(Concat(cs)), Concat(cs);
    assert all[..|whole|] == whole;
    Inner(all, 0, |whole|, Start(cs, k) + x, Start(cs, k) + x + n);
    assert all[0..|whole|] == all[..|whole|];
  }

  lemma StringParts(s: string)
    requires Ascii(s) && |s| < 128
    ensures var c := StringData(s);
      |c| == |s| + 2 && c[0..1] == U(|s|, 1) && c[1..1 + |s|] == Encode(s) && c[1 + |s|..2 + |s|] == U(0, 1)
  {
    StringSize(s);
    OneByte(|s|);
    OneByte(0);
  }

  lemma DecodedEncode(s: string)
    requires Ascii(s)
    ensures AsciiBytes(Encode(s)) && Decoded(Encode(s)) == s
  {
  }

  /** Where string i's data lies. */
  lemma StringBytes(h: Hashes, p: Plan, i: nat)
    requires Good(h, p) && i < |p.b.s|
    ensures var d, o, s := File(h, p), StringOff(p, i), p.b.s[i];
      && Word(d, o, 1) == Some(|s|) && Word(d, o + 1 + |s|, 1) == Some(0) && o + 1 + |s| <= |d|
      && d[o + 1..o + 1 + |s|] == Encode(s)
  {
    hide Concat, File, Word, U, Start, StringOff, StringData, Encode, Good, StringRows, Ascii;
    TablesSmall(h, p);
    var s, cs := p.b.s[i], StringChunks(p);
    StringsLie(p, i);
    StringParts(s);
    Pow256Is();
    PaddedAt(cs, i, 0, 1);
    PaddedAt(cs, i, 1, |s|);
    PaddedAt(cs, i, 1 + |s|, 1);
    WordIn(h, p, 8, Start(cs, i) + 0, 1, |s|);
    WordIn(h, p, 8, Start(cs, i) + (1 + |s|), 1, 0);
    Stretch(h, p, 8, Start(cs, i) + 1, |s|);
  }

  lemma StringOffBelow(h: Hashes, p: Plan, i: nat)
    requires Good(h, p) && i < |p.b.s|
    ensures StringOff(p, i) < Pow256(4)
  {
    hide File, Word, StringOff, Encode;
    StringBytes(h, p, i);
    OffsetsBelow(h, p);
  }

  lemma StringReads(h: Hashes, p: Plan, i: nat)
    requires Good(h, p) && i < |p.b.s|
    ensures StringAt(File(h, p), HEADER + 4 * i) == Some(p.b.s[i])
  {
    hide Concat, File, Word, U, Start, StringOff, Encode, Good, Ascii;
    TablesSmall(h, p);
    var rows := StringRows(p);
    StringOffBelow(h, p, i);
    StartEven(rows, i, 4);
    assert rows[i][0..4] == rows[i];
    RowWord(h, p, 0, rows, i, 0, 4, StringOff(p, i));
    StringBytes(h, p, i);
    DecodedEncode(p.b.s[i]);
  }

  /** Ascending keys are in order. */
  lemma StringsInOrder(ss: seq<string>)
    requires Ascending(ss, Chars)
    ensures InOrder(AllChars(ss))
  {
    hide Chars;
    forall i | 0 < i < |ss| ensures !Less(Chars(ss[i]), Chars(ss[i - 1])) {
      LessTotal(Chars(ss[i - 1]), Chars(ss[i]));
    }
  }

  lemma TypeReads(h: Hashes, p: Plan, i: nat)
    requires Good(h, p) && i < |p.b.t|
    ensures Word(File(h, p), HEADER + 4 * |p.b.s| + 4 * i, 4) == Some(Place(p.b.s, p.b.t[i]))
  {
    hide Concat, File, Word, U, Start, Good, Ascii;
    TablesSmall(h, p);
    var rows := TypeRows(p);
    Pow256Is();
    StartEven(rows, i, 4);
    assert rows[i][0..4] == rows[i];
    RowWord(h, p, 1, rows, i, 0, 4, Place(p.b.s, p.b.t[i]));
    assert Recorded(p, 1) + 4 * i + 0 == HEADER + 4 * |p.b.s| + 4 * i;
  }

  function TypePlaces(b: Tables): (r: seq<nat>)
    ensures |r| == |b.t| && forall k :: 0 <= k < |r| ==> r[k] == Place(b.s, b.t[k])
  {
    seq(|b.t|, k requires 0 <= k < |b.t| => Place(b.s, b.t[k]))
  }

  lemma PlacesRise(b: Tables)
    requires Ascending(b.t, TypeKey(b.s))
    ensures Rising(TypePlaces(b))
  {
    forall i | 0 < i < |b.t| ensures TypePlaces(b)[i - 1] <= TypePlaces(b)[i] {
      assert Less(TypeKey(b.s)(b.t[i - 1]), TypeKey(b.s)(b.t[i]));
      LessOne(Place(b.s, b.t[i - 1]), Place(b.s, b.t[i]));
    }
  }

  /** A name's number reads back as the name. */
  lemma NamedReads(d: Bytes, names: seq<string>, o: nat, w: nat, x: string)
    requires x in names && Word(d, o, w) == Some(Place(names, x))
    ensures TypeNamed(d, names, o, w) == Some(x)
  {
    hide Word;
  }

  // ---------- prototypes, fields, methods ----------

  lemma ThreeWords(a: Bytes, b: Bytes, c: Bytes)
    ensures (a + b + c)[0..|a|] == a && (a + b + c)[|a|..|a| + |b|] == b && (a + b + c)[|a| + |b|..|a| + |b| + |c|] == c
  {
    var s := a + b + c;
    assert s == a + (b + c);
    Behind(a, b + c, 0, |b|);
    Behind(a, b + c, |b|, |c|);
    assert (b + c)[0..|b|] == b && (b + c)[|b|..|b| + |c|] == c;
  }

  lemma ListOffBelow(h: Hashes, p: Plan, i: nat)
    requires Good(h, p) && i < |p.b.p| && p.b.p[i].params != []
    ensures ListOff(p, i) == Recorded(p, 6) + Start(ListChunks(p), i) && 0 < ListOff(p, i) < Pow256(4)
  {
    hide Concat, File, Start, ListsEnd, ListChunk, Good, Ascii;
    TablesSmall(h, p);
    hide ListChunks;
    ListsLie(p, i);
    ConcatAt(ListChunks(p), i);
    assert Recorded(p, 6) == DataOff(p.b);
    Stretch(h, p, 6, Start(ListChunks(p), i), 0);
    FileSmall(h, p);
  }

  /** A stretch of a prototype's type list. */
  lemma ListSlice(p: Plan, i: nat, x: nat, n: nat)
    requires i < |p.b.p| && p.b.p[i].params != [] && x + n <= |TypeList(p.b.t, p.b.p[i].params)|
    ensures Start(ListChunks(p), i) + x + n <= |Concat(ListChunks(p))|
    ensures Concat(ListChunks(p))[Start(ListChunks(p), i) + x..Start(ListChunks(p), i) + x + n] ==
      TypeList(p.b.t, p.b.p[i].params)[x..x + n]
  {
    hide Concat, Start, TypeList;
    var l, cs := TypeList(p.b.t, p.b.p[i].params), ListChunks(p);
    assert cs[i] == Padded(l);
    ConcatWithin(cs, i, x, n);
    assert Padded(l)[..|l|] == l;
    Inner(Padded(l), 0, |l|, x, x + n);
    assert Padded(l)[0..|l|] == l;
  }

  lemma ParamSlice(t: seq<string>, params: seq<string>, k: nat)
    requires k < |params|
    ensures 4 + 2 * k + 2 <= |TypeList(t, params)| &&
      TypeList(t, params)[4 + 2 * k..4 + 2 * k + 2] == U(Place(t, params[k]), 2)
    ensures TypeList(t, params)[0..4] == U(|params|, 4)
  {
    hide Concat, Start, U;
    var rows := ParamRows(t, params);
    StartEven(rows, k, 2);
    ConcatWithin(rows, k, 0, 2);
    assert rows[k][0..2] == rows[k];
    Behind(U(|params|, 4), Concat(rows), 2 * k, 2);
  }

  lemma ParamsRead(h: Hashes, p: Plan, i: nat)
    requires Good(h, p) && i < |p.b.p| && p.b.p[i].params != []
    ensures ParamsAt(File(h, p), p.b.t, ListOff(p, i)) == Some(p.b.p[i].params)
  {
    hide Concat, File, Start, Word, U, TypeList, ListOff, Gather, Good;
    var d, o, params := File(h, p), ListOff(p, i), p.b.p[i].params;
    ListOffBelow(h, p, i);
    ParamsCount(h, p, i);
    forall k | 0 <= k < |params| ensures NamedFrom(d, p.b.t, o + 4, 2)(k) == Some(params[k]) {
      ParamReads(h, p, i, k);
    }
    GatherIs(|params|, NamedFrom(d, p.b.t, o + 4, 2), params);
  }

  lemma ParamsCount(h: Hashes, p: Plan, i: nat)
    requires Good(h, p) && i < |p.b.p| && p.b.p[i].params != []
    ensures Word(File(h, p), ListOff(p, i), 4) == Some(|p.b.p[i].params|)
  {
    hide Concat, File, Start, Word, U, TypeList, ListOff, ListChunks, Good, Ascii;
    TablesSmall(h, p);
    ListOffBelow(h, p, i);
    ParamSlice(p.b.t, p.b.p[i].params, 0);
    ListSize(p.b.t, p.b.p[i].params);
    ListSlice(p, i, 0, 4);
    ListSlice(p, i, 0, 4 + 2 * |p.b.p[i].params|);
    Stretch(h, p, 6, Start(ListChunks(p), i), 4 + 2 * |p.b.p[i].params|);
    FileSmall(h, p);
    WordIn(h, p, 6, Start(ListChunks(p), i) + 0, 4, |p.b.p[i].params|);
  }

  lemma ParamReads(h: Hashes, p: Plan, i: nat, k: nat)
    requires Good(h, p) && i < |p.b.p| && k < |p.b.p[i].params|
    ensures TypeNamed(File(h, p), p.b.t, ListOff(p, i) + 4 + 2 * k, 2) == Some(p.b.p[i].params[k])
  {
    hide Concat, File, Start, Word, U, TypeList, ListOff, ListChunks, TypeNamed, Ascending, Good, Ascii;
    var params := p.b.p[i].params;
    TablesSmall(h, p);
    IdsIn(h, p);
    ListOffBelow(h, p, i);
    ParamSlice(p.b.t, params, k);
    ListSlice(p, i, 4 + 2 * k, 2);
    assert p.b.p[i] in p.b.p;
    Pow256Is();
    WordIn(h, p, 6, Start(ListChunks(p), i) + (4 + 2 * k), 2, Place(p.b.t, params[k]));
    assert Recorded(p, 6) + (Start(ListChunks(p), i) + (4 + 2 * k)) == ListOff(p, i) + 4 + 2 * k;
    NamedReads(File(h, p), p.b.t, ListOff(p, i) + 4 + 2 * k, 2, params[k]);
  }

  lemma ProtoReads(h: Hashes, p: Plan, i: nat)
    requires Good(h, p) && i < |p.b.p|
    ensures ProtoAt(File(h, p), p.b.t, Recorded(p, 2) + 12 * i) == Some(p.b.p[i])
  {
    hide Concat, File, Start, Word, U, TypeList, ListOff, Recorded, TypeNamed, Ascending, Good, Ascii, Shorty, ParamsAt;
    var q, rows, d, o := p.b.p[i], ProtoRows(p), File(h, p), Recorded(p, 2) + 12 * i;
    TablesSmall(h, p);
    IdsIn(h, p);
    Pow256Is();
    StartEven(rows, i, 12);
    ListOffSmall(h, p, i);
    ThreeWords(U(Place(p.b.s, Shorty(q)), 4), U(Place(p.b.t, q.ret), 4), U(ListOff(p, i), 4));
    RowWord(h, p, 2, rows, i, 0, 4, Place(p.b.s, Shorty(q)));
    RowWord(h, p, 2, rows, i, 4, 4, Place(p.b.t, q.ret));
    RowWord(h, p, 2, rows, i, 8, 4, ListOff(p, i));
    assert q in p.b.p;
    NamedReads(d, p.b.t, o + 4, 4, q.ret);
    ParamsBack(h, p, i);
  }

  lemma ListOffSmall(h: Hashes, p: Plan, i: nat)
    requires Good(h, p) && i < |p.b.p|
    ensures ListOff(p, i) < Pow256(4)
  {
    hide Good, ListsEnd, Start, Concat, DataOff, Recorded;
    if p.b.p[i].params != [] {
      ListOffBelow(h, p, i);
    } else {
      Pow256Is();
    }
  }

  lemma ParamsBack(h: Hashes, p: Plan, i: nat)
    requires Good(h, p) && i < |p.b.p|
    ensures ParamsAt(File(h, p), p.b.t, ListOff(p, i)) == Some(p.b.p[i].params)
  {
    hide Good, ListsEnd, File, DataOff;
    if p.b.p[i].params != [] {
      ParamsRead(h, p, i);
    }
  }

  lemma FieldReads(h: Hashes, p: Plan, i: nat)
    requires Good(h, p) && i < |p.b.f|
    ensures FieldAt(File(h, p), p.b.s, p.b.t, Recorded(p, 3) + 8 * i) == Some(p.b.f[i])
  {
    hide Concat, File, Start, Word, U, Recorded, TypeNamed, Ascending, Good, Ascii, Shorty;
    var f, rows, d, o := p.b.f[i], FieldRows(p), File(h, p), Recorded(p, 3) + 8 * i;
    TablesSmall(h, p);
    IdsIn(h, p);
    Pow256Is();
    StartEven(rows, i, 8);
    ThreeWords(U(Place(p.b.t, f.cls), 2), U(Place(p.b.t, f.desc), 2), U(Place(p.b.s, f.name), 4));
    assert f in p.b.f;
    RowWord(h, p, 3, rows, i, 0, 2, Place(p.b.t, f.cls));
    RowWord(h, p, 3, rows, i, 2, 2, Place(p.b.t, f.desc));
    RowWord(h, p, 3, rows, i, 4, 4, Place(p.b.s, f.name));
    NamedReads(d, p.b.t, o, 2, f.cls);
    NamedReads(d, p.b.t, o + 2, 2, f.desc);
    NamedReads(d, p.b.s, o + 4, 4, f.name);
  }

  lemma MethodReads(h: Hashes, p: Plan, i: nat)
    requires Good(h, p) && i < |p.b.m|
    ensures MethodAt(File(h, p), p.b.s, p.b.t, p.b.p, Recorded(p, 4) + 8 * i) == Some(p.b.m[i])
  {
    hide Concat, File, Start, Word, U, Recorded, TypeNamed, Ascending, Good, Ascii, Shorty;
    var m, rows, d, o := p.b.m[i], MethodRows(p), File(h, p), Recorded(p, 4) + 8 * i;
    TablesSmall(h, p);
    IdsIn(h, p);
    Pow256Is();
    StartEven(rows, i, 8);
    ThreeWords(U(Place(p.b.t, m.cls), 2), U(Place(p.b.p, m.proto), 2), U(Place(p.b.s, m.name), 4));
    assert m in p.b.m;
    RowWord(h, p, 4, rows, i, 0, 2, Place(p.b.t, m.cls));
    RowWord(h, p, 4, rows, i, 2, 2, Place(p.b.p, m.proto));
    RowWord(h, p, 4, rows, i, 4, 4, Place(p.b.s, m.name));
    NamedReads(d, p.b.t, o, 2, m.cls);
    NamedReads(d, p.b.s, o + 4, 4, m.name);
  }

  /** The header's counts and offsets of the id sections. */
  lemma IdWords(p: Plan, size: nat)
    ensures var ws := Words(p, size);
      && ws[5] == MapOff(p) && ws[6] == |p.b.s| && ws[7] == HEADER && ws[8] == |p.b.t| && ws[9] == Recorded(p, 1)
      && ws[10] == |p.b.p| && ws[11] == Recorded(p, 2)
      && ws[12] == |p.b.f| && (p.b.f != [] ==> ws[13] == Recorded(p, 3)) && ws[14] == |p.b.m|
      && ws[15] == Recorded(p, 4)
      && ws[16] == 1 && ws[17] == Recorded(p, 5)
  {
    hide MapOff;
  }

  lemma TypesRead(h: Hashes, p: Plan)
    requires Good(h, p)
    ensures Gather(|p.b.t|, WordsFrom(File(h, p), Recorded(p, 1))) == Some(TypePlaces(p.b))
    ensures Gather(|p.b.t|, NamedFrom(File(h, p), p.b.s, Recorded(p, 1), 4)) == Some(p.b.t)
  {
    hide Gather, Good, File, Word, TypeNamed, Ascending, Shorty;
    var d, o := File(h, p), Recorded(p, 1);
    IdsIn(h, p);
    forall i | 0 <= i < |p.b.t|
      ensures WordsFrom(d, o)(i) == Some(TypePlaces(p.b)[i]) && NamedFrom(d, p.b.s, o, 4)(i) == Some(p.b.t[i])
    {
      TypeReads(h, p, i);
      assert p.b.t[i] in p.b.t;
      NamedReads(d, p.b.s, o + 4 * i, 4, p.b.t[i]);
    }
    GatherIs(|p.b.t|, WordsFrom(d, o), TypePlaces(p.b));
    GatherIs(|p.b.t|, NamedFrom(d, p.b.s, o, 4), p.b.t);
  }

  lemma StringsRead(h: Hashes, p: Plan)
    requires Good(h, p)
    ensures Gather(|p.b.s|, StringsFrom(File(h, p), HEADER)) == Some(p.b.s)
  {
    hide Gather, Good, File, StringAt;
    forall i | 0 <= i < |p.b.s| ensures StringsFrom(File(h, p), HEADER)(i) == Some(p.b.s[i]) {
      StringReads(h, p, i);
    }
    GatherIs(|p.b.s|, StringsFrom(File(h, p), HEADER), p.b.s);
  }

  lemma ProtosRead(h: Hashes, p: Plan)
    requires Good(h, p)
    ensures Gather(|p.b.p|, ProtosFrom(File(h, p), p.b.t, Recorded(p, 2))) == Some(p.b.p)
  {
    hide Gather, Good, File, ProtoAt, Recorded;
    forall i | 0 <= i < |p.b.p| ensures ProtosFrom(File(h, p), p.b.t, Recorded(p, 2))(i) == Some(p.b.p[i]) {
      ProtoReads(h, p, i);
    }
    GatherIs(|p.b.p|, ProtosFrom(File(h, p), p.b.t, Recorded(p, 2)), p.b.p);
  }

  lemma FieldsRead(h: Hashes, p: Plan, o: nat)
    requires Good(h, p) && (p.b.f != [] ==> o == Recorded(p, 3))
    ensures Gather(|p.b.f|, FieldsFrom(File(h, p), p.b.s, p.b.t, o)) == Some(p.b.f)
  {
    hide Gather, Good, File, FieldAt, Recorded;
    forall i | 0 <= i < |p.b.f| ensures FieldsFrom(File(h, p), p.b.s, p.b.t, o)(i) == Some(p.b.f[i]) {
      FieldReads(h, p, i);
    }
    GatherIs(|p.b.f|, FieldsFrom(File(h, p), p.b.s, p.b.t, o), p.b.f);
  }

  lemma MethodsReadBack(h: Hashes, p: Plan)
    requires Good(h, p)
    ensures Gather(|p.b.m|, MethodsFrom(File(h, p), p.b.s, p.b.t, p.b.p, Recorded(p, 4))) == Some(p.b.m)
  {
    hide Gather, Good, File, MethodAt, Recorded;
    forall i | 0 <= i < |p.b.m|
      ensures MethodsFrom(File(h, p), p.b.s, p.b.t, p.b.p, Recorded(p, 4))(i) == Some(p.b.m[i])
    {
      MethodReads(h, p, i);
    }
    GatherIs(|p.b.m|, MethodsFrom(File(h, p), p.b.s, p.b.t, p.b.p, Recorded(p, 4)), p.b.m);
  }

  /** All tables read back, in the order the format asks for. */
  lemma TablesRead(h: Hashes, p: Plan)
    requires Good(h, p)
    ensures IdsRead(File(h, p), Words(p, |File(h, p)|)) == Some(p.b)
  {
    hide Gather, Good, File, Recorded, Words, Ascending, Shorty, InOrder, Rising;
    IdWords(p, |File(h, p)|);
    IdsIn(h, p);
    StringsRead(h, p);
    StringsInOrder(p.b.s);
    TypesRead(h, p);
    PlacesRise(p.b);
    ProtosRead(h, p);
    FieldsRead(h, p, Words(p, |File(h, p)|)[13]);
    MethodsReadBack(h, p);
  }

  // ---------- code items ----------

  function BlobHead(c: Item): Bytes {
    U(c.nregs, 2) + U(c.ins, 2) + U(c.outs, 2) + U(0, 2) + U(0, 4) + U(|c.units|, 4)
  }

  lemma BlobHeadParts(c: Item)
    ensures var b := BlobHead(c);
      && |b| == 16 && b[0..2] == U(c.nregs, 2) && b[2..4] == U(c.ins, 2) && b[4..6] == U(c.outs, 2)
      && b[6..8] == U(0, 2)
      && b[8..12] == U(0, 4) && b[12..16] == U(|c.units|, 4)
  {
    hide U;
    var x, y := U(c.nregs, 2) + U(c.ins, 2) + U(c.outs, 2), U(0, 2) + U(0, 4) + U(|c.units|, 4);
    assert BlobHead(c) == x + y;
    ThreeWords(U(c.nregs, 2), U(c.ins, 2), U(c.outs, 2));
    ThreeWords(U(0, 2), U(0, 4), U(|c.units|, 4));
    assert (x + y)[0..2] == x[0..2] && (x + y)[2..4] == x[2..4] && (x + y)[4..6] == x[4..6];
    Behind(x, y, 0, 2);
    Behind(x, y, 2, 4);
    Behind(x, y, 6, 4);
  }

  /** A stretch of a code item's header, or of its units. */
  lemma BlobSlice(c: Item, x: nat, n: nat)
    requires x + n <= 16
    ensures x + n <= |Blob(c)| && Blob(c)[x..x + n] == BlobHead(c)[x..x + n]
  {
    hide U, Concat;
    BlobHeadParts(c);
    BlobLength(c);
    var b, head, rest := Blob(c), BlobHead(c), Concat(UnitRows(c.units));
    assert b == head + rest;
    Inner(b, 0, 16, x, x + n);
    assert b[0..16] == head;
  }

  lemma BlobUnit(c: Item, k: nat)
    requires k < |c.units|
    ensures 16 + 2 * k + 2 <= |Blob(c)| && Blob(c)[16 + 2 * k..16 + 2 * k + 2] == U(c.units[k], 2)
  {
    hide U, Concat, Start;
    BlobHeadParts(c);
    BlobLength(c);
    var rows := UnitRows(c.units);
    StartEven(rows, k, 2);
    ConcatWithin(rows, k, 0, 2);
    assert rows[k][0..2] == rows[k];
    assert Blob(c) == BlobHead(c) + Concat(rows);
    Behind(BlobHead(c), Concat(rows), 2 * k, 2);
  }

  lemma CodeLies(h: Hashes, p: Plan, i: nat)
    requires Good(h, p) && i < |p.items|
    ensures CodeOff(p, i) == Recorded(p, 7) + Start(CodeChunks(p), i) && CodesOff(p) <= CodeOff(p, i) < |File(h, p)|
  {
    hide Concat, File, Start, Good, Blob, CodeChunks, CodeOff, CodesOff;
    CodesLie(p, i);
    ConcatAt(CodeChunks(p), i);
    Stretch(h, p, 7, Start(CodeChunks(p), i), |CodeChunks(p)[i]|);
    ChunkFilled(p, i);
  }

  lemma ChunkFilled(p: Plan, i: nat)
    requires i < |p.items|
    ensures |CodeChunks(p)[i]| > 0
  {
    hide Blob;
    BlobLength(p.items[i]);
  }

  /** A number in a code item reads back. */
  lemma CodeWord(h: Hashes, p: Plan, i: nat, x: nat, n: nat, v: nat)
    requires Good(h, p) && i < |p.items| && x + n <= |Blob(p.items[i])| && Blob(p.items[i])[x..x + n] == U(v, n) &&
      v < Pow256(n)
    ensures Word(File(h, p), CodeOff(p, i) + x, n) == Some(v)
  {
    hide Concat, File, Start, Good, Blob, CodeOff, U, Word, Recorded, Pow256;
    var b, cs := Blob(p.items[i]), CodeChunks(p);
    assert cs[i] == Padded(b);
    assert Padded(b)[..|b|] == b;
    Inner(Padded(b), 0, |b|, x, x + n);
    assert Padded(b)[0..|b|] == b;
    CodeLies(h, p, i);
    RowWord(h, p, 7, cs, i, x, n, v);
  }

  lemma ItemFits(h: Hashes, p: Plan, i: nat)
    requires Good(h, p) && i < |p.items|
    ensures Fits(p.items[i])
  {
    hide Concat, Closed, Sorted, Ascii, Fits, Body11;
  }

  lemma UnitReads(h: Hashes, p: Plan, i: nat, k: nat)
    requires Good(h, p) && i < |p.items| && k < |p.items[i].units|
    ensures UnitAt(File(h, p), CodeOff(p, i) + 16 + 2 * k) == Some(p.items[i].units[k])
  {
    hide Concat, File, Good, Blob, CodeOff, U, Word;
    var c := p.items[i];
    Pow256Is();
    BlobUnit(c, k);
    CodeWord(h, p, i, 16 + 2 * k, 2, c.units[k]);
    assert CodeOff(p, i) + (16 + 2 * k) == CodeOff(p, i) + 16 + 2 * k;
  }

  lemma UnitsRead(h: Hashes, p: Plan, i: nat)
    requires Good(h, p) && i < |p.items|
    ensures Gather(|p.items[i].units|, UnitsFrom(File(h, p), CodeOff(p, i) + 16)) == Some(p.items[i].units)
  {
    hide Gather, File, Good, CodeOff, UnitAt;
    var d, o, units := File(h, p), CodeOff(p, i) + 16, p.items[i].units;
    forall k | 0 <= k < |units| ensures UnitsFrom(d, o)(k) == Some(units[k]) {
      UnitReads(h, p, i, k);
    }
    GatherIs(|units|, UnitsFrom(d, o), units);
  }

  /** Code item i reads back where its offset says. */
  lemma ItemReads(h: Hashes, p: Plan, i: nat)
    requires Good(h, p) && i < |p.items|
    ensures ItemAt(File(h, p), CodeOff(p, i)) == Some(p.items[i])
  {
    hide Concat, File, Good, Blob, BlobHead, CodeOff, U, Word, Gather;
    var c := p.items[i];
    Pow256Is();
    ItemFits(h, p, i);
    BlobHeadParts(c);
    BlobSlice(c, 0, 2);
    BlobSlice(c, 2, 2);
    BlobSlice(c, 4, 2);
    BlobSlice(c, 6, 2);
    BlobSlice(c, 8, 4);
    BlobSlice(c, 12, 4);
    CodeWord(h, p, i, 0, 2, c.nregs);
    CodeWord(h, p, i, 2, 2, c.ins);
    CodeWord(h, p, i, 4, 2, c.outs);
    CodeWord(h, p, i, 6, 2, 0);
    CodeWord(h, p, i, 8, 4, 0);
    CodeWord(h, p, i, 12, 4, |c.units|);
    UnitsRead(h, p, i);
  }

  // ---------- class data ----------

  /** A uleb128 number reads back, and ends where its bytes end. */
  lemma {:induction false} UlebReads(d: Bytes, o: nat, n: nat)
    requires o + |Uleb(n)| <= |d| && d[o..o + |Uleb(n)|] == Uleb(n)
    ensures UlebAt(d, o) == Some((n, o + |Uleb(n)|))
    decreases n
  {
    assert d[o] == d[o..o + |Uleb(n)|][0];
    if n >= 128 {
      assert d[o + 1..o + 1 + |Uleb(n / 128)|] == d[o..o + |Uleb(n)|][1..];
      UlebReads(d, o + 1, n / 128);
    }
  }

  /** An entry of the class data stands for a method of the plan. */
  ghost predicate Stands(p: Plan, m: DexLayout.Method) {
    && |p.ids| == |p.items| && m.id in p.ids && (m.access == 8 || m.access == 9)
    && m.off == CodeOff(p, Place(p.ids, m.id)) && m.id < |p.b.m| && p.b.m[m.id].cls == p.me
  }

  ghost predicate AllStand(p: Plan, ms: seq<DexLayout.Method>) {
    forall k :: 0 <= k < |ms| ==> Stands(p, ms[k])
  }

  /** Entries from id prev on. */
  ghost predicate From(ms: seq<DexLayout.Method>, prev: nat) {
    (ms != [] ==> prev <= ms[0].id) && forall k :: 0 < k < |ms| ==> ms[k - 1].id <= ms[k].id
  }

  function CodedOne(p: Plan, m: DexLayout.Method): Option<Coded> {
    if |p.ids| == |p.items| && m.id in p.ids && m.id < |p.b.m| then
      Some(Coded(m.id, m.access, p.items[Place(p.ids, m.id)]))
    else None
  }

  /** The method with an id of the table passes the checks of read. */
  ghost predicate PassesAs(p: Plan, id: nat, c: Item) {
    id < |p.b.m| && Passes(p.b, p.me, p.b.m[id].proto, c)
  }

  /** What reading the entries gives: each method's code by its id, if every one passes. */
  ghost function CodedOf(p: Plan, ms: seq<DexLayout.Method>): Option<seq<Coded>> {
    if ms == [] then Some([])
    else
      var c :- CodedOne(p, ms[0]);
      var _ :- Need(PassesAs(p, c.id, c.item));
      var rest :- CodedOf(p, ms[1..]);
      Some([c] + rest)
  }

  ghost predicate Lies(d: Bytes, o: nat, b: Bytes) {
    o + |b| <= |d| && d[o..o + |b|] == b
  }

  /** The entries of the class data read back with their code. */
  lemma {:induction false} EntriesRead(h: Hashes, p: Plan, ms: seq<DexLayout.Method>, prev: nat, o: nat)
    requires Good(h, p) && AllStand(p, ms) && From(ms, prev) && Lies(File(h, p), o, Encoded(ms, prev))
    ensures MethodsRead(File(h, p), p.b, p.me, CodesOff(p), |ms|, o, prev) == CodedOf(p, ms)
    decreases |ms|
  {
    hide File, Good, CodeOff, CodesOff, ItemAt, Uleb, MethodsRead, CodedOf, Encoded;
    if ms == [] {
      NoEntries(File(h, p), p, o, prev);
    } else {
      var m, k := ms[0], Place(p.ids, ms[0].id);
      assert Stands(p, m);
      var a, b, c := Uleb(m.id - prev), Uleb(m.access), Uleb(m.off);
      EncodedCons(ms, prev);
      EntryAt(File(h, p), o, a, b, c, Encoded(ms[1..], m.id));
      CodeLies(h, p, k);
      ItemReads(h, p, k);
      EntriesRead(h, p, ms[1..], m.id, o + |a| + |b| + |c|);
      EntryReads(File(h, p), p, ms, prev, o);
    }
  }

  lemma NoEntries(d: Bytes, p: Plan, o: nat, prev: nat)
    ensures MethodsRead(d, p.b, p.me, CodesOff(p), 0, o, prev) == CodedOf(p, [])
  {
  }

  lemma EncodedCons(ms: seq<DexLayout.Method>, prev: nat)
    requires ms != [] && prev <= ms[0].id
    ensures Encoded(ms, prev) ==
      Uleb(ms[0].id - prev) + Uleb(ms[0].access) + Uleb(ms[0].off) + Encoded(ms[1..], ms[0].id)
  {
    hide Uleb;
  }

  /** One entry, its code and the rest being readable. */
  lemma EntryReads(d: Bytes, p: Plan, ms: seq<DexLayout.Method>, prev: nat, o: nat)
    requires ms != [] && Stands(p, ms[0]) && prev <= ms[0].id
    requires var m := ms[0]; var a, b, c := Uleb(m.id - prev), Uleb(m.access), Uleb(m.off);
      && Lies(d, o, a) && Lies(d, o + |a|, b) && Lies(d, o + |a| + |b|, c)
      && CodesOff(p) <= m.off < |d| && ItemAt(d, m.off) == Some(p.items[Place(p.ids, m.id)])
      && MethodsRead(d, p.b, p.me, CodesOff(p), |ms| - 1, o + |a| + |b| + |c|, m.id) == CodedOf(p, ms[1..])
    ensures MethodsRead(d, p.b, p.me, CodesOff(p), |ms|, o, prev) == CodedOf(p, ms)
  {
    hide CodesOff, CodeOff, ItemAt, Passes, Uleb, UlebAt, MethodsRead, CodedOf;
    var m := ms[0];
    var a, b, c := Uleb(m.id - prev), Uleb(m.access), Uleb(m.off);
    UlebReads(d, o, m.id - prev);
    UlebReads(d, o + |a|, m.access);
    UlebReads(d, o + |a| + |b|, m.off);
    MethodsReadOn(d, p.b, p.me, CodesOff(p), |ms|, o, prev);
    CodedOn(p, ms);
  }

  /** One turn of read's loop over the methods. */
  lemma MethodsReadOn(d: Bytes, b: Tables, me: string, first: nat, n: nat, o: nat, idx: nat)
    requires n > 0 && UlebAt(d, o).Some? && UlebAt(d, UlebAt(d, o).value.1).Some?
    requires UlebAt(d, UlebAt(d, UlebAt(d, o).value.1).value.1).Some?
    ensures var (diff, o1) := UlebAt(d, o).value;
      var (access, o2) := UlebAt(d, o1).value;
      var (co, o3) := UlebAt(d, o2).value;
      var id := idx + diff;
      MethodsRead(d, b, me, first, n, o, idx) ==
      if id >= |b.m| || b.m[id].cls != me || access / 8 % 2 != 1 || !(first <= co < |d|) then None
      else
        match ItemAt(d, co)
        case None => None
        case Some(item) =>
          if Passes(b, me, b.m[id].proto, item) then
            CodedAhead(Coded(id, access, item), MethodsRead(d, b, me, first, n - 1, o3, id))
          else None
  {
    hide ItemAt, Passes, UlebAt;
  }

  function CodedAhead(c: Coded, rest: Option<seq<Coded>>): Option<seq<Coded>> {
    match rest case None => None case Some(cs) => Some([c] + cs)
  }

  lemma CodedOn(p: Plan, ms: seq<DexLayout.Method>)
    requires ms != [] && Stands(p, ms[0])
    ensures var m := ms[0]; var item := p.items[Place(p.ids, m.id)];
      CodedOf(p, ms) ==
      if PassesAs(p, m.id, item) then CodedAhead(Coded(m.id, m.access, item), CodedOf(p, ms[1..])) else None
  {
    hide PassesAs, CodeOff;
  }

  lemma EntryAt(d: Bytes, o: nat, a: Bytes, b: Bytes, c: Bytes, rest: Bytes)
    requires Lies(d, o, a + b + c + rest)
    ensures Lies(d, o, a) && Lies(d, o + |a|, b) && Lies(d, o + |a| + |b|, c) && Lies(d, o + |a| + |b| + |c|, rest)
  {
    var s := a + b + c + rest;
    var n := o + |s|;
    ThreeWords(a, b, c);
    assert s == (a + b + c) + rest;
    Behind(a + b + c, rest, 0, |rest|);
    Inner(d, o, n, 0, |a|);
    Inner(d, o, n, |a|, |a| + |b|);
    Inner(d, o, n, |a| + |b|, |a| + |b| + |c|);
    Inner(d, o, n, |a| + |b| + |c|, |a| + |b| + |c| + |rest|);
    assert s[0..|a|] == (a + b + c)[0..|a|] && s[|a|..|a| + |b|] == (a + b + c)[|a|..|a| + |b|];
    assert s[|a| + |b|..|a| + |b| + |c|] == (a + b + c)[|a| + |b|..|a| + |b| + |c|];
  }

  lemma PlaceDistinct(xs: seq<nat>, k: nat)
    requires k < |xs| && forall i, j :: 0 <= i < j < |xs| ==> xs[i] != xs[j]
    ensures Place(xs, xs[k]) == k
  {
    var j := Place(xs, xs[k]);
    assert xs[j] == xs[k];
  }

  lemma LessFirst(a: Key, b: Key)
    requires a != [] && b != [] && Less(a, b)
    ensures a[0] <= b[0]
  {
  }

  /** The methods of the plan, sorted by id. */
  function Entries(p: Plan): seq<DexLayout.Method>
    requires |p.names| == |p.ids| == |p.items|
  {
    SortBy(Methods(p), ById())
  }

  lemma EntriesStand(p: Plan)
    requires Sound(p)
    ensures |Entries(p)| == |p.ids| && AllStand(p, Entries(p)) && From(Entries(p), 0)
  {
    hide Closed, Sorted, Ascii, Fits, SortBy, Ascending, CodeOff;
    var all, ms := Methods(p), Entries(p);
    forall i, j | 0 <= i < j < |all| ensures ById()(all[i]) != ById()(all[j]) {
      assert ById()(all[i])[0] == p.ids[i] && ById()(all[j])[0] == p.ids[j];
    }
    SortLength(all, ById());
    SortSorts(all, ById());
    forall k | 0 <= k < |ms| ensures Stands(p, ms[k]) {
      assert ms[k] in ms;
      var i :| 0 <= i < |all| && all[i] == ms[k];
      PlaceDistinct(p.ids, i);
    }
    EntriesFrom(ms);
  }

  lemma EntriesFrom(ms: seq<DexLayout.Method>)
    requires Ascending(ms, ById())
    ensures From(ms, 0)
  {
    forall k | 0 < k < |ms| ensures ms[k - 1].id <= ms[k].id {
      LessFirst(ById()(ms[k - 1]), ById()(ms[k]));
    }
  }

  lemma ClassDefParts(p: Plan)
    ensures ClassDef(p)[0..4] == U(Place(p.b.t, p.me), 4) && ClassDef(p)[24..28] == U(ClassOff(p), 4)
  {
    hide U, ClassOff;
    var x := U(Place(p.b.t, p.me), 4) + U(1, 4) + U(Place(p.b.t, OBJECT), 4) + U(0, 4) + U(0xFFFFFFFF, 4) + U(0, 4);
    assert ClassDef(p) == x + (U(ClassOff(p), 4) + U(0, 4));
    Behind(x, U(ClassOff(p), 4) + U(0, 4), 0, 4);
    assert ClassDef(p)[0..4] == x[0..4] == U(Place(p.b.t, p.me), 4);
  }

  lemma ClassWords(h: Hashes, p: Plan)
    requires Good(h, p)
    ensures Word(File(h, p), Recorded(p, 5) + 24, 4) == Some(ClassOff(p))
    ensures TypeNamed(File(h, p), p.b.t, Recorded(p, 5), 4) == Some(p.me)
  {
    hide File, Good, ClassOff, U, ClassDef, Recorded, Word, TypeNamed;
    ClassDefParts(p);
    TablesSmall(h, p);
    Pow256Is();
    ClassIn(h, p);
    WordIn(h, p, 5, 24, 4, ClassOff(p));
    WordIn(h, p, 5, 0, 4, Place(p.b.t, p.me));
    NamedReads(File(h, p), p.b.t, Recorded(p, 5), 4, p.me);
  }

  lemma ClassIn(h: Hashes, p: Plan)
    requires Good(h, p)
    ensures p.me in p.b.t && ClassOff(p) < Pow256(4) && ClassOff(p) == Recorded(p, 9)
  {
    hide File, ClassOff, Concat, Closed, Sorted, Ascii, Fits, Body11;
    OffsetsBelow(h, p);
    assert Recorded(p, 9) <= |File(h, p)|;
  }

  /** The class data lies at its offset. */
  lemma ClassLies(h: Hashes, p: Plan)
    requires Good(h, p)
    ensures Lies(File(h, p), ClassOff(p), ClassData(p))
  {
    hide File, Good, ClassOff, ClassData, Recorded;
    ClassIn(h, p);
    var c := ClassData(p);
    Stretch(h, p, 9, 0, |c|);
    assert Padded(c)[0..|c|] == Padded(c)[..|c|] == c;
  }

  lemma Fives(d: Bytes, o: nat, a: Bytes, b: Bytes, c: Bytes, e: Bytes, rest: Bytes)
    requires Lies(d, o, a + b + c + e + rest)
    ensures Lies(d, o, a) && Lies(d, o + |a|, b) && Lies(d, o + |a| + |b|, c) && Lies(d, o + |a| + |b| + |c|, e)
    ensures Lies(d, o + |a| + |b| + |c| + |e|, rest)
  {
    assert a + b + c + e + rest == a + b + c + (e + rest);
    EntryAt(d, o, a, b, c, e + rest);
    assert e + rest == e + rest + [] + [];
    EntryAt(d, o + |a| + |b| + |c|, e, rest, [], []);
  }

  lemma ClassReads(h: Hashes, p: Plan, count: nat)
    requires Good(h, p)
    ensures |p.names| == |p.ids| == |p.items|
    ensures CodeRead(File(h, p), p.b, p.me, count, Recorded(p, 5), CodesOff(p)) ==
      if count == |p.ids| then CodedOf(p, Entries(p)) else None
  {
    hide File, ClassOff, CodesOff, Recorded, Word, TypeNamed, MethodsRead, Encoded, Uleb, UlebAt, CodedOf;
    hide Sound, Concat, Body11;
    PlanSizes(p);
    var d, o, ms := File(h, p), ClassOff(p), Entries(p);
    ClassWords(h, p);
    ClassLies(h, p);
    EntriesStand(p);
    Fives(d, o, Uleb(0), Uleb(0), Uleb(|p.ids|), Uleb(0), Encoded(ms, 0));
    UlebReads(d, o, 0);
    UlebReads(d, o + |Uleb(0)|, 0);
    UlebReads(d, o + |Uleb(0)| + |Uleb(0)|, |p.ids|);
    UlebReads(d, o + |Uleb(0)| + |Uleb(0)| + |Uleb(|p.ids|)|, 0);
    EntriesRead(h, p, ms, 0, o + |Uleb(0)| + |Uleb(0)| + |Uleb(|p.ids|)| + |Uleb(0)|);
  }

  lemma PlanSizes(p: Plan)
    requires Sound(p)
    ensures |p.names| == |p.ids| == |p.items|
  {
  }

  /**
   Reading a built file gives back its tables and the code of its methods, if their number is the
   one asked for and each of them passes.
   */
  lemma ReadsBack(h: Hashes, p: Plan, count: nat)
    requires Good(h, p)
    ensures |p.names| == |p.ids| == |p.items|
    ensures Read(h, File(h, p), p.me, count) ==
      if count != |p.ids| || CodedOf(p, Entries(p)).None? then None else Some(Parsed(p.b, CodedOf(p, Entries(p)).value))
  {
    hide File, CodesOff, Sound, Concat, Body11, HeadWords, HeadOk, MapRead, MapOk, IdsRead, CodeRead, MapOf;
    hide Words, Entries, CodedOf, Recorded, MapOff;
    PlanSizes(p);
    HeadReads(h, p);
    IdWords(p, |File(h, p)|);
    MapReads(h, p);
    MapChecks(p, |File(h, p)|);
    TablesRead(h, p);
    CodesFound(p);
    ClassReads(h, p, count);
  }

  /** What is read of the code: as many entries as there are methods, each method's own code among them. */
  lemma {:induction false} CodedHolds(p: Plan, ms: seq<DexLayout.Method>)
    requires AllStand(p, ms)
    ensures CodedOf(p, ms).Some? <==> forall k :: 0 <= k < |ms| ==> PassesAs(p, ms[k].id, CodedOne(p, ms[k]).value.item)
    ensures CodedOf(p, ms).Some? ==> |CodedOf(p, ms).value| == |ms|
    ensures CodedOf(p, ms).Some? ==> forall k :: 0 <= k < |ms| ==> CodedOne(p, ms[k]) == Some(CodedOf(p, ms).value[k])
  {
    hide PassesAs, CodeOff;
    if ms != [] {
      assert Stands(p, ms[0]);
      assert forall k :: 0 < k < |ms| ==> ms[k] == ms[1..][k - 1];
      CodedHolds(p, ms[1..]);
    }
  }

  /** The code read back is that of the plan's methods, entry by entry. */
  lemma CodeReadBack(p: Plan)
    requires Sound(p)
    ensures |p.names| == |p.ids| == |p.items|
    ensures var code := CodedOf(p, Entries(p));
      && (code.Some? <==> forall k :: 0 <= k < |p.items| ==> PassesAs(p, p.ids[k], p.items[k]))
      && (code.Some? ==> |code.value| == |p.ids| && forall k :: 0 <= k < |p.ids| ==>
        Coded(p.ids[k], if p.names[k] == "main" then 9 else 8, p.items[k]) in code.value)
  {
    hide Closed, Sorted, Ascii, Fits, PassesAs, CodeOff, CodedOf, Entries;
    PlanSizes(p);
    var ms := Entries(p);
    EntriesStand(p);
    CodedHolds(p, ms);
    EntriesHold(p);
    forall k | 0 <= k < |p.ids|
      ensures CodedOne(p, Methods(p)[k]) == Some(Coded(p.ids[k], if p.names[k] == "main" then 9 else 8, p.items[k]))
    {
      PlaceDistinct(p.ids, k);
    }
    forall k | 0 <= k < |p.ids| && CodedOf(p, ms).Some?
      ensures PassesAs(p, p.ids[k], p.items[k]) &&
        Coded(p.ids[k], if p.names[k] == "main" then 9 else 8, p.items[k]) in CodedOf(p, ms).value
    {
      assert Methods(p)[k] in ms;
      var j :| 0 <= j < |ms| && ms[j] == Methods(p)[k];
      assert CodedOf(p, ms).value[j] in CodedOf(p, ms).value;
    }
    forall j | 0 <= j < |ms| ensures exists k :: 0 <= k < |p.ids| && ms[j] == Methods(p)[k] {
      assert ms[j] in ms;
    }
  }

  lemma EntriesHold(p: Plan)
    requires Sound(p)
    ensures |p.names| == |p.ids| == |p.items|
    ensures forall m :: m in Entries(p) <==> m in Methods(p)
  {
    hide Closed, Sorted, Ascii, Fits, SortBy, CodeOff;
    var all := Methods(p);
    SortSorts(all, ById());
    forall x, y | x in all && y in all && ById()(x) == ById()(y) ensures x == y {
      var a, b := ById()(x), ById()(y);
      assert a[0] == b[0] && a[1] == b[1] && a[2] == b[2];
    }
  }

  lemma CodesFound(p: Plan)
    ensures Where(MapOf(p), 0x2001) == Some(Section(0x2001, |p.items|, CodesOff(p)))
  {
    hide MapOf, CodesOff, StringOff, ClassOff, MapOff, Where;
    var s := Section(0x2001, |p.items|, CodesOff(p));
    assert s in LastOf(p);
    Finds(p, s);
  }
}
