/** Programs that build takes, and whose file read refuses: a method listed twice, one that verify does not accept. */
module DexRefused {
  import opened Wrappers
  import opened Ordering
  import opened Chunks
  import opened LittleEndian
  import opened DexCode
  import opened DexVerify
  import opened DexAsm
  import opened DexTables
  import opened DexLayout
  import opened DexSections
  import opened DexBuild
  import DexLoop
  import DexReader
  import DexRoundTrip

  // ---------- how long a small file can get ----------

  lemma {:induction false} UlebShort(n: nat)
    ensures |Uleb(n)| <= n + 1
  {
    if n >= 128 {
      UlebShort(n / 128);
    }
  }

  lemma {:induction false} ConcatBound(rows: seq<Bytes>, w: nat)
    requires forall i :: 0 <= i < |rows| ==> |rows[i]| <= w
    ensures |Concat(rows)| <= |rows| * w
  {
    if rows != [] {
      ConcatBound(rows[1..], w);
      assert |rows| * w == w + |rows[1..]| * w;
    }
  }

  lemma {:induction false} SortFewer<T>(xs: seq<T>, key: T -> Key)
    ensures |SortBy(xs, key)| <= |xs|
  {
    if xs != [] {
      SortFewer(xs[1..], key);
      InsertOne(xs[0], SortBy(xs[1..], key), key);
    }
  }

  lemma {:induction false} InsertOne<T>(x: T, xs: seq<T>, key: T -> Key)
    ensures |Insert(x, xs, key)| <= |xs| + 1
  {
    if xs != [] {
      InsertOne(x, xs[1..], key);
    }
  }

  /** One method of one unit, no parameters, and a handful of names. */
  ghost predicate Small(p: Plan) {
    && |p.b.s| <= 8 && |p.b.t| <= 8 && |p.b.p| <= 8 && |p.b.f| <= 8 && |p.b.m| <= 8
    && (forall k :: 0 <= k < |p.b.s| ==> |p.b.s[k]| < 128 && Ascii(p.b.s[k]))
    && (forall k :: 0 <= k < |p.b.p| ==> p.b.p[k].params == [])
    && |p.items| == |p.ids| == |p.names| == 1 && |p.items[0].units| == 1 && p.ids[0] <= 8
  }

  lemma {:induction false} NoListRoom(ps: seq<Proto>, k: nat, o: nat)
    requires k <= |ps| && forall i :: 0 <= i < |ps| ==> ps[i].params == []
    ensures ListsEnd(ps, k, o) == o
  {
    if k > 0 {
      NoListRoom(ps, k - 1, o);
    }
  }

  lemma SmallCode(p: Plan)
    requires Small(p)
    ensures CodesOff(p) <= 1000 && |Concat(ListChunks(p))| == 0 && |Concat(CodeChunks(p))| == 20
  {
    hide Concat, Blob, ListChunks, ListsEnd;
    NoListRoom(p.b.p, |p.b.p|, DataOff(p.b));
    CodesBegin(p);
    BlobLength(p.items[0]);
    assert CodeChunks(p) == [Padded(Blob(p.items[0]))];
    ConcatOne(Padded(Blob(p.items[0])));
  }

  lemma SmallStrings(p: Plan)
    requires Small(p)
    ensures |Padded(Concat(StringChunks(p)))| <= 2000
  {
    hide Concat, Padded;
    forall i | 0 <= i < |p.b.s| ensures |StringChunks(p)[i]| <= 129 {
      StringSize(p.b.s[i]);
    }
    ConcatBound(StringChunks(p), 129);
    assert |StringChunks(p)| * 129 <= 8 * 129;
  }

  lemma SmallClass(p: Plan)
    requires Small(p)
    ensures |Padded(ClassData(p))| <= 2000
  {
    hide CodesOff, Uleb, Padded;
    SmallCode(p);
    var ms := Methods(p);
    assert SortBy(ms[1..], ById()) == [] && SortBy(ms, ById()) == [ms[0]];
    var m := ms[0];
    assert [m][1..] == [];
    assert Encoded([m], 0) == Uleb(m.id) + Uleb(m.access) + Uleb(m.off) + [];
    UlebShort(0);
    UlebShort(1);
    UlebShort(m.id);
    UlebShort(m.access);
    UlebShort(m.off);
    assert m.off == CodeOff(p, 0) == CodesOff(p);
  }

  lemma SmallMap(p: Plan)
    requires Small(p)
    ensures |SectionBytes(p, 10)| <= 148
  {
    hide Concat, CodesOff, StringOff, ClassOff, MapOff, WithParams;
    assert |MapOf(p)| <= 12;
    EvenSize(MapRows(MapOf(p)), 12);
  }

  lemma SmallFile(h: Hashes, p: Plan)
    requires ValidHashes(h) && Small(p)
    ensures |File(h, p)| < Pow256(4)
  {
    hide File, Concat, Body11, ListChunks, CodeChunks, StringChunks, ClassData, MapOf, CodesOff, Padded;
    hide StringRows, TypeRows, ProtoRows, FieldRows, MethodRows, ClassDef;
    FileParts(h, p);
    var s := Body11(p);
    Sizes(p);
    SmallCode(p);
    SmallStrings(p);
    SmallClass(p);
    SmallMap(p);
    Starts(s, 10);
    StartNext(s, 10);
    StartEnd(s);
    DexRoundTrip.Pow256Is();
  }

  // ---------- the programs ----------

  /** A class with a method f that returns r and takes nothing, listed n times. */
  function Listing(r: string, n: nat): Program {
    Program("La;", seq(n, _ => ("f", Proto(r, []))), map[], map[])
  }

  /** The code of f: return-void. */
  function ReturnsVoid(): Codes {
    [("f", Body(0, 0, 0, [Lit(0x0e)]))]
  }

  /** f listed once or twice, returning nothing or an int. */
  predicate Listed(prog: Program, r: string, n: nat) {
    prog == Listing(r, n) && (n == 1 || n == 2) && (r == "V" || r == "I")
  }

  function MethodF(r: string): MethodId { MethodId("La;", Proto(r, []), "f") }

  function PoolF(r: string): Pool {
    Pool(["La;", "f", r], ["La;", r], [Proto(r, [])], [], [MethodF(r)])
  }

  lemma NamesListed(prog: Program, r: string, n: nat)
    requires Listed(prog, r, n)
    ensures Proper(prog) && NamesMatch(prog, ReturnsVoid()) && (Distinct(OwnNames(prog)) <==> n == 1)
    ensures AllSyms(prog, ReturnsVoid()) == seq(n, _ => Sym("method", "f")) + [Sym("type", OBJECT)]
    ensures MethodNamed(prog, "f") == Some(MethodF(r))
  {
    var codes := ReturnsVoid();
    var own, names := OwnNames(prog), NamesOf(codes);
    assert own[0] == "f" && (n == 2 ==> own[0] == own[1]) && names[0] == "f";
    assert forall x :: x in names ==> x == "f";
    assert forall x :: x in own ==> x == "f";
    assert CodeRefs(codes[1..]) == [] && Refs(codes[0].1.units[1..]) == [];
    assert MethodSyms(own) == seq(n, _ => Sym("method", "f"));
  }

  lemma TypeNew(q: Pool, v: string)
    requires v !in q.s && v !in q.t
    ensures WithType(q, v) == Pool(q.s + [v], q.t + [v], q.p, q.f, q.m)
  {
  }

  /** Collecting a method whose names are apart. */
  lemma Collects(a: string, f: string, r: string)
    requires a != f && a != r && f != r
    ensures WithMethod(EMPTY, MethodId(a, Proto(r, []), f)) ==
      Pool([a, f, r], [a, r], [Proto(r, [])], [], [MethodId(a, Proto(r, []), f)])
  {
    hide WithTypes, WithType;
    TypeNew(EMPTY, a);
    assert [] + [a] == [a];
    var named := Pool([a] + [f], [a], [], [], []);
    assert WithString(WithType(EMPTY, a), f) == named;
    NoTypes(named);
    TypeNew(named, r);
    assert [a] + [f] + [r] == [a, f, r] && [a] + [r] == [a, r];
  }

  lemma NoTypes(q: Pool)
    ensures WithTypes(q, []) == q
  {
  }

  /** Collecting it again changes nothing; collecting another type adds that. */
  lemma CollectsAgain(q: Pool, m: MethodId, o: string)
    requires q == Pool([m.cls, m.name, m.proto.ret], [m.cls, m.proto.ret], [m.proto], [], [m]) && m.proto.params == []
    requires o != m.cls && o != m.name && o != m.proto.ret
    ensures WithMethod(q, m) == q
    ensures WithType(q, o) == q.(s := [m.cls, m.name, m.proto.ret, o], t := [m.cls, m.proto.ret, o])
  {
    hide WithTypes;
    NoTypes(q);
  }

  lemma MethodCollected(r: string)
    requires r == "V" || r == "I"
    ensures WithMethod(EMPTY, MethodF(r)) == PoolF(r) && WithMethod(PoolF(r), MethodF(r)) == PoolF(r)
    ensures WithType(PoolF(r), OBJECT) == PoolF(r).(s := ["La;", "f", r, OBJECT], t := ["La;", r, OBJECT])
  {
    hide WithMethod, WithType;
    assert |r| == 1 && r[0] != 'f' && |OBJECT| == 18;
    Collects("La;", "f", r);
    CollectsAgain(PoolF(r), MethodF(r), OBJECT);
  }

  lemma ListedCollected(prog: Program, r: string, n: nat)
    requires Listed(prog, r, n)
    ensures WithSyms(prog, EMPTY, AllSyms(prog, ReturnsVoid())) == Some(WithType(PoolF(r), OBJECT))
  {
    hide AllSyms, MethodNamed, WithMethod, WithType;
    NamesListed(prog, r, n);
    MethodCollected(r);
    var f, o, all := Sym("method", "f"), Sym("type", OBJECT), WithType(PoolF(r), OBJECT);
    assert [o][1..] == [] && [f, o][1..] == [o] && [f, f, o][1..] == [f, o];
    assert WithSyms(prog, all, []) == Some(all);
    assert WithSyms(prog, PoolF(r), [o]) == Some(all);
    assert WithSyms(prog, PoolF(r), [f, o]) == Some(all);
    assert WithSyms(prog, EMPTY, [f, o]) == Some(all);
    assert AllSyms(prog, ReturnsVoid()) == if n == 1 then [f, o] else [f, f, o];
  }

  /** Tables are no longer than the lists collected, and hold what those hold and the shorties. */
  lemma TablesFew(q: Pool, b: Tables)
    requires b == TablesOf(q)
    ensures |b.s| <= |q.s| + |q.p| && |b.t| <= |q.t| && |b.p| <= |q.p| && |b.f| <= |q.f| && |b.m| <= |q.m|
    ensures (forall x :: x in b.s ==> x in q.s + Shorties(q.p)) && forall x :: x in b.p ==> x in q.p
  {
    hide SortBy, Shorty, Ascending, Chars, TypeKey, ProtoKey, FieldKey, MethodKey;
    SortFewer(q.s + Shorties(q.p), Chars);
    SortFewer(q.t, TypeKey(b.s));
    SortFewer(q.p, ProtoKey(b.t));
    SortFewer(q.f, FieldKey(b.s, b.t));
    SortFewer(q.m, MethodKey(b.s, b.t, b.p));
    SortSorts(q.s + Shorties(q.p), Chars);
    SortSorts(q.p, ProtoKey(b.t));
  }

  lemma NamesPlain(r: string, x: string)
    requires (r == "V" || r == "I") && x in ["La;", "f", r, OBJECT] + [r]
    ensures |x| < 128 && Ascii(x)
  {
  }

  lemma ListedTables(r: string, b: Tables)
    requires (r == "V" || r == "I") && b == TablesOf(WithType(PoolF(r), OBJECT))
    ensures |b.s| <= 5 && |b.t| <= 3 && |b.p| <= 1 && |b.f| == 0 && |b.m| <= 1
    ensures forall k :: 0 <= k < |b.s| ==> |b.s[k]| < 128 && Ascii(b.s[k])
    ensures forall k :: 0 <= k < |b.p| ==> b.p[k].params == []
  {
    hide TablesOf, WithType, Ascii;
    MethodCollected(r);
    var q := WithType(PoolF(r), OBJECT);
    TablesFew(q, b);
    assert Shorties(q.p) == [r] by {
      assert Shorty(Proto(r, [])) == r;
    }
    forall k | 0 <= k < |b.s| ensures |b.s[k]| < 128 && Ascii(b.s[k]) {
      assert b.s[k] in q.s + [r];
      NamesPlain(r, b.s[k]);
    }
    forall k | 0 <= k < |b.p| ensures b.p[k].params == [] {
      assert b.p[k] in q.p;
    }
  }

  lemma ListedPlanned(prog: Program, r: string, n: nat)
    requires Listed(prog, r, n)
    ensures PlanOf(prog, ReturnsVoid()).Some? && Small(PlanOf(prog, ReturnsVoid()).value)
    ensures PlanOf(prog, ReturnsVoid()).value.items == [Item.Item(0, 0, 0, [0x0e])]
  {
    hide AllSyms, WithSyms, TablesOf, Proper, NamesMatch, IndexOf, Ascii, WithType;
    var codes := ReturnsVoid();
    NamesListed(prog, r, n);
    ListedCollected(prog, r, n);
    var b := TablesOf(WithType(PoolF(r), OBJECT));
    ListedTables(r, b);
    var units: seq<Unit> := [Lit(0x0e)];
    assert units[..0] == [] && [] + [0x0e] == [0x0e];
    assert PackUnits([], Indexer(prog, b)) == Some([]);
    assert OneUnit(units[0], Indexer(prog, b)) == Some(0x0e);
    assert PackUnits(units, Indexer(prog, b)) == Some([0x0e]);
    assert PackAll(codes[1..], Indexer(prog, b)) == Some([]);
    var item := Item.Item(0, 0, 0, [0x0e]);
    assert [item] + [] == [item];
    assert PackAll(codes, Indexer(prog, b)) == Some([item]);
    assert OwnNames(prog)[0] == "f";
    OwnResolves(prog, codes, "f");
  }

  lemma ListedBuilds(h: Hashes, prog: Program, r: string, n: nat)
    requires ValidHashes(h) && Listed(prog, r, n)
    ensures Build(h, prog, ReturnsVoid()).Some?
  {
    hide PlanOf, File, Small;
    ListedPlanned(prog, r, n);
    SmallFile(h, PlanOf(prog, ReturnsVoid()).value);
  }

  /** build makes a file of the program that lists its method twice, and read refuses it. */
  lemma TwiceRefused(h: Hashes)
    requires ValidHashes(h)
    ensures Build(h, Listing("V", 2), ReturnsVoid()).Some?
    ensures DexReader.Read(h, Build(h, Listing("V", 2), ReturnsVoid()).value, "La;", 2).None?
  {
    hide PlanOf, Build, DexReader.Read, CodePasses;
    var prog := Listing("V", 2);
    ListedBuilds(h, prog, "V", 2);
    NamesListed(prog, "V", 2);
    BuiltReads(h, prog, ReturnsVoid());
  }

  /** A return-void where an int is to be returned: the loop's first visit refuses it. */
  lemma WrongReturnRejected(m: Code)
    requires m.units == [0x0e] && m.ins == 0 && m.params == [] && m.ret == "I"
    ensures forall states :: !Accepts(m, states)
  {
    assert Decode(m.units, 0) == Some(ReturnVoid);
    assert Sweep(m.units, 1) == Some([]);
    assert Sweep(m.units, 0) == Some([0] + []);
    assert Transfer(m, 0, EntryRegs(m), None).None?;
    assert After(m, 0).w.stack[0] == 0;
    assert After(m, 1) == Rejected;
    forall states | Accepts(m, states) ensures false {
      DexLoop.VerdictUnique(m, states);
    }
  }

  /** So it is with the method listed once, where it is to return an int: verify does not accept it. */
  lemma WrongReturnRefused(h: Hashes)
    requires ValidHashes(h)
    ensures Build(h, Listing("I", 1), ReturnsVoid()).Some?
    ensures DexReader.Read(h, Build(h, Listing("I", 1), ReturnsVoid()).value, "La;", 1).None?
  {
    hide PlanOf, Build, DexReader.Read, Accepts, DexReader.OwnCalls, PackBody;
    var prog, codes := Listing("I", 1), ReturnsVoid();
    ListedBuilds(h, prog, "I", 1);
    ListedPlanned(prog, "I", 1);
    NamesListed(prog, "I", 1);
    BuiltReads(h, prog, codes);
    PlanParts(prog, codes);
    var p := PlanOf(prog, codes).value;
    WrongReturnRejected(DexReader.MethodCode(p.b, Proto("I", []), p.items[0]));
    assert !CodePasses(prog, p.b, codes[0]);
  }
}
