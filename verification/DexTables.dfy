/**
 The id tables of a dex file in tools/dexasm.py: the names collected in a first pass, and
 the sorted tables the second pass looks them up in.
 */
module DexTables {
  import opened Wrappers
  import opened Ordering
  import opened DexVerify
  import opened DexAsm

  /** A program: its class, its own static methods, and the methods and fields its code calls by key. */
  datatype Program = Program(me: string, own: seq<(string, Proto)>, methods: map<string, MethodId>,
                             fields: map<string, FieldId>)

  /** own_by_name: of two methods of one name the last. */
  function OwnProto(own: seq<(string, Proto)>, name: string): Option<Proto> {
    var n := |own| - 1;
    if n < 0 then None else if own[n].0 == name then Some(own[n].1) else OwnProto(own[..n], name)
  }

  /** method_id. */
  function MethodNamed(prog: Program, key: string): Option<MethodId> {
    if key in prog.methods then Some(prog.methods[key])
    else
      var p :- OwnProto(prog.own, key);
      Some(MethodId(prog.me, p, key))
  }

  function Letter(t: string): char {
    if t != "" && t[0] in "VZBSCIF" then t[0] else 'L'
  }

  /** shorty. */
  function Shorty(p: Proto): string {
    [Letter(p.ret)] + seq(|p.params|, k requires 0 <= k < |p.params| => Letter(p.params[k]))
  }

  // ---------- collecting ----------

  datatype Pool = Pool(s: seq<string>, t: seq<string>, p: seq<Proto>, f: seq<FieldId>, m: seq<MethodId>)

  const EMPTY := Pool([], [], [], [], [])

  function Add<T(==,!new)>(xs: seq<T>, x: T): (r: seq<T>)
    ensures x in r && forall y :: y in r <==> y in xs || y == x
  {
    if x in xs then xs else xs + [x]
  }

  function WithString(q: Pool, v: string): Pool {
    q.(s := Add(q.s, v))
  }

  function WithType(q: Pool, v: string): Pool {
    var r := WithString(q, v);
    r.(t := Add(r.t, v))
  }

  function WithTypes(q: Pool, ts: seq<string>): Pool
    decreases |ts|
  {
    if ts == [] then q else WithTypes(WithType(q, ts[0]), ts[1..])
  }

  function WithProto(q: Pool, p: Proto): Pool {
    var r := WithType(WithTypes(q, p.params), p.ret);
    r.(p := Add(r.p, p))
  }

  function WithMethod(q: Pool, m: MethodId): Pool {
    var r := WithProto(WithString(WithType(q, m.cls), m.name), m.proto);
    r.(m := Add(r.m, m))
  }

  function WithField(q: Pool, f: FieldId): Pool {
    var r := WithString(WithType(WithType(q, f.cls), f.desc), f.name);
    r.(f := Add(r.f, f))
  }

  /** Collector.index; None for a name the program does not have. */
  function WithSym(prog: Program, q: Pool, sym: Sym): Option<Pool> {
    if sym.kind == "str" then Some(WithString(q, sym.name))
    else if sym.kind == "type" then Some(WithType(q, sym.name))
    else if sym.kind == "field" then
      (if sym.name in prog.fields then Some(WithField(q, prog.fields[sym.name])) else None)
    else if sym.kind == "method" || sym.kind == "self" then
      var m :- MethodNamed(prog, sym.name);
      Some(WithMethod(q, m))
    else None
  }

  /** Whatever a collected id is made of is collected too. */
  ghost predicate Closed(q: Pool) {
    && (forall t :: t in q.t ==> t in q.s)
    && (forall p :: p in q.p ==> p.ret in q.t && forall k :: 0 <= k < |p.params| ==> p.params[k] in q.t)
    && (forall f :: f in q.f ==> f.cls in q.t && f.desc in q.t && f.name in q.s)
    && (forall m :: m in q.m ==> m.cls in q.t && m.name in q.s && m.proto in q.p)
  }

  ghost predicate Within(q: Pool, r: Pool) {
    && (forall x :: x in q.s ==> x in r.s) && (forall x :: x in q.t ==> x in r.t) && (forall x :: x in q.p ==> x in r.p)
    && (forall x :: x in q.f ==> x in r.f) && (forall x :: x in q.m ==> x in r.m)
  }

  lemma {:induction false} TypesKeep(q: Pool, ts: seq<string>)
    requires Closed(q)
    ensures var r := WithTypes(q, ts);
      Closed(r) && Within(q, r) && r.p == q.p && r.f == q.f && r.m == q.m && forall k :: 0 <= k < |ts| ==> ts[k] in r.t
    decreases |ts|
  {
    if ts != [] {
      TypesKeep(WithType(q, ts[0]), ts[1..]);
      assert forall k :: 0 < k < |ts| ==> ts[k] == ts[1..][k - 1];
    }
  }

  lemma ProtoKeeps(q: Pool, p: Proto)
    requires Closed(q)
    ensures var r := WithProto(q, p); Closed(r) && Within(q, r) && p in r.p && r.m == q.m
  {
    TypesKeep(q, p.params);
  }

  lemma MethodKeeps(q: Pool, m: MethodId)
    requires Closed(q)
    ensures var r := WithMethod(q, m); Closed(r) && Within(q, r) && m in r.m
  {
    hide WithProto;
    ProtoKeeps(WithString(WithType(q, m.cls), m.name), m.proto);
  }

  lemma FieldKeeps(q: Pool, f: FieldId)
    requires Closed(q)
    ensures var r := WithField(q, f); Closed(r) && Within(q, r) && f in r.f
  {
  }

  /** Collecting a name keeps what was there, with its parts. */
  lemma SymKeeps(prog: Program, q: Pool, sym: Sym)
    requires Closed(q) && WithSym(prog, q, sym).Some?
    ensures Closed(WithSym(prog, q, sym).value) && Within(q, WithSym(prog, q, sym).value)
  {
    hide WithMethod, WithField;
    if sym.kind == "field" {
      FieldKeeps(q, prog.fields[sym.name]);
    } else if sym.kind == "method" || sym.kind == "self" {
      MethodKeeps(q, MethodNamed(prog, sym.name).value);
    }
  }

  /** The first pass over a list of names. */
  function WithSyms(prog: Program, q: Pool, syms: seq<Sym>): Option<Pool>
    decreases |syms|
  {
    if syms == [] then Some(q)
    else
      var r :- WithSym(prog, q, syms[0]);
      WithSyms(prog, r, syms[1..])
  }

  lemma {:induction false} SymsKeep(prog: Program, q: Pool, syms: seq<Sym>)
    requires Closed(q) && WithSyms(prog, q, syms).Some?
    ensures var r := WithSyms(prog, q, syms).value; Closed(r) && Within(q, r)
    decreases |syms|
  {
    hide WithSym, Closed, Within;
    if syms == [] {
      WithinSelf(q);
    } else {
      SymKeeps(prog, q, syms[0]);
      var r := WithSym(prog, q, syms[0]).value;
      SymsKeep(prog, r, syms[1..]);
      WithinTrans(q, r, WithSyms(prog, r, syms[1..]).value);
    }
  }

  lemma WithinSelf(q: Pool)
    ensures Within(q, q)
  {
  }

  lemma WithinTrans(q: Pool, r: Pool, w: Pool)
    requires Within(q, r) && Within(r, w)
    ensures Within(q, w)
  {
  }

  /** Collector: its lists grow in place. */
  class Collector {
    const prog: Program
    var s: seq<string>
    var t: seq<string>
    var p: seq<Proto>
    var f: seq<FieldId>
    var m: seq<MethodId>

    constructor (prog: Program)
      ensures this.prog == prog && All() == EMPTY
    {
      this.prog := prog;
      s, t, p, f, m := [], [], [], [], [];
    }

    function All(): Pool
      reads this
    {
      Pool(s, t, p, f, m)
    }

    method String(v: string)
      modifies this
      ensures All() == WithString(old(All()), v)
    {
      if v !in s {
        s := s + [v];
      }
    }

    method Type(v: string)
      modifies this
      ensures All() == WithType(old(All()), v)
    {
      String(v);
      if v !in t {
        t := t + [v];
      }
    }

    method AddProto(q: Proto)
      modifies this
      ensures All() == WithProto(old(All()), q)
    {
      hide WithType;
      ghost var was := All();
      var i := 0;
      assert q.params[0..] == q.params;
      while i < |q.params|
        invariant 0 <= i <= |q.params| && WithTypes(was, q.params) == WithTypes(All(), q.params[i..])
      {
        assert q.params[i..][0] == q.params[i] && q.params[i..][1..] == q.params[i + 1..];
        Type(q.params[i]);
        i := i + 1;
      }
      Type(q.ret);
      if q !in p {
        p := p + [q];
      }
    }

    method AddMethod(id: MethodId)
      modifies this
      ensures All() == WithMethod(old(All()), id)
    {
      Type(id.cls);
      String(id.name);
      AddProto(id.proto);
      if id !in m {
        m := m + [id];
      }
    }

    /** index: false where the original raises. */
    method Index(sym: Sym) returns (ok: bool)
      modifies this
      ensures ok == WithSym(prog, old(All()), sym).Some?
      ensures ok ==> All() == WithSym(prog, old(All()), sym).value
    {
      ok := true;
      if sym.kind == "str" {
        String(sym.name);
      } else if sym.kind == "type" {
        Type(sym.name);
      } else if sym.kind == "field" {
        if sym.name !in prog.fields {
          return false;
        }
        var fd := prog.fields[sym.name];
        Type(fd.cls);
        Type(fd.desc);
        String(fd.name);
        if fd !in f {
          f := f + [fd];
        }
      } else if sym.kind == "method" || sym.kind == "self" {
        var id := MethodNamed(prog, sym.name);
        if id.None? {
          return false;
        }
        AddMethod(id.value);
      } else {
        ok := false;
      }
    }
  }

  // ---------- the tables ----------

  datatype Tables = Tables(s: seq<string>, t: seq<string>, p: seq<Proto>, f: seq<FieldId>, m: seq<MethodId>)

  function Chars(s: string): Key {
    seq(|s|, k requires 0 <= k < |s| => s[k] as nat)
  }

  function Places(xs: seq<string>, of: seq<string>): Key {
    seq(|of|, k requires 0 <= k < |of| => Place(xs, of[k]))
  }

  function TypeKey(s: seq<string>): string -> Key { (t: string) => [Place(s, t)] }
  function ProtoKey(t: seq<string>): Proto -> Key { (q: Proto) => [Place(t, q.ret)] + Places(t, q.params) }
  function FieldKey(s: seq<string>, t: seq<string>): FieldId -> Key {
    (f: FieldId) => [Place(t, f.cls), Place(s, f.name), Place(t, f.desc)]
  }
  function MethodKey(s: seq<string>, t: seq<string>, p: seq<Proto>): MethodId -> Key {
    (m: MethodId) => [Place(t, m.cls), Place(s, m.name), Place(p, m.proto)]
  }

  function Shorties(ps: seq<Proto>): seq<string> {
    seq(|ps|, k requires 0 <= k < |ps| => Shorty(ps[k]))
  }

  /** Tables: everything collected, and the shorties, in the order of the format. */
  function TablesOf(q: Pool): Tables {
    var s := SortBy(q.s + Shorties(q.p), Chars);
    var t := SortBy(q.t, TypeKey(s));
    var p := SortBy(q.p, ProtoKey(t));
    Tables(s, t, p, SortBy(q.f, FieldKey(s, t)), SortBy(q.m, MethodKey(s, t, p)))
  }

  ghost predicate Same<T(!new)>(xs: seq<T>, ys: seq<T>) {
    forall x :: x in xs <==> x in ys
  }

  /** What sorting gives: tables in order, with everything collected and nothing else but shorties. */
  ghost predicate Sorted(q: Pool, b: Tables) {
    && Ascending(b.s, Chars) && Ascending(b.t, TypeKey(b.s)) && Ascending(b.p, ProtoKey(b.t))
    && Ascending(b.f, FieldKey(b.s, b.t)) && Ascending(b.m, MethodKey(b.s, b.t, b.p))
    && Same(b.s, q.s + Shorties(q.p)) && Same(b.t, q.t) && Same(b.p, q.p) && Same(b.f, q.f) && Same(b.m, q.m)
  }

  lemma PlacesApart(xs: seq<string>, a: seq<string>, b: seq<string>)
    requires (forall k :: 0 <= k < |a| ==> a[k] in xs) && (forall k :: 0 <= k < |b| ==> b[k] in xs) &&
      Places(xs, a) == Places(xs, b)
    ensures a == b
  {
    assert |a| == |Places(xs, a)| == |b|;
    forall k | 0 <= k < |a| ensures a[k] == b[k] {
      assert Places(xs, a)[k] == Places(xs, b)[k];
    }
  }

  lemma CharsApart(a: string, b: string)
    requires Chars(a) == Chars(b)
    ensures a == b
  {
    assert |a| == |Chars(a)| == |b|;
    forall k | 0 <= k < |a| ensures a[k] == b[k] {
      assert Chars(a)[k] == Chars(b)[k];
    }
  }

  lemma ProtosApart(t: seq<string>, a: Proto, b: Proto)
    requires ProtoKey(t)(a) == ProtoKey(t)(b) && a.ret in t && b.ret in t
    requires (forall k :: 0 <= k < |a.params| ==> a.params[k] in t) && forall k :: 0 <= k < |b.params| ==>
      b.params[k] in t
    ensures a == b
  {
    assert ProtoKey(t)(a)[0] == ProtoKey(t)(b)[0];
    assert ProtoKey(t)(a)[1..] == Places(t, a.params) && ProtoKey(t)(b)[1..] == Places(t, b.params);
    PlacesApart(t, a.params, b.params);
  }

  ghost predicate Apart<T(!new)>(xs: seq<T>, key: T -> Key) {
    forall x, y :: x in xs && y in xs && key(x) == key(y) ==> x == y
  }

  lemma SortKeeps<T(!new)>(xs: seq<T>, key: T -> Key)
    requires Apart(xs, key)
    ensures Ascending(SortBy(xs, key), key) && Same(SortBy(xs, key), xs)
  {
    SortSorts(xs, key);
  }

  lemma TypesApart(s: seq<string>, ts: seq<string>)
    requires forall t :: t in ts ==> t in s
    ensures Apart(ts, TypeKey(s))
  {
    forall x, y | x in ts && y in ts && TypeKey(s)(x) == TypeKey(s)(y) ensures x == y {
      assert TypeKey(s)(x)[0] == TypeKey(s)(y)[0];
    }
  }

  lemma FieldsApart(s: seq<string>, t: seq<string>, fs: seq<FieldId>)
    requires forall f :: f in fs ==> f.cls in t && f.desc in t && f.name in s
    ensures Apart(fs, FieldKey(s, t))
  {
    forall x, y | x in fs && y in fs && FieldKey(s, t)(x) == FieldKey(s, t)(y) ensures x == y {
      var k, l := FieldKey(s, t)(x), FieldKey(s, t)(y);
      assert k[0] == l[0] && k[1] == l[1] && k[2] == l[2];
    }
  }

  lemma MethodsApart(s: seq<string>, t: seq<string>, p: seq<Proto>, ms: seq<MethodId>)
    requires forall m :: m in ms ==> m.cls in t && m.name in s && m.proto in p
    ensures Apart(ms, MethodKey(s, t, p))
  {
    forall x, y | x in ms && y in ms && MethodKey(s, t, p)(x) == MethodKey(s, t, p)(y) ensures x == y {
      var k, l := MethodKey(s, t, p)(x), MethodKey(s, t, p)(y);
      assert k[0] == l[0] && k[1] == l[1] && k[2] == l[2];
    }
  }

  lemma TablesSorted(q: Pool)
    requires Closed(q)
    ensures Sorted(q, TablesOf(q))
  {
    hide SortBy, Ascending, Apart, Place, Shorties, ProtoKey, TypeKey, FieldKey, MethodKey;
    var b := TablesOf(q);
    StringsApart(q.s + Shorties(q.p));
    SortKeeps(q.s + Shorties(q.p), Chars);
    TypesApart(b.s, q.t);
    SortKeeps(q.t, TypeKey(b.s));
    AllProtosApart(b.t, q.p);
    SortKeeps(q.p, ProtoKey(b.t));
    FieldsApart(b.s, b.t, q.f);
    SortKeeps(q.f, FieldKey(b.s, b.t));
    MethodsApart(b.s, b.t, b.p, q.m);
    SortKeeps(q.m, MethodKey(b.s, b.t, b.p));
  }

  lemma StringsApart(xs: seq<string>)
    ensures Apart(xs, Chars)
  {
    forall x, y | x in xs && y in xs && Chars(x) == Chars(y) ensures x == y {
      CharsApart(x, y);
    }
  }

  lemma AllProtosApart(t: seq<string>, ps: seq<Proto>)
    requires forall p :: p in ps ==> p.ret in t && forall k :: 0 <= k < |p.params| ==> p.params[k] in t
    ensures Apart(ps, ProtoKey(t))
  {
    forall x, y | x in ps && y in ps && ProtoKey(t)(x) == ProtoKey(t)(y) ensures x == y {
      ProtosApart(t, x, y);
    }
  }

  // ---------- looking up ----------

  /** Tables.index; None where the original raises. */
  function IndexOf(prog: Program, b: Tables, sym: Sym): Option<nat> {
    if sym.kind == "str" then Found(b.s, sym.name)
    else if sym.kind == "type" then Found(b.t, sym.name)
    else if sym.kind == "field" then (if sym.name in prog.fields then Found(b.f, prog.fields[sym.name]) else None)
    else if sym.kind == "method" || sym.kind == "self" then
      var m :- MethodNamed(prog, sym.name);
      Found(b.m, m)
    else None
  }

  function Found<T(==)>(xs: seq<T>, x: T): Option<nat> {
    if Place(xs, x) < |xs| then Some(Place(xs, x)) else None
  }

  /** The i'th entry of its table is what the name stands for. */
  ghost predicate Names(prog: Program, b: Tables, sym: Sym, i: nat) {
    if sym.kind == "str" then i < |b.s| && b.s[i] == sym.name
    else if sym.kind == "type" then i < |b.t| && b.t[i] == sym.name
    else if sym.kind == "field" then sym.name in prog.fields && i < |b.f| && b.f[i] == prog.fields[sym.name]
    else
      && (sym.kind == "method" || sym.kind == "self") && MethodNamed(prog, sym.name).Some?
      && i < |b.m| && b.m[i] == MethodNamed(prog, sym.name).value
  }

  /** A name collected in the first pass resolves in the second, to the table entry it names. */
  lemma CollectedResolves(prog: Program, before: Pool, sym: Sym, q: Pool)
    requires WithSym(prog, before, sym).Some? && Closed(before) && Within(WithSym(prog, before, sym).value, q) &&
      Closed(q)
    ensures IndexOf(prog, TablesOf(q), sym).Some? &&
      Names(prog, TablesOf(q), sym, IndexOf(prog, TablesOf(q), sym).value)
  {
    hide TablesOf, WithMethod, WithField, Closed, Ascending, Shorties;
    TablesSorted(q);
    if sym.kind == "field" {
      FieldKeeps(before, prog.fields[sym.name]);
    } else if sym.kind == "method" || sym.kind == "self" {
      MethodKeeps(before, MethodNamed(prog, sym.name).value);
    }
  }

  /** All names of a list collected in the first pass resolve in the second. */
  lemma {:induction false} AllResolve(prog: Program, before: Pool, syms: seq<Sym>, q: Pool)
    requires WithSyms(prog, before, syms).Some? && Closed(before) && Within(WithSyms(prog, before, syms).value, q) &&
      Closed(q)
    ensures forall k :: 0 <= k < |syms| ==>
      IndexOf(prog, TablesOf(q), syms[k]).Some? &&
        Names(prog, TablesOf(q), syms[k], IndexOf(prog, TablesOf(q), syms[k]).value)
    decreases |syms|
  {
    hide TablesOf, WithSym, Closed, Within, IndexOf, Names;
    if syms != [] {
      var r := WithSym(prog, before, syms[0]).value;
      SymKeeps(prog, before, syms[0]);
      SymsKeep(prog, r, syms[1..]);
      WithinTrans(r, WithSyms(prog, r, syms[1..]).value, q);
      CollectedResolves(prog, before, syms[0], q);
      AllResolve(prog, r, syms[1..], q);
      assert forall k :: 0 < k < |syms| ==> syms[k] == syms[1..][k - 1];
    }
  }
}
