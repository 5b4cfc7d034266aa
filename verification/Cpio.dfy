/**
 The cpio editor of scripts/mkbootroot.py and its independent reader, on newc streams.
 Byte strings are strings, one character a byte; offsets and fields are integers, as int()
 takes a sign and a slice a negative index.
 */
module Cpio {
  import opened Wrappers
  import opened ByteText
  import opened Chunks
  import Walk

  // ---------- numbers ----------

  /** Digits, with single underscores between them. */
  predicate Grouped(s: string) {
    && s != "" && s[0] != '_' && s[|s| - 1] != '_'
    && (forall k :: 0 <= k < |s| ==> s[k] == '_' || IsDigit(s[k], 16))
    && forall k :: 0 < k < |s| && s[k] == '_' ==> s[k - 1] != '_'
  }

  function Ungrouped(s: string): (r: string)
    ensures (forall k :: 0 <= k < |s| ==> s[k] == '_' || IsDigit(s[k], 16)) ==> AllDigits(r, 16)
  {
    if s == "" then ""
    else
      var rest := Ungrouped(s[1..]);
      assert forall k :: 0 <= k < |s[1..]| ==> s[1..][k] == s[k + 1];
      if s[0] == '_' then rest else [s[0]] + rest
  }

  /** Behind "0x" an underscore may come first. */
  function Unprefixed(s: string): string {
    if !StartsWith(s, "0x") && !StartsWith(s, "0X") then s
    else if |s| > 2 && s[2] == '_' then s[3..]
    else s[2..]
  }

  function Magnitude(s: string): Option<nat> {
    var t := Unprefixed(s);
    if Grouped(t) then Some(Value(Ungrouped(t), 16)) else None
  }

  function Negated(n: Option<nat>): Option<int> {
    if n.None? then None
    else
      var m: int := n.value;
      Some(-m)
  }

  /** int(s, 16): spaces around it, a sign, 0x, and underscores among the digits are taken. */
  function ReadHex(s: string): Option<int> {
    var t := Trim(s);
    if t != "" && t[0] == '-' then Negated(Magnitude(t[1..]))
    else Magnitude(if t != "" && t[0] == '+' then t[1..] else t)
  }

  lemma {:induction false} UngroupedDigits(s: string)
    requires AllDigits(s, 16)
    ensures Ungrouped(s) == s
  {
    if s != "" {
      UngroupedDigits(s[1..]);
      assert s == [s[0]] + s[1..];
    }
  }

  /** Plain digits read as their value. */
  lemma DigitsRead(s: string)
    requires s != "" && AllDigits(s, 16)
    ensures ReadHex(s) == Some(Value(s, 16))
  {
    assert IsDigit(s[0], 16) && IsDigit(s[|s| - 1], 16);
    assert Trim(s) == s;
    assert |s| > 1 ==> IsDigit(s[1], 16);
    assert Unprefixed(s) == s;
    assert Grouped(s);
    UngroupedDigits(s);
  }

  lemma {:induction false} TrimmedWithin(s: string)
    ensures forall ch :: ch in Trim(s) ==> ch in s
    decreases |s|
  {
    if s != "" {
      if IsSpace(s[0]) {
        TrimmedWithin(s[1..]);
      } else if IsSpace(s[|s| - 1]) {
        TrimmedWithin(s[..|s| - 1]);
      }
    }
  }

  /** Only a minus sign makes a number negative. */
  lemma NegativeSigned(s: string)
    requires ReadHex(s).Some? && ReadHex(s).value < 0
    ensures '-' in s
  {
    TrimmedWithin(s);
    assert Trim(s)[0] in Trim(s);
  }

  // ---------- headers ----------

  const TRAILER := "TRAILER!!!"
  const HEADER := 110
  const FIELDS := 13

  predicate Magic(s: string) {
    s == "070701" || s == "070702"
  }

  function FieldText(c: string, off: int, k: nat): string {
    Slice(c, off + 6 + 8 * k, off + 14 + 8 * k)
  }

  /** The numbers of a header from the k'th on; None where one is no number. */
  function FieldsFrom(c: string, off: int, k: nat): (f: Option<seq<int>>)
    requires k <= FIELDS
    ensures f.Some? ==> |f.value| == FIELDS - k
    decreases FIELDS - k
  {
    if k == FIELDS then Some([])
    else
      var n :- ReadHex(FieldText(c, off, k));
      var rest :- FieldsFrom(c, off, k + 1);
      Some([n] + rest)
  }

  /** A header that could be read, and where its file's data starts. */
  datatype Header = Header(f: seq<int>, name: string, data: int) {
    function Size(): int
      requires |f| == FIELDS
    {
      f[6]
    }

    function NameSize(): int
      requires |f| == FIELDS
    {
      f[11]
    }

    function Next(): int
      requires |f| == FIELDS
    {
      data + Up4(Size())
    }
  }

  /**
   What both loops do at the head of each turn; None where an assertion or int() fails. The name
   leaves out the NUL that namesize counts.
   */
  function HeaderAt(c: string, off: int): (h: Option<Header>)
    ensures h.Some? ==> |h.value.f| == FIELDS
  {
    if !Magic(Slice(c, off, off + 6)) then None
    else
      var f :- FieldsFrom(c, off, 0);
      Some(Header(f, Slice(c, off + HEADER, off + HEADER + f[11] - 1), Up4(off + HEADER + f[11])))
  }

  /** A header stands inside the stream, counted from either end. */
  lemma HeaderInside(c: string, off: int)
    requires HeaderAt(c, off).Some?
    ensures -|c| <= off <= |c| - 6
  {
    hide FieldsFrom;
    assert |Slice(c, off, off + 6)| == 6;
  }

  // ---------- where the loops go ----------

  /** A turn of entries: on to the next header, unless this one is the trailer or cannot be read. */
  function TurnAt(c: string, off: int): Option<int> {
    var h :- HeaderAt(c, off);
    if h.name == TRAILER then None else Some(h.Next())
  }

  function Turn(c: string): Walk.Turn { (off: int) => TurnAt(c, off) }

  /** The loop of entries, started at off, ends. */
  ghost predicate Ends(c: string, off: int) {
    Walk.Ends(Turn(c), off)
  }

  /** It ends exactly on those streams on which no offset comes twice: it does by 2|c| turns or never. */
  lemma EntriesEnd(c: string)
    ensures Ends(c, 0) <==> !Walk.ComesBack(Turn(c), 0)
    ensures Ends(c, 0) <==> Walk.EndsBy(Turn(c), 0, 2 * |c|)
  {
    hide HeaderAt, Walk.Ends, Walk.ComesBack, Walk.EndsBy;
    forall off | Turn(c)(off).Some? ensures -|c| <= off < |c| {
      HeaderInside(c, off);
    }
    assert |c| - (-|c|) == 2 * |c|;
    Walk.Exact(Turn(c), 0, -|c|, |c|);
  }

  /** A header whose file goes forward: neither its size nor its namesize is negative. */
  predicate Calm(h: Header) {
    |h.f| == FIELDS && h.Size() >= 0 && h.NameSize() >= 0
  }

  lemma CalmGoes(c: string, off: nat)
    requires HeaderAt(c, off).Some? && Calm(HeaderAt(c, off).value)
    ensures var h := HeaderAt(c, off).value; off + 6 <= |c| && off < h.data <= h.Next()
  {
    hide FieldsFrom;
    HeaderInside(c, off);
  }

  /** Every header met from off on is calm. */
  predicate Forward(c: string, off: nat)
    decreases |c| - off
  {
    match HeaderAt(c, off)
    case None => true
    case Some(h) =>
      Calm(h) && (CalmGoes(c, off); h.name == TRAILER || Forward(c, h.Next()))
  }

  /** Going forward the loop ends. */
  lemma {:induction false} ForwardEnds(c: string, off: nat)
    requires Forward(c, off)
    ensures Ends(c, off)
    decreases |c| - off
  {
    hide HeaderAt;
    var f := Turn(c);
    if f(off).None? {
      assert Walk.EndsBy(f, off, 0);
    } else {
      CalmGoes(c, off);
      ForwardEnds(c, f(off).value);
      Walk.EndsBack(f, off);
    }
  }

  /** A header with no minus sign in its size and its namesize is calm. */
  lemma UnsignedCalm(c: string, off: nat)
    requires HeaderAt(c, off).Some? && '-' !in FieldText(c, off, 6) && '-' !in FieldText(c, off, 11)
    ensures Calm(HeaderAt(c, off).value)
  {
    hide ReadHex, FieldText;
    FieldIs(c, off, 0, 6);
    FieldIs(c, off, 0, 11);
    if ReadHex(FieldText(c, off, 6)).value < 0 {
      NegativeSigned(FieldText(c, off, 6));
    }
    if ReadHex(FieldText(c, off, 11)).value < 0 {
      NegativeSigned(FieldText(c, off, 11));
    }
  }

  lemma {:induction false} FieldIs(c: string, off: int, k: nat, j: nat)
    requires k <= j < FIELDS && FieldsFrom(c, off, k).Some?
    ensures ReadHex(FieldText(c, off, j)) == Some(FieldsFrom(c, off, k).value[j - k])
    decreases FIELDS - k
  {
    hide ReadHex, FieldText;
    if k < j {
      FieldIs(c, off, k + 1, j);
    }
  }

  // ---------- the reader ----------

  datatype Entry = Entry(name: string, meta: seq<int>, data: string)

  /** All of a header's numbers but the size. */
  function Meta(f: seq<int>): seq<int>
    requires |f| == FIELDS
  {
    f[..6] + f[7..]
  }

  function DataOf(c: string, h: Header): string
    requires |h.f| == FIELDS
  {
    Slice(c, h.data, h.data + h.Size())
  }

  function EntryOf(c: string, h: Header): Entry
    requires |h.f| == FIELDS
  {
    Entry(h.name, Meta(h.f), DataOf(c, h))
  }

  ghost function TurnsLeft(f: Walk.Turn, off: int): nat {
    if Walk.Ends(f, off) then Walk.Turns(f, off) else 0
  }

  /** What entries returns, started at off; None where it fails or never ends. */
  ghost function Read(c: string, off: int): Option<seq<Entry>>
    decreases TurnsLeft(Turn(c), off)
  {
    if !Ends(c, off) then None
    else
      match HeaderAt(c, off)
      case None => None
      case Some(h) =>
        if h.name == TRAILER then Some([])
        else
          Walk.TurnsOn(Turn(c), off);
          Onto(EntryOf(c, h), Read(c, h.Next()))
  }

  lemma ReadOn(c: string, off: int)
    ensures Read(c, off) ==
      match HeaderAt(c, off)
      case None => None
      case Some(h) => if h.name == TRAILER then Some([]) else Onto(EntryOf(c, h), Read(c, h.Next()))
  {
    hide HeaderAt, EntryOf;
    var f := Turn(c);
    if f(off).None? {
      assert Walk.EndsBy(f, off, 0);
    } else if Ends(c, f(off).value) {
      Walk.EndsBack(f, off);
    }
  }

  function Onto(e: Entry, rest: Option<seq<Entry>>): Option<seq<Entry>> {
    match rest case None => None case Some(es) => Some([e] + es)
  }

  function After(out: seq<Entry>, rest: Option<seq<Entry>>): Option<seq<Entry>> {
    match rest case None => None case Some(es) => Some(out + es)
  }

  lemma StartAfter(r: Option<seq<Entry>>)
    ensures After([], r) == r
  {
    assert r.Some? ==> [] + r.value == r.value;
  }

  lemma AfterNext(out: seq<Entry>, c: string, off: int)
    requires var h := HeaderAt(c, off); h.Some? && h.value.name != TRAILER
    ensures var h := HeaderAt(c, off).value;
      After(out, Read(c, off)) == After(out + [EntryOf(c, h)], Read(c, h.Next()))
  {
    hide Read, HeaderAt, EntryOf;
    ReadOn(c, off);
    var h := HeaderAt(c, off).value;
    var rest := Read(c, h.Next());
    if rest.Some? {
      assert out + ([EntryOf(c, h)] + rest.value) == (out + [EntryOf(c, h)]) + rest.value;
    }
  }

  /** entries, on a stream on which it ends. */
  method Entries(cpio: string) returns (r: Option<seq<Entry>>)
    requires Ends(cpio, 0)
    ensures r == Read(cpio, 0)
  {
    hide Slice, EntryOf, HeaderAt, Read;
    var out: seq<Entry>, off: int := [], 0;
    StartAfter(Read(cpio, 0));
    while true
      invariant Ends(cpio, off) && Read(cpio, 0) == After(out, Read(cpio, off))
      decreases TurnsLeft(Turn(cpio), off)
    {
      var h := HeaderAt(cpio, off);
      ReadOn(cpio, off);
      if h.None? {
        return None;
      }
      if h.value.name == TRAILER {
        assert out + [] == out;
        return Some(out);
      }
      AfterNext(out, cpio, off);
      Walk.TurnsOn(Turn(cpio), off);
      out := out + [EntryOf(cpio, h.value)];
      off := h.value.Next();
    }
  }

  // ---------- the editor ----------

  /** What an edit makes of a file: nothing, other data, or a failed assertion. */
  datatype Verdict = Leave | Replace(data: string) | Refuse

  type Edit = map<string, string -> Verdict>

  /** pattern: the key a name falls under. */
  function Pattern(name: string, edit: Edit): string {
    if StartsWith(name, "fstab.") && "fstab.*" in edit then "fstab.*"
    else if StartsWith(name, "init.") && EndsWith(name, ".rc") && '/' !in name && "init.*.rc" in edit then "init.*.rc"
    else name
  }

  function Judge(edit: Edit, name: string, data: string): Verdict {
    var key := Pattern(name, edit);
    if key in edit then edit[key](data) else Leave
  }

  /** The bytes that bring n to a multiple of four. */
  function Pad(n: int): (r: string)
    ensures |r| == Up4(n) - n
  {
    Nuls(Up4(n) - n)
  }

  /** The bytes of an entry with other data. */
  function Rewritten(c: string, off: int, h: Header, data: string): string
    requires |h.f| == FIELDS
  {
    Slice(c, off, off + 54) + Text(|data|, 16, 8) + Slice(c, off + 62, off + HEADER)
    + h.name + "\0" + Pad(HEADER + h.NameSize()) + data + Pad(|data|)
  }

  /** The bytes that go out for an entry. */
  function Chunk(c: string, off: int, h: Header, v: Verdict): string
    requires |h.f| == FIELDS
  {
    if v.Replace? then Rewritten(c, off, h, v.data) else Slice(c, off, h.Next())
  }

  /** A turn of edit_cpio: as that of entries, but that a refused edit ends it. */
  function EditTurnAt(c: string, edit: Edit, off: int): Option<int> {
    var h :- HeaderAt(c, off);
    if h.name == TRAILER || Judge(edit, h.name, DataOf(c, h)).Refuse? then None else Some(h.Next())
  }

  function EditTurn(c: string, edit: Edit): Walk.Turn { (off: int) => EditTurnAt(c, edit, off) }

  ghost predicate EditEnds(c: string, edit: Edit, off: int) {
    Walk.Ends(EditTurn(c, edit), off)
  }

  /** The editor's loop ends exactly where no offset comes twice, and wherever the reader's does. */
  lemma EditingEnds(c: string, edit: Edit, off: int)
    ensures EditEnds(c, edit, 0) <==> !Walk.ComesBack(EditTurn(c, edit), 0)
    ensures EditEnds(c, edit, 0) <==> Walk.EndsBy(EditTurn(c, edit), 0, 2 * |c|)
    ensures Ends(c, off) ==> EditEnds(c, edit, off)
  {
    hide HeaderAt, Walk.Ends, Walk.ComesBack, Walk.EndsBy, Judge, DataOf;
    var f, g := Turn(c), EditTurn(c, edit);
    forall o | g(o).Some? ensures -|c| <= o < |c| {
      HeaderInside(c, o);
    }
    assert |c| - (-|c|) == 2 * |c|;
    Walk.Exact(g, 0, -|c|, |c|);
    if Ends(c, off) {
      assert forall y :: g(y).None? || g(y) == f(y);
      Walk.Sooner(f, g, off);
    }
  }

  datatype Edited = Edited(out: string, done: set<string>)

  /**
   The loop of edit_cpio from an offset on: what it appends, and the keys it finds used; None where
   it fails or never ends.
   */
  ghost function Rewrite(c: string, off: int, edit: Edit): Option<Edited>
    decreases TurnsLeft(EditTurn(c, edit), off)
  {
    if !EditEnds(c, edit, off) then None
    else
      match HeaderAt(c, off)
      case None => None
      case Some(h) =>
        if h.name == TRAILER then Some(Edited(Slice(c, off, h.data), {}))
        else
          var v := Judge(edit, h.name, DataOf(c, h));
          if v.Refuse? then None
          else
            Walk.TurnsOn(EditTurn(c, edit), off);
            Ahead(Edited(Chunk(c, off, h, v), Used(edit, h.name, v)), Rewrite(c, h.Next(), edit))
  }

  /** What one turn does, before what the later ones do. */
  function Ahead(sofar: Edited, rest: Option<Edited>): Option<Edited> {
    match rest case None => None case Some(r) => Some(Edited(sofar.out + r.out, sofar.done + r.done))
  }

  lemma RewriteOn(c: string, off: int, edit: Edit)
    ensures Rewrite(c, off, edit) ==
      match HeaderAt(c, off)
      case None => None
      case Some(h) =>
        if h.name == TRAILER then Some(Edited(Slice(c, off, h.data), {}))
        else
          var v := Judge(edit, h.name, DataOf(c, h));
          if v.Refuse? then None
          else Ahead(Edited(Chunk(c, off, h, v), Used(edit, h.name, v)), Rewrite(c, h.Next(), edit))
  {
    hide HeaderAt, DataOf, Slice, Chunk, Judge;
    var f := EditTurn(c, edit);
    if f(off).None? {
      assert Walk.EndsBy(f, off, 0);
    } else if EditEnds(c, edit, f(off).value) {
      Walk.EndsBack(f, off);
    }
  }

  function Used(edit: Edit, name: string, v: Verdict): set<string> {
    if v.Replace? then {Pattern(name, edit)} else {}
  }

  /** What edit_cpio returns; None where it fails or never ends. */
  ghost function EditCpio(c: string, edit: Edit): Option<string> {
    match Rewrite(c, 0, edit)
    case None => None
    case Some(r) => if edit.Keys <= r.done then Some(r.out) else None
  }

  lemma StartAhead(r: Option<Edited>)
    ensures Ahead(Edited("", {}), r) == r
  {
    assert r.Some? ==> "" + r.value.out == r.value.out && {} + r.value.done == r.value.done;
  }

  lemma AheadTwice(a: Edited, b: Edited, rest: Option<Edited>)
    ensures Ahead(a, Ahead(b, rest)) == Ahead(Edited(a.out + b.out, a.done + b.done), rest)
  {
    if rest.Some? {
      assert a.out + (b.out + rest.value.out) == (a.out + b.out) + rest.value.out;
      assert a.done + (b.done + rest.value.done) == (a.done + b.done) + rest.value.done;
    }
  }

  /** edit_cpio, on a stream on which it ends. */
  method EditStream(cpio: string, edit: Edit) returns (r: Option<string>)
    requires EditEnds(cpio, edit, 0)
    ensures r == EditCpio(cpio, edit)
  {
    hide Slice, HeaderAt, Rewritten, Rewrite, DataOf, Judge, Used;
    var out, off: int, done: set<string> := "", 0, {};
    StartAhead(Rewrite(cpio, 0, edit));
    while true
      invariant EditEnds(cpio, edit, off)
      invariant Rewrite(cpio, 0, edit) == Ahead(Edited(out, done), Rewrite(cpio, off, edit))
      decreases TurnsLeft(EditTurn(cpio, edit), off)
    {
      var h := HeaderAt(cpio, off);
      RewriteOn(cpio, off, edit);
      if h.None? {
        return None;
      }
      if h.value.name == TRAILER {
        out := out + Slice(cpio, off, h.value.data);
        assert Rewrite(cpio, 0, edit) == Some(Edited(out, done + {}));
        break;
      }
      var v := Judge(edit, h.value.name, DataOf(cpio, h.value));
      if v.Refuse? {
        return None;
      }
      Walk.TurnsOn(EditTurn(cpio, edit), off);
      AheadTwice(Edited(out, done), Edited(Chunk(cpio, off, h.value, v), Used(edit, h.value.name, v)),
                 Rewrite(cpio, h.value.Next(), edit));
      UsedIs(edit, h.value.name, v);
      if v.Replace? {
        out := out + Rewritten(cpio, off, h.value, v.data);
        done := done + {Pattern(h.value.name, edit)};
      } else {
        out := out + Slice(cpio, off, h.value.Next());
        assert done + {} == done;
      }
      off := h.value.Next();
    }
    r := if edit.Keys <= done then Some(out) else None;
  }

  lemma UsedIs(edit: Edit, name: string, v: Verdict)
    ensures Used(edit, name, v) == if v.Replace? then {Pattern(name, edit)} else {}
  {
  }

  // ---------- a stream without end ----------

  /** A header's text: the magic and thirteen fields of eight characters. */
  function HeaderText(fields: seq<string>): string {
    "070701" + Concat(fields)
  }

  predicate EightEach(fields: seq<string>) {
    |fields| == FIELDS && forall k :: 0 <= k < FIELDS ==> |fields[k]| == 8
  }

  lemma HeaderTextFields(fields: seq<string>, rest: string, k: nat)
    requires EightEach(fields) && k < FIELDS
    ensures |HeaderText(fields)| == HEADER && Slice(HeaderText(fields) + rest, 0, 6) == "070701"
    ensures FieldText(HeaderText(fields) + rest, 0, k) == fields[k]
  {
    hide Concat, Start;
    var c := HeaderText(fields) + rest;
    StartEven(fields, FIELDS, 8);
    StartEnd(fields);
    StartEven(fields, k, 8);
    ConcatAt(fields, k);
    assert c == "070701" + (Concat(fields) + rest);
    assert Concat(fields)[8 * k..8 * k + 8] == fields[k];
    Behind("070701", Concat(fields) + rest, 8 * k, 8);
    SliceInside(c, 6 + 8 * k, 14 + 8 * k);
    SliceInside(c, 0, 6);
    assert (Concat(fields) + rest)[8 * k..8 * k + 8] == Concat(fields)[8 * k..8 * k + 8];
  }

  /** Fields that read as numbers, one by one. */
  lemma {:induction false} FieldsRead(c: string, off: int, k: nat, f: seq<int>)
    requires k <= FIELDS && |f| == FIELDS - k
    requires forall j :: k <= j < FIELDS ==> ReadHex(FieldText(c, off, j)) == Some(f[j - k])
    ensures FieldsFrom(c, off, k) == Some(f)
    decreases FIELDS - k
  {
    hide ReadHex, FieldText;
    if k < FIELDS {
      FieldsRead(c, off, k + 1, f[1..]);
      assert f == [f[0]] + f[1..];
    } else {
      assert f == [];
    }
  }

  const ZERO := "00000000"

  /** A nameless file of minus 112 bytes. */
  function BackwardFields(): (fields: seq<string>)
    ensures EightEach(fields)
  {
    [ZERO, ZERO, ZERO, ZERO, ZERO, ZERO, "-0000070", ZERO, ZERO, ZERO, ZERO, "00000001", ZERO]
  }

  lemma SmallHex()
    ensures ReadHex(ZERO) == Some(0) && ReadHex("00000001") == Some(1) && ReadHex("-0000070") == Some(-112)
  {
    hide ReadHex, Value;
    DigitsRead(ZERO);
    DigitsRead("00000001");
    ZeroValue();
    MinusRead();
  }

  lemma {:induction false} ZeroDigits(s: string)
    requires forall k :: 0 <= k < |s| ==> s[k] == '0'
    ensures AllDigits(s, 16) && Value(s, 16) == 0
  {
    if s != "" {
      ZeroDigits(s[..|s| - 1]);
    }
  }

  lemma ZeroValue()
    ensures Value("00000000", 16) == 0 && Value("00000001", 16) == 1 && Value("0000070", 16) == 112
  {
    var one, seventy := "00000001", "0000070";
    ZeroDigits("00000000");
    ZeroDigits(one[..7]);
    ZeroDigits(seventy[..6][..5]);
    assert Value(seventy[..6], 16) == 7;
  }

  lemma MinusRead()
    ensures ReadHex("-0000070") == Some(-112)
  {
    hide Value;
    var s := "-0000070";
    assert Trim(s) == s;
    assert s[1..] == "0000070";
    var t := "0000070";
    DigitsRead(t);
    assert Trim(t) == t;
    ZeroValue();
  }

  /** A header on which both loops go back to where they are, for ever. */
  lemma GoesRound(edit: Edit)
    requires !Judge(edit, "", "").Refuse?
    ensures var c := HeaderText(BackwardFields()); !Ends(c, 0) && !EditEnds(c, edit, 0)
  {
    hide ReadHex, FieldText, BackwardFields, HeaderText;
    var fields, c := BackwardFields(), HeaderText(BackwardFields());
    var f: seq<int> := [0, 0, 0, 0, 0, 0, -112, 0, 0, 0, 0, 1, 0];
    assert c + "" == c;
    forall k | 0 <= k < FIELDS ensures ReadHex(FieldText(c, 0, k)) == Some(f[k]) {
      HeaderTextFields(fields, "", k);
      BackwardNumbers(k);
    }
    HeaderTextFields(fields, "", 0);
    FieldsRead(c, 0, 0, f);
    assert HeaderAt(c, 0) == Some(Header(f, "", 112));
    assert TurnAt(c, 0) == Some(0) && EditTurnAt(c, edit, 0) == Some(0);
    EntriesEnd(c);
    EditingEnds(c, edit, 0);
    StaysPut(Turn(c));
    StaysPut(EditTurn(c, edit));
  }

  lemma BackwardNumbers(k: nat)
    requires k < FIELDS
    ensures ReadHex(BackwardFields()[k]) == Some(if k == 6 then -112 else if k == 11 then 1 else 0)
  {
    hide ReadHex;
    SmallHex();
  }

  lemma StaysPut(f: Walk.Turn)
    requires f(0) == Some(0)
    ensures Walk.ComesBack(f, 0)
  {
    assert Walk.Place(f, 0, 0) == Some(0) == Walk.Place(f, 0, 1);
  }
}
