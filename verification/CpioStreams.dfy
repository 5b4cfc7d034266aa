/** Streams written as the newc format has them, and two on which the tool does not do what it says. */
module CpioStreams {
  import opened Wrappers
  import opened ByteText
  import opened Chunks
  import opened Cpio
  import opened CpioEdit
  import Walk

  /** A file whose numbers fit their fields and whose namesize counts its name and a NUL. */
  predicate Storable(e: Entry) {
    && |e.meta| == 12 && (forall k :: 0 <= k < 12 ==> 0 <= e.meta[k] < Power(16, 8))
    && e.meta[10] == |e.name| + 1 && |e.data| < Power(16, 8)
  }

  function FieldsOf(e: Entry): (f: seq<int>)
    requires Storable(e)
    ensures |f| == FIELDS && forall k :: 0 <= k < FIELDS ==> 0 <= f[k] < Power(16, 8)
    ensures Meta(f) == e.meta && f[6] == |e.data| && f[11] == |e.name| + 1
  {
    e.meta[..6] + [|e.data|] + e.meta[6..]
  }

  function Texts(f: seq<int>): (t: seq<string>)
    requires |f| == FIELDS && forall k :: 0 <= k < FIELDS ==> 0 <= f[k]
    ensures |t| == FIELDS && forall k :: 0 <= k < FIELDS ==> t[k] == Text(f[k], 16, 8)
  {
    seq(FIELDS, k requires 0 <= k < FIELDS => Text(f[k], 16, 8))
  }

  /** A header, the name and its NUL, and the data, each filled up to a multiple of four. */
  function Bytes(e: Entry): string
    requires Storable(e)
  {
    HeaderText(Texts(FieldsOf(e))) + e.name + "\0" + Pad(HEADER + |e.name| + 1) + e.data + Pad(|e.data|)
  }

  lemma TextsEight(f: seq<int>)
    requires |f| == FIELDS && forall k :: 0 <= k < FIELDS ==> 0 <= f[k] < Power(16, 8)
    ensures EightEach(Texts(f))
    ensures forall k :: 0 <= k < FIELDS ==> ReadHex(Texts(f)[k]) == Some(f[k])
  {
    hide ReadHex, Text, Power;
    forall k | 0 <= k < FIELDS ensures |Texts(f)[k]| == 8 && ReadHex(Texts(f)[k]) == Some(f[k]) {
      SizeReads(f[k]);
    }
  }

  lemma HeadLength(e: Entry)
    requires Storable(e)
    ensures |HeaderText(Texts(FieldsOf(e)))| == HEADER
  {
    hide HeaderText, Texts, FieldsOf, EightEach;
    TextsEight(FieldsOf(e));
    HeaderTextFields(Texts(FieldsOf(e)), "", 0);
  }

  lemma BytesHeader(e: Entry, rest: string)
    requires Storable(e)
    ensures var c := Bytes(e) + rest;
      Magic(Slice(c, 0, 6)) && FieldsFrom(c, 0, 0) == Some(FieldsOf(e))
  {
    hide ReadHex, FieldText, HeaderText, Text, Texts, Slice, Pad, FieldsOf, Storable, EightEach;
    var f := FieldsOf(e);
    TextsEight(f);
    var back := e.name + "\0" + Pad(HEADER + |e.name| + 1) + e.data + Pad(|e.data|) + rest;
    assert Bytes(e) + rest == HeaderText(Texts(f)) + back;
    HeaderTextFields(Texts(f), back, 0);
    forall k | 0 <= k < FIELDS ensures ReadHex(FieldText(Bytes(e) + rest, 0, k)) == Some(f[k]) {
      HeaderTextFields(Texts(f), back, k);
    }
    FieldsRead(Bytes(e) + rest, 0, 0, f);
  }

  lemma BytesParts(e: Entry, rest: string)
    requires Storable(e) && |HeaderText(Texts(FieldsOf(e)))| == HEADER
    ensures var c, m := Bytes(e) + rest, Up4(HEADER + |e.name| + 1);
      && |c| >= m + |e.data| && c[HEADER..HEADER + |e.name|] == e.name && c[m..m + |e.data|] == e.data
      && |Bytes(e)| == m + Up4(|e.data|)
  {
    hide HeaderText, Texts, FieldsOf, Storable, Up4, Nuls;
    var front, back := HeaderText(Texts(FieldsOf(e))), "\0" + Pad(HEADER + |e.name| + 1);
    Laid(front, e.name, back, e.data, Pad(|e.data|) + rest);
    Regrouped(front, e.name, "\0", Pad(HEADER + |e.name| + 1), e.data, Pad(|e.data|), rest);
  }

  lemma EntryIs(c: string, h: Header, e: Entry)
    requires |h.f| == FIELDS && h.name == e.name && Meta(h.f) == e.meta && h.Size() == |e.data|
    requires 0 <= h.data && h.data + |e.data| <= |c| && c[h.data..h.data + |e.data|] == e.data
    ensures EntryOf(c, h) == e
  {
    hide Meta;
    SliceInside(c, h.data, h.data + |e.data|);
  }

  lemma BytesFront(e: Entry, rest: string)
    requires Storable(e)
    ensures FrontIs(Bytes(e) + rest, e, |Bytes(e)|)
  {
    hide Bytes, HeaderText, Texts, FieldsOf, FieldsFrom, Slice, Up4, Storable, HeaderAt, EntryOf;
    var c, m := Bytes(e) + rest, Up4(HEADER + |e.name| + 1);
    BytesHeader(e, rest);
    HeadLength(e);
    BytesParts(e, rest);
    HeaderIs(c, FieldsOf(e), e.name);
    EntryIs(c, HeaderAt(c, 0).value, e);
  }

  lemma BytesLength(e: Entry)
    requires Storable(e)
    ensures |Bytes(e)| == Up4(HEADER + |e.name| + 1) + Up4(|e.data|)
  {
    hide HeaderText, Texts, FieldsOf, Storable, Up4;
    HeadLength(e);
  }

  lemma Fours(a: int, b: int)
    requires a % 4 == 0 && b % 4 == 0
    ensures (a + b) % 4 == 0
  {
  }

  lemma BytesAligned(e: Entry)
    requires Storable(e)
    ensures |Bytes(e)| % 4 == 0
  {
    hide Bytes, Storable, Up4;
    BytesLength(e);
    Fours(Up4(HEADER + |e.name| + 1), Up4(|e.data|));
  }

  /** A file's bytes read as that file. */
  lemma BytesRead(e: Entry)
    requires Storable(e)
    ensures ReadsAs(Bytes(e), e)
  {
    hide Bytes, Storable, FrontIs;
    BytesAligned(e);
    forall rest: string ensures FrontIs(Bytes(e) + rest, e, |Bytes(e)|) {
      BytesFront(e, rest);
    }
  }

  // ---------- whole streams ----------

  /** A file nothing is said about but its name and data. */
  function Plain(name: string, data: string): Entry {
    Entry(name, [0, 0, 0, 0, 0, 0, 0, 0, 0, 0, |name| + 1, 0], data)
  }

  predicate AllStorable(es: seq<Entry>) {
    forall k :: 0 <= k < |es| ==> Storable(es[k]) && es[k].name != TRAILER
  }

  lemma PlainStorable(name: string, data: string)
    requires |name| < 1000 && |data| < 1000
    ensures Storable(Plain(name, data))
  {
    Sixteens();
  }

  lemma Sixteens()
    ensures Power(16, 8) == 0x1_0000_0000
  {
    assert Power(16, 4) == 16 * Power(16, 3) && Power(16, 3) == 16 * Power(16, 2) && Power(16, 2) == 16 * Power(16, 1);
    assert Power(16, 8) == 16 * Power(16, 7) && Power(16, 7) == 16 * Power(16, 6) && Power(16, 6) == 16 * Power(16, 5);
  }

  /** The files one after the other, and the trailer. */
  function Stream(es: seq<Entry>): string
    requires AllStorable(es)
  {
    if es == [] then
      PlainStorable(TRAILER, "");
      Bytes(Plain(TRAILER, ""))
    else Bytes(es[0]) + Stream(es[1..])
  }

  /** A stream reads as the files it was written from, whatever follows it. */
  lemma {:induction false} StreamReads(es: seq<Entry>, rest: string)
    requires AllStorable(es)
    ensures var c := Stream(es) + rest;
      Forward(c, 0) && Read(c, 0) == Some(es) && TrailerEnd(c, 0) == |Stream(es)| && |Stream(es)| % 4 == 0
  {
    hide Bytes, Read, ReadsAs, Storable, Forward, TrailerEnd;
    var c := Stream(es) + rest;
    if es == [] {
      TrailerRead(c, rest);
    } else {
      var tail := Stream(es[1..]) + rest;
      StreamReads(es[1..], rest);
      BytesRead(es[0]);
      assert c == Bytes(es[0]) + tail;
      ReadChunk(Bytes(es[0]), es[0], tail);
      TrailerShift(Bytes(es[0]), es[0], tail);
      BytesAligned(es[0]);
      Fours(|Bytes(es[0])|, |Stream(es[1..])|);
      assert [es[0]] + es[1..] == es;
    }
  }

  lemma TrailerRead(c: string, rest: string)
    requires c == Stream([]) + rest
    ensures Forward(c, 0) && Read(c, 0) == Some([]) && TrailerEnd(c, 0) == |Stream([])| && |Stream([])| % 4 == 0
  {
    hide Bytes, Read, HeaderAt, EntryOf;
    var t := Plain(TRAILER, "");
    PlainStorable(TRAILER, "");
    BytesRead(t);
    assert FrontIs(Bytes(t) + rest, t, |Bytes(t)|);
    ReadOn(c, 0);
    var h := HeaderAt(c, 0).value;
    CalmGoes(c, 0);
    DataEmpty(c, h, t);
    NoData(c, h);
  }

  lemma DataEmpty(c: string, h: Header, t: Entry)
    requires |h.f| == FIELDS && EntryOf(c, h) == t
    ensures DataOf(c, h) == t.data
  {
  }

  lemma NoData(c: string, h: Header)
    requires h.data >= 0 && Calm(h) && DataOf(c, h) == "" && h.Next() <= |c|
    ensures h.Next() == h.data
  {
    SliceInside(c, h.data, h.data + h.Size());
  }

  /** The trailer lies as far behind as the chunk in front is long. */
  lemma TrailerShift(chunk: string, e: Entry, tail: string)
    requires ReadsAs(chunk, e) && e.name != TRAILER && Forward(tail, 0) && Forward(chunk + tail, 0) &&
      Read(tail, 0).Some?
    ensures TrailerEnd(chunk + tail, 0) == |chunk| + TrailerEnd(tail, 0)
  {
    hide HeaderAt, EntryOf, Read;
    var c := chunk + tail;
    assert FrontIs(c, e, |chunk|);
    assert c[|chunk|..] == tail;
    TrailerAt(c, |chunk|, 0);
  }

  lemma {:induction false} TrailerAt(c: string, at: nat, off: nat)
    requires at <= |c| && at % 4 == 0 && Forward(c[at..], off) && Forward(c, at + off)
    ensures TrailerEnd(c, at + off) == at + TrailerEnd(c[at..], off)
    decreases |c| - at - off
  {
    hide HeaderAt;
    HeaderShift(c, at, off);
    var s := HeaderAt(c[at..], off);
    if s.Some? {
      CalmGoes(c[at..], off);
      if s.value.name != TRAILER {
        TrailerAt(c, at, s.value.Next());
      }
    }
  }

  // ---------- a byte behind the trailer ----------

  /** A stream of no file with a byte behind it is edited to one without that byte. */
  lemma ByteBehindDropped()
    ensures var c := Stream([]) + "x"; EditCpio(c, map[]).Some? && EditCpio(c, map[]).value != c
  {
    hide Stream, Forward, Read, TrailerEnd, EditCpio;
    var c := Stream([]) + "x";
    StreamReads([], "x");
    UneditedStream(c);
  }

  // ---------- a name that is no text ----------

  /** init.*.rc falls under this key, and its last byte but three is in no UTF-8. */
  const ODD := "init.\U{ff}.rc"

  function Emptying(): Edit {
    map["init.*.rc" := (data: string) => Replace("")]
  }

  lemma {:induction false} AsciiFirst(s: string, k: nat)
    requires k <= |s| && forall j :: 0 <= j < k ==> s[j] as int < 0x80
    ensures Decodes(s) == Decodes(s[k..])
  {
    if k > 0 {
      AsciiFirst(s[1..], k - 1);
      assert s[1..][k - 1..] == s[k..];
    } else {
      assert s[0..] == s;
    }
  }

  lemma OddUndecoded(s: string)
    requires s == ODD
    ensures !Decodes(s)
  {
    hide Decodes;
    AsciiFirst(s, 5);
    assert s[5..][0] == '\U{ff}';
    NoFront(s[5..]);
  }

  lemma NoFront(s: string)
    requires s != "" && s[0] == '\U{ff}'
    ensures !Decodes(s)
  {
  }

  lemma OddName()
    ensures !Decodes(ODD) && Pattern(ODD, Emptying()) == "init.*.rc" && ODD != TRAILER && |ODD| == 9
  {
    hide Decodes;
    OddUndecoded(ODD);
    assert ODD[..5] == "init." && ODD[|ODD| - 3..] == ".rc";
  }

  /** Its edit goes through, and comparing the result with the original fails in printing the name. */
  lemma OddNameFails()
    ensures var c := (PlainStorable(ODD, "on"); OddName(); Stream([Plain(ODD, "on")]));
      EditCpio(c, Emptying()).Some? && !Compare(c, EditCpio(c, Emptying()).value, Emptying())
  {
    hide Stream, Forward, Read, TrailerEnd, EditCpio, Compare, Decodes, Pattern;
    var e, edit := Plain(ODD, "on"), Emptying();
    PlainStorable(ODD, "on");
    OddName();
    var c := Stream([e]);
    StreamReads([e], "");
    assert c + "" == c;
    assert Judge(edit, ODD, "on") == Replace("");
    assert VerdictOn(edit, e) == Replace("");
    EditSucceeds(c, edit);
    OddUsed(edit, e);
    Sixteens();
    CompareHolds(c, edit);
    assert e in [e] && Changed(e, edit);
  }

  lemma OddUsed(edit: Edit, e: Entry)
    requires edit == Emptying() && VerdictOn(edit, e) == Replace("") && Pattern(e.name, edit) == "init.*.rc"
    ensures NoneRefused([e], edit) && edit.Keys <= UsedBy([e], edit)
  {
    hide Judge, Pattern;
    assert [e][1..] == [];
  }
}
