/** What the cpio editor of scripts/mkbootroot.py does to a stream, as its reader sees it. */
module CpioEdit {
  import opened Wrappers
  import opened ByteText
  import opened Chunks
  import opened Cpio
  import Walk

  // ---------- reading at an offset ----------

  lemma {:induction false} FieldsShift(c: string, at: nat, off: nat, k: nat)
    requires at <= |c| && k <= FIELDS
    ensures FieldsFrom(c, at + off, k) == FieldsFrom(c[at..], off, k)
    decreases FIELDS - k
  {
    hide ReadHex, Slice;
    if k < FIELDS {
      SliceSuffix(c, at, off + 6 + 8 * k, off + 14 + 8 * k);
      FieldsShift(c, at, off, k + 1);
    }
  }

  /** A header is calm if it is there at all. */
  predicate CalmAt(c: string, off: nat) {
    HeaderAt(c, off).Some? ==> Calm(HeaderAt(c, off).value)
  }

  /** From a multiple of four on, a stream reads as if it started there. */
  lemma HeaderShift(c: string, at: nat, off: nat)
    requires at <= |c| && at % 4 == 0 && CalmAt(c[at..], off)
    ensures var h := HeaderAt(c, at + off); var s := HeaderAt(c[at..], off);
      h == match s case None => None case Some(g) => Some(Header(g.f, g.name, at + g.data))
  {
    hide FieldsFrom, Slice;
    SliceSuffix(c, at, off, off + 6);
    FieldsShift(c, at, off, 0);
    if HeaderAt(c[at..], off).Some? {
      var size := HeaderAt(c[at..], off).value.NameSize();
      SliceSuffix(c, at, off + HEADER, off + HEADER + size - 1);
    }
  }

  lemma EntryShift(c: string, at: nat, g: Header)
    requires at <= |c| && Calm(g) && g.data >= 0
    ensures EntryOf(c, Header(g.f, g.name, at + g.data)) == EntryOf(c[at..], g)
  {
    hide Slice;
    SliceSuffix(c, at, g.data, g.data + g.Size());
  }

  lemma {:induction false} ReadShift(c: string, at: nat, off: nat)
    requires at <= |c| && at % 4 == 0 && Forward(c[at..], off)
    ensures Forward(c, at + off) && Read(c, at + off) == Read(c[at..], off)
    decreases |c| - at - off
  {
    hide Slice, EntryOf, HeaderAt, Read;
    HeaderShift(c, at, off);
    ReadOn(c, at + off);
    ReadOn(c[at..], off);
    var s := HeaderAt(c[at..], off);
    if s.Some? && s.value.name != TRAILER {
      CalmGoes(c[at..], off);
      ReadShift(c, at, s.value.Next());
      EntryShift(c, at, s.value);
    }
  }

  // ---------- what an entry's bytes read as ----------

  /** At the front of c a calm header reads as the entry's, and the next one is due at n. */
  predicate FrontIs(c: string, e: Entry, n: nat) {
    var h := HeaderAt(c, 0);
    h.Some? && Calm(h.value) && h.value.name == e.name && EntryOf(c, h.value) == e && h.value.Next() == n
  }

  /** A chunk that reads as an entry by itself, whatever follows: the loop of entries goes on right behind it. */
  ghost predicate ReadsAs(chunk: string, e: Entry) {
    |chunk| % 4 == 0 && forall rest: string :: FrontIs(chunk + rest, e, |chunk|)
  }

  lemma ReadChunk(chunk: string, e: Entry, rest: string)
    requires ReadsAs(chunk, e) && e.name != TRAILER && Forward(rest, 0)
    ensures Forward(chunk + rest, 0) && Read(chunk + rest, 0) == Onto(e, Read(rest, 0))
  {
    hide HeaderAt, EntryOf, Read;
    assert (chunk + rest)[|chunk|..] == rest;
    ReadShift(chunk + rest, |chunk|, 0);
    assert FrontIs(chunk + rest, e, |chunk|);
    ReadOn(chunk + rest, 0);
    CalmGoes(chunk + rest, 0);
  }

  /** Bytes that begin with a header and a name. */
  lemma HeaderIs(c: string, f: seq<int>, name: string)
    requires Magic(Slice(c, 0, 6)) && FieldsFrom(c, 0, 0) == Some(f) && f[11] == |name| + 1
    requires HEADER + |name| <= |c| && c[HEADER..HEADER + |name|] == name
    ensures HeaderAt(c, 0) == Some(Header(f, name, Up4(HEADER + f[11])))
  {
    hide FieldsFrom;
    SliceInside(c, HEADER, HEADER + |name|);
  }

  lemma {:induction false} FieldsAlike(c: string, d: string, n: nat, k: nat)
    requires HEADER <= n <= |c| && n <= |d| && c[..n] == d[..n] && k <= FIELDS
    ensures FieldsFrom(c, 0, k) == FieldsFrom(d, 0, k)
    decreases FIELDS - k
  {
    hide ReadHex, Slice;
    if k < FIELDS {
      SliceAlike(c, d, n, 6 + 8 * k, 14 + 8 * k);
      FieldsAlike(c, d, n, k + 1);
    }
  }

  /** A header and the entry behind it depend on nothing past the entry. */
  lemma HeaderPrefix(c: string, d: string, n: nat)
    requires HeaderAt(c, 0).Some? && Calm(HeaderAt(c, 0).value) && HeaderAt(c, 0).value.Next() <= n <= |c|
    requires n <= |d| && c[..n] == d[..n]
    ensures HeaderAt(d, 0) == HeaderAt(c, 0) && EntryOf(d, HeaderAt(c, 0).value) == EntryOf(c, HeaderAt(c, 0).value)
  {
    hide FieldsFrom, Slice;
    var h := HeaderAt(c, 0).value;
    FieldsAlike(c, d, n, 0);
    SliceAlike(c, d, n, 0, 6);
    SliceAlike(c, d, n, HEADER, HEADER + h.NameSize() - 1);
    SliceAlike(c, d, n, h.data, h.data + h.Size());
  }

  lemma SizeReads(n: nat)
    requires n < Power(16, 8)
    ensures |Text(n, 16, 8)| == 8 && ReadHex(Text(n, 16, 8)) == Some(n)
  {
    hide ReadHex;
    TextReadsBack(n, 16, 8);
    TextLength(n, 16, 8);
    DigitsRead(Text(n, 16, 8));
  }

  // ---------- entries that go out ----------

  /** What becomes of an entry. */
  function Applied(e: Entry, v: Verdict): Entry {
    if v.Replace? then e.(data := v.data) else e
  }

  lemma AppliedNamed(e: Entry, v: Verdict)
    ensures Applied(e, v).name == e.name
  {
  }

  /** Offsets stay multiples of four. */
  lemma Aligned(c: string, off: int, h: Header)
    requires HeaderAt(c, off) == Some(h)
    ensures h.data % 4 == 0 && h.Next() % 4 == 0
  {
    hide FieldsFrom;
  }

  lemma TailHeader(c: string, off: nat, h: Header)
    requires off % 4 == 0 && HeaderAt(c, off) == Some(h) && Calm(h) && off <= h.data && off <= |c|
    ensures var g := Header(h.f, h.name, h.data - off);
      HeaderAt(c[off..], 0) == Some(g) && Calm(g) && EntryOf(c[off..], g) == EntryOf(c, h)
  {
    hide HeaderAt, EntryOf;
    TailCalm(c, off);
    HeaderShift(c, off, 0);
    EntryShift(c, off, Header(h.f, h.name, h.data - off));
  }

  lemma FrontKept(c: string, g: Header, d: string, n: nat)
    requires HeaderAt(c, 0) == Some(g) && Calm(g) && g.Next() == n <= |c| && n <= |d| && c[..n] == d[..n]
    ensures FrontIs(d, EntryOf(c, g), n)
  {
    hide HeaderAt, EntryOf;
    HeaderPrefix(c, d, n);
    EntryNamed(c, g);
  }

  /** An entry that goes out as it came in. */
  lemma KeptReads(c: string, off: nat, h: Header)
    requires off % 4 == 0 && HeaderAt(c, off) == Some(h) && Calm(h) && h.Next() <= |c|
    ensures ReadsAs(Slice(c, off, h.Next()), EntryOf(c, h))
  {
    hide HeaderAt, Slice, EntryOf, FrontIs, Up4;
    CalmGoes(c, off);
    var tail, chunk := c[off..], c[off..h.Next()];
    TailHeader(c, off, h);
    Aligned(c, off, h);
    SliceInside(c, off, h.Next());
    assert |chunk| % 4 == 0;
    forall rest: string ensures FrontIs(chunk + rest, EntryOf(c, h), |chunk|) {
      assert (chunk + rest)[..|chunk|] == chunk == tail[..|chunk|];
      FrontKept(tail, Header(h.f, h.name, h.data - off), chunk + rest, |chunk|);
    }
  }

  lemma TailCalm(c: string, off: nat)
    requires off <= |c| && CalmAt(c, off)
    ensures CalmAt(c[off..], 0)
  {
    hide FieldsFrom, Slice;
    SliceSuffix(c, off, 0, 6);
    FieldsShift(c, off, 0, 0);
  }

  lemma EntryNamed(c: string, h: Header)
    requires |h.f| == FIELDS
    ensures EntryOf(c, h).name == h.name && |EntryOf(c, h).meta| == 12 && EntryOf(c, h).meta[10] == h.NameSize()
  {
  }

  /** The header bytes with another size in them. */
  function Resized(hdr: string, size: string): string
    requires |hdr| == HEADER
  {
    hdr[..54] + size + hdr[62..]
  }

  /** An entry's name and its terminating NUL are counted, as the format has it; the size fits its field. */
  predicate Fits(h: Header, data: string)
    requires |h.f| == FIELDS
  {
    h.NameSize() > 0 && |data| < Power(16, 8)
  }

  lemma HeaderWhole(c: string, off: nat, h: Header)
    requires HeaderAt(c, off) == Some(h) && Calm(h) && h.Next() <= |c| && h.NameSize() > 0
    ensures off + HEADER <= h.data <= |c| && |h.name| + 1 == h.NameSize()
  {
    hide FieldsFrom;
    SliceInside(c, off + HEADER, off + HEADER + h.NameSize() - 1);
  }

  /** Where the parts lie that an entry is put together from. */
  lemma Laid(front: string, name: string, back: string, data: string, rest: string)
    ensures var c, n, m := front + name + back + data + rest, |front|, |front| + |name| + |back|;
      c[..n] == front && c[n..n + |name|] == name && c[m..m + |data|] == data
  {
    var c, n := front + name + back + data + rest, |front|;
    assert c == front + (name + (back + data + rest));
    Behind(front, name + (back + data + rest), 0, |name|);
    assert (name + (back + data + rest))[0..|name|] == name;
    var ahead := front + name + back;
    assert c == ahead + (data + rest);
    Behind(ahead, data + rest, 0, |data|);
    assert (data + rest)[0..|data|] == data;
  }

  lemma Regrouped(a: string, b: string, c: string, d: string, e: string, f: string, g: string)
    ensures a + b + c + d + e + f + g == a + b + (c + d) + e + (f + g)
  {
  }

  /** The parts of an entry that goes out with other data. */
  lemma RewrittenParts(c: string, off: nat, h: Header, data: string, rest: string)
    requires off + HEADER <= |c| && |h.f| == FIELDS && |h.name| + 1 == h.NameSize()
    requires |Text(|data|, 16, 8)| == 8
    ensures var d, m := Rewritten(c, off, h, data) + rest, Up4(HEADER + h.NameSize());
      && |d| >= m + |data| && d[..HEADER] == Resized(c[off..off + HEADER], Text(|data|, 16, 8))
      && d[HEADER..HEADER + |h.name|] == h.name && d[m..m + |data|] == data
      && |Rewritten(c, off, h, data)| == m + Up4(|data|)
  {
    hide Text, Up4, Slice, Nuls, Resized;
    var size, back := Text(|data|, 16, 8), "\0" + Pad(HEADER + h.NameSize());
    var front := Slice(c, off, off + 54) + size + Slice(c, off + 62, off + HEADER);
    ResizedFront(c, off, size);
    Laid(front, h.name, back, data, Pad(|data|) + rest);
    Regrouped(front, h.name, "\0", Pad(HEADER + h.NameSize()), data, Pad(|data|), rest);
  }

  lemma ResizedFront(c: string, off: nat, size: string)
    requires off + HEADER <= |c| && |size| == 8
    ensures Slice(c, off, off + 54) + size + Slice(c, off + 62, off + HEADER) == Resized(c[off..off + HEADER], size)
    ensures |Resized(c[off..off + HEADER], size)| == HEADER
  {
    hide Slice;
    SliceInside(c, off, off + 54);
    SliceInside(c, off + 62, off + HEADER);
    var hdr := c[off..off + HEADER];
    assert c[off..off + 54] == hdr[..54] && c[off + 62..off + HEADER] == hdr[62..];
  }

  /** A header with another size in it has the same fields but for that one. */
  lemma ResizedField(c: string, off: nat, d: string, size: string, k: nat)
    requires off + HEADER <= |c| && |size| == 8 && HEADER <= |d| && k < FIELDS
    requires d[..HEADER] == Resized(c[off..off + HEADER], size)
    ensures Slice(d, 0, 6) == Slice(c, off, off + 6)
    ensures FieldText(d, 0, k) == if k == 6 then size else FieldText(c, off, k)
  {
    var hdr, a, b := c[off..off + HEADER], 6 + 8 * k, 14 + 8 * k;
    var r := Resized(hdr, size);
    SliceInside(c, off, off + 6);
    SliceInside(d, 0, 6);
    SliceInside(c, off + a, off + b);
    SliceInside(d, a, b);
    assert d[0..HEADER] == r;
    Inner(d, 0, HEADER, 0, 6);
    Inner(d, 0, HEADER, a, b);
    Inner(c, off, off + HEADER, 0, 6);
    Inner(c, off, off + HEADER, a, b);
    ResizedElsewhere(hdr, size, 0, 6);
    if k == 6 {
      assert r[54..62] == size;
    } else {
      ResizedElsewhere(hdr, size, a, b);
    }
  }

  lemma ResizedElsewhere(hdr: string, size: string, a: nat, b: nat)
    requires |hdr| == HEADER && |size| == 8 && a <= b <= HEADER && (b <= 54 || 62 <= a)
    ensures Resized(hdr, size)[a..b] == hdr[a..b]
  {
    var r := Resized(hdr, size);
    assert forall i :: a <= i < b ==> r[i] == hdr[i];
  }

  lemma RewrittenFields(c: string, off: nat, d: string, n: nat, h: Header)
    requires HeaderAt(c, off) == Some(h) && off + HEADER <= |c| && HEADER <= |d| && n < Power(16, 8)
    requires d[..HEADER] == Resized(c[off..off + HEADER], Text(n, 16, 8))
    ensures Magic(Slice(d, 0, 6)) && FieldsFrom(d, 0, 0) == Some(h.f[6 := n])
  {
    hide ReadHex, FieldText, Text, Resized, Slice, FieldsFrom;
    SizeReads(n);
    ResizedField(c, off, d, Text(n, 16, 8), 0);
    forall k | 0 <= k < FIELDS ensures ReadHex(FieldText(d, 0, k)) == Some(h.f[6 := n][k]) {
      ResizedField(c, off, d, Text(n, 16, 8), k);
      FieldIs(c, off, 0, k);
    }
    FieldsRead(d, 0, 0, h.f[6 := n]);
  }

  lemma SameMeta(f: seq<int>, size: int)
    requires |f| == FIELDS
    ensures Meta(f[6 := size]) == Meta(f)
  {
  }

  lemma RewrittenFront(c: string, off: nat, h: Header, data: string, rest: string)
    requires off % 4 == 0 && HeaderAt(c, off) == Some(h) && Calm(h) && h.Next() <= |c| && Fits(h, data)
    ensures FrontIs(Rewritten(c, off, h, data) + rest, Applied(EntryOf(c, h), Replace(data)),
      |Rewritten(c, off, h, data)|)
  {
    hide FieldsFrom, Rewritten, Pad, Text, HeaderAt, Slice, Up4, Resized;
    HeaderWhole(c, off, h);
    TextLength(|data|, 16, 8);
    RewrittenParts(c, off, h, data, rest);
    var d, m := Rewritten(c, off, h, data) + rest, Up4(HEADER + h.NameSize());
    RewrittenFields(c, off, d, |data|, h);
    HeaderIs(d, h.f[6 := |data|], h.name);
    SameMeta(h.f, |data|);
    SliceInside(d, m, m + |data|);
  }

  /** An entry that goes out with other data. */
  lemma RewrittenReads(c: string, off: nat, h: Header, data: string)
    requires off % 4 == 0 && HeaderAt(c, off) == Some(h) && Calm(h) && h.Next() <= |c| && Fits(h, data)
    ensures ReadsAs(Rewritten(c, off, h, data), Applied(EntryOf(c, h), Replace(data)))
  {
    hide FieldsFrom, Rewritten, HeaderAt, EntryOf, FrontIs, Text, Pad, Up4, Resized, Slice;
    var r, e := Rewritten(c, off, h, data), Applied(EntryOf(c, h), Replace(data));
    HeaderWhole(c, off, h);
    TextLength(|data|, 16, 8);
    RewrittenParts(c, off, h, data, "");
    forall rest: string ensures FrontIs(r + rest, e, |r|) {
      RewrittenFront(c, off, h, data, rest);
    }
  }

  lemma ChunkReads(c: string, off: nat, h: Header, v: Verdict)
    requires off % 4 == 0 && HeaderAt(c, off) == Some(h) && Calm(h) && h.Next() <= |c|
    requires v.Replace? ==> Fits(h, v.data)
    ensures ReadsAs(Chunk(c, off, h, v), Applied(EntryOf(c, h), v))
  {
    hide HeaderAt, Rewritten, Slice, EntryOf, ReadsAs;
    if v.Replace? {
      RewrittenReads(c, off, h, v.data);
    } else {
      KeptReads(c, off, h);
    }
  }

  lemma {:induction false} FieldsWithin(c: string, off: nat, end: nat, k: nat)
    requires k <= FIELDS && off + HEADER <= end
    ensures FieldsFrom(Slice(c, off, end), 0, k) == FieldsFrom(c, off, k)
    decreases FIELDS - k
  {
    hide ReadHex, Slice;
    if k < FIELDS {
      SliceSlice(c, off, end, 6 + 8 * k, 14 + 8 * k);
      FieldsWithin(c, off, end, k + 1);
    }
  }

  /** The trailer by itself ends a stream. */
  lemma TrailerReads(c: string, off: nat, h: Header)
    requires off % 4 == 0 && HeaderAt(c, off) == Some(h) && Calm(h) && h.name == TRAILER
    ensures Forward(Slice(c, off, h.data), 0) && Read(Slice(c, off, h.data), 0) == Some([])
  {
    hide FieldsFrom, Slice, Read;
    var d := Slice(c, off, h.data);
    SliceSlice(c, off, h.data, 0, 6);
    FieldsWithin(c, off, h.data, 0);
    if h.NameSize() > 0 {
      SliceSlice(c, off, h.data, HEADER, HEADER + h.NameSize() - 1);
    } else {
      NoName(c, off);
    }
    ReadOn(d, 0);
  }

  lemma NoName(c: string, off: nat)
    ensures Slice(c, off + HEADER, off + HEADER - 1) == ""
  {
  }

  // ---------- the edited stream ----------

  function VerdictOn(edit: Edit, e: Entry): Verdict {
    Judge(edit, e.name, e.data)
  }

  /** The files with the edits applied to them. */
  function AppliedAll(es: seq<Entry>, edit: Edit): (r: seq<Entry>)
    ensures |r| == |es|
    ensures forall k :: 0 <= k < |es| ==> r[k] == Applied(es[k], VerdictOn(edit, es[k]))
  {
    seq(|es|, k requires 0 <= k < |es| => Applied(es[k], VerdictOn(edit, es[k])))
  }

  predicate NoneRefused(es: seq<Entry>, edit: Edit) {
    forall k :: 0 <= k < |es| ==> !VerdictOn(edit, es[k]).Refuse?
  }

  /** The keys whose edit changed a file. */
  function UsedBy(es: seq<Entry>, edit: Edit): set<string> {
    if es == [] then {} else Used(edit, es[0].name, VerdictOn(edit, es[0])) + UsedBy(es[1..], edit)
  }

  /** A replaced entry counts its name's NUL in namesize, and the new size fits its field. */
  predicate OneFits(e: Entry, edit: Edit) {
    VerdictOn(edit, e).Replace? ==> |e.meta| == 12 && e.meta[10] > 0 && |VerdictOn(edit, e).data| < Power(16, 8)
  }

  predicate AllFit(es: seq<Entry>, edit: Edit) {
    forall k :: 0 <= k < |es| ==> OneFits(es[k], edit)
  }

  lemma NoneRefusedCons(e: Entry, rest: seq<Entry>, edit: Edit)
    ensures NoneRefused([e] + rest, edit) <==> !VerdictOn(edit, e).Refuse? && NoneRefused(rest, edit)
    ensures UsedBy([e] + rest, edit) == Used(edit, e.name, VerdictOn(edit, e)) + UsedBy(rest, edit)
  {
    hide Judge, Used;
    var es := [e] + rest;
    assert es[0] == e && es[1..] == rest;
    assert forall k :: 0 < k < |es| ==> es[k] == rest[k - 1];
    assert forall k :: 0 <= k < |rest| ==> rest[k] == es[k + 1];
  }

  /** The editor gets through exactly the streams the reader gets through, unless an edit fails. */
  lemma {:induction false} RewriteReads(c: string, off: int, edit: Edit)
    ensures Rewrite(c, off, edit).Some? <==> Read(c, off).Some? && NoneRefused(Read(c, off).value, edit)
    ensures Rewrite(c, off, edit).Some? ==> Rewrite(c, off, edit).value.done == UsedBy(Read(c, off).value, edit)
    decreases TurnsLeft(EditTurn(c, edit), off)
  {
    hide HeaderAt, EntryOf, Chunk, Slice, Judge, NoneRefused, Read, Rewrite, Used, DataOf;
    ReadOn(c, off);
    RewriteOn(c, off, edit);
    NothingRefused(edit);
    if EditEnds(c, edit, off) {
      var h := HeaderAt(c, off);
      if h.Some? && h.value.name != TRAILER {
        EntryJudged(c, h.value, edit);
        var e, rest := EntryOf(c, h.value), Read(c, h.value.Next());
        if rest.Some? {
          NoneRefusedCons(e, rest.value, edit);
        }
        if !Judge(edit, h.value.name, DataOf(c, h.value)).Refuse? {
          Walk.TurnsOn(EditTurn(c, edit), off);
          RewriteReads(c, h.value.Next(), edit);
        }
      }
    } else {
      NeverEnds(c, off, edit);
    }
  }

  lemma NothingRefused(edit: Edit)
    ensures NoneRefused([], edit) && UsedBy([], edit) == {}
  {
  }

  lemma EntryJudged(c: string, h: Header, edit: Edit)
    requires |h.f| == FIELDS
    ensures VerdictOn(edit, EntryOf(c, h)) == Judge(edit, h.name, DataOf(c, h)) && EntryOf(c, h).name == h.name
  {
    hide Judge;
  }

  lemma NeverEnds(c: string, off: int, edit: Edit)
    requires !EditEnds(c, edit, off)
    ensures Rewrite(c, off, edit).None? && Read(c, off).None?
  {
    hide Ends, EditEnds;
    EditingEnds(c, edit, off);
  }

  lemma AppliedCons(e: Entry, rest: seq<Entry>, edit: Edit)
    ensures AppliedAll([e] + rest, edit) == [Applied(e, VerdictOn(edit, e))] + AppliedAll(rest, edit)
  {
    hide VerdictOn, Applied;
    var all := AppliedAll([e] + rest, edit);
    assert forall k :: 0 < k < |all| ==> all[k] == AppliedAll(rest, edit)[k - 1];
  }

  lemma AllFitCons(e: Entry, rest: seq<Entry>, edit: Edit)
    requires AllFit([e] + rest, edit)
    ensures AllFit(rest, edit) && OneFits(e, edit)
  {
    hide OneFits;
    var es := [e] + rest;
    assert OneFits(es[0], edit);
    forall k | 0 <= k < |rest| ensures OneFits(rest[k], edit) {
      assert OneFits(es[k + 1], edit);
    }
  }

  lemma {:induction false} EditKeeps(c: string, off: nat, edit: Edit)
    requires off % 4 == 0 && Forward(c, off)
    requires Rewrite(c, off, edit).Some? && Read(c, off).Some? && AllFit(Read(c, off).value, edit)
    ensures var out := Rewrite(c, off, edit).value.out;
      Forward(out, 0) && Read(out, 0) == Some(AppliedAll(Read(c, off).value, edit))
    decreases |c| - off
  {
    hide HeaderAt, EntryOf, Chunk, Slice, Judge, AllFit, Applied, AppliedAll, Read, Rewrite, DataOf, ReadsAs;
    ReadOn(c, off);
    RewriteOn(c, off, edit);
    var h := HeaderAt(c, off).value;
    if h.name == TRAILER {
      TrailerReads(c, off, h);
      NothingApplied(edit);
    } else {
      var e, rest := EntryOf(c, h), Read(c, h.Next());
      CalmGoes(c, off);
      Aligned(c, off, h);
      EntryNamed(c, h);
      EntryJudged(c, h, edit);
      AllFitCons(e, rest.value, edit);
      AppliedCons(e, rest.value, edit);
      EditKeeps(c, h.Next(), edit);
      NextInside(c, h.Next());
      ChunkReads(c, off, h, VerdictOn(edit, e));
      AppliedNamed(e, VerdictOn(edit, e));
      ReadChunk(Chunk(c, off, h, VerdictOn(edit, e)), Applied(e, VerdictOn(edit, e)),
        Rewrite(c, h.Next(), edit).value.out);
    }
  }

  lemma NothingApplied(edit: Edit)
    ensures AppliedAll([], edit) == []
  {
  }

  lemma NextInside(c: string, off: nat)
    requires Read(c, off).Some?
    ensures HeaderAt(c, off).Some? && off <= |c|
  {
    hide HeaderAt, Read;
    ReadOn(c, off);
    HeaderInside(c, off);
  }

  /**
   edit_cpio returns a stream exactly where entries returns, no edit fails, and every key changed
   a file; where entries never ends, neither does it, unless an edit fails first.
   */
  lemma EditSucceeds(c: string, edit: Edit)
    ensures EditCpio(c, edit).Some? <==>
      Read(c, 0).Some? && NoneRefused(Read(c, 0).value, edit) && edit.Keys <= UsedBy(Read(c, 0).value, edit)
  {
    hide Read, Rewrite, NoneRefused, UsedBy;
    RewriteReads(c, 0, edit);
  }

  /**
   The edited stream holds the same files in the same order, metadata unchanged, the edited ones
   with their new data.
   */
  lemma EditReads(c: string, edit: Edit)
    requires Forward(c, 0) && Read(c, 0).Some? && AllFit(Read(c, 0).value, edit) && EditCpio(c, edit).Some?
    ensures Forward(EditCpio(c, edit).value, 0)
    ensures Read(EditCpio(c, edit).value, 0) == Some(AppliedAll(Read(c, 0).value, edit))
  {
    hide Read, Rewrite, AllFit, NoneRefused, UsedBy, Forward;
    EditSucceeds(c, edit);
    EditKeeps(c, 0, edit);
  }

  // ---------- compare ----------

  predicate Byte(s: string, k: nat, lo: int, hi: int) {
    k < |s| && lo <= s[k] as int <= hi
  }

  /** How many bytes of well-formed UTF-8 stand at the front for one character: 0 if there is none. */
  function Utf8Front(s: string): (n: nat)
    ensures n <= |s|
  {
    if Byte(s, 0, 0, 0x7f) then 1
    else if Byte(s, 0, 0xc2, 0xdf) && Byte(s, 1, 0x80, 0xbf) then 2
    else if
      && Byte(s, 2, 0x80, 0xbf)
      && ((Byte(s, 0, 0xe0, 0xe0) && Byte(s, 1, 0xa0, 0xbf)) || (Byte(s, 0, 0xe1, 0xec) && Byte(s, 1, 0x80, 0xbf))
          || (Byte(s, 0, 0xed, 0xed) && Byte(s, 1, 0x80, 0x9f)) || (Byte(s, 0, 0xee, 0xef) && Byte(s, 1, 0x80, 0xbf)))
    then 3
    else if
      && Byte(s, 2, 0x80, 0xbf) && Byte(s, 3, 0x80, 0xbf)
      && ((Byte(s, 0, 0xf0, 0xf0) && Byte(s, 1, 0x90, 0xbf)) || (Byte(s, 0, 0xf1, 0xf3) && Byte(s, 1, 0x80, 0xbf))
          || (Byte(s, 0, 0xf4, 0xf4) && Byte(s, 1, 0x80, 0x8f)))
    then 4
    else 0
  }

  /** decode() takes it. */
  predicate Decodes(s: string) {
    s == "" || (Utf8Front(s) > 0 && Decodes(s[Utf8Front(s)..]))
  }

  /** compare returns: no assertion of it fails, and it can print the name of every file that changed. */
  ghost predicate Compare(stock: string, now: string, edit: Edit) {
    match (Read(stock, 0), Read(now, 0))
    case (Some(a), Some(b)) =>
      && |a| == |b|
      && (forall k :: 0 <= k < |a| ==> a[k].name == b[k].name)
      && (forall k :: 0 <= k < |a| ==> a[k].meta == b[k].meta)
      && (forall k :: 0 <= k < |a| && a[k].data != b[k].data ==> Pattern(a[k].name, edit) in edit && Decodes(a[k].name))
    case _ => false
  }

  /** The edit gives the file other data than it has. */
  predicate Changed(e: Entry, edit: Edit) {
    VerdictOn(edit, e).Replace? && VerdictOn(edit, e).data != e.data
  }

  /** compare returns on what edit_cpio made exactly if the name of every file changed is UTF-8. */
  lemma CompareHolds(c: string, edit: Edit)
    requires Forward(c, 0) && Read(c, 0).Some? && AllFit(Read(c, 0).value, edit) && EditCpio(c, edit).Some?
    ensures Compare(c, EditCpio(c, edit).value, edit) <==>
      forall e :: e in Read(c, 0).value && Changed(e, edit) ==> Decodes(e.name)
  {
    hide Read, EditCpio, Decodes, AllFit, Forward, NoneRefused, UsedBy;
    EditSucceeds(c, edit);
    EditReads(c, edit);
    var a := Read(c, 0).value;
    var b := AppliedAll(a, edit);
    forall k | 0 <= k < |a| ensures a[k].data != b[k].data <==> Changed(a[k], edit) {
    }
    if forall e :: e in a && Changed(e, edit) ==> Decodes(e.name) {
      forall k | 0 <= k < |a| && a[k].data != b[k].data ensures Decodes(a[k].name) {
        assert a[k] in a;
      }
    }
  }

  // ---------- streams no file of which is edited ----------

  /** Where the trailer's header and name end, padded. */
  function TrailerEnd(c: string, off: nat): (end: nat)
    ensures end >= off
    decreases |c| - off
  {
    if !Forward(c, off) then off
    else
      match HeaderAt(c, off)
      case None => off
      case Some(h) =>
        CalmGoes(c, off);
        if h.name == TRAILER then h.data else TrailerEnd(c, h.Next())
  }

  /**
   Where no file is edited the stream goes out as it came in up to the end of the trailer: whole
   exactly if nothing follows that.
   */
  lemma {:induction false} Unedited(c: string, off: nat, edit: Edit)
    requires Forward(c, off) && Read(c, off).Some? && forall e :: e in Read(c, off).value ==> VerdictOn(edit, e).Leave?
    ensures off <= |c| && Rewrite(c, off, edit).Some?
    ensures Rewrite(c, off, edit).value.out == Slice(c, off, TrailerEnd(c, off))
    ensures Rewrite(c, off, edit).value.out == c[off..] <==> |c| <= TrailerEnd(c, off)
    decreases |c| - off
  {
    hide HeaderAt, EntryOf, Judge, Read, Rewrite, DataOf;
    ReadOn(c, off);
    RewriteOn(c, off, edit);
    NextInside(c, off);
    var h := HeaderAt(c, off).value;
    CalmGoes(c, off);
    if h.name != TRAILER {
      var e, rest := EntryOf(c, h), Read(c, h.Next());
      EntryJudged(c, h, edit);
      assert ([e] + rest.value)[0] == e && VerdictOn(edit, e).Leave?;
      forall d | d in rest.value ensures VerdictOn(edit, d).Leave? {
        assert d in [e] + rest.value;
      }
      Unedited(c, h.Next(), edit);
      Joins(c, off, h.Next(), TrailerEnd(c, h.Next()));
    } else {
      WholeOr(c, off, h.data);
    }
  }

  lemma WholeOr(c: string, a: nat, end: nat)
    requires a <= |c| && a <= end
    ensures Slice(c, a, end) == c[a..] <==> |c| <= end
  {
    if |c| > end {
      assert |Slice(c, a, end)| == end - a < |c[a..]|;
    }
  }

  lemma Joins(c: string, a: nat, b: nat, end: nat)
    requires a <= b <= |c| && b <= end
    ensures Slice(c, a, b) + Slice(c, b, end) == Slice(c, a, end)
    ensures Slice(c, a, end) == c[a..] <==> |c| <= end
  {
    WholeOr(c, a, end);
  }

  /** With nothing to edit, edit_cpio gives back its input exactly if nothing follows the trailer. */
  lemma UneditedStream(c: string)
    requires Forward(c, 0) && Read(c, 0).Some?
    ensures EditCpio(c, map[]).Some?
    ensures EditCpio(c, map[]).value == c <==> |c| <= TrailerEnd(c, 0)
  {
    hide Forward, Read, Rewrite, TrailerEnd;
    Unedited(c, 0, map[]);
    assert c[0..] == c;
  }
}
