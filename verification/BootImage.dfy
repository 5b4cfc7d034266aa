/**
 The boot image of scripts/mkbootroot.py: a header page, the kernel and the ramdisk padded to
 pages, and what trails them; taken apart, and put together again with another ramdisk.
 */
module BootImage {
  import opened Wrappers
  import opened Chunks
  import opened LittleEndian
  import opened ModArith
  import Cpio
  import CpioEdit

  type Bytes = seq<byte>

  const ANDROID: Bytes := [0x41, 0x4e, 0x44, 0x52, 0x4f, 0x49, 0x44, 0x21]
  const MTK: Bytes := [0x88, 0x16, 0x88, 0x58]
  const ROOTFS: Bytes := [0x52, 0x4f, 0x4f, 0x54, 0x46, 0x53, 0, 0]
  const ID_OFF := 0x240
  const ID_LEN := 0x20

  /** pages_, and how many bytes they have. */
  function PagesOf(n: nat, page: nat): nat
    requires page > 0
  {
    (n + page - 1) / page * page
  }

  lemma PagesHold(n: nat, page: nat)
    requires page > 0
    ensures n <= PagesOf(n, page) < n + page
  {
    var m := n + page - 1;
    assert m == m / page * page + m % page;
  }

  datatype Boot = Boot(page: nat, ksz: nat, rsz: nat, hdr: Bytes, kernel: Bytes, mtk: bool, ramdisk: Bytes,
      trailing: Bytes)

  /** Boot: None where an assertion fails, a field is missing, or the page size is 0. */
  function Parse(raw: Bytes): Option<Boot> {
    var _ :- Need(Slice(raw, 0, 8) == ANDROID);
    var ksz :- Word(raw, 8, 4);
    var rsz :- Word(raw, 16, 4);
    var ssz :- Word(raw, 24, 4);
    var page :- Word(raw, 36, 4);
    var _ :- Need(ssz == 0 && page > 0);
    var ro := page + PagesOf(ksz, page);
    var blob := Slice(raw, ro, ro + rsz);
    var mtk := Slice(blob, 0, 4) == MTK;
    var payload :- Payload(blob, rsz, mtk);
    Some(Boot(page, ksz, rsz, Slice(raw, 0, page), Slice(raw, page, page + ksz), mtk, payload,
      Slice(raw, ro + PagesOf(rsz, page), ro + PagesOf(rsz, page) + |raw|)))
  }

  /** The ramdisk without MediaTek's header, which counts the payload alone. */
  function Payload(blob: Bytes, rsz: nat, mtk: bool): Option<Bytes> {
    if !mtk then Some(blob)
    else
      var size :- Word(blob, 4, 4);
      var _ :- Need(size + 512 == rsz);
      Some(if |blob| >= 512 then blob[512..] else [])
  }

  function MtkHeader(size: nat): (r: Bytes)
    ensures |r| == 512
  {
    MTK + EncodeLittleEndian(size, 4) + ROOTFS + Zeros(496)
  }

  function BlobOf(b: Boot, r: Bytes): Bytes {
    if b.mtk then MtkHeader(|r|) + r else r
  }

  function PagePadded(b: Bytes, page: nat): (r: Bytes)
    requires page > 0
    ensures |r| == PagesOf(|b|, page) && r[..|b|] == b
  {
    PagesHold(|b|, page);
    b + Zeros(PagesOf(|b|, page) - |b|)
  }

  /** A byte of the header page that is neither of the ramdisk's size nor of the ID. */
  predicate Untouched(k: nat) {
    !(16 <= k < 20) && !(ID_OFF <= k < ID_OFF + ID_LEN)
  }

  /** The header page with the ramdisk's size and the new ID, 20 bytes of SHA-1 and zeros. */
  function Patched(hdr: Bytes, size: nat, id: Bytes): (r: Bytes)
    requires |hdr| >= ID_OFF + ID_LEN && |id| == ID_LEN
    ensures |r| == |hdr|
  {
    hdr[..16] + EncodeLittleEndian(size, 4) + hdr[20..ID_OFF] + id + hdr[ID_OFF + ID_LEN..]
  }

  /**
   assemble, with the ID of the sizes and blobs; None for sizes that do not fit a field. The header
   page must reach past the ID.
   */
  function Assemble(b: Boot, r: Bytes, id: (nat, nat, Bytes) -> Bytes): Option<Bytes>
    requires b.page > 0 && |b.hdr| >= ID_OFF + ID_LEN
  {
    var blob := BlobOf(b, r);
    var digest := id(b.ksz, |blob|, b.kernel + blob);
    var _ :- Need(|blob| < Pow256(4) && |digest| == 20);
    Some(Patched(b.hdr, |blob|, digest + Zeros(12)) + PagePadded(b.kernel, b.page) + PagePadded(blob, b.page)
      + b.trailing)
  }

  // ---------- taking apart what was put together ----------

  lemma WordOfParts(a: Bytes, n: nat, z: Bytes)
    requires n < Pow256(4)
    ensures Word(a + EncodeLittleEndian(n, 4) + z, |a|, 4) == Some(n)
  {
    var e := EncodeLittleEndian(n, 4);
    assert a + e + z == a + (e + z);
    Behind(a, e + z, 0, 4);
    assert (e + z)[0..4] == e;
    DecodeEncode(n, 4);
  }

  /** The patched header keeps every byte but those of the size and the ID. */
  lemma PatchedKeeps(hdr: Bytes, size: nat, id: Bytes)
    requires |hdr| >= ID_OFF + ID_LEN && |id| == ID_LEN && size < Pow256(4)
    ensures var r := Patched(hdr, size, id);
      && (forall k :: 0 <= k < |hdr| && Untouched(k) ==> r[k] == hdr[k])
      && Word(r, 16, 4) == Some(size)
  {
    var back := hdr[20..ID_OFF] + id + hdr[ID_OFF + ID_LEN..];
    assert Patched(hdr, size, id) == hdr[..16] + EncodeLittleEndian(size, 4) + back;
    WordOfParts(hdr[..16], size, back);
  }

  lemma SameWord(a: Bytes, b: Bytes, o: nat)
    requires o + 4 <= |a| && o + 4 <= |b| && forall k :: o <= k < o + 4 ==> a[k] == b[k]
    ensures Word(a, o, 4) == Word(b, o, 4)
  {
    assert a[o..o + 4] == b[o..o + 4];
  }

  /** What a whole image is: its header page, kernel and ramdisk are all there, and the page reaches past the ID. */
  predicate Whole(b: Boot) {
    b.page >= ID_OFF + ID_LEN && |b.hdr| == b.page && |b.kernel| == b.ksz
  }

  /** A ramdisk that cannot be taken for one with MediaTek's header where there is none. */
  predicate Plain(b: Boot, r: Bytes) {
    b.mtk || Slice(r, 0, 4) != MTK
  }

  /** MediaTek's header, the size in it and the payload behind it. */
  lemma MtkParts(r: Bytes)
    requires |r| < Pow256(4)
    ensures var blob := MtkHeader(|r|) + r;
      blob[..4] == MTK && blob[512..] == r && Word(blob, 4, 4) == Some(|r|)
  {
    hide Word, Pow256, EncodeLittleEndian;
    var size, back := EncodeLittleEndian(|r|, 4), ROOTFS + Zeros(496);
    WordOfParts(MTK, |r|, back + r);
    assert MtkHeader(|r|) + r == MTK + size + (back + r);
  }

  lemma PayloadBack(b: Boot, r: Bytes)
    requires Plain(b, r) && |BlobOf(b, r)| < Pow256(4)
    ensures var blob := BlobOf(b, r); (Slice(blob, 0, 4) == MTK <==> b.mtk) && Payload(blob, |blob|, b.mtk) == Some(r)
  {
    hide Word, Pow256, MtkHeader, Slice;
    if b.mtk {
      MtkParts(r);
      SliceInside(BlobOf(b, r), 0, 4);
    }
  }

  /** The image's parts, at their places. */
  lemma ImageParts(hdr: Bytes, kernel: Bytes, blob: Bytes, trailing: Bytes, page: nat)
    requires |hdr| == page > 0
    ensures var out := hdr + PagePadded(kernel, page) + PagePadded(blob, page) + trailing;
      var ro := page + PagesOf(|kernel|, page);
      && Slice(out, 0, page) == hdr && Slice(out, page, page + |kernel|) == kernel
      && Slice(out, ro, ro + |blob|) == blob
      && Slice(out, ro + PagesOf(|blob|, page), ro + PagesOf(|blob|, page) + |out|) == trailing
  {
    hide PagesOf;
    PagesHold(|kernel|, page);
    PagesHold(|blob|, page);
    var k, b := PagePadded(kernel, page), PagePadded(blob, page);
    var out := hdr + k + b + trailing;
    assert out == hdr + (k + (b + trailing));
    Behind(hdr, k + (b + trailing), 0, |kernel|);
    assert (k + (b + trailing))[0..|kernel|] == k[..|kernel|] == kernel;
    assert out == (hdr + k) + (b + trailing);
    Behind(hdr + k, b + trailing, 0, |blob|);
    assert (b + trailing)[0..|blob|] == b[..|blob|] == blob;
    assert out[|hdr + k| + |b|..] == trailing;
  }

  /** What was read of an image whose header page is all there. */
  lemma ParsedHead(raw: Bytes)
    requires Parse(raw).Some? && Whole(Parse(raw).value)
    ensures var b := Parse(raw).value;
      && 0 < b.page <= |raw| && b.hdr == raw[..b.page] && raw[..8] == ANDROID
      && Word(raw, 8, 4) == Some(b.ksz) && Word(raw, 24, 4) == Some(0) && Word(raw, 36, 4) == Some(b.page)
  {
    hide PagesOf, Payload, Word;
  }

  /** An image whose first page agrees with another's but for the size and the ID reads the same, but for the size. */
  lemma SameHead(raw: Bytes, out: Bytes, hdr: Bytes, page: nat, size: nat)
    requires ID_OFF + ID_LEN <= page <= |raw| && |hdr| == page <= |out| && out[..page] == hdr && raw[..8] == ANDROID &&
      Word(hdr, 16, 4) == Some(size)
    requires forall k :: 0 <= k < page && Untouched(k) ==> hdr[k] == raw[k]
    ensures Slice(out, 0, 8) == ANDROID && Word(out, 16, 4) == Some(size)
    ensures Word(out, 8, 4) == Word(raw, 8, 4) && Word(out, 24, 4) == Word(raw, 24, 4) &&
      Word(out, 36, 4) == Word(raw, 36, 4)
  {
    hide Word;
    assert forall k :: 0 <= k < page ==> out[k] == out[..page][k] == hdr[k];
    SameWord(out, raw, 8);
    SameWord(out, hdr, 16);
    SameWord(out, raw, 24);
    SameWord(out, raw, 36);
    assert out[0..8] == raw[..8];
  }

  /** b is the boot image raw parses as, with any bytes to trail it. */
  ghost predicate ParsedAs(raw: Bytes, b: Boot) {
    Parse(raw).Some? && b == Parse(raw).value.(trailing := b.trailing) && Whole(b)
  }

  /** The image assembled with another ramdisk parses as the same boot image with that ramdisk. */
  lemma AssembledParses(raw: Bytes, b: Boot, r: Bytes, id: (nat, nat, Bytes) -> Bytes)
    requires ParsedAs(raw, b) && Plain(b, r) && Assemble(b, r, id).Some?
    ensures var c := Parse(Assemble(b, r, id).value);
      && c.Some? && c.value == b.(ramdisk := r, rsz := |BlobOf(b, r)|, hdr := c.value.hdr)
      && |c.value.hdr| == b.page
      && forall k :: 0 <= k < b.page && Untouched(k) ==> c.value.hdr[k] == b.hdr[k]
  {
    hide PagesOf, PagePadded, Patched, Payload, BlobOf, Slice, Word, Pow256;
    ParsedHead(raw);
    hide Parse;
    var blob := BlobOf(b, r);
    var newId := id(b.ksz, |blob|, b.kernel + blob) + Zeros(12);
    var hdr, out := Patched(b.hdr, |blob|, newId), Assemble(b, r, id).value;
    PatchedKeeps(b.hdr, |blob|, newId);
    ImageParts(hdr, b.kernel, blob, b.trailing, b.page);
    PayloadBack(b, r);
    SlicePrefix(out, b.page, hdr);
    SameHead(raw, out, hdr, b.page, |blob|);
    ParseOf(out, b.ksz, b.page, blob, hdr, b.kernel, b.mtk, r, b.trailing);
  }

  lemma SlicePrefix(out: Bytes, n: nat, hdr: Bytes)
    requires Slice(out, 0, n) == hdr && |hdr| == n
    ensures n <= |out| && out[..n] == hdr
  {
  }

  /** An image with its parts at their places parses as them. */
  lemma ParseOf(out: Bytes, ksz: nat, page: nat, blob: Bytes, hdr: Bytes, kernel: Bytes, mtk: bool, r: Bytes,
      trailing: Bytes)
    requires page > 0 && Slice(out, 0, 8) == ANDROID && Word(out, 8, 4) == Some(ksz) && Word(out, 16, 4) == Some(|blob|)
    requires Word(out, 24, 4) == Some(0) && Word(out, 36, 4) == Some(page)
    requires var ro := page + PagesOf(ksz, page);
      && Slice(out, 0, page) == hdr && Slice(out, page, page + ksz) == kernel && Slice(out, ro, ro + |blob|) == blob
      && Slice(out, ro + PagesOf(|blob|, page), ro + PagesOf(|blob|, page) + |out|) == trailing
    requires (Slice(blob, 0, 4) == MTK <==> mtk) && Payload(blob, |blob|, mtk) == Some(r)
    ensures Parse(out) == Some(Boot(page, ksz, |blob|, hdr, kernel, mtk, r, trailing))
  {
    hide Slice, Word, PagesOf, Payload;
  }

  // ---------- the whole tool ----------

  /** Whole files and their gzip streams: unpacking undoes packing, and no stream starts like MediaTek's header. */
  datatype Gzip = Gzip(pack: string -> Bytes, unpack: Bytes -> Option<string>)

  ghost predicate ValidGzip(g: Gzip) {
    forall s {:trigger g.pack(s)} :: g.unpack(g.pack(s)) == Some(s) && Slice(g.pack(s), 0, 4) != MTK
  }

  /** main: the image with its ramdisk edited and the certificate page left out. */
  ghost function Rooted(raw: Bytes, g: Gzip, edit: Cpio.Edit, id: (nat, nat, Bytes) -> Bytes): Option<Bytes> {
    var b :- Parse(raw);
    var stock :- g.unpack(b.ramdisk);
    var cpio :- Cpio.EditCpio(stock, edit);
    if |b.hdr| >= ID_OFF + ID_LEN && b.page > 0 then Assemble(b.(trailing := []), g.pack(cpio), id) else None
  }

  /** A whole image whose ramdisk reads going forward, every edit of it fitting. */
  ghost predicate Editable(raw: Bytes, g: Gzip, edit: Cpio.Edit) {
    Parse(raw).Some? && Whole(Parse(raw).value) &&
    match g.unpack(Parse(raw).value.ramdisk)
    case None => false
    case Some(stock) =>
      Cpio.Forward(stock, 0) && Cpio.Read(stock, 0).Some? && CpioEdit.AllFit(Cpio.Read(stock, 0).value, edit)
  }

  /** compare, as main ends with it: on the stock image and the one it built. */
  ghost predicate Compared(raw: Bytes, built: Bytes, g: Gzip, edit: Cpio.Edit) {
    && Parse(raw).Some? && g.unpack(Parse(raw).value.ramdisk).Some?
    && Parse(built).Some? && g.unpack(Parse(built).value.ramdisk).Some?
    && CpioEdit.Compare(g.unpack(Parse(raw).value.ramdisk).value, g.unpack(Parse(built).value.ramdisk).value, edit)
  }

  /** Its last check holds exactly if the name of every file that changed is UTF-8. */
  lemma RootedCompares(raw: Bytes, g: Gzip, edit: Cpio.Edit, id: (nat, nat, Bytes) -> Bytes)
    requires ValidGzip(g) && Editable(raw, g, edit) && Rooted(raw, g, edit, id).Some?
    ensures Compared(raw, Rooted(raw, g, edit, id).value, g, edit) <==>
      forall e :: e in Cpio.Read(g.unpack(Parse(raw).value.ramdisk).value, 0).value && CpioEdit.Changed(e, edit) ==>
        CpioEdit.Decodes(e.name)
  {
    hide Parse, Assemble, Slice, Cpio.EditCpio, Cpio.Read, CpioEdit.AllFit, CpioEdit.Compare, Cpio.Forward;
    hide CpioEdit.Changed, CpioEdit.Decodes;
    var b := Parse(raw).value;
    var stock := g.unpack(b.ramdisk).value;
    var cpio := Cpio.EditCpio(stock, edit).value;
    AssembledParses(raw, b.(trailing := []), g.pack(cpio), id);
    CpioEdit.CompareHolds(stock, edit);
  }
}
