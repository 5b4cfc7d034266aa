/**
 The tar writer and reader of web/tar.js. Paths and contents are byte strings, one
 character a byte; a path stands for its UTF-8 encoding.
 */
module Tar {
  import opened Wrappers
  import opened ByteText
  import opened Chunks

  const BLOCK := 512

  // ---------- fields ----------

  /** What TextDecoder drops from the front of a text. */
  const MARK := "\U{EF}\U{BB}\U{BF}"

  function Decoded(s: string): (r: string)
    ensures (r == s <==> !StartsWith(s, MARK)) && (r == s || |r| < |s|)
  {
    if StartsWith(s, MARK) then s[3..] else s
  }

  function UpToNul(s: string): (r: string)
    ensures (r == s <==> '\0' !in s) && (r == s || |r| < |s|)
  {
    if s == "" || s[0] == '\0' then "" else [s[0]] + UpToNul(s[1..])
  }

  /** str. */
  function Str(b: string, off: nat, len: nat): (r: string)
    requires off + len <= |b|
    ensures |r| <= len
  {
    Decoded(UpToNul(b[off..off + len]))
  }

  /** num: a number in octal digits, None for NaN. */
  function Num(b: string, off: nat, len: nat): Option<nat>
    requires off + len <= |b|
  {
    var s := Trim(Str(b, off, len));
    if AllDigits(s, 8) then Some(Value(s, 8)) else None
  }

  function SumTo(b: string, n: nat): nat
    requires n <= |b|
  {
    if n == 0 then 0 else SumTo(b, n - 1) + if 148 <= n - 1 < 156 then 32 else b[n - 1] as int
  }

  /** sum: of a header's bytes, its own field as spaces. */
  function Sum(b: string): nat
    requires |b| == BLOCK
  {
    SumTo(b, BLOCK)
  }

  method SumBytes(b: array<char>) returns (n: nat)
    requires b.Length == BLOCK
    ensures n == Sum(b[..])
  {
    n := 0;
    var i := 0;
    while i < BLOCK
      invariant 0 <= i <= BLOCK && n == SumTo(b[..], i)
    {
      n := n + if 148 <= i < 156 then 32 else b[i] as int;
      i := i + 1;
    }
  }

  // ---------- paths ----------

  /** The first slash at or after i; |s| where there is none. */
  function NextSlash(s: string, i: nat): (k: nat)
    requires i <= |s|
    ensures i <= k <= |s| && (k < |s| ==> s[k] == '/') && forall j :: i <= j < k ==> s[j] != '/'
    decreases |s| - i
  {
    if i == |s| || s[i] == '/' then i else NextSlash(s, i + 1)
  }

  predicate SplitsAt(path: string, i: nat) {
    i < |path| && path[i] == '/' && i + 1 < |path| && i <= 155 && |path| - i - 1 <= 100
  }

  /** Prefix and name: the path itself where it fits the name, else divided at the first slash that will do. */
  function SplitFrom(path: string, i: nat): Option<(string, string)>
    requires i < |path| ==> path[i] == '/'
    requires i <= |path|
    decreases |path| - i
  {
    if i == 0 || i == |path| then None
    else if SplitsAt(path, i) then Some((path[..i], path[i + 1..]))
    else SplitFrom(path, NextSlash(path, i + 1))
  }

  function Split(path: string): Option<(string, string)> {
    if |path| <= 100 then Some(("", path)) else SplitFrom(path, NextSlash(path, 0))
  }

  /** split. */
  method SplitPath(path: string) returns (r: Option<(string, string)>)
    ensures r == Split(path)
  {
    if |path| <= 100 {
      return Some(("", path));
    }
    var i := NextSlash(path, 0);
    while 0 < i < |path|
      invariant i <= |path| && (i < |path| ==> path[i] == '/')
      invariant Split(path) == SplitFrom(path, i)
      decreases |path| - i
    {
      var p, n := path[..i], path[i + 1..];
      if n != "" && |p| <= 155 && |n| <= 100 {
        return Some((p, n));
      }
      i := NextSlash(path, i + 1);
    }
    r := None;
  }

  function Joined(prefix: string, name: string): string {
    (if prefix != "" then prefix + "/" else "") + name
  }

  /** What split gives fits the fields and joins to the path; it gives up only where no slash will do. */
  lemma {:induction false} SplitFromIs(path: string, i: nat)
    requires |path| > 100 && i <= |path| && (i < |path| ==> path[i] == '/')
    ensures var r := SplitFrom(path, i);
      && (r.Some? ==> 0 < |r.value.0| <= 155 && 0 < |r.value.1| <= 100 && Joined(r.value.0, r.value.1) == path)
      && (i > 0 ==> (r.None? <==> forall j :: i <= j < |path| ==> !SplitsAt(path, j)))
    decreases |path| - i
  {
    if 0 < i < |path| {
      if SplitsAt(path, i) {
        assert path == (path[..i] + "/") + path[i + 1..];
      } else {
        SplitFromIs(path, NextSlash(path, i + 1));
      }
    }
  }

  lemma SplitIs(path: string)
    ensures var r := Split(path);
      && (r.Some? ==> |r.value.0| <= 155 && |r.value.1| <= 100 && Joined(r.value.0, r.value.1) == path)
      && (r.Some? <==> |path| <= 100 || (path[0] != '/' && exists j :: SplitsAt(path, j)))
  {
    if |path| <= 100 {
      assert "" + path == path;
    } else {
      SplitFromIs(path, NextSlash(path, 0));
    }
  }

  /** clean: slashes and "./" off the front. */
  function Clean(p: string): (r: string)
    ensures |r| <= |p| && (r == p <==> !StartsWith(p, "/") && !StartsWith(p, "./"))
  {
    if StartsWith(p, "/") then Clean(p[1..]) else if StartsWith(p, "./") then Clean(p[2..]) else p
  }

  // ---------- the header ----------

  /** put's arguments: a text and the field it goes into. */
  datatype Field = Field(off: nat, len: nat, s: string)

  /** put: None where the text does not fit. */
  function Put(b: string, f: Field): (r: Option<string>)
    requires f.off + f.len <= |b|
    ensures r.Some? <==> |f.s| <= f.len
    ensures r.Some? ==> |r.value| == |b| && forall k :: 0 <= k < |b| ==>
      r.value[k] == if f.off <= k < f.off + |f.s| then f.s[k - f.off] else b[k]
  {
    if |f.s| > f.len then None else Some(b[..f.off] + f.s + b[f.off + |f.s|..])
  }

  predicate Inside(fs: seq<Field>) {
    forall k :: 0 <= k < |fs| ==> fs[k].off + fs[k].len <= BLOCK
  }

  /** An empty block with the fields put into it one after the other. */
  function PutAll(fs: seq<Field>): (r: Option<string>)
    requires Inside(fs)
    ensures r.Some? ==> |r.value| == BLOCK
  {
    if fs == [] then Some(Nuls(BLOCK))
    else
      var b :- PutAll(fs[..|fs| - 1]);
      Put(b, fs[|fs| - 1])
  }

  /** All of a header but the checksum. */
  function FieldsOf(prefix: string, name: string, size: nat, mtime: nat): (fs: seq<Field>)
    ensures |fs| == 10 && Inside(fs)
  {
    [Field(0, 100, name), Field(100, 8, "0000644"), Field(108, 8, "0000000"), Field(116, 8, "0000000"),
     Field(124, 12, Text(size, 8, 11)), Field(136, 12, Text(mtime, 8, 11)), Field(156, 1, "0"),
     Field(257, 6, "ustar"), Field(263, 2, "00"), Field(345, 155, prefix)]
  }

  function Checked(b: string): (h: Option<string>)
    requires |b| == BLOCK
    ensures h.Some? ==> |h.value| == BLOCK
  {
    Put(b, Field(148, 8, Text(Sum(b), 8, 6) + "\0 "))
  }

  /** The 512 bytes of a header. */
  function HeaderOf(path: string, size: nat, mtime: nat): (h: Option<string>)
    ensures h.Some? ==> |h.value| == BLOCK
  {
    var parts :- Split(path);
    var b :- PutAll(FieldsOf(parts.0, parts.1, size, mtime));
    Checked(b)
  }

  method PutField(b: array<char>, f: Field) returns (ok: bool)
    requires f.off + f.len <= b.Length
    modifies b
    ensures ok == Put(old(b[..]), f).Some?
    ensures b[..] == if ok then Put(old(b[..]), f).value else old(b[..])
  {
    if |f.s| > f.len {
      return false;
    }
    hide Put;
    ghost var was := b[..];
    var k := 0;
    assert f.s[..0] == [];
    assert was[..f.off] + f.s[..0] + was[f.off..] == was;
    while k < |f.s|
      invariant 0 <= k <= |f.s| <= f.len
      invariant b[..] == was[..f.off] + f.s[..k] + was[f.off + k..]
    {
      b[f.off + k] := f.s[k];
      k := k + 1;
    }
    assert f.s[..k] == f.s;
    PutIs(was, f);
    ok := true;
  }

  lemma PutIs(b: string, f: Field)
    requires f.off + f.len <= |b| && |f.s| <= f.len
    ensures Put(b, f) == Some(b[..f.off] + f.s + b[f.off + |f.s|..])
  {
  }

  /** header. */
  method Header(path: string, size: nat, mtime: nat) returns (h: array<char>, ok: bool)
    ensures fresh(h) && ok == HeaderOf(path, size, mtime).Some?
    ensures ok ==> h[..] == HeaderOf(path, size, mtime).value
  {
    hide Split, SumTo, Text, FieldsOf, Put;
    h := new char[BLOCK](_ => '\0');
    ok := false;
    var parts := SplitPath(path);
    if parts.None? {
      return;
    }
    var fs := FieldsOf(parts.value.0, parts.value.1, size, mtime);
    assert h[..] == Nuls(BLOCK) && fs[..0] == [];
    var i := 0;
    while i < |fs|
      invariant 0 <= i <= |fs| && PutAll(fs[..i]) == Some(h[..])
    {
      assert fs[..i + 1][..i] == fs[..i];
      var fits := PutField(h, fs[i]);
      if !fits {
        NoneStays(fs, i + 1);
        return;
      }
      i := i + 1;
    }
    assert fs[..|fs|] == fs;
    var sum := SumBytes(h);
    ok := PutField(h, Field(148, 8, Text(sum, 8, 6) + "\0 "));
  }

  lemma {:induction false} NoneStays(fs: seq<Field>, n: nat)
    requires Inside(fs) && n <= |fs| && PutAll(fs[..n]).None?
    ensures PutAll(fs).None?
  {
    if n < |fs| {
      assert fs[..|fs| - 1][..n] == fs[..n];
      NoneStays(fs[..|fs| - 1], n);
    } else {
      assert fs[..n] == fs;
    }
  }

  // ---------- what a header reads as ----------

  /** The field holds the text, and zeros behind it. */
  predicate Placed(b: string, f: Field)
    requires |b| == BLOCK && f.off + f.len <= BLOCK
  {
    forall k :: 0 <= k < f.len ==> b[f.off + k] == if k < |f.s| then f.s[k] else '\0'
  }

  predicate Ascending(fs: seq<Field>) {
    forall k :: 0 < k < |fs| ==> fs[k - 1].off + fs[k - 1].len <= fs[k].off
  }

  lemma PlacedStays(b: string, g: Field, f: Field)
    requires |b| == BLOCK && f.off + f.len <= BLOCK && g.off + g.len <= BLOCK && Put(b, g).Some?
    requires f.off + f.len <= g.off || g.off + g.len <= f.off
    ensures Placed(Put(b, g).value, f) <==> Placed(b, f)
  {
  }

  lemma {:induction false} AscendingTo(fs: seq<Field>, k: nat, n: nat)
    requires Ascending(fs) && k < n < |fs|
    ensures fs[k].off + fs[k].len <= fs[n].off
  {
    if k < n - 1 {
      AscendingTo(fs, k, n - 1);
    }
  }

  function End(fs: seq<Field>): nat {
    if fs == [] then 0 else fs[|fs| - 1].off + fs[|fs| - 1].len
  }

  /** Every field of the block holds its text, and zeros are left behind the last one. */
  lemma {:induction false} AllPlaced(fs: seq<Field>)
    requires Inside(fs) && Ascending(fs) && PutAll(fs).Some?
    ensures forall k :: 0 <= k < |fs| ==> Placed(PutAll(fs).value, fs[k]) && |fs[k].s| <= fs[k].len
    ensures forall p :: End(fs) <= p < BLOCK ==> PutAll(fs).value[p] == '\0'
  {
    if fs != [] {
      hide Placed;
      var n := |fs| - 1;
      var front, g := fs[..n], fs[n];
      AllPlaced(front);
      assert front != [] ==> front[n - 1] == fs[n - 1];
      forall k | 0 <= k < n ensures Placed(PutAll(fs).value, fs[k]) && |fs[k].s| <= fs[k].len {
        assert fs[k] == front[k];
        AscendingTo(fs, k, n);
        PlacedStays(PutAll(front).value, g, fs[k]);
      }
    }
  }

  lemma {:induction false} SumSame(b: string, c: string, n: nat)
    requires |b| == |c| == BLOCK && n <= BLOCK && forall k :: 0 <= k < BLOCK && !(148 <= k < 156) ==> b[k] == c[k]
    ensures SumTo(b, n) == SumTo(c, n)
  {
    if n > 0 {
      SumSame(b, c, n - 1);
    }
  }

  lemma {:induction false} SumBound(b: string, n: nat)
    requires n <= |b| && Octets(b)
    ensures SumTo(b, n) <= 255 * n
  {
    if n > 0 {
      SumBound(b, n - 1);
    }
  }

  lemma FieldBytes(b: string, f: Field)
    requires |b| == BLOCK && f.off + f.len <= BLOCK && Placed(b, f) && |f.s| <= f.len
    ensures b[f.off..f.off + f.len] == f.s + Nuls(f.len - |f.s|)
  {
    var w, v := b[f.off..f.off + f.len], f.s + Nuls(f.len - |f.s|);
    assert |w| == |v| == f.len;
    forall k | 0 <= k < f.len ensures w[k] == v[k] {
      assert w[k] == b[f.off + k] == if k < |f.s| then f.s[k] else '\0';
      if k >= |f.s| {
        assert v[k] == Nuls(f.len - |f.s|)[k - |f.s|];
      }
    }
  }

  /** A placed text reads back from its field, up to a NUL in it and but for a mark at its front. */
  lemma PlacedReads(b: string, f: Field)
    requires |b| == BLOCK && f.off + f.len <= BLOCK && Placed(b, f) && |f.s| <= f.len
    ensures Str(b, f.off, f.len) == Decoded(UpToNul(f.s))
  {
    hide UpToNul, Placed;
    FieldBytes(b, f);
    Cut(f.s, Nuls(f.len - |f.s|));
  }

  /** A text is cut at its first NUL. */
  lemma {:induction false} Cut(s: string, z: string)
    requires z != "" ==> z[0] == '\0'
    ensures UpToNul(s + z) == UpToNul(s)
  {
    if s == "" {
      assert s + z == z;
    } else {
      assert (s + z)[1..] == s[1..] + z;
      Cut(s[1..], z);
    }
  }

  /** Digits in a field read back as their number. */
  lemma NumberReads(b: string, f: Field, n: nat, w: nat, end: string)
    requires |b| == BLOCK && f.off + f.len <= BLOCK && Placed(b, f) && |f.s| <= f.len && w > 0
    requires f.s == Text(n, 8, w) + end && (end != "" ==> end[0] == '\0')
    ensures Num(b, f.off, f.len) == Some(n)
  {
    hide Text, Value, Placed, UpToNul;
    var d := Text(n, 8, w);
    var z := end + Nuls(f.len - |f.s|);
    FieldBytes(b, f);
    assert f.s + Nuls(f.len - |f.s|) == d + z;
    Cut(d, z);
    Plain(d);
    TextReadsBack(n, 8, w);
  }

  lemma Plain(d: string)
    requires d != "" && forall k :: 0 <= k < |d| ==> '0' <= d[k] <= 'f'
    ensures UpToNul(d) == d && Decoded(d) == d && Trim(d) == d
  {
    NoMark(d);
  }

  lemma NoMark(s: string)
    requires s != "" && s[0] != MARK[0]
    ensures !StartsWith(s, MARK)
  {
    if |s| >= 3 {
      assert s[..3][0] == s[0];
    }
  }

  /**
   What the reader finds in a header: the writer's size, its own checksum, a regular file, ustar,
   and the path's parts.
   */
  predicate ReadsAs(h: string, prefix: string, name: string, size: nat)
    requires |h| == BLOCK
  {
    && h[156] == '0' && Num(h, 124, 12) == Some(size) && Num(h, 148, 8) == Some(Sum(h))
    && Str(h, 257, 6) == "ustar" && Str(h, 345, 155) == Decoded(UpToNul(prefix))
    && Str(h, 0, 100) == Decoded(UpToNul(name))
  }

  lemma FieldsAscend(prefix: string, name: string, size: nat, mtime: nat)
    ensures Ascending(FieldsOf(prefix, name, size, mtime))
  {
  }

  /** The bytes of a block are octets if its texts are. */
  lemma {:induction false} BlockOctets(fs: seq<Field>)
    requires Inside(fs) && PutAll(fs).Some? && forall k :: 0 <= k < |fs| ==> Octets(fs[k].s)
    ensures Octets(PutAll(fs).value)
  {
    if fs != [] {
      BlockOctets(fs[..|fs| - 1]);
      assert Octets(fs[|fs| - 1].s);
    }
  }

  /** The checksum fits its field, changes no sum, and reads back as the sum. */
  lemma ChecksumReads(b: string)
    requires |b| == BLOCK && Octets(b)
    ensures Checked(b).Some? && Num(Checked(b).value, 148, 8) == Some(Sum(Checked(b).value))
  {
    SumBound(b, BLOCK);
    TextLength(Sum(b), 8, 6);
    assert Power(8, 6) == 262144;
    var check := Field(148, 8, Text(Sum(b), 8, 6) + "\0 ");
    var h := Checked(b).value;
    SumSame(b, h, BLOCK);
    assert Placed(h, check);
    NumberReads(h, check, Sum(b), 6, "\0 ");
  }

  /** A field away from the checksum's is as it was before it. */
  lemma CheckedKeeps(b: string, f: Field)
    requires |b| == BLOCK && Checked(b).Some? && f.off + f.len <= BLOCK && Placed(b, f)
    requires f.off + f.len <= 148 || 156 <= f.off
    ensures Placed(Checked(b).value, f)
  {
    hide Sum, Text;
    PlacedStays(b, Field(148, 8, Text(Sum(b), 8, 6) + "\0 "), f);
  }

  lemma TextsOctets(prefix: string, name: string, size: nat, mtime: nat)
    requires Octets(prefix) && Octets(name)
    ensures forall k :: 0 <= k < 10 ==> Octets(FieldsOf(prefix, name, size, mtime)[k].s)
  {
    hide Text;
  }

  lemma HeaderReads(prefix: string, name: string, size: nat, mtime: nat)
    requires Octets(prefix) && Octets(name) && PutAll(FieldsOf(prefix, name, size, mtime)).Some?
    ensures var h := Checked(PutAll(FieldsOf(prefix, name, size, mtime)).value);
      h.Some? && ReadsAs(h.value, prefix, name, size)
  {
    hide PutAll, Checked, Sum, Text, Str, Num, UpToNul, Decoded;
    var fs := FieldsOf(prefix, name, size, mtime);
    var b := PutAll(fs).value;
    FieldsAscend(prefix, name, size, mtime);
    AllPlaced(fs);
    TextsOctets(prefix, name, size, mtime);
    BlockOctets(fs);
    ChecksumReads(b);
    var h := Checked(b).value;
    assert fs[0] == Field(0, 100, name) && fs[4] == Field(124, 12, Text(size, 8, 11));
    assert fs[6] == Field(156, 1, "0") && fs[7] == Field(257, 6, "ustar") && fs[9] == Field(345, 155, prefix);
    assert forall k :: 0 <= k < 10 ==> |fs[k].s| <= fs[k].len && Placed(b, fs[k]);
    CheckedKeeps(b, fs[0]);
    PlacedReads(h, fs[0]);
    CheckedKeeps(b, fs[4]);
    SizeReads(h, size);
    CheckedKeeps(b, fs[6]);
    assert h[fs[6].off + 0] == fs[6].s[0];
    CheckedKeeps(b, fs[7]);
    PlacedReads(h, fs[7]);
    UstarReads();
    CheckedKeeps(b, fs[9]);
    PlacedReads(h, fs[9]);
  }

  lemma SizeReads(h: string, size: nat)
    requires |h| == BLOCK && Placed(h, Field(124, 12, Text(size, 8, 11))) && |Text(size, 8, 11)| <= 12
    ensures Num(h, 124, 12) == Some(size)
  {
    hide Text, Num;
    assert Text(size, 8, 11) + "" == Text(size, 8, 11);
    NumberReads(h, Field(124, 12, Text(size, 8, 11)), size, 11, "");
  }

  lemma UstarReads()
    ensures Decoded(UpToNul("ustar")) == "ustar"
  {
    NoMark("ustar");
  }

  // ---------- the writer ----------

  /** A file to write: its path and the pieces of its content. */
  datatype File = File(path: string, parts: seq<string>)

  /** The size of a content, added up piece by piece. */
  function SizeOf(parts: seq<string>): nat {
    if parts == [] then 0 else SizeOf(parts[..|parts| - 1]) + |parts[|parts| - 1]|
  }

  lemma {:induction false} SizeIs(parts: seq<string>)
    ensures SizeOf(parts) == |Concat(parts)|
  {
    if parts != [] {
      var n := |parts| - 1;
      SizeIs(parts[..n]);
      assert parts == parts[..n] + [parts[n]];
      ConcatAppend(parts[..n], [parts[n]]);
      assert Concat([parts[n]]) == parts[n] + Concat([]);
    }
  }

  /** The zeros that fill a content's last block. */
  function Gap(size: nat): (n: nat)
    ensures n < BLOCK && (size + n) % BLOCK == 0
  {
    (BLOCK - size % BLOCK) % BLOCK
  }

  function Entry(f: File, mtime: nat): Option<string> {
    var h :- HeaderOf(f.path, SizeOf(f.parts), mtime);
    Some(h + Concat(f.parts) + Nuls(Gap(SizeOf(f.parts))))
  }

  /** The bytes of the tar: the entries, and two empty blocks. */
  function Written(files: seq<File>, mtime: nat): Option<string> {
    if files == [] then Some(Nuls(2 * BLOCK))
    else
      var e :- Entry(files[0], mtime);
      var rest :- Written(files[1..], mtime);
      Some(e + rest)
  }

  function Behind(front: string, rest: Option<string>): Option<string> {
    if rest.None? then None else Some(front + rest.value)
  }

  lemma EntryBehind(front: string, files: seq<File>, mtime: nat, e: string)
    requires files != [] && Entry(files[0], mtime) == Some(e)
    ensures Behind(front, Written(files, mtime)) == Behind(front + e, Written(files[1..], mtime))
  {
    hide Entry;
    var rest := Written(files[1..], mtime);
    if rest.Some? {
      assert front + (e + rest.value) == (front + e) + rest.value;
    }
  }

  /** write: the pieces of the tar. */
  method Write(files: seq<File>, mtime: nat) returns (out: seq<string>, ok: bool)
    ensures ok == Written(files, mtime).Some?
    ensures ok ==> Concat(out) == Written(files, mtime).value
  {
    hide Entry, HeaderOf, Gap, SizeOf;
    out, ok := [], false;
    ghost var all := Written(files, mtime);
    assert all.Some? ==> "" + all.value == all.value;
    var i := 0;
    assert files[0..] == files;
    while i < |files|
      invariant 0 <= i <= |files| && all == Behind(Concat(out), Written(files[i..], mtime))
    {
      var f := files[i];
      assert files[i..][0] == f && files[i..][1..] == files[i + 1..];
      var h, fits := Header(f.path, SizeOf(f.parts), mtime);
      EntryIs(f, mtime);
      if !fits {
        return;
      }
      var pieces := [h[..]] + f.parts + [Nuls(Gap(SizeOf(f.parts)))];
      EntryPieces(h[..], f.parts, Nuls(Gap(SizeOf(f.parts))));
      ConcatAppend(out, pieces);
      EntryBehind(Concat(out), files[i..], mtime, Concat(pieces));
      out := out + pieces;
      i := i + 1;
    }
    ConcatAppend(out, [Nuls(2 * BLOCK)]);
    assert Concat([Nuls(2 * BLOCK)]) == Nuls(2 * BLOCK) + Concat([]);
    out := out + [Nuls(2 * BLOCK)];
    ok := true;
  }

  lemma EntryIs(f: File, mtime: nat)
    ensures var h := HeaderOf(f.path, SizeOf(f.parts), mtime);
      Entry(f, mtime) == if h.None? then None else Some(h.value + Concat(f.parts) + Nuls(Gap(SizeOf(f.parts))))
  {
  }

  lemma EntryPieces(h: string, parts: seq<string>, gap: string)
    ensures Concat([h] + parts + [gap]) == h + Concat(parts) + gap
  {
    ConcatAppend([h] + parts, [gap]);
    ConcatAppend([h], parts);
    assert Concat([h]) == h + Concat([]) && Concat([gap]) == gap + Concat([]);
  }

  // ---------- the reader ----------

  const META_MAX := 65536

  datatype Item = Item(path: string, size: nat, off: nat)

  /** The regular expression for a path among pax records, on the decoded text. */
  type Pax = string -> Option<string>

  function NextHeader(data: nat, size: nat): (n: nat)
    ensures n >= data + size
  {
    data + (size + Gap(size))
  }

  function TypeOf(h: string): char
    requires |h| == BLOCK
  {
    if h[156] == '\0' then '0' else h[156]
  }

  function NameOf(h: string, long: string): string
    requires |h| == BLOCK
  {
    if long != "" then long
    else Joined(if Str(h, 257, 6) == "ustar" then Str(h, 345, 155) else "", Str(h, 0, 100))
  }

  /** The size of the entry at off; None where the header is damaged or the file cut short. */
  function SizeAt(tar: string, off: nat): (r: Option<nat>)
    requires off + BLOCK <= |tar|
    ensures r.Some? ==> off + BLOCK + r.value <= |tar|
  {
    var h := tar[off..off + BLOCK];
    var size :- Num(h, 124, 12);
    if Num(h, 148, 8) != Some(Sum(h)) || off + BLOCK + size > |tar| ||
      (TypeOf(h) in {'L', 'x'} && size > META_MAX) then None
    else Some(size)
  }

  /** long after an entry. */
  function LongAfter(tar: string, off: nat, size: nat, long: string, pax: Pax): string
    requires off + BLOCK + size <= |tar|
  {
    var kind, content := TypeOf(tar[off..off + BLOCK]), tar[off + BLOCK..off + BLOCK + size];
    if kind == 'L' then Decoded(UpToNul(content))
    else if kind == 'x' then (match pax(Decoded(content)) case None => long case Some(p) => p)
    else if kind == 'g' then long
    else ""
  }

  function ItemsOf(tar: string, off: nat, size: nat, long: string): seq<Item>
    requires off + BLOCK <= |tar|
  {
    var h := tar[off..off + BLOCK];
    if TypeOf(h) == '0' || TypeOf(h) == '7' then [Item(Clean(NameOf(h, long)), size, off + BLOCK)] else []
  }

  /** list, from an offset on; the long name's empty text is no long name. */
  function ListFrom(tar: string, off: nat, long: string, pax: Pax): Option<seq<Item>>
    decreases |tar| - off
  {
    if off + BLOCK > |tar| || tar[off..off + BLOCK] == Nuls(BLOCK) then Some([])
    else
      match SizeAt(tar, off)
      case None => None
      case Some(size) =>
        match ListFrom(tar, NextHeader(off + BLOCK, size), LongAfter(tar, off, size, long, pax), pax)
        case None => None
        case Some(rest) => Some(ItemsOf(tar, off, size, long) + rest)
  }

  function Onto(front: seq<Item>, rest: Option<seq<Item>>): Option<seq<Item>> {
    if rest.None? then None else Some(front + rest.value)
  }

  lemma OntoNext(out: seq<Item>, tar: string, off: nat, long: string, pax: Pax)
    requires off + BLOCK <= |tar| && tar[off..off + BLOCK] != Nuls(BLOCK) && SizeAt(tar, off).Some?
    ensures var size := SizeAt(tar, off).value;
      Onto(out, ListFrom(tar, off, long, pax)) ==
      Onto(out + ItemsOf(tar, off, size, long),
        ListFrom(tar, NextHeader(off + BLOCK, size), LongAfter(tar, off, size, long, pax), pax))
  {
    hide SizeAt, LongAfter, ItemsOf, NextHeader;
    var size := SizeAt(tar, off).value;
    var rest := ListFrom(tar, NextHeader(off + BLOCK, size), LongAfter(tar, off, size, long, pax), pax);
    if rest.Some? {
      assert out + (ItemsOf(tar, off, size, long) + rest.value) == (out + ItemsOf(tar, off, size, long)) + rest.value;
    }
  }

  lemma OntoStops(out: seq<Item>, tar: string, off: nat, long: string, pax: Pax)
    ensures off + BLOCK > |tar| || tar[off..off + BLOCK] == Nuls(BLOCK) ==>
      Onto(out, ListFrom(tar, off, long, pax)) == Some(out)
    ensures off + BLOCK <= |tar| && tar[off..off + BLOCK] != Nuls(BLOCK) && SizeAt(tar, off).None? ==>
      Onto(out, ListFrom(tar, off, long, pax)).None?
  {
    hide SizeAt, LongAfter, ItemsOf, NextHeader;
    assert out + [] == out;
  }

  /** list: on any bytes the loop ends, its offset growing by a block at least. */
  method List(tar: string, pax: Pax) returns (r: Option<seq<Item>>)
    ensures r == ListFrom(tar, 0, "", pax)
  {
    hide Num, Sum, Str, NextHeader, ListFrom, Clean, Joined, Decoded, UpToNul;
    var out: seq<Item>, off, long := [], 0, "";
    ghost var all := ListFrom(tar, 0, "", pax);
    assert all.Some? ==> [] + all.value == all.value;
    while off + BLOCK <= |tar|
      invariant all == Onto(out, ListFrom(tar, off, long, pax))
      decreases |tar| - off
    {
      OntoStops(out, tar, off, long, pax);
      var h := tar[off..off + BLOCK];
      if h == Nuls(BLOCK) {
        return Some(out);
      }
      var n, kind, data := Num(h, 124, 12), if h[156] != '\0' then h[156] else '0', off + BLOCK;
      if n.None? || Num(h, 148, 8) != Some(Sum(h)) {
        return None;
      }
      var size := n.value;
      if data + size > |tar| {
        return None;
      }
      if (kind == 'L' || kind == 'x') && size > META_MAX {
        return None;
      }
      OntoNext(out, tar, off, long, pax);
      assert out + [] == out;
      var prefix := if Str(h, 257, 6) == "ustar" then Str(h, 345, 155) else "";
      if kind == 'L' {
        long := Decoded(UpToNul(tar[data..data + size]));
      } else if kind == 'x' {
        var m := pax(Decoded(tar[data..data + size]));
        if m.Some? {
          long := m.value;
        }
      } else if kind != 'g' {
        if kind == '0' || kind == '7' {
          out := out + [Item(Clean(if long != "" then long else Joined(prefix, Str(h, 0, 100))), size, data)];
        }
        long := "";
      }
      off := NextHeader(data, size);
    }
    OntoStops(out, tar, off, long, pax);
    r := Some(out);
  }

  // ---------- the round trip ----------

  /** The path a reader shows for a written one. */
  function Shown(path: string): string
    requires Split(path).Some?
  {
    var parts := Split(path).value;
    Clean(Joined(Decoded(UpToNul(parts.0)), Decoded(UpToNul(parts.1))))
  }

  /**
   A path the reader shows as it was written: no NUL, no slash or "./" first, and no byte order mark
   before its prefix or name.
   */
  predicate PlainPath(path: string)
    requires Split(path).Some?
  {
    && '\0' !in path && !StartsWith(path, "/") && !StartsWith(path, "./")
    && !StartsWith(Split(path).value.0, MARK) && !StartsWith(Split(path).value.1, MARK)
  }

  lemma ReadText(s: string)
    ensures Decoded(UpToNul(s)) == s || |Decoded(UpToNul(s))| < |s|
    ensures Decoded(UpToNul(s)) == s <==> '\0' !in s && !StartsWith(s, MARK)
  {
  }

  /** The reader shows the path that was written exactly if it is plain. */
  lemma ShownIs(path: string)
    requires Split(path).Some?
    ensures Shown(path) == path <==> PlainPath(path)
  {
    hide Split, Clean, UpToNul, Decoded;
    var (p, n) := Split(path).value;
    SplitIs(path);
    ReadText(p);
    ReadText(n);
    var q, m := Decoded(UpToNul(p)), Decoded(UpToNul(n));
    if q != p || m != n {
      assert |Joined(q, m)| < |path|;
    }
    assert '\0' in path <==> '\0' in p || '\0' in n;
  }

  lemma SplitOctets(path: string)
    requires Octets(path) && Split(path).Some?
    ensures Octets(Split(path).value.0) && Octets(Split(path).value.1)
  {
    hide Split;
    var (p, n) := Split(path).value;
    SplitIs(path);
    assert forall k :: 0 <= k < |n| ==> n[k] == Joined(p, n)[|path| - |n| + k];
    assert forall k :: 0 <= k < |p| ==> p[k] == Joined(p, n)[k];
  }

  /** What a written header reads as. */
  lemma WrittenHeader(path: string, size: nat, mtime: nat)
    requires Octets(path) && HeaderOf(path, size, mtime).Some?
    ensures Split(path).Some?
    ensures ReadsAs(HeaderOf(path, size, mtime).value, Split(path).value.0, Split(path).value.1, size)
  {
    hide Split, PutAll, FieldsOf, Checked, ReadsAs;
    var (p, n) := Split(path).value;
    SplitOctets(path);
    HeaderReads(p, n, size, mtime);
  }

  /** The bytes of an entry, piece by piece. */
  lemma EntryBytes(tar: string, off: nat, h: string, content: string, rest: string)
    requires off <= |tar| && |h| == BLOCK && tar[off..] == h + content + Nuls(Gap(|content|)) + rest
    ensures var next := NextHeader(off + BLOCK, |content|);
      && next <= |tar| && tar[off..off + BLOCK] == h && tar[off + BLOCK..off + BLOCK + |content|] == content
      && tar[next..] == rest
  {
    hide Gap;
    var gap := Nuls(Gap(|content|));
    var s := tar[off..];
    assert s[..BLOCK] == h && s[BLOCK..BLOCK + |content|] == content && s[BLOCK + |content| + |gap|..] == rest;
    assert tar[off..off + BLOCK] == s[..BLOCK];
    assert tar[off + BLOCK..off + BLOCK + |content|] == s[BLOCK..BLOCK + |content|];
    assert tar[NextHeader(off + BLOCK, |content|)..] == s[BLOCK + |content| + |gap|..];
  }

  /** The reader at a header as the writer makes it: a regular file of its own name. */
  lemma HeaderListed(tar: string, off: nat, path: string, size: nat, pax: Pax)
    requires off + BLOCK + size <= |tar| && Split(path).Some?
    requires ReadsAs(tar[off..off + BLOCK], Split(path).value.0, Split(path).value.1, size)
    ensures tar[off..off + BLOCK] != Nuls(BLOCK) && SizeAt(tar, off) == Some(size)
    ensures ItemsOf(tar, off, size, "") == [Item(Shown(path), size, off + BLOCK)] &&
      LongAfter(tar, off, size, "", pax) == ""
  {
    hide Num, Sum, Str, Split, Joined, Clean, Decoded, UpToNul;
    assert tar[off..off + BLOCK][156] != Nuls(BLOCK)[156];
  }

  /** The reader at a written entry: past it with the file's item. */
  lemma EntryReads(tar: string, off: nat, f: File, mtime: nat, rest: string, pax: Pax)
    requires off <= |tar| && Octets(f.path) && Entry(f, mtime).Some? && tar[off..] == Entry(f, mtime).value + rest
    ensures Split(f.path).Some?
    ensures var size := SizeOf(f.parts); var next := NextHeader(off + BLOCK, size);
      && next <= |tar| && tar[next..] == rest && tar[off + BLOCK..off + BLOCK + size] == Concat(f.parts)
      && ListFrom(tar, off, "", pax) == Onto([Item(Shown(f.path), size, off + BLOCK)], ListFrom(tar, next, "", pax))
  {
    hide HeaderOf, Split, ReadsAs, SizeAt, ItemsOf, LongAfter, Shown, NextHeader, SizeOf, Concat;
    var size := SizeOf(f.parts);
    SizeIs(f.parts);
    EntryIs(f, mtime);
    EntryBytes(tar, off, HeaderOf(f.path, size, mtime).value, Concat(f.parts), rest);
    WrittenHeader(f.path, size, mtime);
    HeaderListed(tar, off, f.path, size, pax);
  }

  /** Every file written is listed in order, its content where the item says. */
  ghost predicate ListedAs(tar: string, files: seq<File>, items: seq<Item>) {
    |items| == |files| && forall k :: 0 <= k < |files| ==> ListedOne(tar, files[k], items[k])
  }

  predicate ListedOne(tar: string, f: File, i: Item) {
    Split(f.path).Some? && i.path == Shown(f.path) && i.size == SizeOf(f.parts)
    && i.off + i.size <= |tar| && tar[i.off..i.off + i.size] == Concat(f.parts)
  }

  lemma {:induction false} ListsWritten(tar: string, off: nat, files: seq<File>, mtime: nat, pax: Pax)
    requires off <= |tar| && Written(files, mtime) == Some(tar[off..]) && forall f :: f in files ==> Octets(f.path)
    ensures ListFrom(tar, off, "", pax).Some? && ListedAs(tar, files, ListFrom(tar, off, "", pax).value)
    decreases |files|
  {
    hide Entry, ListFrom, ListedOne, NextHeader, Split, Shown, SizeOf, Concat;
    if files == [] {
      assert tar[off..off + BLOCK] == tar[off..][..BLOCK] == Nuls(BLOCK);
      EmptyEnds(tar, off, pax);
    } else {
      var f, rest := files[0], Written(files[1..], mtime).value;
      EntryReads(tar, off, f, mtime, rest, pax);
      var size := SizeOf(f.parts);
      var item, next := Item(Shown(f.path), size, off + BLOCK), NextHeader(off + BLOCK, size);
      ListsWritten(tar, next, files[1..], mtime, pax);
      ListsOne(tar, f, item);
      var items := ListFrom(tar, next, "", pax).value;
      forall k | 0 <= k < |files| ensures ListedOne(tar, files[k], ([item] + items)[k]) {
        if k > 0 {
          assert files[k] == files[1..][k - 1];
        }
      }
    }
  }

  lemma ListsOne(tar: string, f: File, i: Item)
    requires Split(f.path).Some? && i.path == Shown(f.path) && i.size == SizeOf(f.parts)
    requires i.off + i.size <= |tar| && tar[i.off..i.off + i.size] == Concat(f.parts)
    ensures ListedOne(tar, f, i)
  {
  }

  lemma EmptyEnds(tar: string, off: nat, pax: Pax)
    requires off + BLOCK <= |tar| && tar[off..off + BLOCK] == Nuls(BLOCK)
    ensures ListFrom(tar, off, "", pax) == Some([])
  {
  }

  /** list over what write made: every path, size and content, each at the offset listed for it. */
  lemma RoundTrip(files: seq<File>, mtime: nat, pax: Pax)
    requires Written(files, mtime).Some? && forall f :: f in files ==> Octets(f.path)
    ensures var tar := Written(files, mtime).value; var items := ListFrom(tar, 0, "", pax);
      && items.Some? && |items.value| == |files|
      && forall k :: 0 <= k < |files| ==>
           var (f, i) := (files[k], items.value[k]);
           && Split(f.path).Some? && (i.path == f.path <==> PlainPath(f.path))
           && i.size == |Concat(f.parts)| && i.off + i.size <= |tar| && tar[i.off..i.off + i.size] == Concat(f.parts)
  {
    hide Written, ListFrom, Split, PlainPath, SizeOf, Concat, Shown;
    var tar := Written(files, mtime).value;
    assert tar[0..] == tar;
    ListsWritten(tar, 0, files, mtime, pax);
    var items := ListFrom(tar, 0, "", pax).value;
    forall k | 0 <= k < |files|
      ensures Split(files[k].path).Some? && (items[k].path == files[k].path <==> PlainPath(files[k].path))
      ensures items[k].size == |Concat(files[k].parts)|
      ensures items[k].off + items[k].size <= |tar| &&
        tar[items[k].off..items[k].off + items[k].size] == Concat(files[k].parts)
    {
      assert ListedOne(tar, files[k], items[k]);
      ShownIs(files[k].path);
      SizeIs(files[k].parts);
    }
  }

  lemma {:induction false} PutAllFits(fs: seq<Field>)
    requires Inside(fs)
    ensures PutAll(fs).Some? <==> forall k :: 0 <= k < |fs| ==> |fs[k].s| <= fs[k].len
  {
    if fs != [] {
      var n := |fs| - 1;
      PutAllFits(fs[..n]);
      assert forall k :: 0 <= k < n ==> fs[..n][k] == fs[k];
    }
  }

  /** A file write takes: a path that can be divided, a size and a time of at most twelve octal digits. */
  predicate Writable(f: File, mtime: nat) {
    Split(f.path).Some? && SizeOf(f.parts) < Power(8, 12) && mtime < Power(8, 12)
  }

  lemma EntryWrites(f: File, mtime: nat)
    requires Octets(f.path)
    ensures Entry(f, mtime).Some? <==> Writable(f, mtime)
  {
    hide Checked, PutAll, Split, SizeOf, Text, Power, Concat, FieldsOf, ReadsAs, Joined, Octets;
    EntryIs(f, mtime);
    if Split(f.path).Some? {
      SplitIs(f.path);
      var (p, n) := Split(f.path).value;
      var size := SizeOf(f.parts);
      var fs := FieldsOf(p, n, size, mtime);
      PutAllFits(fs);
      TextFits(size, 8, 11);
      TextFits(mtime, 8, 11);
      FieldsFit(p, n, size, mtime);
      if PutAll(fs).Some? {
        SplitOctets(f.path);
        HeaderReads(p, n, size, mtime);
      }
    }
  }

  lemma FieldsFit(p: string, n: string, size: nat, mtime: nat)
    requires |p| <= 155 && |n| <= 100
    ensures (forall k :: 0 <= k < 10 ==> |FieldsOf(p, n, size, mtime)[k].s| <= FieldsOf(p, n, size, mtime)[k].len)
      <==> |Text(size, 8, 11)| <= 12 && |Text(mtime, 8, 11)| <= 12
  {
    hide Text;
    var fs := FieldsOf(p, n, size, mtime);
    assert fs[4] == Field(124, 12, Text(size, 8, 11)) && fs[5] == Field(136, 12, Text(mtime, 8, 11));
  }

  /** write goes through exactly for files it takes. */
  lemma {:induction false} Writes(files: seq<File>, mtime: nat)
    requires forall f :: f in files ==> Octets(f.path)
    ensures Written(files, mtime).Some? <==> forall f :: f in files ==> Writable(f, mtime)
  {
    hide Entry, Writable;
    if files != [] {
      EntryWrites(files[0], mtime);
      Writes(files[1..], mtime);
      assert forall f :: f in files <==> f == files[0] || f in files[1..];
    }
  }

  /** A path that begins with a byte order mark is written, and listed without it. */
  lemma MarkDropped(pax: Pax)
    ensures Written([File(MARK + "x", [])], 0).Some?
    ensures var items := ListFrom(Written([File(MARK + "x", [])], 0).value, 0, "", pax);
      items.Some? && |items.value| == 1 && items.value[0].path == "x"
  {
    hide Written, ListFrom, Split, Octets, Shown, Writable;
    var f := File(MARK + "x", []);
    MarkedPath(f.path);
    MarkedWritable(f);
    Writes([f], 0);
    var tar := Written([f], 0).value;
    assert tar[0..] == tar;
    ListsWritten(tar, 0, [f], 0, pax);
    assert ListedOne(tar, f, ListFrom(tar, 0, "", pax).value[0]);
  }

  lemma MarkedPath(path: string)
    requires path == MARK + "x"
    ensures Octets(path) && Split(path) == Some(("", path)) && Shown(path) == "x"
  {
    hide SplitFrom, UpToNul, Clean;
    assert path[0] == '\U{EF}' && path[1] == '\U{BB}' && path[2] == '\U{BF}' && path[3] == 'x';
    assert UpToNul(path) == path && UpToNul("") == "";
    assert path[..3] == MARK && path[3..] == "x";
    assert Decoded("") == "";
    assert Joined("", "x") == "x";
  }

  lemma MarkedWritable(f: File)
    requires f.parts == [] && Split(f.path).Some?
    ensures Writable(f, 0)
  {
    hide Power, Split;
    PowerPositive(8, 12);
  }
}
