/**
 The update bundle of scripts/otatool.py: what pack writes, what verify_install reads.
 Byte strings are strings, one character a byte.
 */
module Bundle {
  import opened Wrappers
  import opened ByteText
  import LittleEndian
  import EdCodec
  import EdDsa
  import Edwards

  datatype Member = Member(name: string, mode: int, data: string)

  predicate NameChar(ch: char) {
    'A' <= ch <= 'Z' || 'a' <= ch <= 'z' || '0' <= ch <= '9' || ch == '.' || ch == '_' || ch == '-'
  }

  /** name_ok. */
  predicate NameOk(n: string) {
    1 <= |n| <= 64 && n[0] != '.' && forall k :: 0 <= k < |n| ==> NameChar(n[k])
  }

  // ---------- the printer ----------

  const MAGIC := "HMOTA1\n"
  const END := "end\n"

  /** %o and %d of an integer. */
  function Printed(n: int, base: nat): (s: string)
    requires IsBase(base)
    ensures s != ""
  {
    if n < 0 then "-" + Text(-n, base, 1) else Text(n, base, 1)
  }

  function HeadLine(m: Member): string {
    "file " + m.name + " " + Printed(m.mode, 8) + " " + Printed(|m.data|, 10)
  }

  function Members(files: seq<Member>): string {
    if files == [] then END else HeadLine(files[0]) + "\n" + files[0].data + Members(files[1..])
  }

  /** The bytes pack signs; None for a name it does not take. */
  function Packed(version: string, files: seq<Member>): Option<string> {
    if forall k :: 0 <= k < |files| ==> NameOk(files[k].name) then
      Some(MAGIC + "version " + version + "\n" + Members(files))
    else None
  }

  lemma MembersAppend(b: string, files: seq<Member>)
    requires files != []
    ensures b + Members(files) == (b + (HeadLine(files[0]) + "\n" + files[0].data)) + Members(files[1..])
  {
    hide HeadLine;
  }

  /** pack: its loop over the files. */
  method Pack(version: string, files: seq<Member>) returns (r: Option<string>)
    ensures r == Packed(version, files)
  {
    hide HeadLine, NameOk;
    var b := MAGIC + "version " + version + "\n";
    ghost var start := b;
    var i := 0;
    assert files[0..] == files;
    while i < |files|
      invariant 0 <= i <= |files| && forall k :: 0 <= k < i ==> NameOk(files[k].name)
      invariant start + Members(files) == b + Members(files[i..])
    {
      var m := files[i];
      if !NameOk(m.name) {
        return None;
      }
      assert files[i..][0] == m && files[i..][1..] == files[i + 1..];
      MembersAppend(b, files[i..]);
      b := b + (HeadLine(m) + "\n" + m.data);
      i := i + 1;
    }
    r := Some(b + END);
  }

  // ---------- the parser ----------

  /** find: the first ch at or after p, |b| for none. */
  function Find(b: string, p: nat, ch: char): (k: nat)
    requires p <= |b|
    ensures p <= k <= |b| && (k < |b| ==> b[k] == ch) && forall j :: p <= j < k ==> b[j] != ch
    decreases |b| - p
  {
    if p == |b| || b[p] == ch then p else Find(b, p + 1, ch)
  }

  function ReadNumber(s: string, base: nat): Option<nat>
    requires IsBase(base)
  {
    if s != "" && AllDigits(s, base) then Some(Value(s, base)) else None
  }

  datatype Head = Head(name: string, mode: nat, size: nat)

  /** The line of a file: "file", its name, mode and size, a space between them. */
  function HeadOf(line: string): Option<Head> {
    if !StartsWith(line, "file ") then None
    else
      var i := Find(line, 5, ' ');
      if i == |line| || !NameOk(line[5..i]) then None
      else
        var j := Find(line, i + 1, ' ');
        if j == |line| then None
        else
          var mode :- ReadNumber(line[i + 1..j], 8);
          var size :- ReadNumber(line[j + 1..], 10);
          Some(Head(line[5..i], mode, size))
  }

  /** Past the version line, with its text; None where there is none of 1 to 63 bytes. */
  function VersionOf(b: string): (r: Option<(string, nat)>)
    ensures r.Some? ==> r.value.1 <= |b| && 1 <= |r.value.0| <= 63 && '\n' !in r.value.0
  {
    if !StartsWith(b, MAGIC + "version ") then None
    else
      var nl := Find(b, 15, '\n');
      if nl == |b| || !(1 <= nl - 15 <= 63) then None else Some((b[15..nl], nl + 1))
  }

  /**
   The line at p and where it ends; None where no newline comes or the line is no file's, or its
   content is cut short.
   */
  function HeadAt(b: string, p: nat): (r: Option<(Head, nat)>)
    requires p <= |b|
    ensures r.Some? ==> p < r.value.1 && r.value.1 + r.value.0.size <= |b|
  {
    var nl := Find(b, p, '\n');
    if nl == |b| then None
    else
      var h :- HeadOf(b[p..nl]);
      if h.size > |b| - nl - 1 then None else Some((h, nl + 1))
  }

  /** The files from p on. */
  function ParseFrom(b: string, p: nat): Option<seq<Member>>
    requires p <= |b|
    decreases |b| - p
  {
    if StartsWith(b[p..], END) then Some([])
    else
      var (h, at) :- HeadAt(b, p);
      var rest :- ParseFrom(b, at + h.size);
      Some([Member(h.name, h.mode, b[at..at + h.size])] + rest)
  }

  function Parse(b: string): Option<(string, seq<Member>)> {
    var (version, p) :- VersionOf(b);
    var files :- ParseFrom(b, p);
    Some((version, files))
  }

  function Onto(front: seq<Member>, rest: Option<seq<Member>>): Option<seq<Member>> {
    if rest.None? then None else Some(front + rest.value)
  }

  lemma OntoNext(out: seq<Member>, b: string, p: nat)
    requires p <= |b| && !StartsWith(b[p..], END) && HeadAt(b, p).Some?
    ensures var (h, at) := HeadAt(b, p).value;
      Onto(out, ParseFrom(b, p)) == Onto(out + [Member(h.name, h.mode, b[at..at + h.size])], ParseFrom(b, at + h.size))
  {
    hide HeadAt;
    var (h, at) := HeadAt(b, p).value;
    var m, rest := Member(h.name, h.mode, b[at..at + h.size]), ParseFrom(b, at + h.size);
    if rest.Some? {
      assert out + ([m] + rest.value) == (out + [m]) + rest.value;
    }
  }

  lemma OntoStops(out: seq<Member>, b: string, p: nat)
    requires p <= |b|
    ensures StartsWith(b[p..], END) ==> Onto(out, ParseFrom(b, p)) == Some(out)
    ensures !StartsWith(b[p..], END) && HeadAt(b, p).None? ==> Onto(out, ParseFrom(b, p)).None?
  {
    hide HeadAt;
    assert out + [] == out;
  }

  /** The parser of verify_install: its loop ends on any bytes. */
  method ParseBundle(b: string) returns (r: Option<(string, seq<Member>)>)
    ensures r == Parse(b)
  {
    hide ParseFrom, HeadOf;
    var v := VersionOf(b);
    if v.None? {
      return None;
    }
    var (version, p) := v.value;
    var files: seq<Member> := [];
    ghost var all := ParseFrom(b, p);
    assert all.Some? ==> [] + all.value == all.value;
    while !StartsWith(b[p..], END)
      invariant p <= |b| && all == Onto(files, ParseFrom(b, p))
      decreases |b| - p
    {
      OntoStops(files, b, p);
      var nl := Find(b, p, '\n');
      if nl == |b| {
        return None;
      }
      var f := HeadOf(b[p..nl]);
      if f.None? || f.value.size > |b| - nl - 1 {
        return None;
      }
      OntoNext(files, b, p);
      var size := f.value.size;
      files := files + [Member(f.value.name, f.value.mode, b[nl + 1..nl + 1 + size])];
      p := nl + 1 + size;
    }
    OntoStops(files, b, p);
    r := Some((version, files));
  }

  // ---------- the round trip ----------

  lemma FindIs(b: string, p: nat, ch: char, k: nat)
    requires p <= k < |b| && b[k] == ch && forall j :: p <= j < k ==> b[j] != ch
    ensures Find(b, p, ch) == k
  {
  }

  lemma LineParts(name: string, mode: string, size: string)
    ensures var line := "file " + name + " " + mode + " " + size; var i := 5 + |name|; var j := i + 1 + |mode|;
      && line[..5] == "file " && line[5..i] == name && line[i] == ' ' && line[i + 1..j] == mode && line[j] == ' '
      && line[j + 1..] == size
  {
    var line := "file " + name + " " + mode + " " + size;
    var i, j := 5 + |name|, 5 + |name| + 1 + |mode|;
    var front := "file " + name + " ";
    assert line == front + (mode + " " + size);
    assert line[..i + 1] == front && front[..5] == "file " && front[5..i] == name && front[i] == ' ';
    assert line[5..i] == line[..i + 1][5..i];
    var back := line[i + 1..];
    assert back == mode + " " + size && back[..|mode|] == mode && back[|mode|] == ' ' && back[|mode| + 1..] == size;
  }

  /** A file's line reads back as its parts. */
  lemma HeadReads(m: Member)
    requires NameOk(m.name) && m.mode >= 0
    ensures HeadOf(HeadLine(m)) == Some(Head(m.name, m.mode, |m.data|)) && '\n' !in HeadLine(m)
  {
    hide Text, Value, Find, AllDigits;
    var name, mode, size := m.name, Text(m.mode, 8, 1), Text(|m.data|, 10, 1);
    var line := HeadLine(m);
    var i, j := 5 + |name|, 5 + |name| + 1 + |mode|;
    LineParts(name, mode, size);
    forall k | 5 <= k < i ensures line[k] != ' ' {
      assert line[k] == line[5..i][k - 5];
    }
    forall k | i + 1 <= k < j ensures line[k] != ' ' {
      assert line[k] == line[i + 1..j][k - i - 1];
    }
    FindIs(line, 5, ' ', i);
    FindIs(line, i + 1, ' ', j);
    TextReadsBack(m.mode, 8, 1);
    TextReadsBack(|m.data|, 10, 1);
    OneLine(name, mode, size);
  }

  lemma OneLine(name: string, mode: string, size: string)
    requires NameOk(name) && (forall k :: 0 <= k < |mode| ==> '0' <= mode[k] <= 'f') && forall k :: 0 <= k < |size| ==>
      '0' <= size[k] <= 'f'
    ensures '\n' !in "file " + name + " " + mode + " " + size
  {
    assert '\n' !in name && '\n' !in mode && '\n' !in size;
  }

  lemma FindShift(b: string, p: nat, s: string, ch: char, k: nat)
    requires p + k < |b| && |s| >= k && b[p..p + k] == s[..k] && b[p + k] == ch && ch !in s[..k]
    ensures Find(b, p, ch) == p + k
  {
    forall j | p <= j < p + k ensures b[j] != ch {
      assert b[j] == b[p..p + k][j - p] == s[..k][j - p];
    }
    FindIs(b, p, ch, p + k);
  }

  /** The parser at a printed file, whatever its content holds. */
  lemma MemberReads(b: string, p: nat, m: Member, rest: string)
    requires p <= |b| && NameOk(m.name) && m.mode >= 0 && b[p..] == HeadLine(m) + "\n" + m.data + rest
    ensures !StartsWith(b[p..], END)
    ensures var at := p + |HeadLine(m)| + 1;
      && HeadAt(b, p) == Some((Head(m.name, m.mode, |m.data|), at)) && at + |m.data| <= |b|
      && b[at..at + |m.data|] == m.data && b[at + |m.data|..] == rest
  {
    hide HeadOf, NameOk, HeadLine, Find;
    HeadReads(m);
    var line, s := HeadLine(m), b[p..];
    var at := p + |line| + 1;
    assert s[..|line|] == line && s[|line|] == '\n' && s[|line| + 1..][..|m.data|] == m.data &&
      s[|line| + 1..][|m.data|..] == rest;
    assert b[p..p + |line|] == s[..|line|] && b[p + |line|] == s[|line|];
    FindShift(b, p, line, '\n', |line|);
    assert b[at..] == s[|line| + 1..];
    assert b[at..at + |m.data|] == b[at..][..|m.data|] && b[at + |m.data|..] == b[at..][|m.data|..];
    FirstLetter(m, s);
  }

  lemma FirstLetter(m: Member, s: string)
    requires |HeadLine(m)| <= |s| && s[..|HeadLine(m)|] == HeadLine(m)
    ensures !StartsWith(s, END)
  {
    hide Printed;
    assert s[0] == HeadLine(m)[0] == 'f';
    if |s| >= 4 {
      assert s[..4][0] == s[0];
    }
  }

  lemma {:induction false} MembersRead(b: string, p: nat, files: seq<Member>)
    requires p <= |b| && b[p..] == Members(files)
    requires forall k :: 0 <= k < |files| ==> NameOk(files[k].name) && files[k].mode >= 0
    ensures ParseFrom(b, p) == Some(files)
    decreases |files|
  {
    hide HeadAt, HeadLine, NameOk;
    if files != [] {
      var m := files[0];
      MemberReads(b, p, m, Members(files[1..]));
      var (h, at) := HeadAt(b, p).value;
      MembersRead(b, at + |m.data|, files[1..]);
      assert files == [m] + files[1..];
    }
  }

  lemma VersionReads(b: string, version: string, rest: string)
    requires b == MAGIC + "version " + version + "\n" + rest && 1 <= |version| <= 63 && '\n' !in version
    ensures VersionOf(b) == Some((version, 16 + |version|)) && b[16 + |version|..] == rest
  {
    assert b == (MAGIC + "version ") + (version + "\n" + rest);
    assert b[..15] == MAGIC + "version ";
    var n := |version|;
    assert b[15..][..n] == version;
    assert b[15..15 + n] == version && b[15 + n] == '\n';
    FindShift(b, 15, version, '\n', n);
  }

  /** What a parsed bundle holds, whoever wrote it. */
  predicate Printable(version: string, files: seq<Member>) {
    && 1 <= |version| <= 63 && '\n' !in version
    && forall k :: 0 <= k < |files| ==> NameOk(files[k].name) && files[k].mode >= 0
  }

  lemma {:induction false} ParsedModes(b: string, p: nat)
    requires p <= |b| && ParseFrom(b, p).Some?
    ensures forall k :: 0 <= k < |ParseFrom(b, p).value| ==>
      NameOk(ParseFrom(b, p).value[k].name) && ParseFrom(b, p).value[k].mode >= 0
    decreases |b| - p
  {
    hide NameOk, HeadAt;
    if !StartsWith(b[p..], END) {
      var (h, at) := HeadAt(b, p).value;
      ParsedModes(b, at + h.size);
      HeadNamed(b, p);
    }
  }

  lemma HeadNamed(b: string, p: nat)
    requires p <= |b|
    ensures HeadAt(b, p).Some? ==> NameOk(HeadAt(b, p).value.0.name)
  {
    hide NameOk, ReadNumber, Find;
  }

  /**
   Parsing what pack writes gives back the version and the files, contents and all, exactly where
   the version has 1 to 63 bytes, none a newline, and no mode is negative.
   */
  lemma RoundTrip(version: string, files: seq<Member>)
    requires Packed(version, files).Some?
    ensures Parse(Packed(version, files).value) == Some((version, files)) <==> Printable(version, files)
  {
    hide ParseFrom, VersionOf, Members, NameOk;
    var b := Packed(version, files).value;
    if Printable(version, files) {
      VersionReads(b, version, Members(files));
      MembersRead(b, 16 + |version|, files);
    }
    if Parse(b) == Some((version, files)) {
      ParsedModes(b, VersionOf(b).value.1);
    }
  }

  /** A version of no bytes is packed, and its bundle is not read. */
  lemma NoVersionUnread()
    ensures Packed("", []).Some? && Parse(Packed("", []).value).None?
  {
    hide Find, ParseFrom;
    var b := Packed("", []).value;
    assert b[15] == '\n';
    FindIs(b, 15, '\n', 15);
  }

  // ---------- signed ----------

  function Bytes(s: string): (r: seq<LittleEndian.byte>)
    requires Octets(s)
    ensures |r| == |s|
  {
    seq(|s|, k requires 0 <= k < |s| => s[k] as int)
  }

  /** verify_install: the bundle is read only behind a signature that checks. */
  function Install(s: EdDsa.Scheme, pk: seq<LittleEndian.byte>, b: string, sig: seq<LittleEndian.byte>)
    : Option<(string, seq<Member>)>
    requires 1 < s.c.p < EdCodec.TOP && s.L > 0 && Octets(b)
  {
    if |pk| != 32 || |sig| != 64 || !EdDsa.Check(s, sig, pk, Bytes(b)) then None else Parse(b)
  }

  /** A bundle packed with the secret key of a seed installs with the public key of that seed, as what was packed. */
  lemma PackedInstalls(s: EdDsa.Scheme, g: Edwards.Affine, seed: seq<LittleEndian.byte>, version: string,
      files: seq<Member>)
    requires EdDsa.Sound(s, g) && |seed| == 32 && Packed(version, files).Some? && Octets(Packed(version, files).value)
    requires Printable(version, files)
    ensures var pk, b := EdDsa.PublicKey(s, seed), Packed(version, files).value;
      Install(s, pk, b, EdDsa.Sign(s, seed + pk, Bytes(b))) == Some((version, files))
  {
    hide Parse, Packed, Printable, EdDsa.Check, EdDsa.PublicKey, EdDsa.Sign;
    var pk, b := EdDsa.PublicKey(s, seed), Packed(version, files).value;
    EdDsa.SignedChecks(s, g, seed, Bytes(b));
    EdDsa.Lengths(s, seed, Bytes(b));
    RoundTrip(version, files);
  }
}
