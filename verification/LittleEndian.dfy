/** Numbers as little-endian bytes. */
module LittleEndian {
  import opened Wrappers

  type byte = x: int | 0 <= x < 256

  function Zeros(n: nat): (r: seq<byte>)
    ensures |r| == n
  {
    seq(n, _ => 0)
  }

  /** The number of w bytes at o; None past the end. */
  function Word(d: seq<byte>, o: nat, w: nat): Option<nat> {
    if o + w <= |d| then Some(DecodeLittleEndian(d[o..o + w])) else None
  }

  function DecodeLittleEndian(b: seq<byte>): nat {
    if b == [] then 0 else b[0] + 256 * DecodeLittleEndian(b[1..])
  }

  function EncodeLittleEndian(n: nat, len: nat): (b: seq<byte>)
    ensures |b| == len
  {
    if len == 0 then [] else [n % 256] + EncodeLittleEndian(n / 256, len - 1)
  }

  function Pow256(n: nat): (p: nat)
    ensures p >= 1
  {
    if n == 0 then 1 else 256 * Pow256(n - 1)
  }

  lemma {:induction false} DecodeEncode(n: nat, len: nat)
    requires n < Pow256(len)
    ensures DecodeLittleEndian(EncodeLittleEndian(n, len)) == n
  {
    if len > 0 {
      DecodeEncode(n / 256, len - 1);
      assert EncodeLittleEndian(n, len)[1..] == EncodeLittleEndian(n / 256, len - 1);
    }
  }

  /** Bytes are determined by the number they stand for. */
  lemma {:induction false} EncodeDecode(b: seq<byte>)
    ensures EncodeLittleEndian(DecodeLittleEndian(b), |b|) == b
    ensures DecodeLittleEndian(b) < Pow256(|b|)
  {
    if b != [] {
      EncodeDecode(b[1..]);
      var n := DecodeLittleEndian(b);
      assert n % 256 == b[0] && n / 256 == DecodeLittleEndian(b[1..]);
    }
  }
}
