/**
 Byte strings as the file formats here hold them: strings of one character a byte, zero
 padding, and numbers in digits of some base.
 */
module ByteText {

  predicate Octets(s: string) {
    forall k :: 0 <= k < |s| ==> s[k] as int < 256
  }

  predicate IsSpace(ch: char) {
    ch == ' ' || '\t' <= ch <= '\r'
  }

  /** The text without the spaces around it. */
  function Trim(s: string): (r: string)
    ensures (s == "" || (!IsSpace(s[0]) && !IsSpace(s[|s| - 1]))) ==> r == s
  {
    if s == "" then s
    else if IsSpace(s[0]) then Trim(s[1..])
    else if IsSpace(s[|s| - 1]) then Trim(s[..|s| - 1])
    else s
  }

  predicate StartsWith(s: string, p: string) { |p| <= |s| && s[..|p|] == p }
  predicate EndsWith(s: string, p: string) { |p| <= |s| && s[|s| - |p|..] == p }

  function Nuls(n: nat): (r: string)
    ensures |r| == n && forall k :: 0 <= k < n ==> r[k] == '\0'
  {
    seq(n, _ => '\0')
  }

  /** The next multiple of four. */
  function Up4(n: int): (r: int)
    ensures r % 4 == 0 && n <= r < n + 4
  {
    if n % 4 == 0 then n else n + (4 - n % 4)
  }

  // ---------- digits ----------

  /** Octal, decimal and hexadecimal. */
  predicate IsBase(b: nat) { b == 8 || b == 10 || b == 16 }

  function DigitOf(ch: char): nat {
    if '0' <= ch <= '9' then ch as int - '0' as int
    else if 'A' <= ch <= 'F' then ch as int - 'A' as int + 10
    else if 'a' <= ch <= 'f' then ch as int - 'a' as int + 10
    else 16
  }

  predicate IsDigit(ch: char, base: nat)
    requires IsBase(base)
  {
    DigitOf(ch) < base
  }

  function CharOf(d: nat): (ch: char)
    requires d < 16
    ensures DigitOf(ch) == d && '0' <= ch <= 'f'
  {
    "0123456789abcdef"[d]
  }

  predicate AllDigits(s: string, base: nat)
    requires IsBase(base)
  {
    forall k :: 0 <= k < |s| ==> IsDigit(s[k], base)
  }

  function Times(n: nat, base: nat): nat
    requires IsBase(base)
  {
    if base == 8 then n * 8 else if base == 10 then n * 10 else n * 16
  }

  /** n without its last digit. */
  function Front(n: nat, base: nat): (q: nat)
    requires IsBase(base)
    ensures Times(q, base) <= n < Times(q, base) + base && q <= n && (n > 0 ==> q < n)
  {
    if base == 8 then n / 8 else if base == 10 then n / 10 else n / 16
  }

  function Value(s: string, base: nat): nat
    requires IsBase(base) && AllDigits(s, base)
  {
    if s == "" then 0 else Times(Value(s[..|s| - 1], base), base) + DigitOf(s[|s| - 1])
  }

  /** n in the base, in at least w digits, the front filled with zeros. */
  function Text(n: nat, base: nat, w: nat): (s: string)
    requires IsBase(base)
    ensures |s| >= w && AllDigits(s, base) && forall k :: 0 <= k < |s| ==> '0' <= s[k] <= 'f'
    decreases n + w
  {
    if n == 0 && w == 0 then ""
    else Text(Front(n, base), base, if w > 0 then w - 1 else 0) + [CharOf(n - Times(Front(n, base), base))]
  }

  /** base to the w. */
  function Power(base: nat, w: nat): nat
    requires IsBase(base)
  {
    if w == 0 then 1 else Times(Power(base, w - 1), base)
  }

  lemma TextLast(n: nat, base: nat, w: nat)
    requires IsBase(base) && n + w > 0
    ensures var s := Text(n, base, w); var up := if w > 0 then w - 1 else 0;
      |s| > 0 && s[..|s| - 1] == Text(Front(n, base), base, up) &&
        DigitOf(s[|s| - 1]) == n - Times(Front(n, base), base)
  {
    hide Front, Times, AllDigits, CharOf;
  }

  /** The digits of a number read back as it. */
  lemma {:induction false} TextReadsBack(n: nat, base: nat, w: nat)
    requires IsBase(base)
    ensures Value(Text(n, base, w), base) == n
    decreases n + w
  {
    hide Front, Times, Text, AllDigits;
    if n > 0 || w > 0 {
      TextLast(n, base, w);
      TextReadsBack(Front(n, base), base, if w > 0 then w - 1 else 0);
    } else {
      TextNone(base);
    }
  }

  lemma TextNone(base: nat)
    requires IsBase(base)
    ensures Text(0, base, 0) == ""
  {
  }

  /** A number takes w digits exactly if it is below base^w. */
  lemma {:induction false} TextLength(n: nat, base: nat, w: nat)
    requires IsBase(base)
    ensures |Text(n, base, w)| == w <==> n < Power(base, w)
    decreases n + w
  {
    hide Text, AllDigits;
    if n > 0 || w > 0 {
      TextLast(n, base, w);
      TextLength(Front(n, base), base, if w > 0 then w - 1 else 0);
      if w == 0 {
        assert Power(base, 0) == 1;
      }
    } else {
      TextNone(base);
    }
  }

  lemma TextUnfold(n: nat, base: nat, w: nat)
    requires IsBase(base) && n + w > 0
    ensures Text(n, base, w) ==
      Text(Front(n, base), base, if w > 0 then w - 1 else 0) + [CharOf(n - Times(Front(n, base), base))]
  {
    hide Front, Times, AllDigits, CharOf;
  }

  /** Filling up to one digit more changes nothing for a number that takes it anyway. */
  lemma {:induction false} TextWider(n: nat, base: nat, w: nat)
    requires IsBase(base) && n >= Power(base, w)
    ensures Text(n, base, w + 1) == Text(n, base, w)
    decreases w
  {
    hide Text, AllDigits, CharOf;
    if w > 0 {
      PowerPositive(base, w);
      TextUnfold(n, base, w);
      TextWider(Front(n, base), base, w - 1);
    } else {
      assert Power(base, 0) == 1;
      TextUnfold(n, base, 0);
    }
    TextUnfold(n, base, w + 1);
  }

  lemma {:induction false} PowerPositive(base: nat, w: nat)
    requires IsBase(base)
    ensures Power(base, w) > 0
  {
    if w > 0 {
      PowerPositive(base, w - 1);
    }
  }

  /** In a field a digit longer than the padding a number fits exactly if it is below base^(w+1). */
  lemma TextFits(n: nat, base: nat, w: nat)
    requires IsBase(base)
    ensures |Text(n, base, w)| <= w + 1 <==> n < Power(base, w + 1)
  {
    hide Text, AllDigits;
    TextLength(n, base, w);
    TextLength(n, base, w + 1);
    if n >= Power(base, w) {
      TextWider(n, base, w);
    } else {
      PowerGrows(base, w);
    }
  }

  lemma PowerGrows(base: nat, w: nat)
    requires IsBase(base)
    ensures Power(base, w) <= Power(base, w + 1)
  {
  }
}
