/**
 The code units of an instruction, and the register numbering of the assembler:
 the inverse of the decoder on every instruction a format can hold.
 */
module DexEncode {
  import opened Wrappers
  import opened DexCode
  import ModArith

  // ---------- units ----------

  /** n in two's complement, as `n & (modulus - 1)` has it. */
  function Unsigned(n: int, modulus: nat): nat
    requires modulus > 0
  {
    n % modulus
  }

  predicate InSigned(n: int, half: int) {
    -half <= n < half
  }

  predicate Nibble(r: nat) { r < 16 }
  predicate Byte(r: nat) { r < 256 }

  /** The instruction fits its format: registers, literals, offsets and table indices. */
  predicate Encodable(i: Insn) {
    match i
    case Move(_, a, b) => Nibble(a) && Nibble(b)
    case MoveResult(_, a) => Byte(a)
    case ReturnVoid => true
    case Return(_, a) => Byte(a)
    case Const(size, a, lit) =>
      (size == 1 && Nibble(a) && InSigned(lit, 8)) ||
      (size == 2 && Byte(a) && InSigned(lit, 0x8000)) ||
      (size == 3 && Byte(a) && InSigned(lit, 0x8000_0000))
    case ConstString(a, idx) => Byte(a) && idx < 0x10000
    case CheckCast(a, idx) => Byte(a) && idx < 0x10000
    case ArrayLength(a, b) => Nibble(a) && Nibble(b)
    case NewInstance(a, idx) => Byte(a) && idx < 0x10000
    case NewArray(a, b, idx) => Nibble(a) && Nibble(b) && idx < 0x10000
    case Goto(off) => InSigned(off, 0x8000)
    case If2(op, a, b, off) => 0x32 <= op <= 0x37 && Nibble(a) && Nibble(b) && InSigned(off, 0x8000)
    case IfZ(op, a, off) => 0x38 <= op <= 0x3d && Byte(a) && InSigned(off, 0x8000)
    case AGetObject(a, b, c) => Byte(a) && Byte(b) && Byte(c)
    case APutObject(a, b, c) => Byte(a) && Byte(b) && Byte(c)
    case APutByte(a, b, c) => Byte(a) && Byte(b) && Byte(c)
    case SGetObject(a, idx) => Byte(a) && idx < 0x10000
    case Invoke(op, idx, args) =>
      idx < 0x10000 &&
      if op == 0x77 then 0 < |args| < 256 && args[0] < 0x10000 && args == Range(args[0], |args|)
      else op in {0x6e, 0x70, 0x71, 0x72} && |args| <= 4 && forall k :: 0 <= k < |args| ==> Nibble(args[k])
    case Binop(op, a, b, c) => 0x90 <= op <= 0x9a && Byte(a) && Byte(b) && Byte(c)
    case BinopLit8(op, a, b, lit) => 0xd8 <= op <= 0xe2 && Byte(a) && Byte(b) && InSigned(lit, 0x80)
    case IntToByte(a, b) => Nibble(a) && Nibble(b)
  }

  function Packed(args: seq<nat>): nat {
    if args == [] then 0 else args[0] + 16 * Packed(args[1..])
  }

  /** The units of an instruction that fits its format. */
  function Encode(i: Insn): (u: seq<int>)
    requires Encodable(i)
    ensures |u| == Width(i)
  {
    match i
    case Move(isObj, a, b) => [(b * 16 + a) * 256 + if isObj then 0x07 else 0x01]
    case MoveResult(isObj, a) => [a * 256 + if isObj then 0x0c else 0x0a]
    case ReturnVoid => [0x0e]
    case Return(isObj, a) => [a * 256 + if isObj then 0x11 else 0x0f]
    case Const(size, a, lit) =>
      if size == 1 then [(Unsigned(lit, 16) * 16 + a) * 256 + 0x12]
      else if size == 2 then [a * 256 + 0x13, Unsigned(lit, 0x10000)]
      else [a * 256 + 0x14, Unsigned(lit, 0x10000), Unsigned(lit / 0x10000, 0x10000)]
    case ConstString(a, idx) => [a * 256 + 0x1a, idx]
    case CheckCast(a, idx) => [a * 256 + 0x1f, idx]
    case ArrayLength(a, b) => [(b * 16 + a) * 256 + 0x21]
    case NewInstance(a, idx) => [a * 256 + 0x22, idx]
    case NewArray(a, b, idx) => [(b * 16 + a) * 256 + 0x23, idx]
    case Goto(off) => [0x29, Unsigned(off, 0x10000)]
    case If2(op, a, b, off) => [(b * 16 + a) * 256 + op, Unsigned(off, 0x10000)]
    case IfZ(op, a, off) => [a * 256 + op, Unsigned(off, 0x10000)]
    case AGetObject(a, b, c) => [a * 256 + 0x46, c * 256 + b]
    case APutObject(a, b, c) => [a * 256 + 0x4d, c * 256 + b]
    case APutByte(a, b, c) => [a * 256 + 0x4f, c * 256 + b]
    case SGetObject(a, idx) => [a * 256 + 0x62, idx]
    case Invoke(op, idx, args) =>
      if op == 0x77 then [|args| * 256 + op, idx, args[0]]
      else [|args| * 4096 + op, idx, Packed(args)]
    case Binop(op, a, b, c) => [a * 256 + op, c * 256 + b]
    case BinopLit8(op, a, b, lit) => [a * 256 + op, Unsigned(lit, 256) * 256 + b]
    case IntToByte(a, b) => [(b * 16 + a) * 256 + 0x8d]
  }

  lemma {:induction false} PackedNibbles(args: seq<nat>)
    requires |args| <= 4 && forall k :: 0 <= k < |args| ==> Nibble(args[k])
    ensures Packed(args) < (if |args| == 0 then 1 else if |args| == 1 then 16 else if |args| == 2 then 256
      else if |args| == 3 then 4096 else 65536)
    ensures Nibbles(Packed(args), |args|) == args
  {
    if args != [] {
      PackedNibbles(args[1..]);
      assert Packed(args) % 16 == args[0] && Packed(args) / 16 == Packed(args[1..]);
    }
  }

  predicate AreUnits(u: seq<int>) {
    forall k :: 0 <= k < |u| ==> 0 <= u[k] < 0x10000
  }

  lemma EncodeUnits(i: Insn)
    requires Encodable(i)
    ensures AreUnits(Encode(i))
  {
    if i.Invoke? && i.op != 0x77 {
      PackedNibbles(i.args);
    }
  }

  /** hi and op of a first unit. */
  lemma FirstUnit(hi: nat, op: nat)
    requires op < 256
    ensures (hi * 256 + op) % 256 == op && (hi * 256 + op) / 256 == hi
  {
  }

  lemma Nibbled(a: nat, b: nat)
    requires Nibble(a)
    ensures (b * 16 + a) % 16 == a && (b * 16 + a) / 16 == b
  {
  }

  lemma SignedUnsigned(n: int, half: nat)
    requires half > 0 && InSigned(n, half)
    ensures Signed(Unsigned(n, 2 * half), half) == n
  {
    if n >= 0 {
      ModArith.ModIs(n, 2 * half, 0);
    } else {
      ModArith.ModIs(n, 2 * half, -1);
    }
  }

  lemma SignedWide(lit: int)
    requires InSigned(lit, 0x8000_0000)
    ensures Signed(Unsigned(lit, 0x10000) + 0x10000 * Unsigned(lit / 0x10000, 0x10000), 0x8000_0000) == lit
  {
  }

  /** Every instruction that fits its format decodes from its units, wherever they stand. */
  lemma DecodeEncode(i: Insn, units: seq<unit>, at: nat)
    requires Encodable(i) && at + Width(i) <= |units| && units[at..at + Width(i)] == Encode(i)
    ensures Decode(units, at) == Some(i)
  {
    var u, slice := Encode(i), units[at..at + Width(i)];
    assert units[at] == slice[0];
    assert |u| > 1 ==> units[at + 1] == slice[1];
    assert |u| > 2 ==> units[at + 2] == slice[2];
    OperandsEncode(i);
  }

  /** Operands reads back what Encode wrote. */
  predicate ReadsBack(i: Insn)
    requires Encodable(i)
  {
    var u := Encode(i);
    && u[0] >= 0 && UnitsOf(u[0] % 256) == Width(i)
    && (|u| > 1 ==> u[1] >= 0) && (|u| > 2 ==> u[2] >= 0)
    && Operands(u[0] % 256, u[0] / 256, if |u| > 1 then u[1] else 0, if |u| > 2 then u[2] else 0) == Some(i)
  }

  /** It does where the first unit holds the opcode below what that opcode's format reads. */
  lemma ReadsBackFrom(i: Insn, hi: nat, op: nat)
    requires Encodable(i) && op < 256 && UnitsOf(op) == Width(i)
    requires var u := Encode(i);
      && u[0] == hi * 256 + op && (|u| > 1 ==> u[1] >= 0) && (|u| > 2 ==> u[2] >= 0)
      && Operands(op, hi, if |u| > 1 then u[1] else 0, if |u| > 2 then u[2] else 0) == Some(i)
    ensures ReadsBack(i)
  {
    hide Encode, Encodable, Operands, UnitsOf, Width;
    FirstUnit(hi, op);
  }

  /** Formats 12x and 22c: two nibbles. */
  lemma ReadsBackNibbles(i: Insn)
    requires Encodable(i) && (i.Move? || i.ArrayLength? || i.IntToByte? || i.NewArray?)
    ensures ReadsBack(i)
  {
    hide ReadsBack;
    Nibbled(i.a, i.b);
    var op := match i
      case Move(isObj, _, _) => if isObj then 0x07 else 0x01
      case ArrayLength(_, _) => 0x21
      case IntToByte(_, _) => 0x8d
      case _ => 0x23;
    ReadsBackFrom(i, i.b * 16 + i.a, op);
  }

  /** Formats 11x and 10x. */
  lemma ReadsBackByte(i: Insn)
    requires Encodable(i) && (i.MoveResult? || i.Return? || i.ReturnVoid?)
    ensures ReadsBack(i)
  {
    hide ReadsBack;
    var op := match i
      case MoveResult(isObj, _) => if isObj then 0x0c else 0x0a
      case Return(isObj, _) => if isObj then 0x11 else 0x0f
      case _ => 0x0e;
    ReadsBackFrom(i, if i.ReturnVoid? then 0 else i.a, op);
  }

  /** Format 21c. */
  lemma ReadsBackIndexed(i: Insn)
    requires Encodable(i)
    requires i.ConstString? || i.CheckCast? || i.NewInstance? || i.SGetObject?
    ensures ReadsBack(i)
  {
    hide ReadsBack;
    var op := match i
      case ConstString(_, _) => 0x1a
      case CheckCast(_, _) => 0x1f
      case NewInstance(_, _) => 0x22
      case _ => 0x62;
    ReadsBackFrom(i, i.a, op);
  }

  /** Format 23x. */
  lemma ReadsBackWide(i: Insn)
    requires Encodable(i)
    requires i.AGetObject? || i.APutObject? || i.APutByte? || i.Binop?
    ensures ReadsBack(i)
  {
    hide ReadsBack;
    FirstUnit(i.c, i.b);
    var op := match i
      case AGetObject(_, _, _) => 0x46
      case APutObject(_, _, _) => 0x4d
      case Binop(op, _, _, _) => op
      case _ => 0x4f;
    ReadsBackFrom(i, i.a, op);
  }

  /** Formats with a literal or an offset: 11n, 21s, 31i, 22b, 20t, 21t, 22t. */
  lemma ReadsBackConst(i: Insn)
    requires Encodable(i) && i.Const?
    ensures ReadsBack(i)
  {
    hide ReadsBack;
    if i.size == 1 {
      SignedUnsigned(i.lit, 8);
      Nibbled(i.a, Unsigned(i.lit, 16));
      ReadsBackFrom(i, Unsigned(i.lit, 16) * 16 + i.a, 0x12);
    } else if i.size == 2 {
      SignedUnsigned(i.lit, 0x8000);
      ReadsBackFrom(i, i.a, 0x13);
    } else {
      SignedWide(i.lit);
      ReadsBackFrom(i, i.a, 0x14);
    }
  }

  lemma ReadsBackBranch(i: Insn)
    requires Encodable(i) && (i.Goto? || i.If2? || i.IfZ? || i.BinopLit8?)
    ensures ReadsBack(i)
  {
    hide ReadsBack;
    if i.BinopLit8? {
      SignedUnsigned(i.lit, 0x80);
      FirstUnit(Unsigned(i.lit, 256), i.b);
      ReadsBackFrom(i, i.a, i.op);
    } else {
      SignedUnsigned(i.off, 0x8000);
      if i.If2? {
        Nibbled(i.a, i.b);
        ReadsBackFrom(i, i.b * 16 + i.a, i.op);
      } else {
        ReadsBackFrom(i, if i.IfZ? then i.a else 0, if i.IfZ? then i.op else 0x29);
      }
    }
  }

  lemma ReadsBackInvoke(i: Insn)
    requires Encodable(i) && i.Invoke?
    ensures ReadsBack(i)
  {
    hide ReadsBack;
    if i.op == 0x77 {
      ReadsBackFrom(i, |i.args|, i.op);
    } else {
      Nibbled(0, |i.args|);
      PackedNibbles(i.args);
      ReadsBackFrom(i, |i.args| * 16, i.op);
    }
  }

  lemma OperandsEncode(i: Insn)
    requires Encodable(i)
    ensures ReadsBack(i)
  {
    hide ReadsBack, Encodable;
    match i
    case Const(_, _, _) => ReadsBackConst(i);
    case Goto(_) | If2(_, _, _, _) | IfZ(_, _, _) | BinopLit8(_, _, _, _) => ReadsBackBranch(i);
    case Invoke(_, _, _) => ReadsBackInvoke(i);
    case Move(_, _, _) | ArrayLength(_, _) | IntToByte(_, _) | NewArray(_, _, _) => ReadsBackNibbles(i);
    case MoveResult(_, _) | Return(_, _) | ReturnVoid => ReadsBackByte(i);
    case ConstString(_, _) | CheckCast(_, _) | NewInstance(_, _) | SGetObject(_, _) => ReadsBackIndexed(i);
    case _ => ReadsBackWide(i);
  }
}
