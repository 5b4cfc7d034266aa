/**
 The Dalvik subset that tools/dexasm.py writes and reads: 16-bit code units,
 the instructions they hold, the decoder and the linear sweep over a method.
 */
module DexCode {
  import opened Wrappers

  type unit = x: int | 0 <= x < 0x10000

  datatype Insn =
    | Move(isObj: bool, a: nat, b: nat)                  // 12x
    | MoveResult(isObj: bool, a: nat)                    // 11x
    | ReturnVoid                                         // 10x
    | Return(isObj: bool, a: nat)                        // 11x
    | Const(size: nat, a: nat, lit: int)                 // 11n, 21s, 31i: size 1, 2, 3
    | ConstString(a: nat, idx: nat)                      // 21c
    | CheckCast(a: nat, idx: nat)                        // 21c
    | ArrayLength(a: nat, b: nat)                        // 12x
    | NewInstance(a: nat, idx: nat)                      // 21c
    | NewArray(a: nat, b: nat, idx: nat)                 // 22c
    | Goto(off: int)                                     // 20t
    | If2(op: nat, a: nat, b: nat, off: int)             // 22t
    | IfZ(op: nat, a: nat, off: int)                     // 21t
    | AGetObject(a: nat, b: nat, c: nat)                 // 23x
    | APutObject(a: nat, b: nat, c: nat)                 // 23x
    | APutByte(a: nat, b: nat, c: nat)                   // 23x
    | SGetObject(a: nat, idx: nat)                       // 21c
    | Invoke(op: nat, idx: nat, args: seq<nat>)          // 35c, 3rc
    | Binop(op: nat, a: nat, b: nat, c: nat)             // 23x
    | BinopLit8(op: nat, a: nat, b: nat, lit: int)       // 22b
    | IntToByte(a: nat, b: nat)                          // 12x

  /** Units an opcode's format takes; 0 for an opcode the writer never emits. */
  function UnitsOf(op: nat): nat {
    if op in {0x01, 0x07, 0x0a, 0x0c, 0x0e, 0x0f, 0x11, 0x12, 0x21, 0x8d} then 1
    else if op in {0x13, 0x1a, 0x1f, 0x22, 0x23, 0x29, 0x46, 0x4d, 0x4f, 0x62} then 2
    else if 0x32 <= op <= 0x3d || 0x90 <= op <= 0x9a || 0xd8 <= op <= 0xe2 then 2
    else if op in {0x14, 0x6e, 0x70, 0x71, 0x72, 0x77} then 3
    else 0
  }

  function Width(i: Insn): nat {
    match i
    case Move(_, _, _) | MoveResult(_, _) | ReturnVoid | Return(_, _) | ArrayLength(_, _) | IntToByte(_, _) => 1
    case Const(size, _, _) => size
    case Invoke(_, _, _) => 3
    case _ => 2
  }

  /** x, a field of the given width, read as two's complement. */
  function Signed(x: nat, half: nat): int {
    if x < half then x else x - 2 * half
  }

  function Range(first: nat, n: nat): (r: seq<nat>)
    ensures |r| == n && forall i :: 0 <= i < n ==> r[i] == first + i
  {
    seq(n, i requires 0 <= i => first + i)
  }

  function Nibbles(y: nat, n: nat): (r: seq<nat>)
    ensures |r| == n
  {
    if n == 0 then [] else [y % 16] + Nibbles(y / 16, n - 1)
  }

  /** The operands of one instruction: op and hi from its first unit, x and y its second and third. */
  function Operands(op: nat, hi: nat, x: nat, y: nat): Option<Insn> {
    var lo, up := hi % 16, hi / 16;
    if op == 0x01 then Some(Move(false, lo, up))
    else if op == 0x07 then Some(Move(true, lo, up))
    else if op == 0x0a then Some(MoveResult(false, hi))
    else if op == 0x0c then Some(MoveResult(true, hi))
    else if op == 0x0e then Some(ReturnVoid)
    else if op == 0x0f then Some(Return(false, hi))
    else if op == 0x11 then Some(Return(true, hi))
    else if op == 0x12 then Some(Const(1, lo, Signed(up, 8)))
    else if op == 0x13 then Some(Const(2, hi, Signed(x, 0x8000)))
    else if op == 0x14 then Some(Const(3, hi, Signed(x + 0x10000 * y, 0x8000_0000)))
    else if op == 0x1a then Some(ConstString(hi, x))
    else if op == 0x1f then Some(CheckCast(hi, x))
    else if op == 0x21 then Some(ArrayLength(lo, up))
    else if op == 0x22 then Some(NewInstance(hi, x))
    else if op == 0x23 then Some(NewArray(lo, up, x))
    else if op == 0x29 then Some(Goto(Signed(x, 0x8000)))
    else if 0x32 <= op <= 0x37 then Some(If2(op, lo, up, Signed(x, 0x8000)))
    else if 0x38 <= op <= 0x3d then Some(IfZ(op, hi, Signed(x, 0x8000)))
    else if op == 0x46 then Some(AGetObject(hi, x % 256, x / 256))
    else if op == 0x4d then Some(APutObject(hi, x % 256, x / 256))
    else if op == 0x4f then Some(APutByte(hi, x % 256, x / 256))
    else if op == 0x62 then Some(SGetObject(hi, x))
    else if op in {0x6e, 0x70, 0x71, 0x72} then
      (if up <= 4 then Some(Invoke(op, x, Nibbles(y, up))) else None)
    else if op == 0x77 then Some(Invoke(op, x, Range(y, hi)))
    else if op == 0x8d then Some(IntToByte(lo, up))
    else if 0x90 <= op <= 0x9a then Some(Binop(op, hi, x % 256, x / 256))
    else if 0xd8 <= op <= 0xe2 then Some(BinopLit8(op, hi, x % 256, Signed(x / 256, 0x80)))
    else None
  }

  /** The instruction at unit `at`, or None where the original's decode refuses (or runs past the end). */
  function Decode(units: seq<unit>, at: nat): (r: Option<Insn>)
    ensures r.Some? ==> 1 <= Width(r.value) <= 3 && at + Width(r.value) <= |units|
  {
    if at >= |units| then None
    else
      var op, hi := units[at] % 256, units[at] / 256;
      var n := UnitsOf(op);
      if n == 0 || at + n > |units| then None
      else Operands(op, hi, if n > 1 then units[at + 1] else 0, if n > 2 then units[at + 2] else 0)
  }

  /** The linear sweep from `at`: where each instruction starts, in order. */
  function Sweep(units: seq<unit>, at: nat): Option<seq<nat>>
    decreases |units| - at
  {
    if at >= |units| then Some([])
    else
      var i :- Decode(units, at);
      var rest :- Sweep(units, at + Width(i));
      Some([at] + rest)
  }

  lemma {:induction false} SweepInside(units: seq<unit>, at: nat, n: nat)
    requires Sweep(units, at).Some? && n in Sweep(units, at).value
    ensures at <= n < |units| && Decode(units, n).Some? && Sweep(units, n).Some?
    decreases |units| - at
  {
    if n != at {
      SweepInside(units, at + Width(Decode(units, at).value), n);
    }
  }

  /** The instructions of a sweep do not overlap. */
  lemma {:induction false} SweepSpaced(units: seq<unit>, at: nat, n: nat)
    requires Sweep(units, at).Some? && n in Sweep(units, at).value
    ensures at <= n < |units| && Decode(units, n).Some?
    ensures forall k | k in Sweep(units, at).value && n < k :: n + Width(Decode(units, n).value) <= k
    decreases |units| - at
  {
    SweepInside(units, at, n);
    var next := at + Width(Decode(units, at).value);
    if n == at {
      forall k | k in Sweep(units, at).value && n < k ensures next <= k {
        SweepInside(units, next, k);
      }
    } else {
      SweepSpaced(units, next, n);
    }
  }
}
