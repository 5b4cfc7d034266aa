/**
 Patching and packing: a method's lines with labels and names filled in are the
 units from which the decoder reads those lines back.
 */
module DexAssembler {
  import opened Wrappers
  import opened DexCode
  import opened DexEncode
  import opened DexAsm

  predicate TwoUnits(bs: seq<Block>) {
    forall k :: 0 <= k < |bs| && bs[k].target.Some? ==> |bs[k].units| >= 2
  }

  /** Each block's units stand where it starts, patched and packed. */
  ghost predicate PackedBlocks(bs: seq<Block>, labels: Labels, index: Index, u: seq<int>)
    requires TwoUnits(bs)
  {
    |u| == |Flat(bs)| && forall k :: 0 <= k < |bs| ==> PackedAt(bs[k], At(bs, k), labels, index, u)
  }

  ghost predicate PackedAt(b: Block, at: nat, labels: Labels, index: Index, u: seq<int>)
    requires b.target.Some? ==> |b.units| >= 2
  {
    && PatchedUnits(b, at, labels).Some?
    && at + |b.units| <= |u|
    && forall q :: 0 <= q < |b.units| ==> OneUnit(PatchedUnits(b, at, labels).value[q], index) == Some(u[at + q])
  }

  // ---------- patching, slot by slot ----------

  lemma SlotPlace(bs: seq<Block>, k: nat, q: nat, j: nat)
    requires TwoUnits(bs) && k < |bs| && q < |bs[k].units|
    requires j < |bs| && bs[j].target.Some? && At(bs, k) + q == At(bs, j) + 1
    ensures j == k && q == 1
  {
    if j < k {
      AtAscends(bs, j, k);
    } else if k < j {
      AtAscends(bs, k, j);
    }
  }

  /** The units with the first n slots patched. */
  ghost predicate PatchedTo(bs: seq<Block>, labels: Labels, out: seq<Unit>, n: nat) {
    var slots := Slots(bs);
    && n <= |slots| && |out| == |Flat(bs)|
    && (forall p :: 0 <= p < |out| && (forall s :: 0 <= s < n ==> slots[s].0 != p) ==> out[p] == Flat(bs)[p])
    && (forall s :: 0 <= s < n ==>
          0 <= slots[s].0 < |out| && InRange(labels, slots[s].0 - 1, slots[s].1) &&
          out[slots[s].0] == OffsetUnit(labels, slots[s]))
  }

  lemma PatchNext(bs: seq<Block>, labels: Labels, out: seq<Unit>, n: nat)
    requires TwoUnits(bs) && PatchedTo(bs, labels, out, n) && n < |Slots(bs)|
    requires InRange(labels, Slots(bs)[n].0 - 1, Slots(bs)[n].1)
    ensures 0 <= Slots(bs)[n].0 < |out|
    ensures PatchedTo(bs, labels, out[Slots(bs)[n].0 := OffsetUnit(labels, Slots(bs)[n])], n + 1)
  {
    var k := SlotsAt(bs, n);
    FlatAt(bs, k);
    forall s | 0 <= s < n ensures Slots(bs)[s].0 != Slots(bs)[n].0 {
      SlotsAscend(bs, s, n);
    }
  }

  /** Once all slots are patched, a unit of block k is as PatchedUnits has it. */
  lemma PatchedUnit(bs: seq<Block>, labels: Labels, out: seq<Unit>, k: nat, q: nat)
    requires TwoUnits(bs) && PatchedTo(bs, labels, out, |Slots(bs)|) && k < |bs| && q < |bs[k].units|
    ensures At(bs, k) + |bs[k].units| <= |out|
    ensures PatchedUnits(bs[k], At(bs, k), labels).Some?
    ensures out[At(bs, k) + q] == PatchedUnits(bs[k], At(bs, k), labels).value[q]
  {
    hide Flat, Slots, InRange;
    FlatAt(bs, k);
    if bs[k].target.Some? {
      var s := SlotOf(bs, k);
    }
    if q != 1 || bs[k].target.None? {
      forall s | 0 <= s < |Slots(bs)| ensures Slots(bs)[s].0 != At(bs, k) + q {
        var j := SlotsAt(bs, s);
        if Slots(bs)[s].0 == At(bs, k) + q {
          SlotPlace(bs, k, q, j);
        }
      }
      assert Flat(bs)[At(bs, k)..At(bs, k + 1)][q] == bs[k].units[q];
    }
  }

  lemma {:induction false} Locate(bs: seq<Block>, p: nat) returns (k: nat, q: nat)
    requires p < |Flat(bs)|
    ensures k < |bs| && q < |bs[k].units| && p == At(bs, k) + q
  {
    var n := |bs| - 1;
    if p < |Flat(bs[..n])| {
      k, q := Locate(bs[..n], p);
      assert bs[..n][..k] == bs[..k];
    } else {
      k, q := n, p - |Flat(bs[..n])|;
    }
  }

  lemma AllPacked(bs: seq<Block>, labels: Labels, index: Index, out: seq<Unit>, u: seq<int>)
    requires TwoUnits(bs) && PatchedTo(bs, labels, out, |Slots(bs)|)
    requires forall k :: 0 <= k < |bs| ==> bs[k].units != []
    requires |u| == |out| && forall p :: 0 <= p < |out| ==> OneUnit(out[p], index) == Some(u[p])
    ensures PackedBlocks(bs, labels, index, u)
  {
    forall k | 0 <= k < |bs| ensures PackedAt(bs[k], At(bs, k), labels, index, u) {
      PatchedUnit(bs, labels, out, k, 0);
      forall q | 0 <= q < |bs[k].units|
        ensures OneUnit(PatchedUnits(bs[k], At(bs, k), labels).value[q], index) == Some(u[At(bs, k) + q])
      {
        PatchedUnit(bs, labels, out, k, q);
      }
    }
  }

  // ---------- what the result means ----------

  /** The instruction a line stands for: named entries and labels resolved, registers physical. */
  function Meant(l: Line, f: Frame, at: nat, labels: Labels, index: Index): Option<Insn>
    requires Writable(l, f)
  {
    var i :- Resolve(l, at, labels, index);
    if RegsBelow(i, f.nregs) then Some(Rename(i, f.ins, f.nregs)) else None
  }

  function Starts(bs: seq<Block>, k: nat): seq<nat>
    requires k <= |bs|
    decreases |bs| - k
  {
    if k == |bs| then [] else [At(bs, k)] + Starts(bs, k + 1)
  }

  /** u is the code of prog: the sweep over it finds exactly prog's lines, each decoding to what it means. */
  ghost predicate CodeOf(prog: seq<Line>, f: Frame, labels: Labels, index: Index, u: seq<unit>)
    requires AllWritable(prog, f)
  {
    var bs := BlocksOf(prog, f);
    && Sweep(u, 0) == Some(Starts(bs, 0))
    && forall k :: 0 <= k < |prog| ==> Reads(prog[k], f, At(bs, k), labels, index, u)
  }

  ghost predicate Reads(l: Line, f: Frame, at: nat, labels: Labels, index: Index, u: seq<unit>)
    requires Writable(l, f)
  {
    Decode(u, at).Some? && Decode(u, at) == Meant(l, f, at, labels, index) &&
      Width(Decode(u, at).value) == Width(l.insn)
  }

  lemma RenameKeepsWidth(i: Insn, ins: nat, nregs: nat)
    requires RegsBelow(i, nregs)
    ensures Width(Rename(i, ins, nregs)) == Width(i)
  {
  }

  /** A packed line decodes to what it means. */
  lemma PackedReads(l: Line, f: Frame, at: nat, labels: Labels, index: Index, u: seq<unit>)
    requires Writable(l, f) && PackedAt(BlockOf(l, f), at, labels, index, u)
    ensures Reads(l, f, at, labels, index, u)
  {
    var w := PatchedUnits(BlockOf(l, f), at, labels).value;
    var x := u[at..at + |w|];
    LineMeans(l, f, at, labels, index, w, x);
    var i := Resolve(l, at, labels, index).value;
    RenameKeepsWidth(i, f.ins, f.nregs);
    DecodeEncode(Rename(i, f.ins, f.nregs), u, at);
  }

  predicate BlockReads(bs: seq<Block>, u: seq<unit>, j: nat)
    requires j < |bs|
  {
    Decode(u, At(bs, j)).Some? && Width(Decode(u, At(bs, j)).value) == |bs[j].units|
  }

  lemma {:induction false} SweepStarts(bs: seq<Block>, u: seq<unit>, k: nat)
    requires k <= |bs| && |u| == |Flat(bs)|
    requires forall j :: 0 <= j < |bs| ==> BlockReads(bs, u, j)
    ensures Sweep(u, At(bs, k)) == Some(Starts(bs, k))
    decreases |bs| - k
  {
    if k == |bs| {
      assert bs[..k] == bs;
    } else {
      assert BlockReads(bs, u, k);
      FlatAt(bs, k);
      SweepStarts(bs, u, k + 1);
    }
  }

  /** Packed units are the code of the program. */
  lemma PackedCode(prog: seq<Line>, f: Frame, labels: Labels, index: Index, u: seq<unit>)
    requires AllWritable(prog, f) && TwoUnits(BlocksOf(prog, f)) && PackedBlocks(BlocksOf(prog, f), labels, index, u)
    ensures CodeOf(prog, f, labels, index, u)
  {
    var bs := BlocksOf(prog, f);
    forall k | 0 <= k < |prog| ensures Reads(prog[k], f, At(bs, k), labels, index, u) {
      PackedReads(prog[k], f, At(bs, k), labels, index, u);
    }
    forall j | 0 <= j < |bs| ensures BlockReads(bs, u, j) {
      assert Reads(prog[j], f, At(bs, j), labels, index, u);
    }
    SweepStarts(bs, u, 0);
  }

  /** Some line cannot be filled in: a label missing or out of range, a name without a table entry. */
  ghost predicate Unresolved(prog: seq<Line>, f: Frame, labels: Labels, index: Index)
    requires AllWritable(prog, f)
  {
    exists k :: 0 <= k < |prog| && Resolve(prog[k], At(BlocksOf(prog, f), k), labels, index).None?
  }

  lemma NoUnit(prog: seq<Line>, f: Frame, labels: Labels, index: Index, out: seq<Unit>, i: nat)
    requires AllWritable(prog, f)
    requires PatchedTo(BlocksOf(prog, f), labels, out, |Slots(BlocksOf(prog, f))|)
    requires i < |out| && OneUnit(out[i], index).None?
    ensures Unresolved(prog, f, labels, index)
  {
    hide OneUnit, Resolve, LineUnits, Flat, Slots, Writable, InRange;
    var bs := BlocksOf(prog, f);
    HasTwoUnits(prog, f);
    var k, q := Locate(bs, i);
    PatchedUnit(bs, labels, out, k, q);
    UnpackedUnresolved(prog[k], f, At(bs, k), labels, index, PatchedUnits(bs[k], At(bs, k), labels).value, q);
  }

  lemma HasTwoUnits(prog: seq<Line>, f: Frame)
    requires AllWritable(prog, f)
    ensures TwoUnits(BlocksOf(prog, f))
    ensures forall k :: 0 <= k < |prog| ==> BlocksOf(prog, f)[k].units != []
  {
    forall k | 0 <= k < |prog|
      ensures BlocksOf(prog, f)[k].units != [] &&
        (BlocksOf(prog, f)[k].target.Some? ==> |BlocksOf(prog, f)[k].units| >= 2)
    {
      RenameKeepsWidth(prog[k].insn, f.ins, f.nregs);
    }
  }

  lemma PackedResolved(prog: seq<Line>, f: Frame, labels: Labels, index: Index, u: seq<unit>)
    requires AllWritable(prog, f) && CodeOf(prog, f, labels, index, u)
    ensures !Unresolved(prog, f, labels, index)
  {
    forall k | 0 <= k < |prog| ensures Resolve(prog[k], At(BlocksOf(prog, f), k), labels, index).Some? {
      assert Reads(prog[k], f, At(BlocksOf(prog, f), k), labels, index, u);
    }
  }

  // ---------- assembling ----------

  lemma PatchOneMore(units: seq<Unit>, branches: seq<(int, string)>, labels: Labels, j: nat)
    requires j < |branches|
    ensures branches[..j + 1][..j] == branches[..j] && branches[..j + 1][j] == branches[j]
    ensures Patch(units, branches[..j + 1], labels) ==
      if Patch(units, branches[..j], labels).None? then None
      else if 0 <= branches[j].0 < |units| && InRange(labels, branches[j].0 - 1, branches[j].1) then
        Some(Patch(units, branches[..j], labels).value[branches[j].0 := OffsetUnit(labels, branches[j])])
      else None
  {
    hide InRange;
    assert branches[..j + 1][..j] == branches[..j];
  }

  /** Once a branch cannot be patched, no later one helps. */
  lemma {:induction false} PatchFailed(units: seq<Unit>, branches: seq<(int, string)>, labels: Labels, j: nat)
    requires j <= |branches| && Patch(units, branches[..j], labels).None?
    ensures Patch(units, branches, labels).None?
  {
    hide InRange;
    if j == |branches| {
      assert branches[..j] == branches;
    } else {
      var n := |branches| - 1;
      assert branches[..n][..j] == branches[..j];
      PatchFailed(units, branches[..n], labels, j);
    }
  }

  lemma {:induction false} PackFailed(out: seq<Unit>, index: Index, i: nat)
    requires i <= |out| && PackUnits(out[..i], index).None?
    ensures PackUnits(out, index).None?
  {
    hide OneUnit;
    if i == |out| {
      assert out[..i] == out;
    } else {
      var n := |out| - 1;
      assert out[..n][..i] == out[..i];
      PackFailed(out[..n], index, i);
    }
  }

  /** Packing works unit by unit. */
  lemma {:induction false} UnitsPacked(units: seq<Unit>, index: Index)
    ensures PackUnits(units, index).Some? ==>
      forall j :: 0 <= j < |units| ==> OneUnit(units[j], index) == Some(PackUnits(units, index).value[j])
    ensures PackUnits(units, index).None? ==> exists j :: 0 <= j < |units| && OneUnit(units[j], index).None?
  {
    hide OneUnit;
    if units != [] {
      var n := |units| - 1;
      UnitsPacked(units[..n], index);
      if PackUnits(units[..n], index).None? {
        var j :| 0 <= j < |units[..n]| && OneUnit(units[..n][j], index).None?;
        assert OneUnit(units[j], index).None?;
      } else {
        assert OneUnit(units[n], index) == OneUnit(units[|units| - 1], index);
      }
    }
  }

  lemma SlotInside(prog: seq<Line>, f: Frame, j: nat)
    requires AllWritable(prog, f) && j < |Slots(BlocksOf(prog, f))|
    ensures 0 <= Slots(BlocksOf(prog, f))[j].0 < |Flat(BlocksOf(prog, f))|
  {
    hide Flat, Slots;
    var bs := BlocksOf(prog, f);
    HasTwoUnits(prog, f);
    var k := SlotsAt(bs, j);
    FlatAt(bs, k);
  }

  lemma NothingPatched(bs: seq<Block>, labels: Labels)
    ensures PatchedTo(bs, labels, Flat(bs), 0)
  {
    hide Flat, Slots;
  }

  /** Patching slot by slot gives the patched units, or fails on a label out of reach. */
  lemma {:induction false} PatchIs(bs: seq<Block>, labels: Labels, n: nat)
    requires TwoUnits(bs) && n <= |Slots(bs)|
    ensures Patch(Flat(bs), Slots(bs)[..n], labels).Some? ==>
      PatchedTo(bs, labels, Patch(Flat(bs), Slots(bs)[..n], labels).value, n)
    ensures Patch(Flat(bs), Slots(bs)[..n], labels).None? ==>
      exists s :: 0 <= s < n && !InRange(labels, Slots(bs)[s].0 - 1, Slots(bs)[s].1)
  {
    hide InRange, Flat, Slots, PatchedTo;
    if n == 0 {
      NothingPatched(bs, labels);
    } else {
      PatchIs(bs, labels, n - 1);
      PatchOneMore(Flat(bs), Slots(bs), labels, n - 1);
      var slot := Slots(bs)[n - 1];
      var k := SlotsAt(bs, n - 1);
      FlatAt(bs, k);
      if Patch(Flat(bs), Slots(bs)[..n - 1], labels).Some? && InRange(labels, slot.0 - 1, slot.1) {
        PatchNext(bs, labels, Patch(Flat(bs), Slots(bs)[..n - 1], labels).value, n - 1);
      }
    }
  }

  /**
   Patched and packed units are the code of the lines; patching or packing fails exactly on a line
   left unresolved.
   */
  lemma Assembles(prog: seq<Line>, f: Frame, labels: Labels, index: Index)
    requires AllWritable(prog, f)
    ensures var out := Patch(Flat(BlocksOf(prog, f)), Slots(BlocksOf(prog, f)), labels);
      if out.Some? && PackUnits(out.value, index).Some? then
        CodeOf(prog, f, labels, index, PackUnits(out.value, index).value) && !Unresolved(prog, f, labels, index)
      else Unresolved(prog, f, labels, index)
  {
    hide Flat, Slots, InRange, OneUnit, PatchedTo, CodeOf, PackedBlocks;
    var bs := BlocksOf(prog, f);
    HasTwoUnits(prog, f);
    assert Slots(bs)[..|Slots(bs)|] == Slots(bs);
    PatchIs(bs, labels, |Slots(bs)|);
    var out := Patch(Flat(bs), Slots(bs), labels);
    if out.None? {
      var s :| 0 <= s < |Slots(bs)| && !InRange(labels, Slots(bs)[s].0 - 1, Slots(bs)[s].1);
      OutOfReach(prog, f, labels, index, s);
    } else {
      UnitsPacked(out.value, index);
      var packed := PackUnits(out.value, index);
      if packed.None? {
        var i :| 0 <= i < |out.value| && OneUnit(out.value[i], index).None?;
        NoUnit(prog, f, labels, index, out.value, i);
      } else {
        AllPacked(bs, labels, index, out.value, packed.value);
        PackedCode(prog, f, labels, index, packed.value);
        PackedResolved(prog, f, labels, index, packed.value);
      }
    }
  }

  lemma OutOfReach(prog: seq<Line>, f: Frame, labels: Labels, index: Index, s: nat)
    requires AllWritable(prog, f) && s < |Slots(BlocksOf(prog, f))|
    requires !InRange(labels, Slots(BlocksOf(prog, f))[s].0 - 1, Slots(BlocksOf(prog, f))[s].1)
    ensures Unresolved(prog, f, labels, index)
  {
    hide InRange;
    var bs := BlocksOf(prog, f);
    var k := SlotsAt(bs, s);
    assert Resolve(prog[k], At(bs, k), labels, index).None?;
  }
}
