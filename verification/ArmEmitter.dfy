/** The generator as it runs: it appends to the output file while tracking the mode, the byte
    count and the alignment wanted, and is proved to write the images of `ArmGenerator`.
 */
module ArmEmitter {
  import opened Wrappers
  import opened Powers
  import opened ArmMachine
  import opened ArmAddressing
  import opened ArmGenerator
  import opened ArmExec
  import opened ArmImage

  class Emitter {
    const target: Target
    var cells: seq<Cell>
    var bytecount: nat
    var isThumb: bool
    var alignment: int

    constructor (target: Target)
      ensures Valid() && this.target == target && Value() == Out([], false)
    {
      this.target := target;
      cells, bytecount, isThumb, alignment := [], 0, false, 0;
    }

    predicate A64() { target.TestA64? }

    ghost predicate Valid()
      reads this
    {
      bytecount == 2 * |cells|
    }

    ghost function Value(): Out
      reads this
    {
      Out(cells, isThumb)
    }

    /** `insn16`, `insn32` */
    method Insn(insn: Insn)
      requires Valid()
      modifies this
      ensures Valid() && Value() == Put(A64(), old(Value()), insn) && alignment == old(alignment)
    {
      var mode := if A64() then ArmMachine.A64 else if isThumb then Thumb else Arm;
      cells := cells + InsnCells(mode, insn);
      bytecount := bytecount + 2 * Size(mode, insn);
    }

    method Code(code: seq<Insn>)
      requires Valid()
      modifies this
      ensures Valid() && Value() == PutAll(A64(), old(Value()), code) && alignment == old(alignment)
    {
      hide Put;
      ghost var goal := PutAll(A64(), Value(), code);
      for i := 0 to |code|
        invariant Valid() && PutAll(A64(), Value(), code[i..]) == goal && alignment == old(alignment)
      {
        assert code[i..][1..] == code[i + 1..];
        Insn(code[i]);
      }
    }

    /** `insn32` on random data, in a loop. */
    method Data(words: seq<nat>)
      requires Valid()
      modifies this
      ensures Valid() && Value() == PutWords(old(Value()), words) && alignment == old(alignment)
    {
      ghost var start := cells;
      for i := 0 to |words|
        invariant Valid() && cells == start + WordCells(words[..i])
        invariant isThumb == old(isThumb) && alignment == old(alignment)
      {
        assert words[..i + 1][..i] == words[..i];
        cells := cells + [Word(words[i]), WordTail];
        bytecount := bytecount + 4;
      }
      assert words[..|words|] == words;
    }

    // -------------------------------------------------------------- modes

    method ThumbAlign4()
      requires Valid() && !A64()
      modifies this
      ensures Valid() && Value() == ThumbAlign(old(Value())) && alignment == old(alignment)
    {
      hide Put;
      if bytecount % 4 != 0 {
        Insn(Nop);
      }
    }

    method WriteSwitchToThumb()
      requires Valid() && !A64()
      modifies this
      ensures Valid() && Value() == SwitchToThumb(old(Value())) && alignment == old(alignment)
    {
      hide Put, PutAll;
      if !isThumb {
        Code([AddPc(0, 1), BranchReg(0)]);
        isThumb := true;
        Insn(XorSelf(0));
      }
    }

    method WriteSwitchToArm()
      requires Valid() && (A64() ==> !isThumb)
      modifies this
      ensures Valid() && Value() == SwitchToArm(old(Value())) && alignment == old(alignment)
    {
      hide Put, PutAll, ThumbAlign;
      if isThumb {
        ThumbAlign4();
        Code([BranchPc, Nop]);
        isThumb := false;
      }
    }

    method WriteSwitchToTestMode()
      requires Valid() && (A64() ==> !isThumb)
      modifies this
      ensures Valid() && Value() == ToTestMode(target, old(Value())) && alignment == old(alignment)
    {
      hide SwitchToThumb, SwitchToArm;
      if A64() {
        return;
      }
      if target.TestThumb? {
        WriteSwitchToThumb();
      } else {
        WriteSwitchToArm();
      }
    }

    // -------------------------------------------------------------- addressing

    /** `align`: stops the generator on anything but a power of two up to 64. */
    method Align(a: int) returns (ok: bool)
      requires Valid()
      modifies this`alignment
      ensures Valid() && ok == PowerOfTwo(a) && alignment == if ok then a else old(alignment)
    {
      SmallPowers(a);
      if !IsPowOf2(a) || a < 0 || a > MAXALIGN {
        return false;
      }
      alignment := a;
      return true;
    }

    method WriteMovRi(rd: Reg, imm: int)
      requires Valid()
      modifies this
      ensures Valid() && Value() == PutAll(A64(), old(Value()), MovRi(A64(), rd, imm)) && alignment == old(alignment)
    {
      hide Put, PutAll;
      var high := imm / 0x10000 % 0x10000;
      var negative := A64() && imm < 0;
      var first := if negative then MovN(rd, 0xFFFF - imm % 0x10000) else MovZ(rd, imm % 0x10000);
      PutOne(A64(), Value(), first);
      PutPair(A64(), Value(), first, MovK(rd, high));
      assert [first] + [] == [first];
      Insn(first);
      if high != if negative then 0xFFFF else 0 {
        Insn(MovK(rd, high));
      }
    }

    /** `write_get_offset`; `random` is the random position drawn. */
    method WriteGetOffset(random: nat)
      requires Valid() && alignment > 0
      modifies this
      ensures Valid() && alignment == old(alignment)
      ensures Value() == PutAll(A64(), old(Value()), GetOffset(A64(), Offset(random, alignment)))
    {
      hide Put, PutAll, MovRi;
      var offset := Offset(random, alignment);
      PutAllThen(A64(), Value(), MovRi(A64(), 0, offset), Risuop(GetMemblock));
      WriteMovRi(0, offset);
      Insn(Risuop(GetMemblock));
    }

    /** `reg`; the result is the base register, or -1 if the access overwrites it. */
    method Reg(base: Reg, random: nat, trashed: seq<Reg>) returns (basereg: int)
      requires Valid() && alignment > 0
      modifies this
      ensures Valid() && alignment == old(alignment)
      ensures Value() == PutAll(A64(), old(Value()), RegCode(A64(), base, Offset(random, alignment)))
      ensures basereg == if base in trashed then -1 else base
    {
      hide Put, PutAll, MovRi, GetOffset;
      ghost var o, a := Value(), A64();
      ghost var get := GetOffset(a, Offset(random, alignment));
      WriteGetOffset(random);
      if base != 0 {
        PutAllAppend(a, o, get, [MovReg(base, 0)] + MovRi(a, 0, 0));
        PutOneThen(a, Value(), MovReg(base, 0), MovRi(a, 0, 0));
        Insn(MovReg(base, 0));
        WriteMovRi(0, 0);
      } else {
        assert get + [] == get;
      }
      basereg := if base in trashed then -1 else base;
    }

    /** `reg_plus_imm` */
    method RegPlusImm(base: Reg, imm: int, random: nat, trashed: seq<Reg>) returns (basereg: int)
      requires Valid() && alignment > 0
      modifies this
      ensures Valid() && alignment == old(alignment)
      ensures var off := Offset(random, alignment);
        Value() == PutAll(A64(), old(Value()), ArmAddressing.RegPlusImm(A64(), base, imm, off))
      ensures basereg == if base in trashed then -1 else base
    {
      hide Put, PutAll, MovRi, GetOffset, RegCode;
      if imm == 0 {
        basereg := Reg(base, random, trashed);
        return;
      }
      ghost var o, a := Value(), A64();
      ghost var get := GetOffset(a, Offset(random, alignment));
      WriteGetOffset(random);
      if base != 0 {
        ghost var sub := SubReg(base, 0, base, 0);
        PutAllAppend(a, o, get, MovRi(a, base, imm) + [sub] + MovRi(a, 0, 0));
        PutAllAppend(a, Value(), MovRi(a, base, imm) + [sub], MovRi(a, 0, 0));
        PutAllThen(a, Value(), MovRi(a, base, imm), sub);
        WriteMovRi(base, imm);
        Insn(SubReg(base, 0, base, 0));
        WriteMovRi(0, 0);
      } else {
        PutAllAppend(a, o, get, MovRi(a, 1, imm) + [SubReg(0, 0, 1, 0)]);
        PutAllThen(a, Value(), MovRi(a, 1, imm), SubReg(0, 0, 1, 0));
        WriteMovRi(1, imm);
        Insn(SubReg(0, 0, 1, 0));
      }
      basereg := if base in trashed then -1 else base;
    }

    /** `reg_plus_reg_shifted`; nothing is written for a shift the architecture lacks. */
    method RegPlusRegShifted(base: Reg, index: Reg, shift: nat, random: nat, trashed: seq<Reg>)
      returns (basereg: Option<int>)
      requires Valid() && alignment > 0
      modifies this
      ensures Valid() && alignment == old(alignment)
      ensures basereg.None? <==> shift > (if A64() then 4 else 3)
      ensures basereg.None? ==> Value() == old(Value())
      ensures basereg.Some? ==> basereg.value == if base in trashed then -1 else base
      ensures basereg.Some? ==>
        Value() == PutAll(A64(), old(Value()), RegPlusReg(A64(), base, index, shift, Offset(random, alignment)))
    {
      hide Put, PutAll, MovRi, GetOffset;
      if shift > 4 || (!A64() && shift == 4) {
        return None;
      }
      ghost var o, a := Value(), A64();
      ghost var get := GetOffset(a, Offset(random, alignment));
      var idx, saved := index, false;
      if idx == 0 {
        idx := 1;
        if idx == base {
          idx := 2;
        }
        saved := true;
        PutOneThen(a, o, MovReg(idx, 0), get);
        Insn(MovReg(idx, 0));
      }
      ghost var begin := (if saved then [MovReg(idx, 0)] else []) + get;
      assert !saved ==> begin == get;
      WriteGetOffset(random);
      assert Value() == PutAll(a, o, begin);
      PutAllThen(a, o, begin, SubReg(base, 0, idx, shift));
      Insn(SubReg(base, 0, idx, shift));
      if saved {
        PutAllThen(a, o, begin + [SubReg(base, 0, idx, shift)], MovReg(0, idx));
        assert RegPlusReg(a, base, index, shift, Offset(random, alignment)) ==
          begin + [SubReg(base, 0, idx, shift)] + [MovReg(0, idx)];
        Insn(MovReg(0, idx));
      } else if base != 0 {
        PutAllAppend(a, o, begin + [SubReg(base, 0, idx, shift)], MovRi(a, 0, 0));
        WriteMovRi(0, 0);
      } else {
        assert begin + [SubReg(base, 0, idx, shift)] + [] == begin + [SubReg(base, 0, idx, shift)];
      }
      basereg := Some(if base in trashed then -1 else base);
    }

    // -------------------------------------------------------------- instructions under test

    method DataBarrier()
      requires Valid()
      modifies this
      ensures Valid() && Value() == PutAll(A64(), old(Value()), Barrier(A64())) && alignment == old(alignment)
    {
      if A64() {
        PutOne(true, Value(), Nop);
        hide Put, PutAll;
        Insn(Nop);
      }
    }

    /** The code in front of an access: the pattern's memory block. */
    method WriteMemoryBlock(item: Item) returns (basereg: Option<int>)
      requires Valid() && item.Memory?
      modifies this
      ensures Valid() && (basereg.Some? <==> Accepted(A64(), item))
      ensures Accepted(A64(), item) ==>
        && basereg == Some(if item.address.trashed then -1 else item.address.base)
        && Value() == PutAll(A64(), old(Value()),
             Prologue(A64(), item.address, Offset(item.random, AlignOf(A64(), item))))
    {
      hide Put, PutAll, RegPlusReg, ArmAddressing.RegPlusImm;
      var ok := Align(if A64() then 16 else 4);
      if item.align.Some? {
        ok := Align(item.align.value);
        if !ok {
          return None;
        }
      }
      var address := item.address;
      var trashed := if address.trashed then [address.base] else [];
      if address.index.Some? {
        basereg := RegPlusRegShifted(address.base, address.index.value, address.shift, item.random, trashed);
      } else {
        var b := RegPlusImm(address.base, address.imm, item.random, trashed);
        basereg := Some(b);
      }
    }

    method WriteCleanup(base: Reg)
      requires Valid()
      modifies this
      ensures Valid() && Value() == PutAll(A64(), old(Value()), Cleanup(A64(), base))
    {
      hide Put, PutAll, MovRi;
      ghost var o, a := Value(), A64();
      ghost var zero := MovRi(a, 0, 0);
      assert [Risuop(GetMemblock), SubReg(base, base, 0, 0)] == [Risuop(GetMemblock)] + [SubReg(base, base, 0, 0)];
      PutAllAppend(a, o, zero + ([Risuop(GetMemblock)] + [SubReg(base, base, 0, 0)]), zero);
      PutAllAppend(a, o, zero, [Risuop(GetMemblock)] + [SubReg(base, base, 0, 0)]);
      PutPair(a, PutAll(a, o, zero), Risuop(GetMemblock), SubReg(base, base, 0, 0));
      WriteMovRi(0, 0);
      Insn(Risuop(GetMemblock));
      Insn(SubReg(base, base, 0, 0));
      WriteMovRi(0, 0);
    }

    /** `gen_one_insn` for an instruction already drawn, and the comparison after it; stops on a
        bad alignment or shift. */
    method GenOneInsn(item: Item) returns (ok: bool)
      requires Valid()
      modifies this
      ensures Valid() && ok == Accepted(A64(), item)
      ensures ok ==> Value() == PutAll(A64(), old(Value()), ItemCode(A64(), item))
    {
      hide Put, PutAll, Prologue, Cleanup, Barrier, Offset;
      ghost var o, a := Value(), A64();
      if item.Plain? {
        assert ItemCode(a, item) == [Test(item.n, item.narrow)] + [Risuop(Compare)];
        PutPair(a, o, Test(item.n, item.narrow), Risuop(Compare));
        Insn(Test(item.n, item.narrow));
        Insn(Risuop(Compare));
        return true;
      }
      var basereg := WriteMemoryBlock(item);
      if basereg.None? {
        return false;
      }
      var align := AlignOf(A64(), item);
      var access := Access(item.n, item.narrow, item.address, align);
      ghost var prologue, bar := Prologue(a, item.address, Offset(item.random, align)), Barrier(a);
      PutAllAppend(a, o, prologue, bar);
      DataBarrier();
      PutAllThen(a, o, prologue + bar, access);
      Insn(access);
      PutAllAppend(a, o, prologue + bar + [access], bar);
      DataBarrier();
      ghost var clean := if item.address.trashed then [] else Cleanup(a, item.address.base);
      ghost var before := prologue + bar + [access] + bar;
      PutAllAppend(a, o, before, clean);
      assert before + [] == before;
      if basereg.value != -1 {
        WriteCleanup(basereg.value);
      }
      PutAllThen(a, o, before + clean, Risuop(CompareMem));
      Insn(Risuop(CompareMem));
      PutAllThen(a, o, before + clean + [Risuop(CompareMem)], Risuop(Compare));
      Insn(Risuop(Compare));
      return true;
    }

    // -------------------------------------------------------------- setup

    method WriteRandomArmRegdata(fp: bool, t: Table)
      requires Valid() && !A64()
      modifies this
      ensures Valid() && Value() == ArmRegdata(old(Value()), fp, t)
    {
      hide Put, PutAll, SwitchToArm, PutWords;
      WriteSwitchToArm();
      var datalen := 14 + if fp then 64 else 0;
      Code(ArmLoads(fp) + [Branch(datalen - 1)]);
      Data(t.floats + t.regs);
      Insn(FLAGS);
    }

    method WriteRandomA64Fpdata(words: seq<nat>)
      requires Valid() && A64()
      modifies this
      ensures Valid() && Value() == A64Floats(old(Value()), words)
    {
      hide Put, PutAll, PutWords;
      var align, datalen := 16, 32 * 16 + 16;
      Code([AddPc(0, 3 * 4 + (align - 1)), ClearLow(0, align), Branch(datalen / 4 + 1)]);
      Data(words);
      ghost var goal := PutAll(true, Value(), FloatLoads(0));
      for j := 0 to 16
        invariant Valid() && PutAll(true, Value(), FloatLoads(j)) == goal
      {
        PutOneThen(true, Value(), LoadFloats(j, 0, 8), FloatLoads(j + 1));
        Insn(LoadFloats(j, 0, 8));
      }
      PutNothing(true, Value());
    }

    method WriteRandomA64Regdata(fp: bool, t: Table)
      requires Valid() && A64()
      modifies this
      ensures Valid() && Value() == A64Regdata(old(Value()), fp, t)
    {
      hide Put, PutAll, A64Floats, MovRi;
      Insn(FLAGS);
      if fp {
        WriteRandomA64Fpdata(t.floats);
      }
      ghost var goal := PutAll(true, Value(), Immediates(t.regs, 0));
      for i := 0 to |t.regs|
        invariant Valid() && PutAll(true, Value(), Immediates(t.regs, i)) == goal
      {
        PutAllAppend(true, Value(), MovRi(true, i, t.regs[i]), Immediates(t.regs, i + 1));
        WriteMovRi(i, t.regs[i]);
      }
      PutNothing(true, Value());
    }

    method WriteRandomRegisterData(fp: bool, t: Table)
      requires Valid()
      modifies this
      ensures Valid() && Value() == RegisterData(A64(), old(Value()), fp, t)
    {
      hide Put, A64Regdata, ArmRegdata;
      if A64() {
        WriteRandomA64Regdata(fp, t);
      } else {
        WriteRandomArmRegdata(fp, t);
      }
      Insn(Risuop(Compare));
    }

    method WriteMemblockSetup(words: seq<nat>)
      requires Valid() && (A64() ==> !isThumb)
      modifies this
      ensures Valid() && Value() == MemblockSetup(A64(), old(Value()), words)
    {
      hide Put, PutAll, PutWords, SwitchToArm;
      WriteSwitchToArm();
      var adr := 4 * 4 + (MAXALIGN - 1);
      var jump := if A64() then DATALEN / 4 + 1 else DATALEN / 4 - 1;
      Code([AddPc(0, if A64() then adr else adr - 8), ClearLow(0, MAXALIGN), Risuop(SetMemblock), Branch(jump)]);
      Data(words);
    }

    method WriteSetFpscr(fpscr: nat)
      requires Valid()
      modifies this
      ensures Valid() && Value() == SetFpscr(A64(), old(Value()), fpscr)
    {
      hide Put, PutAll, SwitchToArm, FpscrCode;
      if !A64() {
        WriteSwitchToArm();
      }
      Code(FpscrCode(A64(), fpscr));
    }

    method WriteHead(p: Program)
      requires Valid() && Value() == Out([], false) && Fits(p) && p.target == target
      modifies this
      ensures Valid() && Value() == Head(p)
    {
      hide Put, PutAll, SetFpscr, MemblockSetup, RegisterData, ToTestMode, Fits, Level;
      if p.fpscr.Some? {
        WriteSetFpscr(p.fpscr.value);
      }
      assert Value() == AfterFpscr(p);
      HeadLevel(p);
      LevelMode(A64(), Value());
      if p.block.Some? {
        WriteMemblockSetup(p.block.value);
      }
      WriteRandomRegisterData(p.fpscr.Some?, p.first);
      DataLevel(A64(), AfterBlock(p), p.fpscr.Some?, p.first);
      WriteSwitchToTestMode();
    }

    /** One instruction, and fresh register data after every hundredth. */
    method WriteTurn(p: Program, i: nat)
      requires Valid() && Fits(p) && p.target == target && i < |p.items| && Value() == Turns(p, i)
      modifies this
      ensures Valid() && Value() == Turn(p, old(Value()), i)
    {
      TurnsLevel(p, i);
      TurnLevel(p, Turns(p, i), i);
      hide Put, PutAll, Turns, RegisterData, ToTestMode, ItemCode, Promised, TableFits, Level;
      var ok := GenOneInsn(p.items[i]);
      if (i + 1) % 100 == 0 {
        var table := p.tables[(i + 1) / 100 - 1];
        DataLevel(A64(), Value(), p.fpscr.Some?, table);
        WriteRandomRegisterData(p.fpscr.Some?, table);
        WriteSwitchToTestMode();
      }
    }

    /** `write_test_code`: the file is the image of the program. */
    method WriteTestCode(p: Program)
      requires Valid() && Value() == Out([], false) && Fits(p) && p.target == target
      modifies this
      ensures Valid() && cells == Image(p)
    {
      hide Put, Head, Turn, Fits;
      WriteHead(p);
      for i := 0 to |p.items|
        invariant Valid() && Value() == Turns(p, i)
      {
        WriteTurn(p, i);
      }
      Insn(Risuop(TestEnd));
    }
  }

  /** The bit test and the bound leave seven alignments. */
  lemma SmallPowers(a: int)
    ensures PowerOfTwo(a) <==> IsPowOf2(a) && a <= MAXALIGN
  {
    PowOf2Test(a);
    if 0 < a <= MAXALIGN {
      var k := Log2(a);
      Log2Bounds(a);
      FirstPowers();
      hide Pow2, Log2, And;
      if k > 6 {
        Pow2Grows(7, k);
      }
      if PowerOfTwo(a) {
        Log2Unique(a, if a == 1 then 0 else if a == 2 then 1 else if a == 4 then 2 else if a == 8 then 3
          else if a == 16 then 4 else if a == 32 then 5 else 6);
      }
    }
  }

  lemma FirstPowers()
    ensures Pow2(0) == 1 && Pow2(1) == 2 && Pow2(2) == 4 && Pow2(3) == 8 && Pow2(4) == 16 && Pow2(5) == 32
    ensures Pow2(6) == 64 && Pow2(7) == 128
  {
    assert Pow2(3) == 8 && Pow2(5) == 32;
  }

  lemma PutNothing(a64: bool, o: Out)
    ensures PutAll(a64, o, []) == o
  {
  }

  lemma LevelMode(a64: bool, o: Out)
    requires Level(a64, o)
    ensures a64 ==> !o.thumb
  {
  }

  lemma PutAllThen(a64: bool, o: Out, code: seq<Insn>, insn: Insn)
    ensures PutAll(a64, o, code + [insn]) == Put(a64, PutAll(a64, o, code), insn)
  {
    hide Put, PutAll;
    PutAllAppend(a64, o, code, [insn]);
    PutOne(a64, PutAll(a64, o, code), insn);
  }

  lemma PutOneThen(a64: bool, o: Out, insn: Insn, code: seq<Insn>)
    ensures PutAll(a64, o, [insn] + code) == PutAll(a64, Put(a64, o, insn), code)
  {
    hide Put, PutAll;
    PutAllAppend(a64, o, [insn], code);
    PutOne(a64, o, insn);
  }

  lemma PutPair(a64: bool, o: Out, x: Insn, y: Insn)
    ensures PutAll(a64, o, [x] + [y]) == Put(a64, Put(a64, o, x), y)
  {
    hide Put, PutAll;
    PutAllAppend(a64, o, [x], [y]);
    PutOne(a64, o, x);
    PutOne(a64, Put(a64, o, x), y);
  }
}
