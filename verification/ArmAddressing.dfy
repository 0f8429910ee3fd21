/** The code around a memory access under test: a prologue that makes the addressing mode hit the
    memory block, and a cleanup that takes the block's address out of the registers again.
 */
module ArmAddressing {
  import opened Wrappers
  import opened ArmMachine
  import opened Modular

  // ---------------------------------------------------------------- the emitted code

  /** `write_mov_ri` */
  function MovRi(a64: bool, rd: Reg, imm: int): (code: seq<Insn>)
    ensures forall i :: 0 <= i < |code| ==> RegInsn(code[i])
  {
    var high := imm / 0x10000 % 0x10000;
    if a64 && imm < 0 then [MovN(rd, 0xFFFF - imm % 0x10000)] + (if high != 0xFFFF then [MovK(rd, high)] else [])
    else [MovZ(rd, imm % 0x10000)] + (if high != 0 then [MovK(rd, high)] else [])
  }

  /** The offset into the block: a random position, rounded down to the alignment. */
  function Offset(random: nat, align: nat): nat
    requires align > 0
  {
    var x := random + 256;
    x - x % align
  }

  /** `write_get_offset` */
  function GetOffset(a64: bool, off: nat): seq<Insn> { MovRi(a64, 0, off) + [Risuop(GetMemblock)] }

  /** `reg` */
  function RegCode(a64: bool, base: Reg, off: nat): seq<Insn> {
    GetOffset(a64, off) + if base != 0 then [MovReg(base, 0)] + MovRi(a64, 0, 0) else []
  }

  /** `reg_plus_imm` */
  function RegPlusImm(a64: bool, base: Reg, imm: int, off: nat): seq<Insn> {
    if imm == 0 then RegCode(a64, base, off)
    else
      GetOffset(a64, off) +
      if base != 0 then MovRi(a64, base, imm) + [SubReg(base, 0, base, 0)] + MovRi(a64, 0, 0)
      else MovRi(a64, 1, imm) + [SubReg(0, 0, 1, 0)]
  }

  /** `reg_plus_reg_shifted`; an index in r0 is parked elsewhere while r0 carries the address. */
  function RegPlusReg(a64: bool, base: Reg, index: Reg, shift: nat, off: nat): seq<Insn> {
    if index == 0 then
      var parked := if base == 1 then 2 else 1;
      [MovReg(parked, 0)] + GetOffset(a64, off) + [SubReg(base, 0, parked, shift), MovReg(0, parked)]
    else
      GetOffset(a64, off) + [SubReg(base, 0, index, shift)] + if base != 0 then MovRi(a64, 0, 0) else []
  }

  function Prologue(a64: bool, address: Address, off: nat): seq<Insn> {
    if address.index.Some? then RegPlusReg(a64, address.base, address.index.value, address.shift, off)
    else RegPlusImm(a64, address.base, address.imm, off)
  }

  /** The code after the access, if the base register still holds an address. */
  function Cleanup(a64: bool, base: Reg): seq<Insn> {
    MovRi(a64, 0, 0) + [Risuop(GetMemblock), SubReg(base, base, 0, 0)] + MovRi(a64, 0, 0)
  }

  /** What the generator can be asked for: the modes it has functions for. */
  ghost predicate Supported(a64: bool, address: Address) {
    && address.base < RegCount(a64)
    && (address.index.Some? ==>
        address.index.value < RegCount(a64) && address.imm == 0 && address.shift <= (if a64 then 4 else 3))
  }

  // ---------------------------------------------------------------- running straight-line code

  function RunRegs(a64: bool, block: nat, code: seq<Insn>, r: seq<nat>): (s: seq<nat>)
    ensures |s| == |r|
  {
    if code == [] then r else RunRegs(a64, block, code[1..], RegStep(a64, block, code[0], r))
  }

  lemma {:induction false} RunAppend(a64: bool, block: nat, c: seq<Insn>, d: seq<Insn>, r: seq<nat>)
    ensures RunRegs(a64, block, c + d, r) == RunRegs(a64, block, d, RunRegs(a64, block, c, r))
  {
    hide RegStep;
    if c == [] {
      assert c + d == d;
    } else {
      assert (c + d)[1..] == c[1..] + d;
      RunAppend(a64, block, c[1..], d, RegStep(a64, block, c[0], r));
    }
  }

  lemma RunOne(a64: bool, block: nat, insn: Insn, r: seq<nat>)
    ensures RunRegs(a64, block, [insn], r) == RegStep(a64, block, insn, r)
  {
    hide RegStep;
    assert [insn][1..] == [];
  }

  // ---------------------------------------------------------------- immediates and offsets

  /** What `write_mov_ri` really loads. */
  function MovRiValue(a64: bool, imm: int): nat {
    if a64 && imm < 0 then M64 - M32 + imm % M32 else imm % M32
  }

  /** The two halves of the code rebuild the value. */
  lemma Halves(imm: int)
    ensures var low, high := imm % 0x10000, imm / 0x10000 % 0x10000;
      && 0 <= low < 0x10000 && 0 <= high < 0x10000
      && high * 0x10000 + low == imm % M32
  {
  }

  lemma LoneHalf(imm: int)
    ensures imm / 0x10000 % 0x10000 == 0 ==> imm % 0x10000 == imm % M32
    ensures imm / 0x10000 % 0x10000 == 0xFFFF ==>
      (-1 - (0xFFFF - imm % 0x10000)) % M64 == M64 - M32 + imm % M32
  {
  }

  lemma KeepLow(low: nat, high: nat)
    requires low < 0x10000 && high < 0x10000
    ensures low / M32 * M32 + high * 0x10000 + low % 0x10000 == high * 0x10000 + low
    ensures var v := (-1 - (0xFFFF - low)) % M64;
      v / M32 * M32 + high * 0x10000 + v % 0x10000 == M64 - M32 + high * 0x10000 + low
  {
    var v := (-1 - (0xFFFF - low)) % M64;
    assert v == M64 - 0x10000 + low;
    assert v / M32 == 0xFFFF_FFFF;
    assert v % 0x10000 == low;
  }

  predicate NeedsHigh(a64: bool, imm: int) {
    imm / 0x10000 % 0x10000 != if a64 && imm < 0 then 0xFFFF else 0
  }

  /** The register after the first instruction. */
  function FirstValue(a64: bool, imm: int): nat {
    if a64 && imm < 0 then (-1 - (0xFFFF - imm % 0x10000)) % Modulus(a64) else imm % 0x10000
  }

  lemma MovRiValues(a64: bool, imm: int)
    ensures !NeedsHigh(a64, imm) ==> FirstValue(a64, imm) == MovRiValue(a64, imm)
    ensures NeedsHigh(a64, imm) ==>
      var v := FirstValue(a64, imm);
      v / M32 * M32 + imm / 0x10000 % 0x10000 * 0x10000 + v % 0x10000 == MovRiValue(a64, imm)
  {
    Halves(imm);
    LoneHalf(imm);
    KeepLow(imm % 0x10000, imm / 0x10000 % 0x10000);
  }

  lemma MovRiRuns(a64: bool, block: nat, rd: Reg, imm: int, r: seq<nat>)
    ensures RunRegs(a64, block, MovRi(a64, rd, imm), r) == Set(r, rd, MovRiValue(a64, imm))
  {
    hide RunRegs, FirstValue, MovRiValue, Set, Get;
    MovRiValues(a64, imm);
    SetSet(r, rd);
    var first := if a64 && imm < 0 then MovN(rd, 0xFFFF - imm % 0x10000) else MovZ(rd, imm % 0x10000);
    FirstRuns(a64, block, rd, imm, r);
    RunOne(a64, block, first, r);
    if !NeedsHigh(a64, imm) {
      assert MovRi(a64, rd, imm) == [first];
    } else {
      var second := MovK(rd, imm / 0x10000 % 0x10000);
      assert MovRi(a64, rd, imm) == [first] + [second];
      RunAppend(a64, block, [first], [second], r);
      RunOne(a64, block, second, Set(r, rd, FirstValue(a64, imm)));
      SecondRuns(a64, block, rd, second.imm, r, FirstValue(a64, imm));
    }
  }

  lemma FirstRuns(a64: bool, block: nat, rd: Reg, imm: int, r: seq<nat>)
    ensures var first := if a64 && imm < 0 then MovN(rd, 0xFFFF - imm % 0x10000) else MovZ(rd, imm % 0x10000);
      RegStep(a64, block, first, r) == Set(r, rd, FirstValue(a64, imm))
  {
  }

  lemma SecondRuns(a64: bool, block: nat, rd: Reg, high: nat, r: seq<nat>, v: nat)
    ensures RegStep(a64, block, MovK(rd, high), Set(r, rd, v)) ==
      Set(r, rd, v / M32 * M32 + high * 0x10000 + v % 0x10000)
  {
    SetSet(r, rd);
  }

  lemma SetSet(r: seq<nat>, i: Reg)
    ensures forall v: nat, w: nat :: Set(Set(r, i, v), i, w) == Set(r, i, w)
    ensures forall v: nat :: Get(Set(r, i, v), i) == if i < |r| then v else 0
  {
  }

  /** The load is exact precisely on the 33-bit signed range of A64, and always on ARM; the
      immediate is any integer of the generator, which has 64 bits. */
  lemma MovRiExact(a64: bool, imm: int)
    requires -M64 / 2 <= imm < M64
    ensures MovRiValue(a64, imm) == imm % Modulus(a64) <==> !a64 || -M32 <= imm < M32
  {
  }

  /** Offsets are aligned and keep clear of both ends of the first 2 KiB of the block. */
  lemma OffsetInRange(random: nat, align: nat)
    requires random < 1536 && align in {1, 2, 4, 8, 16, 32, 64}
    ensures 256 <= Offset(random, align) <= 1791 && Offset(random, align) % align == 0
  {
    RoundDown(random + 256, align, 256 / align);
  }

  // ---------------------------------------------------------------- the prologue

  lemma GetOffsetRuns(a64: bool, block: nat, off: nat, r: seq<nat>)
    requires off < 2048 && 0 < |r|
    ensures RunRegs(a64, block, GetOffset(a64, off), r) == Set(r, 0, (off + block) % Modulus(a64))
  {
    hide RunRegs;
    MovRiRuns(a64, block, 0, off, r);
    RunAppend(a64, block, MovRi(a64, 0, off), [Risuop(GetMemblock)], r);
    RunOne(a64, block, Risuop(GetMemblock), Set(r, 0, off));
    SetSet(r, 0);
  }

  lemma ClearZero(a64: bool, block: nat, r: seq<nat>)
    ensures RunRegs(a64, block, MovRi(a64, 0, 0), r) == Set(r, 0, 0)
  {
    hide RunRegs;
    MovRiRuns(a64, block, 0, 0, r);
  }

  /** The base register must hold the wanted address less the displacement. */
  function BaseValue(a64: bool, block: nat, off: nat, displacement: int): nat {
    ((off + block) % Modulus(a64) - displacement) % Modulus(a64)
  }

  function Parked(base: Reg): Reg { if base == 1 then 2 else 1 }

  /** The registers a prologue leaves; `block` is in the base register and nowhere else. */
  function Prepared(a64: bool, block: nat, address: Address, off: nat, r: seq<nat>): seq<nat> {
    var base := address.base;
    if address.index.None? then
      var v := if address.imm == 0 then 0 else MovRiValue(a64, address.imm);
      var b := BaseValue(a64, block, off, v);
      if base != 0 then Set(Set(r, base, b), 0, 0) else Set(if address.imm == 0 then r else Set(r, 1, v), 0, b)
    else
      var b := BaseValue(a64, block, off, Shl(Get(r, address.index.value), address.shift));
      if address.index.value == 0 then Set(Set(r, Parked(base), Get(r, 0)), base, b)
      else if base != 0 then Set(Set(r, base, b), 0, 0)
      else Set(r, 0, b)
  }

  lemma RegRuns(a64: bool, block: nat, base: Reg, off: nat, r: seq<nat>)
    requires off < 2048 && |r| == RegCount(a64) && base < |r|
    ensures RunRegs(a64, block, RegCode(a64, base, off), r) ==
      Prepared(a64, block, Address(base, 0, None, 0, false), off, r)
  {
    hide RunRegs, GetOffset, MovRi;
    GetOffsetRuns(a64, block, off, r);
    var a := (off + block) % Modulus(a64);
    var r1 := Set(r, 0, a);
    if base != 0 {
      RunAppend(a64, block, GetOffset(a64, off), [MovReg(base, 0)] + MovRi(a64, 0, 0), r);
      RunAppend(a64, block, [MovReg(base, 0)], MovRi(a64, 0, 0), r1);
      RunOne(a64, block, MovReg(base, 0), r1);
      ClearZero(a64, block, Set(r1, base, a));
    } else {
      assert RegCode(a64, base, off) == GetOffset(a64, off);
    }
  }

  lemma RegPlusImmRuns(a64: bool, block: nat, base: Reg, imm: int, off: nat, r: seq<nat>)
    requires off < 2048 && |r| == RegCount(a64) && base < |r| && imm != 0
    ensures RunRegs(a64, block, RegPlusImm(a64, base, imm, off), r) ==
      Prepared(a64, block, Address(base, imm, None, 0, false), off, r)
  {
    hide RunRegs, GetOffset, MovRi, MovRiValue;
    GetOffsetRuns(a64, block, off, r);
    var a, v := (off + block) % Modulus(a64), MovRiValue(a64, imm);
    var temp := if base != 0 then base else 1;
    var sub := SubReg(base, 0, temp, 0);
    var r1 := Set(r, 0, a);
    var r2 := Set(r1, temp, v);
    MovRiRuns(a64, block, temp, imm, r1);
    RunOne(a64, block, sub, r2);
    if base != 0 {
      RunAppend(a64, block, GetOffset(a64, off), MovRi(a64, base, imm) + [sub] + MovRi(a64, 0, 0), r);
      RunAppend(a64, block, MovRi(a64, base, imm) + [sub], MovRi(a64, 0, 0), r1);
      RunAppend(a64, block, MovRi(a64, base, imm), [sub], r1);
      ClearZero(a64, block, RegStep(a64, block, sub, r2));
    } else {
      RunAppend(a64, block, GetOffset(a64, off), MovRi(a64, 1, imm) + [sub], r);
      RunAppend(a64, block, MovRi(a64, 1, imm), [sub], r1);
    }
  }

  lemma RegPlusRegRuns(a64: bool, block: nat, base: Reg, index: Reg, shift: nat, off: nat, r: seq<nat>)
    requires off < 2048 && |r| == RegCount(a64) && base < |r| && index < |r| && index != 0
    ensures RunRegs(a64, block, RegPlusReg(a64, base, index, shift, off), r) ==
      Prepared(a64, block, Address(base, 0, Some(index), shift, false), off, r)
  {
    hide RunRegs, GetOffset, MovRi, Shl;
    GetOffsetRuns(a64, block, off, r);
    var a := (off + block) % Modulus(a64);
    var r1 := Set(r, 0, a);
    var sub := SubReg(base, 0, index, shift);
    RunAppend(a64, block, GetOffset(a64, off), [sub], r);
    RunOne(a64, block, sub, r1);
    if base != 0 {
      RunAppend(a64, block, GetOffset(a64, off) + [sub], MovRi(a64, 0, 0), r);
      ClearZero(a64, block, RegStep(a64, block, sub, r1));
    } else {
      assert RegPlusReg(a64, base, index, shift, off) == GetOffset(a64, off) + [sub];
    }
  }

  lemma RegPlusZeroRuns(a64: bool, block: nat, base: Reg, shift: nat, off: nat, r: seq<nat>)
    requires off < 2048 && |r| == RegCount(a64) && base < |r| && base != 0
    ensures RunRegs(a64, block, RegPlusReg(a64, base, 0, shift, off), r) ==
      Prepared(a64, block, Address(base, 0, Some(0), shift, false), off, r)
  {
    hide RunRegs, GetOffset, Shl;
    var p := Parked(base);
    var a := (off + block) % Modulus(a64);
    var r1 := Set(r, p, Get(r, 0));
    var r2 := Set(r1, 0, a);
    var sub, back := SubReg(base, 0, p, shift), MovReg(0, p);
    RunOne(a64, block, MovReg(p, 0), r);
    GetOffsetRuns(a64, block, off, r1);
    RunOne(a64, block, sub, r2);
    RunOne(a64, block, back, RegStep(a64, block, sub, r2));
    assert RegPlusReg(a64, base, 0, shift, off) == ([MovReg(p, 0)] + GetOffset(a64, off)) + ([sub] + [back]);
    RunAppend(a64, block, [MovReg(p, 0)] + GetOffset(a64, off), [sub] + [back], r);
    RunAppend(a64, block, [MovReg(p, 0)], GetOffset(a64, off), r);
    RunAppend(a64, block, [sub], [back], r2);
  }

  lemma PrologueRuns(a64: bool, block: nat, address: Address, off: nat, r: seq<nat>)
    requires Supported(a64, address) && |r| == RegCount(a64) && off < 2048
    requires address.index != Some(address.base)
    ensures RunRegs(a64, block, Prologue(a64, address, off), r) == Prepared(a64, block, address, off, r)
  {
    hide RunRegs, RegCode, RegPlusReg, GetOffset, MovRi, MovRiValue, Shl, BaseValue;
    var base := address.base;
    if address.index.None? {
      if address.imm == 0 {
        RegRuns(a64, block, base, off, r);
      } else {
        RegPlusImmRuns(a64, block, base, address.imm, off, r);
      }
    } else if address.index.value == 0 {
      RegPlusZeroRuns(a64, block, base, address.shift, off, r);
    } else {
      RegPlusRegRuns(a64, block, base, address.index.value, address.shift, off, r);
    }
  }

  /** Immediates that the code loads exactly. */
  predicate Loadable(a64: bool, imm: int) { !a64 || -M32 <= imm < M32 }

  predicate PerlInteger(i: int) { -M64 / 2 <= i < M64 }

  lemma BaseReaches(a64: bool, block: nat, off: nat, v: int, d: int)
    ensures (BaseValue(a64, block, off, v) + d) % Modulus(a64) == (block + off) % Modulus(a64) <==>
      v % Modulus(a64) == d % Modulus(a64)
  {
    var m, a := Modulus(a64), block + off;
    assert m > 0;
    hide Modulus;
    AddMod(a, -v, m);
    AddMod(a - v, d, m);
    CancelMod(d - v, 0, a, m);
    CancelMod(v, d, -v, m);
  }

  /** The prologue makes the addressing mode hit the wanted place exactly when the immediate can
      be loaded; the index register may hold anything. */
  lemma PrologueHits(a64: bool, block: nat, address: Address, off: nat, r: seq<nat>)
    requires Supported(a64, address) && |r| == RegCount(a64) && off < 2048 && PerlInteger(address.imm)
    requires address.index != Some(address.base)
    ensures var prepared := RunRegs(a64, block, Prologue(a64, address, off), r);
      EffectiveAddress(a64, address, prepared) == (block + off) % Modulus(a64) <==> Loadable(a64, address.imm)
  {
    hide RunRegs, Prologue, MovRiValue, Shl, BaseValue, Modulus;
    PrologueRuns(a64, block, address, off, r);
    MovRiExact(a64, address.imm);
    if address.index.Some? {
      var d := Shl(Get(r, address.index.value), address.shift);
      BaseReaches(a64, block, off, d, d);
    } else {
      var v := if address.imm == 0 then 0 else MovRiValue(a64, address.imm);
      BaseReaches(a64, block, off, v, address.imm);
      SmallResidue(a64, address.imm);
    }
  }

  lemma SmallResidue(a64: bool, imm: int)
    ensures MovRiValue(a64, imm) % Modulus(a64) == MovRiValue(a64, imm)
    ensures Loadable(a64, 0)
  {
  }

  // ---------------------------------------------------------------- base and index

  lemma ZeroOnZeroRuns(a64: bool, block: nat, shift: nat, off: nat, r: seq<nat>)
    requires off < 2048 && |r| == RegCount(a64)
    ensures RunRegs(a64, block, RegPlusReg(a64, 0, 0, shift, off), r) == Set(r, 1, Get(r, 0))
  {
    hide RunRegs, GetOffset, Shl;
    var a := (off + block) % Modulus(a64);
    var r1 := Set(r, 1, Get(r, 0));
    var r2 := Set(r1, 0, a);
    var sub, back := SubReg(0, 0, 1, shift), MovReg(0, 1);
    RunOne(a64, block, MovReg(1, 0), r);
    GetOffsetRuns(a64, block, off, r1);
    RunOne(a64, block, sub, r2);
    RunOne(a64, block, back, RegStep(a64, block, sub, r2));
    assert RegPlusReg(a64, 0, 0, shift, off) == ([MovReg(1, 0)] + GetOffset(a64, off)) + ([sub] + [back]);
    RunAppend(a64, block, [MovReg(1, 0)] + GetOffset(a64, off), [sub] + [back], r);
    RunAppend(a64, block, [MovReg(1, 0)], GetOffset(a64, off), r);
    RunAppend(a64, block, [sub], [back], r2);
  }

  ghost predicate Hits(a64: bool, block: nat, address: Address, off: nat, r: seq<nat>) {
    EffectiveAddress(a64, address, RunRegs(a64, block, Prologue(a64, address, off), r)) == (block + off) % Modulus(a64)
  }

  /** The address that results when one register is both base and index. */
  function Doubled(a64: bool, block: nat, off: nat, base: Reg, shift: nat, v: nat): nat {
    var b := if base == 0 then v else BaseValue(a64, block, off, Shl(v, shift));
    (b + Shl(b, shift)) % Modulus(a64)
  }

  lemma SameRegister(a64: bool, block: nat, address: Address, off: nat, r: seq<nat>)
    requires Supported(a64, address) && |r| == RegCount(a64) && off < 2048
    requires address.index == Some(address.base)
    ensures EffectiveAddress(a64, address, RunRegs(a64, block, Prologue(a64, address, off), r)) ==
      Doubled(a64, block, off, address.base, address.shift, Get(r, address.base))
  {
    hide RunRegs, GetOffset, MovRi, Shl, BaseValue, Modulus, RegPlusReg;
    if address.base == 0 {
      ZeroOnZeroRuns(a64, block, address.shift, off, r);
    } else {
      RegPlusRegRuns(a64, block, address.base, address.base, address.shift, off, r);
    }
  }

  lemma {:induction false} ShlTimes(v: nat, k: nat)
    ensures Shl(v, k) == Shl(1, k) * v && Shl(1, k) >= 1
    ensures k <= 4 ==> Shl(1, k) == [1, 2, 4, 8, 16][k]
  {
    if k > 0 {
      ShlTimes(v, k - 1);
      assert Shl(v, k) == 2 * (Shl(1, k - 1) * v);
    }
  }

  /** Of the register contents 0 and 1, at least one goes wrong. */
  lemma DoubledMisses(a64: bool, block: nat, off: nat, base: Reg, shift: nat)
    requires shift <= 4
    ensures
      || Doubled(a64, block, off, base, shift, 0) != (block + off) % Modulus(a64)
      || Doubled(a64, block, off, base, shift, 1) != (block + off) % Modulus(a64)
  {
    hide Shl, BaseValue;
    ShlTimes(0, shift);
    ShlTimes(1, shift);
    if base != 0 {
      DoubledValues(a64, block, off, base, shift);
      hide Modulus, Doubled;
    }
  }

  lemma DoubledValues(a64: bool, block: nat, off: nat, base: Reg, shift: nat)
    requires shift <= 4 && base != 0
    ensures Doubled(a64, block, off, base, shift, 0) != Doubled(a64, block, off, base, shift, 1)
  {
    hide Doubled, Modulus, Shl;
    ModulusCases(a64);
    var m, a, p := Modulus(a64), (block + off) % Modulus(a64), Shl(1, shift);
    ShlTimes(0, shift);
    BaseBits(m, a, p);
    ShlTimes(1, shift);
    DoubledForm(a64, block, off, base, shift, 0);
    DoubledForm(a64, block, off, base, shift, 1);
    hide BaseValue;
    BaseForm(a64, block, off, 0);
    BaseForm(a64, block, off, p);
    Distinct(m, a, p, (a - p) % m);
  }

  lemma DoubledForm(a64: bool, block: nat, off: nat, base: Reg, shift: nat, v: nat)
    requires base != 0
    ensures var b := BaseValue(a64, block, off, Shl(v, shift));
      Doubled(a64, block, off, base, shift, v) == (b + Shl(1, shift) * b) % Modulus(a64)
  {
    hide Shl, Modulus, BaseValue;
    ShlTimes(BaseValue(a64, block, off, Shl(v, shift)), shift);
  }

  lemma BaseForm(a64: bool, block: nat, off: nat, d: nat)
    ensures BaseValue(a64, block, off, d) == ((block + off) % Modulus(a64) - d) % Modulus(a64)
  {
    hide Modulus;
    assert block + off == off + block;
  }

  lemma ModulusCases(a64: bool)
    ensures (Modulus(a64) == M32 || Modulus(a64) == M64) && Modulus(a64) > 272
  {
  }

  lemma BaseBits(m: nat, a: nat, p: nat)
    requires m == M32 || m == M64
    requires a < m && p <= 16
    ensures a % m == a
    ensures (a - p) % m == a - p || (a - p) % m == a - p + m
  {
  }

  lemma Distinct(m: nat, a: nat, p: nat, b: nat)
    requires p in {1, 2, 4, 8, 16} && m > 272
    requires b == a - p || b == a - p + m
    ensures (a + p * a) % m != (b + p * b) % m
  {
    var t, s := a + p * a, b + p * b;
    var k := if b == a - p then 0 else 1 + p;
    CancelMod(t, s, -s, m);
    if p == 1 {
      RemainderUnique(t - s, m, -k, 2);
    } else if p == 2 {
      RemainderUnique(t - s, m, -k, 6);
    } else if p == 4 {
      RemainderUnique(t - s, m, -k, 20);
    } else if p == 8 {
      RemainderUnique(t - s, m, -k, 72);
    } else {
      RemainderUnique(t - s, m, -k, 272);
    }
  }

  /** The prologue works for every content of the registers exactly when index and base differ. */
  lemma IndexMustDiffer(a64: bool, block: nat, address: Address, off: nat)
    requires Supported(a64, address) && off < 2048 && PerlInteger(address.imm) && Loadable(a64, address.imm)
    ensures (forall r :: |r| == RegCount(a64) ==> Hits(a64, block, address, off, r)) <==>
      address.index != Some(address.base)
  {
    hide RunRegs, Prologue, EffectiveAddress, Doubled, Modulus;
    if address.index == Some(address.base) {
      var zeros: seq<nat>, ones: seq<nat> := seq(RegCount(a64), _ => 0), seq(RegCount(a64), _ => 1);
      SameRegister(a64, block, address, off, zeros);
      SameRegister(a64, block, address, off, ones);
      DoubledMisses(a64, block, off, address.base, address.shift);
      assert !Hits(a64, block, address, off, zeros) || !Hits(a64, block, address, off, ones);
    } else {
      forall r | |r| == RegCount(a64) ensures Hits(a64, block, address, off, r) {
        PrologueHits(a64, block, address, off, r);
      }
    }
  }

  // ---------------------------------------------------------------- cleanup

  /** The base register less the address of the block. */
  function Retreat(a64: bool, v: nat, block: nat): nat { (v - block % Modulus(a64)) % Modulus(a64) }

  lemma CleanupRuns(a64: bool, block: nat, base: Reg, r: seq<nat>)
    requires |r| == RegCount(a64) && base < |r|
    ensures RunRegs(a64, block, Cleanup(a64, base), r) ==
      Set(Set(r, base, Retreat(a64, Get(r, base), block)), 0, 0)
  {
    hide RunRegs, MovRi;
    var get, sub := Risuop(GetMemblock), SubReg(base, base, 0, 0);
    var r1 := Set(r, 0, 0);
    var r2 := RegStep(a64, block, get, r1);
    assert Cleanup(a64, base) == MovRi(a64, 0, 0) + ([get] + [sub]) + MovRi(a64, 0, 0);
    RunAppend(a64, block, MovRi(a64, 0, 0) + ([get] + [sub]), MovRi(a64, 0, 0), r);
    RunAppend(a64, block, MovRi(a64, 0, 0), [get] + [sub], r);
    ClearZero(a64, block, r);
    RunAppend(a64, block, [get], [sub], r1);
    RunOne(a64, block, get, r1);
    RunOne(a64, block, sub, r2);
    ClearZero(a64, block, RegStep(a64, block, sub, r2));
  }

  // ---------------------------------------------------------------- the whole access

  /** Prologue, access and cleanup on the processor. */
  function AccessRun<X>(h: Host<X>, n: nat, address: Address, align: nat, off: nat, c: Core<X>): Option<Core<X>> {
    var ready := c.(regs := RunRegs(h.a64, BlockOf(c), Prologue(h.a64, address, off), c.regs));
    var done := DoAccess(h, n, address, align, ready);
    if done.None? || address.trashed then done
    else Some(done.value.(regs := RunRegs(h.a64, BlockOf(c), Cleanup(h.a64, address.base), done.value.regs)))
  }

  /** The same in terms of offsets: no block address occurs. */
  function AccessEffect<X>(h: Host<X>, n: nat, address: Address, off: nat, regs: seq<nat>, rest: X): Outcome<X> {
    var ready := Prepared(h.a64, 0, address, off, regs);
    var out := h.access(n, Set(ready, address.base, 0), off, rest);
    if address.trashed then out
    else
      var base := Advance(h.a64, Get(ready, address.base), out.delta);
      out.(regs := Set(Set(out.regs, address.base, base), 0, 0))
  }

  /** Where a memory block may lie. */
  predicate BlockAt(a64: bool, block: nat) { block % 64 == 0 && block + 8192 <= Modulus(a64) }

  lemma PreparedShifts(a64: bool, block: nat, address: Address, off: nat, r: seq<nat>)
    requires Supported(a64, address) && |r| == RegCount(a64)
    ensures var p0, p := Prepared(a64, 0, address, off, r), Prepared(a64, block, address, off, r);
      && |p0| == |p| == |r|
      && Set(p, address.base, 0) == Set(p0, address.base, 0)
      && Get(p, address.base) == Advance(a64, Get(p0, address.base), block)
  {
    hide Shl, MovRiValue, BaseValue, Advance;
    var base := address.base;
    if address.index.None? {
      var v := if address.imm == 0 then 0 else MovRiValue(a64, address.imm);
      BaseShifts(a64, block, off, v);
    } else {
      BaseShifts(a64, block, off, Shl(Get(r, address.index.value), address.shift));
    }
  }

  lemma BaseShifts(a64: bool, block: nat, off: nat, v: int)
    ensures BaseValue(a64, block, off, v) == Advance(a64, BaseValue(a64, 0, off, v), block)
  {
    var m := Modulus(a64);
    assert m > 0;
    hide Modulus;
    AddMod(off + block, -v, m);
    AddMod(off, -v, m);
    AddMod(off - v, block, m);
  }

  ghost predicate Aligned(off: nat, align: nat) { align in {1, 2, 4, 8, 16, 32, 64} && off % align == 0 }

  /** What the patterns promise about an addressing mode. */
  ghost predicate Promised(a64: bool, address: Address) {
    && Supported(a64, address)
    && address.index != Some(address.base)
    && PerlInteger(address.imm) && Loadable(a64, address.imm)
  }

  ghost predicate Sound(a64: bool, address: Address, align: nat, off: nat) {
    Promised(a64, address) && 256 <= off < 1792 && Aligned(off, align)
  }

  lemma StaysAligned(block: nat, off: nat, align: nat)
    requires block % 64 == 0 && Aligned(off, align)
    ensures (block + off) % align == 0
  {
    var q, k := block / 64, 64 / align;
    assert block == 64 * q;
    assert k * align == 64;
    assert block == align * (k * q);
    MultipleOf(align, k * q);
    AddMod(block, off, align);
  }

  lemma InsideBlock(a64: bool, block: nat, off: nat)
    requires BlockAt(a64, block) && off < 2048
    ensures (block + off) % Modulus(a64) == block + off
    ensures (block + off - block) % Modulus(a64) == off
    ensures block % Modulus(a64) == block
  {
  }

  lemma DeltaSurvives(a64: bool, p: nat, block: nat, delta: int)
    requires BlockAt(a64, block)
    ensures Retreat(a64, Advance(a64, Advance(a64, p, block), delta), block) == Advance(a64, p, delta)
  {
    InsideBlock(a64, block, 0);
    var m := Modulus(a64);
    hide Modulus;
    AddMod(p + block, delta, m);
    AddMod(p + block + delta, 0 - block, m);
  }

  /** Cleanup of a base register that holds an address plus what the access added to it. */
  lemma CleanupRelative(a64: bool, block: nat, base: Reg, r: seq<nat>, p: nat, delta: int)
    requires |r| == RegCount(a64) && base < |r| && BlockAt(a64, block)
    ensures var tainted := Set(r, base, Advance(a64, Advance(a64, p, block), delta));
      RunRegs(a64, block, Cleanup(a64, base), tainted) == Set(Set(r, base, Advance(a64, p, delta)), 0, 0)
  {
    hide RunRegs, Cleanup, Advance, Retreat;
    DeltaSurvives(a64, p, block, delta);
    CleanupRuns(a64, block, base, Set(r, base, Advance(a64, Advance(a64, p, block), delta)));
    SetSet(r, base);
  }

  /** After the prologue, the address is the wanted place and suits the alignment. */
  lemma PlaceOfAccess(a64: bool, block: nat, address: Address, align: nat, off: nat, r: seq<nat>)
    requires Sound(a64, address, align, off) && |r| == RegCount(a64) && BlockAt(a64, block)
    ensures var ea := EffectiveAddress(a64, address, RunRegs(a64, block, Prologue(a64, address, off), r));
      Permitted(ea, align, off) && BlockOffset(a64, ea, block) == off
  {
    hide RunRegs, Prologue, EffectiveAddress, Modulus, Supported, Loadable, PerlInteger;
    PrologueHits(a64, block, address, off, r);
    InsideBlock(a64, block, off);
    StaysAligned(block, off, align);
  }

  lemma AccessSize<X(!new)>(h: Host<X>, n: nat, r: seq<nat>, off: nat, x: X)
    requires WellFormed(h) && |r| == RegCount(h.a64)
    ensures |h.access(n, r, off, x).regs| == RegCount(h.a64)
  {
  }

  /** The access under test, after the prologue. */
  lemma AccessHits<X(!new)>(h: Host<X>, n: nat, address: Address, align: nat, off: nat, c: Core<X>, r: seq<nat>)
    requires Sound(h.a64, address, align, off) && |r| == RegCount(h.a64)
    requires c.block.Some? && BlockAt(h.a64, c.block.value)
    requires c.regs == RunRegs(h.a64, c.block.value, Prologue(h.a64, address, off), r)
    ensures var ready := Prepared(h.a64, 0, address, off, r);
      var out := h.access(n, Set(ready, address.base, 0), off, c.rest);
      var base := Advance(h.a64, Advance(h.a64, Get(ready, address.base), c.block.value), out.delta);
      DoAccess(h, n, address, align, c) ==
        Some(c.(regs := if address.trashed then out.regs else Set(out.regs, address.base, base), rest := out.rest))
  {
    hide RunRegs, Prologue, Prepared, EffectiveAddress, Set, Get, Sound, BlockAt, Permitted, BlockOffset, Advance;
    SoundBase(h.a64, address, align, off);
    var block := c.block.value;
    PrologueRuns(h.a64, block, address, off, r);
    PreparedShifts(h.a64, block, address, off, r);
    PlaceOfAccess(h.a64, block, address, align, off, r);
  }

  /** On every processor, with any write-back and any load targets, prologue, access and cleanup
      do not get stuck, and what they leave does not involve the address of the block. */
  lemma AccessIsRelative<X(!new)>(h: Host<X>, n: nat, address: Address, align: nat, off: nat, c: Core<X>)
    requires WellFormed(h) && Sound(h.a64, address, align, off) && |c.regs| == RegCount(h.a64)
    requires c.block.Some? && BlockAt(h.a64, c.block.value)
    ensures var effect := AccessEffect(h, n, address, off, c.regs, c.rest);
      && AccessRun(h, n, address, align, off, c) == Some(c.(regs := effect.regs, rest := effect.rest))
      && |effect.regs| == RegCount(h.a64)
  {
    hide RunRegs, Prologue, Cleanup, Prepared, DoAccess, Advance, Set, Get, Sound, BlockAt, WellFormed;
    SoundBase(h.a64, address, align, off);
    var block := c.block.value;
    var ready := c.(regs := RunRegs(h.a64, block, Prologue(h.a64, address, off), c.regs));
    AccessHits(h, n, address, align, off, ready, c.regs);
    PreparedShifts(h.a64, block, address, off, c.regs);
    var p := Prepared(h.a64, 0, address, off, c.regs);
    AccessSize(h, n, Set(p, address.base, 0), off, c.rest);
    var out := h.access(n, Set(p, address.base, 0), off, c.rest);
    if !address.trashed {
      CleanupRelative(h.a64, block, address.base, out.regs, Get(p, address.base), out.delta);
    }
  }

  lemma SoundBase(a64: bool, address: Address, align: nat, off: nat)
    requires Sound(a64, address, align, off)
    ensures Supported(a64, address) && address.base < RegCount(a64) && address.index != Some(address.base)
    ensures off < 2048
  {
  }

  /** Two runs with the memory block in different places end with the same registers, the same
      block contents and the same status. */
  lemma LocationIndependence<X(!new)>(
    h: Host<X>, n: nat, address: Address, align: nat, random: nat, c: Core<X>, d: Core<X>)
    requires WellFormed(h) && align in {1, 2, 4, 8, 16, 32, 64} && random < 1536
    requires Promised(h.a64, address) && |c.regs| == RegCount(h.a64)
    requires c.block.Some? && BlockAt(h.a64, c.block.value)
    requires d == c.(block := d.block) && d.block.Some? && BlockAt(h.a64, d.block.value)
    ensures var off := Offset(random, align);
      var c', d' := AccessRun(h, n, address, align, off, c), AccessRun(h, n, address, align, off, d);
      c'.Some? && d'.Some? && c'.value.regs == d'.value.regs && c'.value.rest == d'.value.rest
  {
    hide AccessRun, AccessEffect, Promised, BlockAt, WellFormed;
    OffsetInRange(random, align);
    AccessIsRelative(h, n, address, align, Offset(random, align), c);
    AccessIsRelative(h, n, address, align, Offset(random, align), d);
  }
}
