/** An ARM processor running a test image under risu.

    Only what the generated scaffolding relies on is concrete: control flow, the instruction-set
    mode, the general registers, and loads from the image.  Instructions under test are arbitrary
    functions.  Fetching data, fetching in the wrong mode or misaligned, reading a table outside
    the data, and an access outside the promised part of the memory block leave the machine stuck.
 */
module ArmMachine {
  import opened Wrappers

  datatype Mode = Arm | Thumb | A64

  /** A general register: x0 to x30, or r0 to r12 and r14 as number 13. */
  type Reg = nat

  function RegCount(a64: bool): nat { if a64 then 31 else 14 }

  const M32 := 0x1_0000_0000
  const M64 := 0x1_0000_0000_0000_0000

  /** One more than the largest register value. */
  function Modulus(a64: bool): nat { if a64 then M64 else M32 }

  /** An addressing mode: base plus immediate plus shifted index; `trashed` if the access
      overwrites the base register. */
  datatype Address = Address(base: Reg, imm: int, index: Option<Reg>, shift: nat, trashed: bool)

  datatype RisuOp = Compare | TestEnd | SetMemblock | GetMemblock | CompareMem

  datatype Insn =
    | MovZ(rd: Reg, imm: nat)                            // rd := imm
    | MovN(rd: Reg, imm: nat)                            // rd := ~imm
    | MovK(rd: Reg, imm: nat)                            // bits 16 to 31 of rd := imm
    | MovReg(rd: Reg, rm: Reg)
    | SubReg(rd: Reg, rn: Reg, rm: Reg, shift: nat)      // rd := rn - (rm << shift)
    | XorSelf(rd: Reg)                                   // rd := rd ^ rd
    | AddPc(rd: Reg, ahead: nat)
    | ClearLow(rd: Reg, align: nat)                      // round rd down to a multiple
    | LoadAll(rn: Reg)                                   // every general register, from rn
    | LoadFloats(which: nat, rn: Reg, count: nat)        // floating registers, from rn, advancing it
    | Status(which: nat, from: Option<Reg>)              // a status register, from a register or cleared
    | Nop
    | Branch(distance: int)                              // in words
    | BranchReg(rm: Reg)                                 // bx rm
    | BranchPc                                           // bx pc
    | Risuop(op: RisuOp)
    | Test(n: nat, narrow: bool)                         // instruction under test
    | Access(n: nat, narrow: bool, address: Address, align: nat)

  /** Encoded size in halfwords. */
  function Size(mode: Mode, insn: Insn): (n: nat)
    ensures n == 1 || n == 2
  {
    if !mode.Thumb? then 2
    else match insn
      case XorSelf(_) => 1
      case Nop => 1
      case BranchReg(_) => 1
      case BranchPc => 1
      case Risuop(_) => 1
      case Test(_, narrow) => if narrow then 1 else 2
      case Access(_, narrow, _, _) => if narrow then 1 else 2
      case _ => 2
  }

  /** A halfword of the image. */
  datatype Cell = Code(mode: Mode, insn: Insn) | Tail | Word(value: nat) | WordTail

  /** What an instruction under test did; `delta` is what it added to its base register. */
  datatype Outcome<+X> = Outcome(regs: seq<nat>, rest: X, delta: int)

  /** The processor and the place of the image; `X` is the rest of the state: floating and status
      registers and the contents of the memory block.  An access sees the position inside the
      block and the other registers; that it does not use its base register in another way is
      what the patterns promise. */
  datatype Host<!X> = Host(
    a64: bool,
    load: nat,
    test: (nat, seq<nat>, X) -> Outcome<X>,
    access: (nat, seq<nat>, nat, X) -> Outcome<X>,
    status: (nat, nat, X) -> X,
    floats: (nat, seq<nat>, X) -> X,
    attach: (seq<nat>, X) -> X)

  ghost predicate WellFormed<X(!new)>(h: Host<X>) {
    && h.load % 4 == 0
    && (forall n, r, x :: |r| == RegCount(h.a64) ==> |h.test(n, r, x).regs| == RegCount(h.a64))
    && (forall n, r, off, x :: |r| == RegCount(h.a64) ==> |h.access(n, r, off, x).regs| == RegCount(h.a64))
  }

  /** What risu reports: the trap, its offset in the image, and the state compared there. */
  datatype Report<+X> = Report(op: RisuOp, offset: int, regs: seq<nat>, rest: X)

  datatype Core<X> = Core(regs: seq<nat>, block: Option<nat>, rest: X, trace: seq<Report<X>>)

  datatype State<X> = State(pc: nat, mode: Mode, halted: bool, core: Core<X>)

  const MEMBLOCKWORDS := 2048

  function Get(r: seq<nat>, i: Reg): nat { if i < |r| then r[i] else 0 }

  function Set(r: seq<nat>, i: Reg, v: nat): (s: seq<nat>)
    ensures |s| == |r|
  {
    if i < |r| then r[i := v] else r
  }

  function Shl(x: nat, k: nat): nat { if k == 0 then x else 2 * Shl(x, k - 1) }

  /** The address a program counter reads as. */
  function PcValue(mode: Mode, pc: nat): nat {
    match mode
    case Arm => pc + 8
    case Thumb => pc + 4
    case A64 => pc
  }

  /** The value of an addressing mode before the base register is added. */
  function Displacement(address: Address, r: seq<nat>): int {
    address.imm + if address.index.Some? then Shl(Get(r, address.index.value), address.shift) else 0
  }

  function EffectiveAddress(a64: bool, address: Address, r: seq<nat>): nat {
    (Get(r, address.base) + Displacement(address, r)) % Modulus(a64)
  }

  /** The words at `addr`, if all of them are data of the image. */
  function ReadWords<X>(h: Host<X>, image: seq<Cell>, addr: nat, n: nat): Option<seq<nat>>
    decreases n
  {
    if n == 0 then Some([])
    else if addr < h.load || addr % 4 != 0 then None
    else
      var i := (addr - h.load) / 2;
      if i >= |image| || !image[i].Word? then None
      else
        var rest := ReadWords(h, image, addr + 4, n - 1);
        if rest.None? then None else Some([image[i].value] + rest.value)
  }

  function WithReg<X>(c: Core<X>, rd: Reg, v: nat): Core<X> { c.(regs := Set(c.regs, rd, v)) }

  function Logged<X>(h: Host<X>, pc: nat, op: RisuOp, c: Core<X>): Core<X> {
    c.(trace := c.trace + [Report(op, pc - h.load, c.regs, c.rest)])
  }

  function BlockOffset(a64: bool, ea: nat, block: nat): nat { (ea - block) % Modulus(a64) }

  /** The places an access may touch: aligned, and clear of both ends of the first 2 KiB. */
  predicate Permitted(ea: nat, align: nat, off: nat) { align > 0 && ea % align == 0 && 256 <= off < 1792 }

  function Advance(a64: bool, v: nat, delta: int): nat { (v + delta) % Modulus(a64) }

  /** A memory access under test. */
  function DoAccess<X>(h: Host<X>, n: nat, address: Address, align: nat, c: Core<X>): Option<Core<X>> {
    if c.block.None? then None
    else
      var ea := EffectiveAddress(h.a64, address, c.regs);
      var off := BlockOffset(h.a64, ea, c.block.value);
      if !Permitted(ea, align, off) then None
      else
        var out := h.access(n, Set(c.regs, address.base, 0), off, c.rest);
        var base := Advance(h.a64, Get(c.regs, address.base), out.delta);
        var regs := if address.trashed then out.regs else Set(out.regs, address.base, base);
        Some(c.(regs := regs, rest := out.rest))
  }

  /** The instructions that only move values between registers, and the trap that adds the
      address of the memory block to r0. */
  predicate RegInsn(insn: Insn) {
    insn.MovZ? || insn.MovN? || insn.MovK? || insn.MovReg? || insn.SubReg? || insn.XorSelf? || insn.Nop? ||
    insn == Risuop(GetMemblock)
  }

  function RegStep(a64: bool, block: nat, insn: Insn, r: seq<nat>): (s: seq<nat>)
    ensures |s| == |r|
  {
    match insn
    case MovZ(rd, imm) => Set(r, rd, imm)
    case MovN(rd, imm) => Set(r, rd, (-1 - imm) % Modulus(a64))
    case MovK(rd, imm) => Set(r, rd, Get(r, rd) / M32 * M32 + imm * 0x10000 + Get(r, rd) % 0x10000)
    case MovReg(rd, rm) => Set(r, rd, Get(r, rm))
    case SubReg(rd, rn, rm, shift) => Set(r, rd, (Get(r, rn) - Shl(Get(r, rm), shift)) % Modulus(a64))
    case XorSelf(rd) => Set(r, rd, 0)
    case Risuop(GetMemblock) => Set(r, 0, (Get(r, 0) + block) % Modulus(a64))
    case _ => r
  }

  function BlockOf<X>(c: Core<X>): nat { if c.block.Some? then c.block.value else 0 }

  /** An instruction that falls through. */
  function Exec<X>(h: Host<X>, image: seq<Cell>, mode: Mode, pc: nat, insn: Insn, c: Core<X>): Option<Core<X>> {
    if RegInsn(insn) then Some(c.(regs := RegStep(h.a64, BlockOf(c), insn, c.regs)))
    else match insn
      case AddPc(rd, ahead) => Some(WithReg(c, rd, (PcValue(mode, pc) + ahead) % Modulus(h.a64)))
      case ClearLow(rd, align) =>
        var v := Get(c.regs, rd);
        if align == 0 then None else Some(WithReg(c, rd, v - v % align))
      case LoadAll(rn) =>
        var words := ReadWords(h, image, Get(c.regs, rn), RegCount(h.a64));
        if words.None? then None else Some(c.(regs := words.value))
      case LoadFloats(which, rn, count) =>
        var words := ReadWords(h, image, Get(c.regs, rn), count);
        if words.None? then None
        else
          var next := (Get(c.regs, rn) + 4 * count) % Modulus(h.a64);
          Some(WithReg(c, rn, next).(rest := h.floats(which, words.value, c.rest)))
      case Status(which, from) =>
        Some(c.(rest := h.status(which, if from.Some? then Get(c.regs, from.value) else 0, c.rest)))
      case Risuop(SetMemblock) =>
        var words := ReadWords(h, image, Get(c.regs, 0), MEMBLOCKWORDS);
        if words.None? then None
        else Some(c.(block := Some(Get(c.regs, 0)), rest := h.attach(words.value, c.rest)))
      case Risuop(Compare) => Some(Logged(h, pc, Compare, c))
      case Risuop(CompareMem) => Some(Logged(h, pc, CompareMem, c))
      case Test(n, _) =>
        var out := h.test(n, c.regs, c.rest);
        Some(c.(regs := out.regs, rest := out.rest))
      case Access(n, _, address, align) => DoAccess(h, n, address, align, c)
      case _ => None
  }

  /** `bx`: bit 0 of the target selects the mode; an ARM target must be a word address. */
  function Exchange<X>(target: nat, s: State<X>): Option<State<X>> {
    if target % 2 == 1 then Some(s.(pc := target - 1, mode := Thumb))
    else if target % 4 == 0 then Some(s.(pc := target, mode := Arm))
    else None
  }

  function Fetch<X>(h: Host<X>, image: seq<Cell>, s: State<X>): Option<Insn> {
    if s.halted || s.pc < h.load || (s.pc - h.load) % 2 != 0 || (!s.mode.Thumb? && s.pc % 4 != 0) then None
    else
      var i := (s.pc - h.load) / 2;
      if i < |image| && image[i].Code? && image[i].mode == s.mode then Some(image[i].insn) else None
  }

  function Step<X>(h: Host<X>, image: seq<Cell>, s: State<X>): Option<State<X>> {
    var insn := Fetch(h, image, s);
    if insn.None? then None
    else match insn.value
      case Branch(distance) =>
        var target := PcValue(s.mode, s.pc) + 4 * distance;
        if target < 0 then None else Some(s.(pc := target))
      case BranchReg(rm) => Exchange(Get(s.core.regs, rm), s)
      case BranchPc => Exchange(PcValue(s.mode, s.pc), s)
      case Risuop(TestEnd) => Some(s.(halted := true, core := Logged(h, s.pc, TestEnd, s.core)))
      case i =>
        var c := Exec(h, image, s.mode, s.pc, i, s.core);
        if c.None? then None else Some(s.(pc := s.pc + 2 * Size(s.mode, i), core := c.value))
  }

  function Steps<X>(h: Host<X>, image: seq<Cell>, s: State<X>, n: nat): Option<State<X>>
    decreases n
  {
    if n == 0 then Some(s)
    else
      var t := Step(h, image, s);
      if t.None? then None else Steps(h, image, t.value, n - 1)
  }

  /** The machine gets from `s` to `t` without getting stuck. */
  ghost predicate Reaches<X>(h: Host<X>, image: seq<Cell>, s: State<X>, t: State<X>) {
    exists n: nat :: Steps(h, image, s, n) == Some(t)
  }

  lemma ReachesSelf<X>(h: Host<X>, image: seq<Cell>, s: State<X>)
    ensures Reaches(h, image, s, s)
  {
    assert Steps(h, image, s, 0) == Some(s);
  }

  lemma ReachesStep<X>(h: Host<X>, image: seq<Cell>, s: State<X>, t: State<X>)
    requires Step(h, image, s) == Some(t)
    ensures Reaches(h, image, s, t)
  {
    hide Step;
    assert Steps(h, image, t, 0) == Some(t);
    assert Steps(h, image, s, 1) == Some(t);
  }

  lemma {:induction false} StepsSum<X>(h: Host<X>, image: seq<Cell>, s: State<X>, n: nat, m: nat)
    requires Steps(h, image, s, n).Some?
    ensures Steps(h, image, s, n + m) == Steps(h, image, Steps(h, image, s, n).value, m)
    decreases n
  {
    hide Step;
    if n > 0 {
      StepsSum(h, image, Step(h, image, s).value, n - 1, m);
    }
  }

  lemma ReachesTrans<X>(h: Host<X>, image: seq<Cell>, s: State<X>, t: State<X>, u: State<X>)
    requires Reaches(h, image, s, t) && Reaches(h, image, t, u)
    ensures Reaches(h, image, s, u)
  {
    hide Steps;
    var n: nat :| Steps(h, image, s, n) == Some(t);
    var m: nat :| Steps(h, image, t, m) == Some(u);
    StepsSum(h, image, s, n, m);
  }

  /** From one state the machine halts in at most one way. */
  lemma HaltsOnce<X>(h: Host<X>, image: seq<Cell>, s: State<X>, t: State<X>, u: State<X>)
    requires Reaches(h, image, s, t) && Reaches(h, image, s, u) && t.halted && u.halted
    ensures t == u
  {
    hide Steps, Step;
    var n: nat :| Steps(h, image, s, n) == Some(t);
    var m: nat :| Steps(h, image, s, m) == Some(u);
    StepsSum(h, image, s, n, if m >= n then m - n else 0);
    StepsSum(h, image, s, m, if n >= m then n - m else 0);
    HaltedStays(h, image, t, if m >= n then m - n else 0);
    HaltedStays(h, image, u, if n >= m then n - m else 0);
  }

  lemma HaltedStays<X>(h: Host<X>, image: seq<Cell>, t: State<X>, k: nat)
    requires t.halted
    ensures Steps(h, image, t, k).Some? ==> k == 0 && Steps(h, image, t, k) == Some(t)
  {
    hide Step;
    assert Step(h, image, t).None? by { HaltedStuck(h, image, t); }
  }

  lemma HaltedStuck<X>(h: Host<X>, image: seq<Cell>, t: State<X>)
    requires t.halted
    ensures Step(h, image, t).None?
  {
    hide Exec;
  }
}
