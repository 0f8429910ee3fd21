/** The test-image generator for ARM: what each emitting function appends to the image. */
module ArmGenerator {
  import opened Wrappers
  import opened ArmMachine
  import opened ArmAddressing

  /** The image so far, and whether code is being emitted for Thumb. */
  datatype Out = Out(cells: seq<Cell>, thumb: bool)

  function ModeOf(a64: bool, o: Out): Mode { if a64 then A64 else if o.thumb then Thumb else Arm }

  function InsnCells(mode: Mode, insn: Insn): (s: seq<Cell>)
    ensures |s| == Size(mode, insn)
  {
    [Code(mode, insn)] + if Size(mode, insn) == 2 then [Tail] else []
  }

  /** `insn16` or `insn32` with an instruction. */
  function Put(a64: bool, o: Out, insn: Insn): Out {
    o.(cells := o.cells + InsnCells(ModeOf(a64, o), insn))
  }

  function PutAll(a64: bool, o: Out, code: seq<Insn>): Out
    decreases code
  {
    if code == [] then o else PutAll(a64, Put(a64, o, code[0]), code[1..])
  }

  function WordCells(words: seq<nat>): (s: seq<Cell>)
    ensures |s| == 2 * |words|
  {
    if words == [] then [] else WordCells(words[..|words| - 1]) + [Word(words[|words| - 1]), WordTail]
  }

  /** `insn32` with data, once for each word. */
  function PutWords(o: Out, words: seq<nat>): Out { o.(cells := o.cells + WordCells(words)) }

  // ---------------------------------------------------------------- modes

  function SwitchToThumb(o: Out): Out {
    if o.thumb then o
    else Put(false, PutAll(false, o, [AddPc(0, 1), BranchReg(0)]).(thumb := true), XorSelf(0))
  }

  function ThumbAlign(o: Out): Out { if 2 * |o.cells| % 4 != 0 then Put(false, o, Nop) else o }

  function SwitchToArm(o: Out): Out {
    if !o.thumb then o else PutAll(false, ThumbAlign(o), [BranchPc, Nop]).(thumb := false)
  }

  /** The instruction set under test. */
  datatype Target = TestArm | TestThumb | TestA64

  function ToTestMode(t: Target, o: Out): Out {
    match t
    case TestA64 => o
    case TestThumb => SwitchToThumb(o)
    case TestArm => SwitchToArm(o)
  }

  // ---------------------------------------------------------------- register data

  /** Random values for the floating and the general registers. */
  datatype Table = Table(floats: seq<nat>, regs: seq<nat>)

  function ArmLoads(fp: bool): seq<Insn> {
    if fp then [AddPc(0, 12), LoadFloats(0, 0, 32), LoadFloats(1, 0, 32), LoadAll(0)] else [AddPc(0, 4), LoadAll(0)]
  }

  const FLAGS := Status(0, None)
  const FPSCR := Status(1, Some(0))
  const FPSR := Status(2, Some(0))

  function ArmRegdata(o: Out, fp: bool, t: Table): Out {
    var datalen := 14 + if fp then 64 else 0;
    var o1 := PutAll(false, SwitchToArm(o), ArmLoads(fp) + [Branch(datalen - 1)]);
    Put(false, PutWords(o1, t.floats + t.regs), FLAGS)
  }

  function FloatLoads(j: nat): seq<Insn>
    decreases 16 - j
  {
    if j >= 16 then [] else [LoadFloats(j, 0, 8)] + FloatLoads(j + 1)
  }

  /** The vector registers: 32 quadwords, with room to align them. */
  function A64Floats(o: Out, words: seq<nat>): Out {
    var align, datalen := 16, 32 * 16 + 16;
    var o1 := PutAll(true, o, [AddPc(0, 3 * 4 + (align - 1)), ClearLow(0, align), Branch(datalen / 4 + 1)]);
    PutAll(true, PutWords(o1, words), FloatLoads(0))
  }

  function Immediates(regs: seq<nat>, i: nat): seq<Insn>
    decreases |regs| - i
  {
    if i >= |regs| then [] else MovRi(true, i, regs[i]) + Immediates(regs, i + 1)
  }

  function A64Regdata(o: Out, fp: bool, t: Table): Out {
    var o1 := Put(true, o, FLAGS);
    var o2 := if fp then A64Floats(o1, t.floats) else o1;
    PutAll(true, o2, Immediates(t.regs, 0))
  }

  function RegisterData(a64: bool, o: Out, fp: bool, t: Table): Out {
    Put(a64, if a64 then A64Regdata(o, fp, t) else ArmRegdata(o, fp, t), Risuop(Compare))
  }

  // ---------------------------------------------------------------- setup

  const MAXALIGN := 64
  const DATALEN := 8192 + MAXALIGN

  /** `write_memblock_setup` */
  function MemblockSetup(a64: bool, o: Out, words: seq<nat>): Out {
    var adr := 4 * 4 + (MAXALIGN - 1);
    var jump := if a64 then DATALEN / 4 + 1 else DATALEN / 4 - 1;
    var code := [AddPc(0, if a64 then adr else adr - 8), ClearLow(0, MAXALIGN), Risuop(SetMemblock), Branch(jump)];
    PutWords(PutAll(a64, SwitchToArm(o), code), words)
  }

  function FpscrCode(a64: bool, fpscr: nat): seq<Insn> {
    if a64 then MovRi(true, 0, 0) + [FPSR] + MovRi(true, 0, fpscr) + [FPSCR]
    else [MovZ(0, fpscr % 0x10000), MovK(0, fpscr / 0x10000 % 0x10000), FPSCR]
  }

  function SetFpscr(a64: bool, o: Out, fpscr: nat): Out {
    PutAll(a64, if a64 then o else SwitchToArm(o), FpscrCode(a64, fpscr))
  }

  // ---------------------------------------------------------------- instructions under test

  /** One generated instruction, with the random choices made for it. */
  datatype Item =
    | Plain(n: nat, narrow: bool)
    | Memory(n: nat, narrow: bool, address: Address, align: Option<int>, random: nat)

  function AlignOf(a64: bool, item: Item): int
    requires item.Memory?
  {
    if item.align.Some? then item.align.value else if a64 then 16 else 4
  }

  predicate PowerOfTwo(x: int) { x in {1, 2, 4, 8, 16, 32, 64} }

  /** The generator stops on a bad alignment or shift. */
  predicate Accepted(a64: bool, item: Item) {
    item.Memory? ==>
      && PowerOfTwo(AlignOf(a64, item))
      && (item.address.index.Some? ==> item.address.shift <= if a64 then 4 else 3)
  }

  function Barrier(a64: bool): seq<Insn> { if a64 then [Nop] else [] }

  /** The instruction under test with what surrounds it. */
  function Around(a64: bool, item: Item): seq<Insn>
    requires Accepted(a64, item)
  {
    if item.Plain? then [Test(item.n, item.narrow)]
    else
      var align := AlignOf(a64, item);
      Prologue(a64, item.address, Offset(item.random, align)) + Barrier(a64)
      + [Access(item.n, item.narrow, item.address, align)] + Barrier(a64)
      + if item.address.trashed then [] else Cleanup(a64, item.address.base)
  }

  /** `gen_one_insn` and the comparison after it. */
  function ItemCode(a64: bool, item: Item): seq<Insn>
    requires Accepted(a64, item)
  {
    Around(a64, item) + (if item.Memory? then [Risuop(CompareMem)] else []) + [Risuop(Compare)]
  }

  // ---------------------------------------------------------------- the image

  /** Everything a run of the generator depends on, random choices included. */
  datatype Program = Program(
    target: Target, fpscr: Option<nat>, block: Option<seq<nat>>, first: Table, items: seq<Item>, tables: seq<Table>)

  ghost predicate TableFits(a64: bool, fp: bool, t: Table) {
    && |t.regs| == RegCount(a64)
    && |t.floats| == (if !fp then 0 else if a64 then 132 else 64)
    && (forall i :: 0 <= i < |t.regs| ==> t.regs[i] < M32)
  }

  ghost predicate ItemFits(a64: bool, item: Item) {
    Accepted(a64, item) && (item.Memory? ==> Promised(a64, item.address) && item.random < 1536)
  }

  ghost predicate Fits(p: Program) {
    var a64, fp := p.target.TestA64?, p.fpscr.Some?;
    && TableFits(a64, fp, p.first)
    && |p.tables| == |p.items| / 100
    && (forall i :: 0 <= i < |p.tables| ==> TableFits(a64, fp, p.tables[i]))
    && (forall i :: 0 <= i < |p.items| ==> ItemFits(a64, p.items[i]))
    && (p.block.Some? ==> |p.block.value| == DATALEN / 4)
    && (p.block.None? ==> forall i :: 0 <= i < |p.items| ==> p.items[i].Plain?)
    && (p.fpscr.Some? ==> p.fpscr.value < M32)
  }

  /** Up to the first instruction under test. */
  function Head(p: Program): Out {
    var a64 := p.target.TestA64?;
    var o1 := if p.fpscr.Some? then SetFpscr(a64, Out([], false), p.fpscr.value) else Out([], false);
    var o2 := if p.block.Some? then MemblockSetup(a64, o1, p.block.value) else o1;
    ToTestMode(p.target, RegisterData(a64, o2, p.fpscr.Some?, p.first))
  }

  /** Instruction `k`, and fresh register data after every hundredth. */
  function Turn(p: Program, o: Out, k: nat): Out
    requires Fits(p) && k < |p.items|
  {
    var a64 := p.target.TestA64?;
    var o1 := PutAll(a64, o, ItemCode(a64, p.items[k]));
    if (k + 1) % 100 == 0 then ToTestMode(p.target, RegisterData(a64, o1, p.fpscr.Some?, p.tables[(k + 1) / 100 - 1]))
    else o1
  }

  function Turns(p: Program, k: nat): Out
    requires Fits(p) && k <= |p.items|
  {
    if k == 0 then Head(p) else Turn(p, Turns(p, k - 1), k - 1)
  }

  /** `write_test_code` */
  function Image(p: Program): seq<Cell>
    requires Fits(p)
  {
    Put(p.target.TestA64?, Turns(p, |p.items|), Risuop(TestEnd)).cells
  }
}
