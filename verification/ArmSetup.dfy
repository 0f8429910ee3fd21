/** A64 register tables, the setup of the memory block, and the status registers. */
module ArmSetup {
  import opened Wrappers
  import opened ArmMachine
  import opened ArmAddressing
  import opened ArmGenerator
  import opened ArmExec
  import opened ArmPieces
  import opened ArmTables

  /** `adr r0, ...; bic r0, ...` points r0 at the first aligned word of the data at cell `i`. */
  lemma PointerExec<X(!new)>(
    h: Host<X>, image: seq<Cell>, mode: Mode, at: nat, ahead: nat, align: nat, i: nat, c: Core<X>)
    requires Loaded(h, image) && !mode.Thumb? && |c.regs| == RegCount(h.a64) && i % 2 == 0
    requires align == 16 || align == 64
    requires PcValue(mode, h.load + 2 * at) + ahead == h.load + 2 * i + (align - 1) && 2 * i + align <= 2 * |image|
    ensures var k := Skip(h.load + 2 * i, align);
      var d := WithReg(c, 0, h.load + 2 * i + 4 * k);
      ExecAll(h, image, mode, at, [AddPc(0, ahead), ClearLow(0, align)], c) == Some(d) && PointsAt(h, i, k, d)
  {
    hide ExecAll, Exec, PointsAt, WellFormed, Skip, WithReg;
    LoadLevel(h);
    var k := Skip(h.load + 2 * i, align);
    var c1 := WithReg(c, 0, h.load + 2 * i + (align - 1));
    var d := WithReg(c, 0, h.load + 2 * i + 4 * k);
    assert [AddPc(0, ahead), ClearLow(0, align)] == [AddPc(0, ahead)] + [ClearLow(0, align)];
    AddPcExec(h, image, mode, h.load + 2 * at, ahead, c);
    ExecCons(h, image, mode, at, AddPc(0, ahead), [ClearLow(0, align)], c, c1);
    ExecOne(h, image, mode, at + 2, ClearLow(0, align), c1);
    SkipAligns(h.load + 2 * i, align);
    ClearLowExec(h, image, mode, h.load + 2 * (at + 2), align, h.load + 2 * i + (align - 1), c);
    Pointed(h, i, k, c);
  }

  lemma ClearLowExec<X>(h: Host<X>, image: seq<Cell>, mode: Mode, pc: nat, align: nat, x: nat, c: Core<X>)
    requires align > 0 && 0 < |c.regs|
    ensures Exec(h, image, mode, pc, ClearLow(0, align), WithReg(c, 0, x)) == Some(WithReg(c, 0, x - x % align))
  {
    SetSet(c.regs, 0);
  }

  // ---------------------------------------------------------------- A64 register tables

  lemma A64FloatsLayout(o: Out, words: seq<nat>)
    requires Level(true, o)
    ensures var p := WithData(true, o, [AddPc(0, 27), ClearLow(0, 16)], 133, words);
      && A64Floats(o, words) == PutAll(true, p, FloatLoads(0))
      && Level(true, p) && Level(true, A64Floats(o, words)) && o.cells <= p.cells <= A64Floats(o, words).cells
  {
    hide Put, PutAll, Level, DataAt, FloatLoads, PutWords;
    NotThumb(o);
    var code := [AddPc(0, 27), ClearLow(0, 16)];
    assert code + [Branch(133)] == [AddPc(0, 27), ClearLow(0, 16), Branch(133)];
    var p := WithData(true, o, code, 133, words);
    WithDataLayout(true, o, code, 133, words, p.cells);
    PutAllKeeps(true, p, FloatLoads(0));
  }

  lemma NotThumb(o: Out)
    requires Level(true, o)
    ensures !o.thumb && |o.cells| % 2 == 0
  {
  }

  lemma A64FloatsRuns<X(!new)>(h: Host<X>, g: Host<X>, image: seq<Cell>, o: Out, words: seq<nat>, c: Core<X>)
    requires Loaded(h, image) && SameCpu(h, g) && g.load == h.load % 64 && h.a64 && |words| == 132
    requires Level(true, o) && A64Floats(o, words).cells <= image && |c.regs| == RegCount(true)
    ensures exists d: Core<X> ::
      && Reaches(h, image, StateAt(h, o, c), StateAt(h, A64Floats(o, words), d))
      && |d.regs| == RegCount(true)
      && d == c.(regs := d.regs, rest := FloatsView(g, words, Skip(g.load + 2 * (|o.cells| + 6), 16), 0, c.rest))
  {
    hide Put, PutAll, Reaches, ExecAll, Exec, StateAt, DataAt, WellFormed, PutWords, Level, PointsAt, FloatsView,
      FloatLoads, A64Floats, WithData, Skip;
    LoadLevel(h);
    NotThumb(o);
    A64FloatsLayout(o, words);
    var code := [AddPc(0, 27), ClearLow(0, 16)];
    var p := WithData(true, o, code, 133, words);
    WithDataLayout(true, o, code, 133, words, image);
    var at := |o.cells|;
    var i := at + 6;
    var k := Skip(h.load + 2 * i, 16);
    SkipPhase(h.load, i, 16);
    PointerExec(h, image, A64, at, 27, 16, i, c);
    var c1 := WithReg(c, 0, h.load + 2 * i + 4 * k);
    WithDataRuns(h, image, o, code, 133, words, c, c1);
    FloatLoadsExec(h, g, image, |p.cells|, i, words, k, 0, c1);
    var d := ExecAll(h, image, A64, |p.cells|, FloatLoads(0), c1).value;
    PutAllRuns(h, image, p, FloatLoads(0), c1, d);
    ReachesTrans(h, image, StateAt(h, o, c), StateAt(h, p, c1), StateAt(h, A64Floats(o, words), d));
  }

  lemma A64RegdataLayout(o: Out, fp: bool, t: Table)
    requires Level(true, o)
    ensures var o1 := Put(true, o, FLAGS);
      var o2 := if fp then A64Floats(o1, t.floats) else o1;
      && |o1.cells| == |o.cells| + 2
      && o.cells <= o1.cells <= o2.cells <= A64Regdata(o, fp, t).cells
      && Level(true, o1) && Level(true, o2) && Level(true, A64Regdata(o, fp, t))
  {
    hide Put, PutAll, Level, A64Floats, Immediates;
    NotThumb(o);
    PutKeeps(true, o, FLAGS);
    WideSize(A64, FLAGS);
    var o1 := Put(true, o, FLAGS);
    A64FloatsLayout(o1, t.floats);
    var o2 := if fp then A64Floats(o1, t.floats) else o1;
    PutAllKeeps(true, o2, Immediates(t.regs, 0));
  }

  lemma A64RegdataRuns<X(!new)>(
    h: Host<X>, g: Host<X>, image: seq<Cell>, o: Out, fp: bool, t: Table, v: View<X>, block: Option<nat>)
    requires Loaded(h, image) && SameCpu(h, g) && g.load == h.load % 64 && h.a64 && TableFits(true, fp, t)
    requires Level(true, o) && A64Regdata(o, fp, t).cells <= image && |v.regs| == RegCount(true)
    ensures var w := A64TableView(g, |o.cells|, fp, t, v);
      Reaches(h, image, StateAt(h, o, CoreOf(v, block)), StateAt(h, A64Regdata(o, fp, t), CoreOf(w, block)))
  {
    hide Put, PutAll, Reaches, ExecAll, Exec, StateAt, WellFormed, Level, FloatsView, A64Floats, Skip, Immediates,
      RunRegs, OnlyRegs;
    LoadLevel(h);
    A64RegdataLayout(o, fp, t);
    var c, w := CoreOf(v, block), A64TableView(g, |o.cells|, fp, t, v);
    var o1 := Put(true, o, FLAGS);
    var o2 := if fp then A64Floats(o1, t.floats) else o1;
    var v1 := v.(rest := h.status(0, 0, v.rest));
    StatusExec(h, image, A64, h.load + 2 * |o.cells|, 0, None, v, block);
    PutRuns(h, image, o, FLAGS, c, CoreOf(v1, block));
    var d := CoreOf(v1, block);
    if fp {
      A64FloatsRuns(h, g, image, o1, t.floats, CoreOf(v1, block));
      d :| && Reaches(h, image, StateAt(h, o1, CoreOf(v1, block)), StateAt(h, o2, d))
           && |d.regs| == RegCount(true) && d == CoreOf(v1, block).(regs := d.regs, rest := w.rest);
    } else {
      ReachesSelf(h, image, StateAt(h, o1, d));
    }
    ReachesTrans(h, image, StateAt(h, o, c), StateAt(h, o1, CoreOf(v1, block)), StateAt(h, o2, d));
    ImmediatesAreRegs(t.regs, 0);
    ImmediatesRun(BlockOf(d), t.regs, 0, d.regs);
    assert d.regs[..0] + t.regs[0..] == t.regs;
    ExecRegs(h, image, A64, |o2.cells|, Immediates(t.regs, 0), d);
    PutAllRuns(h, image, o2, Immediates(t.regs, 0), d, CoreOf(w, block));
    ReachesTrans(h, image, StateAt(h, o, c), StateAt(h, o2, d), StateAt(h, A64Regdata(o, fp, t), CoreOf(w, block)));
  }

  // ---------------------------------------------------------------- the memory block

  function BlockCode(a64: bool): seq<Insn> {
    [AddPc(0, if a64 then 79 else 71), ClearLow(0, 64), Risuop(SetMemblock)]
  }

  lemma BlockLayout(a64: bool, o: Out, words: seq<nat>)
    requires Level(a64, o)
    ensures var p := MemblockSetup(a64, o, words);
      && p == WithData(a64, SwitchToArm(o), BlockCode(a64), if a64 then 2065 else 2063, words)
      && Level(a64, SwitchToArm(o)) && !SwitchToArm(o).thumb && o.cells <= SwitchToArm(o).cells <= p.cells
      && Level(a64, p) && !p.thumb
  {
    hide Put, PutAll, Level, DataAt, PutWords, SwitchToArm;
    ArmFirst(a64, o);
    var jump := Branch(if a64 then 2065 else 2063);
    assert BlockCode(a64) + [jump] ==
      [AddPc(0, if a64 then 79 else 71), ClearLow(0, 64), Risuop(SetMemblock), jump];
    WithDataLayout(a64, SwitchToArm(o), BlockCode(a64), jump.distance, words, MemblockSetup(a64, o, words).cells);
  }

  lemma ArmFirst(a64: bool, o: Out)
    requires Level(a64, o)
    ensures Level(a64, SwitchToArm(o)) && !SwitchToArm(o).thumb && o.cells <= SwitchToArm(o).cells
    ensures !o.thumb ==> SwitchToArm(o) == o
  {
    if o.thumb {
      ToArmKeeps(o);
    }
  }

  /** The address the setup announces, for data at cell `i`. */
  function BlockAddress(load: nat, i: nat): nat { load + 2 * i + 4 * Skip(load + 2 * i, 64) }

  lemma BlockInside(a64: bool, load: nat, i: nat, size: nat)
    requires load % 4 == 0 && i % 2 == 0 && i + 2 * 2064 <= size && load + 2 * size <= Modulus(a64)
    ensures BlockAt(a64, BlockAddress(load, i))
  {
    var d := load + 2 * i;
    SkipAligns(d, 64);
    assert BlockAddress(load, i) == d + 63 - (d + 63) % 64;
  }

  lemma SetBlockExec<X(!new)>(
    h: Host<X>, image: seq<Cell>, mode: Mode, pc: nat, i: nat, words: seq<nat>, k: nat, c: Core<X>)
    requires h.load % 4 == 0 && DataAt(image, i, words) && i % 2 == 0 && PointsAt(h, i, k, c) && k + 2048 <= |words|
    ensures Exec(h, image, mode, pc, Risuop(SetMemblock), c) ==
      Some(c.(block := Some(h.load + 2 * i + 4 * k), rest := h.attach(words[k..k + 2048], c.rest)))
  {
    hide ReadWords;
    ReadData(h, image, i, words, k, 2048);
  }

  /** The contents of the block that the setup announces. */
  function BlockView<X>(g: Host<X>, i: nat, words: seq<nat>, x: X): X
    requires |words| == 2064
  {
    var k := Skip(g.load + 2 * i, 64);
    g.attach(words[k..k + 2048], x)
  }

  /** The announced block is aligned and lies inside the data, and the jump clears the data. */
  lemma MemblockRuns<X(!new)>(
    h: Host<X>, g: Host<X>, image: seq<Cell>, o: Out, words: seq<nat>, v: View<X>, block: Option<nat>)
    requires Loaded(h, image) && SameCpu(h, g) && g.load == h.load % 64 && |words| == 2064
    requires Level(h.a64, o) && MemblockSetup(h.a64, o, words).cells <= image && |v.regs| == RegCount(h.a64)
    ensures var i := |SwitchToArm(o).cells| + 8;
      var b := BlockAddress(h.load, i);
      var w := v.(regs := Set(v.regs, 0, b), rest := BlockView(g, i, words, v.rest));
      && Reaches(h, image, StateAt(h, o, CoreOf(v, block)),
           StateAt(h, MemblockSetup(h.a64, o, words), CoreOf(w, Some(b))))
      && BlockAt(h.a64, b)
  {
    hide Put, PutAll, Reaches, ExecAll, Exec, StateAt, DataAt, WellFormed, PutWords, Level, PointsAt, Skip, SwitchToArm,
      MemblockSetup, WithData, BlockAt, Modulus, Get;
    LoadLevel(h);
    BlockLayout(h.a64, o, words);
    var o0, p := SwitchToArm(o), MemblockSetup(h.a64, o, words);
    var distance := if h.a64 then 2065 else 2063;
    WithDataLayout(h.a64, o0, BlockCode(h.a64), distance, words, image);
    var at, mode := |o0.cells|, ModeOf(h.a64, o0);
    var i := at + 8;
    var k, b := Skip(h.load + 2 * i, 64), BlockAddress(h.load, i);
    SkipPhase(h.load, i, 64);
    BlockInside(h.a64, h.load, i, |image|);
    var c := CoreOf(v, block);
    ToArmRuns(h, image, o, c);
    var ahead := if h.a64 then 79 else 71;
    PointerExec(h, image, mode, at, ahead, 64, i, c);
    var c1 := WithReg(c, 0, b);
    SetBlockExec(h, image, mode, h.load + 2 * (at + 4), i, words, k, c1);
    var d := c1.(block := Some(b), rest := h.attach(words[k..k + 2048], c.rest));
    ExecOne(h, image, mode, at + 4, Risuop(SetMemblock), c1);
    var first := [AddPc(0, ahead), ClearLow(0, 64)];
    assert BlockCode(h.a64) == first + [Risuop(SetMemblock)];
    ExecAppend(h, image, mode, at, first, [Risuop(SetMemblock)], c);
    WideLength(mode, first);
    WithDataRuns(h, image, o0, BlockCode(h.a64), distance, words, c, d);
    ReachesTrans(h, image, StateAt(h, o, c), StateAt(h, o0, c), StateAt(h, p, d));
  }

  // ---------------------------------------------------------------- status registers

  function FpscrView<X>(g: Host<X>, fpscr: nat, x: X): X {
    if g.a64 then g.status(1, fpscr, g.status(2, 0, x)) else g.status(1, fpscr, x)
  }

  lemma ArmFpscrExec<X(!new)>(h: Host<X>, image: seq<Cell>, at: nat, fpscr: nat, v: View<X>, block: Option<nat>)
    requires !h.a64 && |v.regs| == RegCount(false) && fpscr < M32
    ensures var w := v.(regs := Set(v.regs, 0, fpscr), rest := FpscrView(h, fpscr, v.rest));
      ExecAll(h, image, Arm, at, FpscrCode(false, fpscr), CoreOf(v, block)) == Some(CoreOf(w, block))
  {
    hide ExecAll, Exec;
    var low, high := fpscr % 0x10000, fpscr / 0x10000 % 0x10000;
    Halves(fpscr);
    KeepLow(low, high);
    SetSet(v.regs, 0);
    var v1, v2 := v.(regs := Set(v.regs, 0, low)), v.(regs := Set(v.regs, 0, fpscr));
    assert FpscrCode(false, fpscr) == [MovZ(0, low)] + ([MovK(0, high)] + [FPSCR]);
    RegInsnExec(h, image, Arm, h.load + 2 * at, MovZ(0, low), CoreOf(v, block));
    ExecCons(h, image, Arm, at, MovZ(0, low), [MovK(0, high)] + [FPSCR], CoreOf(v, block), CoreOf(v1, block));
    RegInsnExec(h, image, Arm, h.load + 2 * (at + 2), MovK(0, high), CoreOf(v1, block));
    ExecCons(h, image, Arm, at + 2, MovK(0, high), [FPSCR], CoreOf(v1, block), CoreOf(v2, block));
    StatusExec(h, image, Arm, h.load + 2 * (at + 4), 1, Some(0), v2, block);
    ExecOne(h, image, Arm, at + 4, FPSCR, CoreOf(v2, block));
  }

  lemma A64FpscrExec<X(!new)>(h: Host<X>, image: seq<Cell>, at: nat, fpscr: nat, v: View<X>, block: Option<nat>)
    requires h.a64 && |v.regs| == RegCount(true) && fpscr < M32
    ensures var w := v.(regs := Set(v.regs, 0, fpscr), rest := FpscrView(h, fpscr, v.rest));
      ExecAll(h, image, A64, at, FpscrCode(true, fpscr), CoreOf(v, block)) == Some(CoreOf(w, block))
  {
    hide ExecAll, Exec, MovRi;
    var first, second := MovRi(true, 0, 0) + [FPSR], MovRi(true, 0, fpscr) + [FPSCR];
    assert FpscrCode(true, fpscr) == first + second;
    StatusAfterMov(h, image, at, 0, 2, v, block);
    var v1 := v.(regs := Set(v.regs, 0, 0), rest := h.status(2, 0, v.rest));
    ExecAppend(h, image, A64, at, first, second, CoreOf(v, block));
    StatusAfterMov(h, image, at + Length(A64, first), fpscr, 1, v1, block);
    SetSet(v.regs, 0);
  }

  lemma StatusAfterMov<X(!new)>(
    h: Host<X>, image: seq<Cell>, at: nat, value: nat, which: nat, v: View<X>, block: Option<nat>)
    requires h.a64 && |v.regs| == RegCount(true) && value < M32
    ensures var w := v.(regs := Set(v.regs, 0, value), rest := h.status(which, value, v.rest));
      ExecAll(h, image, A64, at, MovRi(true, 0, value) + [Status(which, Some(0))], CoreOf(v, block)) ==
        Some(CoreOf(w, block))
  {
    hide ExecAll, Exec, MovRi, RunRegs;
    var code := MovRi(true, 0, value);
    var v1 := v.(regs := Set(v.regs, 0, value));
    MovRiRuns(true, BlockOf(CoreOf(v, block)), 0, value, v.regs);
    ExecRegs(h, image, A64, at, code, CoreOf(v, block));
    ExecAppend(h, image, A64, at, code, [Status(which, Some(0))], CoreOf(v, block));
    var at1 := at + Length(A64, code);
    StatusExec(h, image, A64, h.load + 2 * at1, which, Some(0), v1, block);
    ExecOne(h, image, A64, at1, Status(which, Some(0)), CoreOf(v1, block));
  }

  lemma FpscrRuns<X(!new)>(h: Host<X>, g: Host<X>, image: seq<Cell>, o: Out, fpscr: nat, v: View<X>, block: Option<nat>)
    requires WellFormed(h) && SameCpu(h, g) && |v.regs| == RegCount(h.a64) && fpscr < M32
    requires Level(h.a64, o) && SetFpscr(h.a64, o, fpscr).cells <= image
    ensures var p := SetFpscr(h.a64, o, fpscr);
      var w := v.(regs := Set(v.regs, 0, fpscr), rest := FpscrView(g, fpscr, v.rest));
      && Reaches(h, image, StateAt(h, o, CoreOf(v, block)), StateAt(h, p, CoreOf(w, block)))
      && Level(h.a64, p) && o.cells <= p.cells
  {
    hide Put, PutAll, Reaches, ExecAll, Exec, StateAt, WellFormed, Level, FpscrCode, SwitchToArm;
    LoadLevel(h);
    var o1 := if h.a64 then o else SwitchToArm(o);
    ArmFirst(h.a64, o);
    PutAllKeeps(h.a64, o1, FpscrCode(h.a64, fpscr));
    var c := CoreOf(v, block);
    var w := v.(regs := Set(v.regs, 0, fpscr), rest := FpscrView(g, fpscr, v.rest));
    if h.a64 {
      ReachesSelf(h, image, StateAt(h, o, c));
      A64FpscrExec(h, image, |o1.cells|, fpscr, v, block);
    } else {
      ToArmRuns(h, image, o, c);
      ArmFpscrExec(h, image, |o1.cells|, fpscr, v, block);
    }
    PutAllRuns(h, image, o1, FpscrCode(h.a64, fpscr), c, CoreOf(w, block));
    ReachesTrans(h, image, StateAt(h, o, c), StateAt(h, o1, c),
      StateAt(h, SetFpscr(h.a64, o, fpscr), CoreOf(w, block)));
  }
}
