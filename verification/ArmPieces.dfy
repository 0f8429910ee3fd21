/** The straight-line pieces of a generated image: items under test and mode switches. */
module ArmPieces {
  import opened Wrappers
  import opened ArmMachine
  import opened ArmAddressing
  import opened ArmGenerator
  import opened ArmExec

  /** What a run shows to risu: everything but addresses. */
  datatype View<X> = View(regs: seq<nat>, rest: X, trace: seq<Report<X>>)

  function CoreOf<X>(v: View<X>, block: Option<nat>): Core<X> { Core(v.regs, block, v.rest, v.trace) }

  /** The same processor with the image at another place. */
  ghost predicate SameCpu<X>(h: Host<X>, g: Host<X>) { g == h.(load := g.load) }

  function Log<X>(v: View<X>, op: RisuOp, at: nat): View<X> {
    v.(trace := v.trace + [Report(op, 2 * at, v.regs, v.rest)])
  }

  // ---------------------------------------------------------------- items

  /** What an item does, in terms of offsets only. */
  function AroundView<X>(g: Host<X>, item: Item, v: View<X>): View<X>
    requires Accepted(g.a64, item)
  {
    var out := if item.Plain? then g.test(item.n, v.regs, v.rest)
      else AccessEffect(g, item.n, item.address, Offset(item.random, AlignOf(g.a64, item)), v.regs, v.rest);
    v.(regs := out.regs, rest := out.rest)
  }

  function ItemView<X>(g: Host<X>, mode: Mode, at: nat, item: Item, v: View<X>): View<X>
    requires Accepted(g.a64, item)
  {
    var v1 := AroundView(g, item, v);
    var end := at + Length(mode, Around(g.a64, item));
    if item.Plain? then Log(v1, Compare, end)
    else Log(Log(v1, CompareMem, end), Compare, end + Size(mode, Risuop(CompareMem)))
  }

  lemma RegSequences(a64: bool, address: Address, off: nat)
    ensures OnlyRegs(Prologue(a64, address, off)) && OnlyRegs(Cleanup(a64, address.base)) && OnlyRegs(Barrier(a64))
  {
    hide MovRi;
  }

  lemma BarrierRuns(a64: bool, block: nat, code: seq<Insn>, r: seq<nat>)
    ensures RunRegs(a64, block, code + Barrier(a64), r) == RunRegs(a64, block, code, r)
    ensures RunRegs(a64, block, Barrier(a64) + code, r) == RunRegs(a64, block, code, r)
  {
    hide RunRegs;
    RunAppend(a64, block, code, Barrier(a64), r);
    RunAppend(a64, block, Barrier(a64), code, r);
    BarrierAlone(a64, block, r);
    BarrierAlone(a64, block, RunRegs(a64, block, code, r));
  }

  lemma BarrierAlone(a64: bool, block: nat, r: seq<nat>)
    ensures RunRegs(a64, block, Barrier(a64), r) == r
  {
    RunOne(a64, block, Nop, r);
  }

  /** A memory item is an access between two stretches of register code. */
  lemma AroundAccess<X(!new)>(h: Host<X>, image: seq<Cell>, mode: Mode, at: nat, item: Item, c: Core<X>)
    requires item.Memory? && Accepted(h.a64, item)
    ensures var align := AlignOf(h.a64, item);
      ExecAll(h, image, mode, at, Around(h.a64, item), c) ==
      AccessRun(h, item.n, item.address, align, Offset(item.random, align), c)
  {
    hide Prologue, Cleanup, Barrier, ExecAll, RunRegs, OnlyRegs, DoAccess;
    var align, address := AlignOf(h.a64, item), item.address;
    var off := Offset(item.random, align);
    var pre := Prologue(h.a64, address, off) + Barrier(h.a64);
    var access := Access(item.n, item.narrow, address, align);
    var clean := if address.trashed then [] else Cleanup(h.a64, address.base);
    var post := Barrier(h.a64) + clean;
    assert Around(h.a64, item) == pre + ([access] + post);
    PiecesAreRegs(h.a64, address, off);
    BarrierRuns(h.a64, BlockOf(c), Prologue(h.a64, address, off), c.regs);
    ExecRegs(h, image, mode, at, pre, c);
    var ready := c.(regs := RunRegs(h.a64, BlockOf(c), Prologue(h.a64, address, off), c.regs));
    ExecAppend(h, image, mode, at, pre, [access] + post, c);
    var at1 := at + Length(mode, pre);
    AccessThen(h, image, mode, at1, access, post, ready);
    var done := DoAccess(h, item.n, address, align, ready);
    if done.Some? {
      BarrierRuns(h.a64, BlockOf(c), clean, done.value.regs);
      ExecRegs(h, image, mode, at1 + Size(mode, access), post, done.value);
      DoAccessKeepsBlock(h, item.n, address, align, ready);
      RunNothing(h.a64, BlockOf(c), done.value.regs);
    }
  }

  lemma RunNothing(a64: bool, block: nat, r: seq<nat>)
    ensures RunRegs(a64, block, [], r) == r
  {
  }

  lemma PiecesAreRegs(a64: bool, address: Address, off: nat)
    ensures OnlyRegs(Prologue(a64, address, off) + Barrier(a64))
    ensures OnlyRegs(Barrier(a64) + Cleanup(a64, address.base)) && OnlyRegs(Barrier(a64) + [])
  {
    RegSequences(a64, address, off);
    hide Prologue, Cleanup, Barrier;
  }

  lemma DoAccessKeepsBlock<X>(h: Host<X>, n: nat, address: Address, align: nat, c: Core<X>)
    ensures var d := DoAccess(h, n, address, align, c); d.Some? ==> d.value.block == c.block
  {
  }

  lemma AccessThen<X>(h: Host<X>, image: seq<Cell>, mode: Mode, at: nat, access: Insn, post: seq<Insn>, c: Core<X>)
    requires access.Access?
    ensures var d := DoAccess(h, access.n, access.address, access.align, c);
      ExecAll(h, image, mode, at, [access] + post, c) ==
      if d.None? then None else ExecAll(h, image, mode, at + Size(mode, access), post, d.value)
  {
    hide DoAccess, Size;
    assert ([access] + post)[1..] == post;
  }

  /** The block, once there is one, is aligned and inside the address space. */
  predicate Placed(a64: bool, block: Option<nat>) { block.Some? ==> BlockAt(a64, block.value) }

  lemma AroundExec<X(!new)>(
    h: Host<X>, g: Host<X>, image: seq<Cell>, mode: Mode, at: nat, item: Item, v: View<X>, block: Option<nat>)
    requires WellFormed(h) && SameCpu(h, g) && ItemFits(h.a64, item) && |v.regs| == RegCount(h.a64)
    requires Placed(h.a64, block) && (item.Memory? ==> block.Some?)
    ensures var v1 := AroundView(g, item, v);
      && ExecAll(h, image, mode, at, Around(h.a64, item), CoreOf(v, block)) == Some(CoreOf(v1, block))
      && |v1.regs| == RegCount(h.a64)
  {
    if item.Plain? {
      hide ExecAll, ItemFits;
      ExecOne(h, image, mode, at, Test(item.n, item.narrow), CoreOf(v, block));
    } else {
      hide Around, AccessRun, AccessEffect, ExecAll, Promised, WellFormed, Offset, BlockAt;
      var align := AlignOf(h.a64, item);
      AroundAccess(h, image, mode, at, item, CoreOf(v, block));
      OffsetInRange(item.random, align);
      AccessIsRelative(h, item.n, item.address, align, Offset(item.random, align), CoreOf(v, block));
      SameEffect(h, g, item.n, item.address, Offset(item.random, align), v.regs, v.rest);
    }
  }

  lemma SameEffect<X>(h: Host<X>, g: Host<X>, n: nat, address: Address, off: nat, regs: seq<nat>, rest: X)
    requires SameCpu(h, g)
    ensures AccessEffect(h, n, address, off, regs, rest) == AccessEffect(g, n, address, off, regs, rest)
  {
    hide Prepared, Set, Get, Modulus;
  }

  lemma LogExec<X>(h: Host<X>, image: seq<Cell>, mode: Mode, at: nat, op: RisuOp, v: View<X>, block: Option<nat>)
    requires op == Compare || op == CompareMem
    ensures ExecAll(h, image, mode, at, [Risuop(op)], CoreOf(v, block)) == Some(CoreOf(Log(v, op, at), block))
    ensures Length(mode, [Risuop(op)]) == Size(mode, Risuop(op)) == Size(mode, Risuop(CompareMem))
  {
    ExecOne(h, image, mode, at, Risuop(op), CoreOf(v, block));
    hide ExecAll;
  }

  lemma ItemExec<X(!new)>(
    h: Host<X>, g: Host<X>, image: seq<Cell>, mode: Mode, at: nat, item: Item, v: View<X>, block: Option<nat>)
    requires WellFormed(h) && SameCpu(h, g) && ItemFits(h.a64, item) && |v.regs| == RegCount(h.a64)
    requires Placed(h.a64, block) && (item.Memory? ==> block.Some?)
    ensures var v1 := ItemView(g, mode, at, item, v);
      && ExecAll(h, image, mode, at, ItemCode(h.a64, item), CoreOf(v, block)) == Some(CoreOf(v1, block))
      && |v1.regs| == RegCount(h.a64)
  {
    hide Around, AroundView, ExecAll, Length, Size, WellFormed, Placed, CoreOf, Accepted, Promised;
    AroundExec(h, g, image, mode, at, item, v, block);
    var v1 := AroundView(g, item, v);
    var around := Around(h.a64, item);
    var end := at + Length(mode, around);
    if item.Plain? {
      ExecAppend(h, image, mode, at, around, [Risuop(Compare)], CoreOf(v, block));
      LogExec(h, image, mode, end, Compare, v1, block);
      assert ItemCode(h.a64, item) == around + [Risuop(Compare)];
    } else {
      var first, second := [Risuop(CompareMem)], [Risuop(Compare)];
      LogExec(h, image, mode, end, CompareMem, v1, block);
      var v2 := Log(v1, CompareMem, end);
      var end2 := end + Size(mode, Risuop(CompareMem));
      LogExec(h, image, mode, end2, Compare, v2, block);
      ExecAppend(h, image, mode, end, first, second, CoreOf(v1, block));
      ExecAppend(h, image, mode, at, around, first + second, CoreOf(v, block));
      assert ItemCode(h.a64, item) == around + (first + second);
    }
  }

  // ---------------------------------------------------------------- mode switches

  lemma ToThumbPieces(o: Out)
    requires Level(false, o) && !o.thumb
    ensures var o1 := Put(false, o, AddPc(0, 1));
      var o2 := Put(false, o1, BranchReg(0));
      && SwitchToThumb(o) == Put(false, o2.(thumb := true), XorSelf(0))
      && o.cells <= o1.cells <= o2.cells <= SwitchToThumb(o).cells
      && |o1.cells| == |o.cells| + 2 && |o2.cells| == |o.cells| + 4 && |SwitchToThumb(o).cells| == |o.cells| + 5
      && Level(false, o1) && Level(false, o2) && !o2.thumb && Level(false, SwitchToThumb(o))
  {
    hide Put, PutAll;
    var o1 := Put(false, o, AddPc(0, 1));
    var o2 := Put(false, o1, BranchReg(0));
    assert [AddPc(0, 1), BranchReg(0)] == [AddPc(0, 1)] + [BranchReg(0)];
    PutAllAppend(false, o, [AddPc(0, 1)], [BranchReg(0)]);
    PutOne(false, o, AddPc(0, 1));
    PutOne(false, o1, BranchReg(0));
    PutKeeps(false, o, AddPc(0, 1));
    PutKeeps(false, o1, BranchReg(0));
    PutKeeps(false, o2.(thumb := true), XorSelf(0));
  }

  /** `add r0, pc, #1; bx r0; eor r0, r0` enters Thumb and leaves nothing of the address. */
  lemma ToThumbRuns<X(!new)>(h: Host<X>, image: seq<Cell>, o: Out, v: View<X>, block: Option<nat>)
    requires Loaded(h, image) && !h.a64 && Level(false, o) && SwitchToThumb(o).cells <= image
    requires |v.regs| == RegCount(false)
    ensures var w := if o.thumb then v else v.(regs := Set(v.regs, 0, 0));
      Reaches(h, image, StateAt(h, o, CoreOf(v, block)), StateAt(h, SwitchToThumb(o), CoreOf(w, block)))
  {
    hide Put, Reaches, WellFormed, Exec, SwitchToThumb, Level, StateAt;
    var c := CoreOf(v, block);
    if o.thumb {
      ThumbAlready(o);
      ReachesSelf(h, image, StateAt(h, o, c));
    } else {
      LoadLevel(h);
      ToThumbPieces(o);
      var pc := h.load + 2 * |o.cells|;
      var o1 := Put(false, o, AddPc(0, 1));
      var o2 := Put(false, o1, BranchReg(0));
      var o3 := o2.(thumb := true);
      var d, e := WithReg(c, 0, pc + 9), WithReg(c, 0, 0);
      AddPcExec(h, image, Arm, pc, 1, c);
      PutRuns(h, image, o, AddPc(0, 1), c, d);
      BranchRegRuns(h, image, o1, 0, d, o3);
      ReachesTrans(h, image, StateAt(h, o, c), StateAt(h, o1, d), StateAt(h, o3, d));
      assert Level(false, o3) by { Loosen(o2); }
      RegInsnExec(h, image, Thumb, h.load + 2 * |o3.cells|, XorSelf(0), d);
      SetSet(c.regs, 0);
      PutRuns(h, image, o3, XorSelf(0), d, e);
      ReachesTrans(h, image, StateAt(h, o, c), StateAt(h, o3, d), StateAt(h, SwitchToThumb(o), e));
    }
  }

  lemma ThumbAlready(o: Out)
    requires o.thumb
    ensures SwitchToThumb(o) == o
  {
  }

  lemma Loosen(o: Out)
    ensures Level(false, o.(thumb := true))
  {
  }

  lemma AddPcExec<X>(h: Host<X>, image: seq<Cell>, mode: Mode, pc: nat, ahead: nat, c: Core<X>)
    requires PcValue(mode, pc) + ahead < Modulus(h.a64)
    ensures Exec(h, image, mode, pc, AddPc(0, ahead), c) == Some(WithReg(c, 0, PcValue(mode, pc) + ahead))
  {
    hide Set;
  }

  lemma ToArmPieces(o: Out)
    requires Level(false, o) && o.thumb
    ensures var o1 := ThumbAlign(o);
      var o2 := Put(false, o1, BranchPc);
      && SwitchToArm(o) == Put(false, o2, Nop).(thumb := false)
      && o.cells <= o1.cells <= o2.cells <= SwitchToArm(o).cells
      && |o1.cells| % 2 == 0 && o1.thumb && |SwitchToArm(o).cells| == |o1.cells| + 2
      && Level(false, o1) && Level(false, SwitchToArm(o))
  {
    PutKeeps(false, o, Nop);
    var o1 := ThumbAlign(o);
    var o2 := Put(false, o1, BranchPc);
    hide Put, PutAll;
    PutKeeps(false, o1, BranchPc);
    PutKeeps(false, o2, Nop);
    assert [BranchPc, Nop] == [BranchPc] + [Nop];
    PutAllAppend(false, o1, [BranchPc], [Nop]);
    PutOne(false, o1, BranchPc);
    PutOne(false, o2, Nop);
  }

  /** An aligned `bx pc; nop` leaves Thumb just past the `nop`. */
  lemma ToArmRuns<X(!new)>(h: Host<X>, image: seq<Cell>, o: Out, c: Core<X>)
    requires WellFormed(h) && Level(h.a64, o) && SwitchToArm(o).cells <= image
    ensures Reaches(h, image, StateAt(h, o, c), StateAt(h, SwitchToArm(o), c))
    ensures Level(h.a64, SwitchToArm(o)) && !SwitchToArm(o).thumb && o.cells <= SwitchToArm(o).cells
  {
    hide Put, PutAll, Reaches, WellFormed, Exec, StateAt, ThumbAlign;
    LoadLevel(h);
    ReachesSelf(h, image, StateAt(h, o, c));
    if o.thumb {
      ToArmPieces(o);
      var o1 := ThumbAlign(o);
      assert SwitchToArm(o).cells <= image;
      AlignRuns(h, image, o, c);
      BranchPcRuns(h, image, o1, c, SwitchToArm(o));
      ReachesTrans(h, image, StateAt(h, o, c), StateAt(h, o1, c), StateAt(h, SwitchToArm(o), c));
    }
  }

  lemma AlignRuns<X>(h: Host<X>, image: seq<Cell>, o: Out, c: Core<X>)
    requires h.load % 4 == 0 && Level(h.a64, o) && o.thumb && ThumbAlign(o).cells <= image
    ensures Reaches(h, image, StateAt(h, o, c), StateAt(h, ThumbAlign(o), c))
  {
    hide Put, Reaches, Exec, StateAt;
    ReachesSelf(h, image, StateAt(h, o, c));
    if 2 * |o.cells| % 4 != 0 {
      RegInsnExec(h, image, Thumb, h.load + 2 * |o.cells|, Nop, c);
      PutRuns(h, image, o, Nop, c, c);
    }
  }
}
