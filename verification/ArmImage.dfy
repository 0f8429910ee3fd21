/** Running a generated image: data is never executed, the mode always matches, the end is
    reached, and what risu compares on the way does not depend on where the image was loaded.
 */
module ArmImage {
  import opened Wrappers
  import opened ArmMachine
  import opened ArmAddressing
  import opened ArmGenerator
  import opened ArmExec
  import opened ArmPieces
  import opened ArmTables
  import opened ArmSetup

  // ---------------------------------------------------------------- register data and modes

  /** Fresh register data and its comparison, for a table emitted after `o`. */
  function DataView<X>(g: Host<X>, o: Out, fp: bool, t: Table, v: View<X>): View<X>
    requires TableFits(g.a64, fp, t)
  {
    if g.a64 then Log(A64TableView(g, |o.cells|, fp, t, v), Compare, |A64Regdata(o, fp, t).cells|)
    else Log(ArmTableView(g, fp, t, v), Compare, |ArmRegdata(o, fp, t).cells|)
  }

  lemma DataRuns<X(!new)>(
    h: Host<X>, g: Host<X>, image: seq<Cell>, o: Out, fp: bool, t: Table, v: View<X>, block: Option<nat>)
    requires Loaded(h, image) && SameCpu(h, g) && g.load == h.load % 64 && TableFits(h.a64, fp, t)
    requires Level(h.a64, o) && RegisterData(h.a64, o, fp, t).cells <= image && |v.regs| == RegCount(h.a64)
    ensures var p := RegisterData(h.a64, o, fp, t);
      && Reaches(h, image, StateAt(h, o, CoreOf(v, block)), StateAt(h, p, CoreOf(DataView(g, o, fp, t, v), block)))
      && Level(h.a64, p) && !p.thumb && o.cells <= p.cells
  {
    hide Put, PutAll, Reaches, ExecAll, Exec, StateAt, WellFormed, Level, A64Regdata, ArmRegdata, A64TableView,
      ArmTableView;
    LoadLevel(h);
    var o1 := if h.a64 then A64Regdata(o, fp, t) else ArmRegdata(o, fp, t);
    var w := if h.a64 then A64TableView(g, |o.cells|, fp, t, v) else ArmTableView(g, fp, t, v);
    DataLevel(h.a64, o, fp, t);
    if h.a64 {
      A64RegdataRuns(h, g, image, o, fp, t, v, block);
    } else {
      ArmRegdataRuns(h, g, image, o, fp, t, v, block);
    }
    LogExec(h, image, ModeOf(h.a64, o1), |o1.cells|, Compare, w, block);
    ExecOne(h, image, ModeOf(h.a64, o1), |o1.cells|, Risuop(Compare), CoreOf(w, block));
    var d := CoreOf(Log(w, Compare, |o1.cells|), block);
    PutRuns(h, image, o1, Risuop(Compare), CoreOf(w, block), d);
    ReachesTrans(h, image, StateAt(h, o, CoreOf(v, block)), StateAt(h, o1, CoreOf(w, block)),
      StateAt(h, RegisterData(h.a64, o, fp, t), d));
  }

  lemma DataLevel(a64: bool, o: Out, fp: bool, t: Table)
    requires Level(a64, o)
    ensures var o1 := if a64 then A64Regdata(o, fp, t) else ArmRegdata(o, fp, t);
      var p := RegisterData(a64, o, fp, t);
      Level(a64, o1) && Level(a64, p) && !p.thumb && o.cells <= o1.cells <= p.cells
  {
    hide Put, PutAll, SwitchToArm, A64Regdata, ArmRegdata;
    if a64 {
      A64RegdataLayout(o, fp, t);
    } else {
      ArmRegdataLayout(o, fp, t);
    }
    PutKeeps(a64, if a64 then A64Regdata(o, fp, t) else ArmRegdata(o, fp, t), Risuop(Compare));
  }

  /** Entering Thumb clears r0. */
  function ModeView<X>(t: Target, o: Out, v: View<X>): View<X> {
    if t.TestThumb? && !o.thumb then v.(regs := Set(v.regs, 0, 0)) else v
  }

  lemma ModeRuns<X(!new)>(h: Host<X>, image: seq<Cell>, t: Target, o: Out, v: View<X>, block: Option<nat>)
    requires Loaded(h, image) && h.a64 == t.TestA64? && Level(h.a64, o) && !o.thumb && ToTestMode(t, o).cells <= image
    requires |v.regs| == RegCount(h.a64)
    ensures var p := ToTestMode(t, o);
      Reaches(h, image, StateAt(h, o, CoreOf(v, block)), StateAt(h, p, CoreOf(ModeView(t, o, v), block)))
  {
    hide Reaches, StateAt, SwitchToThumb, WellFormed, Level;
    ReachesSelf(h, image, StateAt(h, o, CoreOf(v, block)));
    if t.TestThumb? {
      ToThumbRuns(h, image, o, v, block);
    }
  }

  lemma ModeLevel(t: Target, o: Out)
    requires Level(t.TestA64?, o) && !o.thumb
    ensures var p := ToTestMode(t, o); Level(t.TestA64?, p) && p.thumb == t.TestThumb? && o.cells <= p.cells
  {
    hide Put, PutAll;
    if t.TestThumb? {
      ToThumbPieces(o);
    }
  }

  function FreshView<X>(g: Host<X>, target: Target, o: Out, fp: bool, t: Table, v: View<X>): View<X>
    requires g.a64 == target.TestA64? && TableFits(g.a64, fp, t)
  {
    ModeView(target, RegisterData(g.a64, o, fp, t), DataView(g, o, fp, t, v))
  }

  lemma FreshLevel(target: Target, o: Out, fp: bool, t: Table)
    requires Level(target.TestA64?, o)
    ensures var p := ToTestMode(target, RegisterData(target.TestA64?, o, fp, t));
      Level(target.TestA64?, p) && p.thumb == target.TestThumb? && o.cells <= p.cells
  {
    hide RegisterData, ToTestMode, Level;
    DataLevel(target.TestA64?, o, fp, t);
    ModeLevel(target, RegisterData(target.TestA64?, o, fp, t));
  }

  lemma FreshRuns<X(!new)>(
    h: Host<X>, g: Host<X>, image: seq<Cell>, target: Target, o: Out, fp: bool, t: Table, v: View<X>,
    block: Option<nat>)
    requires Loaded(h, image) && SameCpu(h, g) && g.load == h.load % 64
    requires h.a64 == target.TestA64? && TableFits(h.a64, fp, t) && Level(h.a64, o) && |v.regs| == RegCount(h.a64)
    requires ToTestMode(target, RegisterData(h.a64, o, fp, t)).cells <= image
    ensures var p := ToTestMode(target, RegisterData(h.a64, o, fp, t));
      var w := FreshView(g, target, o, fp, t, v);
      && Reaches(h, image, StateAt(h, o, CoreOf(v, block)), StateAt(h, p, CoreOf(w, block)))
      && |w.regs| == RegCount(h.a64)
  {
    hide RegisterData, ToTestMode, Level, Loaded, Reaches, StateAt;
    DataLevel(h.a64, o, fp, t);
    var o1, v1 := RegisterData(h.a64, o, fp, t), DataView(g, o, fp, t, v);
    ModeLevel(target, o1);
    DataRuns(h, g, image, o, fp, t, v, block);
    ModeRuns(h, image, target, o1, v1, block);
    ReachesTrans(h, image, StateAt(h, o, CoreOf(v, block)), StateAt(h, o1, CoreOf(v1, block)),
      StateAt(h, ToTestMode(target, o1), CoreOf(ModeView(target, o1, v1), block)));
  }

  // ---------------------------------------------------------------- up to the first instruction

  const EMPTY := Out([], false)

  function AfterFpscr(p: Program): Out {
    if p.fpscr.Some? then SetFpscr(p.target.TestA64?, EMPTY, p.fpscr.value) else EMPTY
  }

  function AfterBlock(p: Program): Out {
    if p.block.Some? then MemblockSetup(p.target.TestA64?, AfterFpscr(p), p.block.value) else AfterFpscr(p)
  }

  /** The cell where the data of the memory block starts. */
  function BlockCell(p: Program): nat { |SwitchToArm(AfterFpscr(p)).cells| + 8 }

  /** The memory block of a program loaded at `load`. */
  function ProgramBlock(load: nat, p: Program): Option<nat> {
    if p.block.Some? then Some(BlockAddress(load, BlockCell(p))) else None
  }

  /** The state at the first instruction under test; the registers before do not matter. */
  function HeadView<X>(g: Host<X>, p: Program, x: X): View<X>
    requires g.a64 == p.target.TestA64? && Fits(p)
  {
    var x1 := if p.fpscr.Some? then FpscrView(g, p.fpscr.value, x) else x;
    var x2 := if p.block.Some? then BlockView(g, BlockCell(p), p.block.value, x1) else x1;
    FreshView(g, p.target, AfterBlock(p), p.fpscr.Some?, p.first, View([], x2, []))
  }

  lemma HeadLevel(p: Program)
    ensures var a64 := p.target.TestA64?;
      && Head(p) == ToTestMode(p.target, RegisterData(a64, AfterBlock(p), p.fpscr.Some?, p.first))
      && Level(a64, AfterFpscr(p)) && Level(a64, AfterBlock(p)) && Level(a64, Head(p))
      && AfterFpscr(p).cells <= AfterBlock(p).cells <= Head(p).cells && Head(p).thumb == p.target.TestThumb?
  {
    hide MemblockSetup, RegisterData, ToTestMode, PutAll, FpscrCode, Put, SwitchToArm;
    var a64 := p.target.TestA64?;
    ArmFirst(a64, EMPTY);
    if p.fpscr.Some? {
      PutAllKeeps(a64, EMPTY, FpscrCode(a64, p.fpscr.value));
    }
    if p.block.Some? {
      BlockLayout(a64, AfterFpscr(p), p.block.value);
    }
    FreshLevel(p.target, AfterBlock(p), p.fpscr.Some?, p.first);
  }

  lemma AfterFpscrRuns<X(!new)>(h: Host<X>, g: Host<X>, image: seq<Cell>, p: Program, v: View<X>)
    requires Loaded(h, image) && SameCpu(h, g) && h.a64 == p.target.TestA64? && Fits(p)
    requires AfterFpscr(p).cells <= image && |v.regs| == RegCount(h.a64)
    ensures var x := if p.fpscr.Some? then FpscrView(g, p.fpscr.value, v.rest) else v.rest;
      exists r: seq<nat> ::
        && |r| == RegCount(h.a64)
        && Reaches(h, image, StateAt(h, EMPTY, CoreOf(v, None)),
             StateAt(h, AfterFpscr(p), CoreOf(View(r, x, v.trace), None)))
  {
    hide Reaches, SetFpscr, FpscrView, StateAt;
    if p.fpscr.Some? {
      FpscrRuns(h, g, image, EMPTY, p.fpscr.value, v, None);
      assert |Set(v.regs, 0, p.fpscr.value)| == RegCount(h.a64);
    } else {
      ReachesSelf(h, image, StateAt(h, EMPTY, CoreOf(v, None)));
      assert v == View(v.regs, v.rest, v.trace);
    }
  }

  lemma AfterBlockRuns<X(!new)>(h: Host<X>, g: Host<X>, image: seq<Cell>, p: Program, v: View<X>)
    requires Loaded(h, image) && SameCpu(h, g) && g.load == h.load % 64 && h.a64 == p.target.TestA64? && Fits(p)
    requires AfterBlock(p).cells <= image && |v.regs| == RegCount(h.a64)
    ensures var x := if p.block.Some? then BlockView(g, BlockCell(p), p.block.value, v.rest) else v.rest;
      exists r: seq<nat> ::
        && |r| == RegCount(h.a64)
        && Reaches(h, image, StateAt(h, AfterFpscr(p), CoreOf(v, None)),
             StateAt(h, AfterBlock(p), CoreOf(View(r, x, v.trace), ProgramBlock(h.load, p))))
    ensures Placed(h.a64, ProgramBlock(h.load, p))
  {
    hide Reaches, MemblockSetup, BlockView, StateAt, BlockAddress, BlockAt, AfterFpscr, SwitchToArm, TableFits,
      ItemFits;
    HeadLevel(p);
    if p.block.Some? {
      MemblockRuns(h, g, image, AfterFpscr(p), p.block.value, v, None);
      assert |Set(v.regs, 0, BlockAddress(h.load, BlockCell(p)))| == RegCount(h.a64);
    } else {
      ReachesSelf(h, image, StateAt(h, AfterFpscr(p), CoreOf(v, None)));
      assert v == View(v.regs, v.rest, v.trace);
    }
  }

  lemma FreshIgnores<X>(g: Host<X>, target: Target, o: Out, fp: bool, t: Table, v: View<X>, r: seq<nat>)
    requires g.a64 == target.TestA64? && TableFits(g.a64, fp, t)
    ensures FreshView(g, target, o, fp, t, v.(regs := r)) == FreshView(g, target, o, fp, t, v)
  {
    hide TableFits, FloatsView, Skip, A64Regdata, ArmRegdata, RegisterData;
  }

  lemma HeadRuns<X(!new)>(h: Host<X>, g: Host<X>, image: seq<Cell>, p: Program, r: seq<nat>, x: X)
    requires Loaded(h, image) && SameCpu(h, g) && g.load == h.load % 64 && h.a64 == p.target.TestA64? && Fits(p)
    requires Head(p).cells <= image && |r| == RegCount(h.a64)
    ensures var v := HeadView(g, p, x);
      && Reaches(h, image, StateAt(h, EMPTY, Core(r, None, x, [])),
           StateAt(h, Head(p), CoreOf(v, ProgramBlock(h.load, p))))
      && |v.regs| == RegCount(h.a64) && Placed(h.a64, ProgramBlock(h.load, p))
  {
    hide Reaches, StateAt, AfterFpscr, AfterBlock, Head, FpscrView, BlockView, FreshView, ProgramBlock, Placed, Level,
      Loaded, TableFits, ItemFits, RegisterData, ToTestMode;
    HeadLevel(p);
    var v0 := View(r, x, []);
    var x1 := if p.fpscr.Some? then FpscrView(g, p.fpscr.value, x) else x;
    var x2 := if p.block.Some? then BlockView(g, BlockCell(p), p.block.value, x1) else x1;
    AfterFpscrRuns(h, g, image, p, v0);
    var r1: seq<nat> :| |r1| == RegCount(h.a64) &&
      Reaches(h, image, StateAt(h, EMPTY, CoreOf(v0, None)), StateAt(h, AfterFpscr(p), CoreOf(View(r1, x1, []), None)));
    AfterBlockRuns(h, g, image, p, View(r1, x1, []));
    var b := ProgramBlock(h.load, p);
    var r2: seq<nat> :| |r2| == RegCount(h.a64) &&
      Reaches(h, image, StateAt(h, AfterFpscr(p), CoreOf(View(r1, x1, []), None)),
        StateAt(h, AfterBlock(p), CoreOf(View(r2, x2, []), b)));
    FreshRuns(h, g, image, p.target, AfterBlock(p), p.fpscr.Some?, p.first, View(r2, x2, []), b);
    FreshIgnores(g, p.target, AfterBlock(p), p.fpscr.Some?, p.first, View([], x2, []), r2);
    var s, s1, s2 := StateAt(h, EMPTY, CoreOf(v0, None)), StateAt(h, AfterFpscr(p), CoreOf(View(r1, x1, []), None)),
      StateAt(h, AfterBlock(p), CoreOf(View(r2, x2, []), b));
    ReachesTrans(h, image, s, s1, s2);
    ReachesTrans(h, image, s, s2, StateAt(h, Head(p), CoreOf(HeadView(g, p, x), b)));
  }

  // ---------------------------------------------------------------- the instructions

  /** What instruction `k` and the register data after it leave. */
  function TurnView<X>(g: Host<X>, p: Program, o: Out, k: nat, v: View<X>): View<X>
    requires g.a64 == p.target.TestA64? && Fits(p) && k < |p.items|
  {
    var v1 := ItemView(g, ModeOf(g.a64, o), |o.cells|, p.items[k], v);
    var o1 := PutAll(g.a64, o, ItemCode(g.a64, p.items[k]));
    if (k + 1) % 100 == 0 then FreshView(g, p.target, o1, p.fpscr.Some?, p.tables[(k + 1) / 100 - 1], v1) else v1
  }

  function TurnsView<X>(g: Host<X>, p: Program, k: nat, x: X): View<X>
    requires g.a64 == p.target.TestA64? && Fits(p) && k <= |p.items|
  {
    if k == 0 then HeadView(g, p, x) else TurnView(g, p, Turns(p, k - 1), k - 1, TurnsView(g, p, k - 1, x))
  }

  /** Everything a run shows to risu, the final registers included. */
  function ImageView<X>(g: Host<X>, p: Program, x: X): View<X>
    requires g.a64 == p.target.TestA64? && Fits(p)
  {
    Log(TurnsView(g, p, |p.items|, x), TestEnd, |Turns(p, |p.items|).cells|)
  }

  lemma TurnLevel(p: Program, o: Out, k: nat)
    requires Fits(p) && k < |p.items| && Level(p.target.TestA64?, o) && o.thumb == p.target.TestThumb?
    ensures var o1 := PutAll(p.target.TestA64?, o, ItemCode(p.target.TestA64?, p.items[k]));
      && Level(p.target.TestA64?, o1)
      && o.cells <= o1.cells <= Turn(p, o, k).cells
      && Level(p.target.TestA64?, Turn(p, o, k)) && Turn(p, o, k).thumb == p.target.TestThumb?
  {
    hide PutAll, ItemCode, RegisterData, ToTestMode, Level;
    var a64 := p.target.TestA64?;
    var code := ItemCode(a64, p.items[k]);
    PutAllKeeps(a64, o, code);
    if (k + 1) % 100 == 0 {
      FreshLevel(p.target, PutAll(a64, o, code), p.fpscr.Some?, p.tables[(k + 1) / 100 - 1]);
    }
  }

  lemma {:induction false} TurnsLevel(p: Program, k: nat)
    requires Fits(p) && k <= |p.items|
    ensures Level(p.target.TestA64?, Turns(p, k)) && Turns(p, k).thumb == p.target.TestThumb?
    ensures k > 0 ==> Turns(p, k - 1).cells <= Turns(p, k).cells
  {
    hide Turn, Head, Level, Fits;
    if k == 0 {
      HeadLevel(p);
    } else {
      TurnsLevel(p, k - 1);
      TurnLevel(p, Turns(p, k - 1), k - 1);
    }
  }

  lemma TurnRuns<X(!new)>(
    h: Host<X>, g: Host<X>, image: seq<Cell>, p: Program, o: Out, k: nat, v: View<X>, block: Option<nat>)
    requires Loaded(h, image) && SameCpu(h, g) && g.load == h.load % 64 && h.a64 == p.target.TestA64? && Fits(p)
    requires k < |p.items| && Level(h.a64, o) && o.thumb == p.target.TestThumb? && Turn(p, o, k).cells <= image
    requires |v.regs| == RegCount(h.a64) && Placed(h.a64, block) && (p.block.Some? ==> block.Some?)
    ensures var w := TurnView(g, p, o, k, v);
      && Reaches(h, image, StateAt(h, o, CoreOf(v, block)), StateAt(h, Turn(p, o, k), CoreOf(w, block)))
      && |w.regs| == RegCount(h.a64)
  {
    hide Reaches, StateAt, PutAll, ItemCode, ItemView, FreshView, RegisterData, ToTestMode, Level, WellFormed, ExecAll,
      TableFits, Promised, Accepted, Placed;
    var code := ItemCode(h.a64, p.items[k]);
    var o1 := PutAll(h.a64, o, code);
    TurnLevel(p, o, k);
    LoadLevel(h);
    var v1 := ItemView(g, ModeOf(h.a64, o), |o.cells|, p.items[k], v);
    ItemExec(h, g, image, ModeOf(h.a64, o), |o.cells|, p.items[k], v, block);
    PutAllRuns(h, image, o, code, CoreOf(v, block), CoreOf(v1, block));
    if (k + 1) % 100 == 0 {
      var t := p.tables[(k + 1) / 100 - 1];
      FreshRuns(h, g, image, p.target, o1, p.fpscr.Some?, t, v1, block);
      ReachesTrans(h, image, StateAt(h, o, CoreOf(v, block)), StateAt(h, o1, CoreOf(v1, block)),
        StateAt(h, Turn(p, o, k), CoreOf(TurnView(g, p, o, k, v), block)));
    }
  }

  lemma {:induction false} TurnsRun<X(!new)>(
    h: Host<X>, g: Host<X>, image: seq<Cell>, p: Program, k: nat, r: seq<nat>, x: X)
    requires Loaded(h, image) && SameCpu(h, g) && g.load == h.load % 64 && h.a64 == p.target.TestA64? && Fits(p)
    requires k <= |p.items| && Turns(p, k).cells <= image && |r| == RegCount(h.a64)
    ensures var v := TurnsView(g, p, k, x);
      var b := ProgramBlock(h.load, p);
      && Reaches(h, image, StateAt(h, EMPTY, Core(r, None, x, [])), StateAt(h, Turns(p, k), CoreOf(v, b)))
      && |v.regs| == RegCount(h.a64) && Placed(h.a64, b)
  {
    hide Reaches, StateAt, Head, Turn, HeadView, TurnView, Level, Loaded, Fits, Placed, ProgramBlock;
    if k == 0 {
      HeadRuns(h, g, image, p, r, x);
    } else {
      TurnsLevel(p, k);
      TurnsLevel(p, k - 1);
      TurnsRun(h, g, image, p, k - 1, r, x);
      var b, v := ProgramBlock(h.load, p), TurnsView(g, p, k - 1, x);
      BlockPresent(h.load, p);
      TurnRuns(h, g, image, p, Turns(p, k - 1), k - 1, v, b);
      ReachesTrans(h, image, StateAt(h, EMPTY, Core(r, None, x, [])), StateAt(h, Turns(p, k - 1), CoreOf(v, b)),
        StateAt(h, Turns(p, k), CoreOf(TurnsView(g, p, k, x), b)));
    }
  }

  lemma BlockPresent(load: nat, p: Program)
    ensures p.block.Some? ==> ProgramBlock(load, p).Some?
  {
  }

  /** The machine as risu starts it: at the first byte, in ARM (or A64) mode, no block set. */
  function StartOf<X>(h: Host<X>, r: seq<nat>, x: X): State<X> {
    State(h.load, if h.a64 then A64 else Arm, false, Core(r, None, x, []))
  }

  /** From any registers, an image generated for any sequence of instructions runs to its end
      without getting stuck, and what it reports is a function of the program, the initial rest
      of the state, and the load address modulo 64. */
  lemma ImageRuns<X(!new)>(h: Host<X>, p: Program, r: seq<nat>, x: X)
    requires Fits(p) && Loaded(h, Image(p)) && h.a64 == p.target.TestA64? && |r| == RegCount(h.a64)
    ensures exists t: State<X> ::
      && Reaches(h, Image(p), StartOf(h, r, x), t) && t.halted
      && t.core == CoreOf(ImageView(h.(load := h.load % 64), p, x), ProgramBlock(h.load, p))
  {
    hide Reaches, Fits, Turns, TurnsView, ProgramBlock, Level, Put, WellFormed, Exec;
    var image, n, g := Image(p), |p.items|, h.(load := h.load % 64);
    var o := Turns(p, n);
    TurnsLevel(p, n);
    PutKeeps(h.a64, o, Risuop(TestEnd));
    LoadLevel(h);
    TurnsRun(h, g, image, p, n, r, x);
    var c := CoreOf(TurnsView(g, p, n, x), ProgramBlock(h.load, p));
    FetchAt(h, image, o, Risuop(TestEnd), c);
    var s := StateAt(h, o, c);
    var t := s.(halted := true, core := CoreOf(ImageView(g, p, x), ProgramBlock(h.load, p)));
    assert StateAt(h, EMPTY, Core(r, None, x, [])) == StartOf(h, r, x);
    ReachesStep(h, image, s, t);
    ReachesTrans(h, image, StartOf(h, r, x), s, t);
  }

  /** Two processors that agree on the instructions report the same, wherever the image lies and
      whatever the registers held; only the phase of the load address matters. */
  lemma ReportsDoNotDependOnPlace<X(!new)>(
    h1: Host<X>, h2: Host<X>, p: Program, r1: seq<nat>, r2: seq<nat>, x: X, t1: State<X>, t2: State<X>)
    requires Fits(p) && h1.a64 == p.target.TestA64? && |r1| == |r2| == RegCount(h1.a64)
    requires Loaded(h1, Image(p)) && Loaded(h2, Image(p)) && SameCpu(h1, h2) && h1.load % 64 == h2.load % 64
    requires Reaches(h1, Image(p), StartOf(h1, r1, x), t1) && t1.halted
    requires Reaches(h2, Image(p), StartOf(h2, r2, x), t2) && t2.halted
    ensures t1.core.trace == t2.core.trace && t1.core.regs == t2.core.regs && t1.core.rest == t2.core.rest
  {
    hide Reaches, Fits, Image, ImageView, Loaded, ProgramBlock, StartOf;
    ImageRuns(h1, p, r1, x);
    ImageRuns(h2, p, r2, x);
    var g := h1.(load := h1.load % 64);
    var u1: State<X> :| Reaches(h1, Image(p), StartOf(h1, r1, x), u1) && u1.halted
      && u1.core == CoreOf(ImageView(g, p, x), ProgramBlock(h1.load, p));
    var u2: State<X> :| Reaches(h2, Image(p), StartOf(h2, r2, x), u2) && u2.halted
      && u2.core == CoreOf(ImageView(g, p, x), ProgramBlock(h2.load, p));
    HaltsOnce(h1, Image(p), StartOf(h1, r1, x), t1, u1);
    HaltsOnce(h2, Image(p), StartOf(h2, r2, x), t2, u2);
  }
}
