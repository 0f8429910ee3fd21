/** Executing emitted straight-line code where it lies in an image. */
module ArmExec {
  import opened Wrappers
  import opened Modular
  import opened ArmMachine
  import opened ArmAddressing
  import opened ArmGenerator

  /** The machine about to execute what is emitted after `o`. */
  function StateAt<X>(h: Host<X>, o: Out, c: Core<X>): State<X> {
    State(h.load + 2 * |o.cells|, ModeOf(h.a64, o), false, c)
  }

  /** A64 never switches, and code for ARM and A64 lies on word boundaries. */
  predicate Level(a64: bool, o: Out) { (a64 ==> !o.thumb) && (!o.thumb ==> |o.cells| % 2 == 0) }

  ghost predicate Loaded<X(!new)>(h: Host<X>, image: seq<Cell>) {
    WellFormed(h) && h.load + 2 * |image| <= Modulus(h.a64)
  }

  predicate Falls(insn: Insn) {
    !insn.Branch? && !insn.BranchReg? && !insn.BranchPc? && insn != Risuop(TestEnd)
  }

  // ---------------------------------------------------------------- straight-line code

  lemma FetchAt<X>(h: Host<X>, image: seq<Cell>, o: Out, insn: Insn, c: Core<X>)
    requires h.load % 4 == 0 && Level(h.a64, o) && Put(h.a64, o, insn).cells <= image
    ensures Fetch(h, image, StateAt(h, o, c)) == Some(insn)
  {
    hide Size;
    var i := |o.cells|;
    assert image[i] == Put(h.a64, o, insn).cells[i];
    assert h.load + 2 * i - h.load == 2 * i;
  }

  lemma PutKeeps(a64: bool, o: Out, insn: Insn)
    requires Level(a64, o)
    ensures var p := Put(a64, o, insn);
      && |p.cells| == |o.cells| + Size(ModeOf(a64, o), insn)
      && Level(a64, p) && p.thumb == o.thumb && o.cells <= p.cells
  {
  }

  lemma PutRuns<X>(h: Host<X>, image: seq<Cell>, o: Out, insn: Insn, c: Core<X>, d: Core<X>)
    requires h.load % 4 == 0 && Level(h.a64, o) && Put(h.a64, o, insn).cells <= image && Falls(insn)
    requires Exec(h, image, ModeOf(h.a64, o), h.load + 2 * |o.cells|, insn, c) == Some(d)
    ensures Reaches(h, image, StateAt(h, o, c), StateAt(h, Put(h.a64, o, insn), d))
  {
    hide Exec, Fetch, Size, Put, Reaches;
    FetchAt(h, image, o, insn, c);
    PutKeeps(h.a64, o, insn);
    ReachesStep(h, image, StateAt(h, o, c), StateAt(h, Put(h.a64, o, insn), d));
  }

  /** Executing `code` placed at cell `at`. */
  function ExecAll<X>(h: Host<X>, image: seq<Cell>, mode: Mode, at: nat, code: seq<Insn>, c: Core<X>): Option<Core<X>>
    decreases code
  {
    if code == [] then Some(c)
    else
      var d := Exec(h, image, mode, h.load + 2 * at, code[0], c);
      if !Falls(code[0]) || d.None? then None
      else ExecAll(h, image, mode, at + Size(mode, code[0]), code[1..], d.value)
  }

  function Length(mode: Mode, code: seq<Insn>): nat {
    if code == [] then 0 else Size(mode, code[0]) + Length(mode, code[1..])
  }

  lemma {:induction false} PutAllKeeps(a64: bool, o: Out, code: seq<Insn>)
    requires Level(a64, o)
    ensures var p := PutAll(a64, o, code);
      && |p.cells| == |o.cells| + Length(ModeOf(a64, o), code)
      && Level(a64, p) && p.thumb == o.thumb && o.cells <= p.cells
    decreases code
  {
    hide Put, Size, Level;
    if code != [] {
      PutKeeps(a64, o, code[0]);
      PutAllKeeps(a64, Put(a64, o, code[0]), code[1..]);
    }
  }

  lemma {:induction false} PutAllRuns<X>(h: Host<X>, image: seq<Cell>, o: Out, code: seq<Insn>, c: Core<X>, d: Core<X>)
    requires h.load % 4 == 0 && Level(h.a64, o) && PutAll(h.a64, o, code).cells <= image
    requires ExecAll(h, image, ModeOf(h.a64, o), |o.cells|, code, c) == Some(d)
    ensures Reaches(h, image, StateAt(h, o, c), StateAt(h, PutAll(h.a64, o, code), d))
    decreases code
  {
    hide Exec, Size, Put, Reaches, Falls, Level, StateAt;
    if code == [] {
      ReachesSelf(h, image, StateAt(h, o, c));
    } else {
      var o1 := Put(h.a64, o, code[0]);
      PutKeeps(h.a64, o, code[0]);
      PutAllKeeps(h.a64, o1, code[1..]);
      var c1 := Exec(h, image, ModeOf(h.a64, o), h.load + 2 * |o.cells|, code[0], c).value;
      PutRuns(h, image, o, code[0], c, c1);
      PutAllRuns(h, image, o1, code[1..], c1, d);
      ReachesTrans(h, image, StateAt(h, o, c), StateAt(h, o1, c1), StateAt(h, PutAll(h.a64, o, code), d));
    }
  }

  lemma {:induction false} ExecAppend<X>(
    h: Host<X>, image: seq<Cell>, mode: Mode, at: nat, code: seq<Insn>, more: seq<Insn>, c: Core<X>)
    requires ExecAll(h, image, mode, at, code, c).Some?
    ensures ExecAll(h, image, mode, at, code + more, c) ==
      ExecAll(h, image, mode, at + Length(mode, code), more, ExecAll(h, image, mode, at, code, c).value)
    decreases code
  {
    hide Exec, Size, Falls;
    if code == [] {
      assert code + more == more;
    } else {
      assert (code + more)[1..] == code[1..] + more;
      var d := Exec(h, image, mode, h.load + 2 * at, code[0], c).value;
      ExecAppend(h, image, mode, at + Size(mode, code[0]), code[1..], more, d);
    }
  }

  lemma ExecOne<X>(h: Host<X>, image: seq<Cell>, mode: Mode, at: nat, insn: Insn, c: Core<X>)
    requires Falls(insn)
    ensures ExecAll(h, image, mode, at, [insn], c) == Exec(h, image, mode, h.load + 2 * at, insn, c)
    ensures Length(mode, [insn]) == Size(mode, insn)
  {
    hide Exec, Size;
    assert [insn][1..] == [];
  }

  ghost predicate OnlyRegs(code: seq<Insn>) { forall i :: 0 <= i < |code| ==> RegInsn(code[i]) }

  lemma {:induction false} ExecRegs<X>(h: Host<X>, image: seq<Cell>, mode: Mode, at: nat, code: seq<Insn>, c: Core<X>)
    requires OnlyRegs(code)
    ensures ExecAll(h, image, mode, at, code, c) ==
      Some(c.(regs := RunRegs(h.a64, BlockOf(c), code, c.regs)))
    decreases code
  {
    hide Size, RegStep;
    if code != [] {
      RegInsnExec(h, image, mode, h.load + 2 * at, code[0], c);
      hide Exec, Falls, RegInsn;
      var d := c.(regs := RegStep(h.a64, BlockOf(c), code[0], c.regs));
      ExecRegs(h, image, mode, at + Size(mode, code[0]), code[1..], d);
    }
  }

  lemma RegInsnExec<X>(h: Host<X>, image: seq<Cell>, mode: Mode, pc: nat, insn: Insn, c: Core<X>)
    requires RegInsn(insn)
    ensures Falls(insn)
    ensures Exec(h, image, mode, pc, insn, c) == Some(c.(regs := RegStep(h.a64, BlockOf(c), insn, c.regs)))
  {
    hide RegStep;
  }

  // ---------------------------------------------------------------- joining pieces

  lemma PutOne(a64: bool, o: Out, insn: Insn)
    ensures PutAll(a64, o, [insn]) == Put(a64, o, insn)
  {
    hide Put;
    assert [insn][1..] == [];
  }

  lemma {:induction false} PutAllAppend(a64: bool, o: Out, code: seq<Insn>, more: seq<Insn>)
    ensures PutAll(a64, o, code + more) == PutAll(a64, PutAll(a64, o, code), more)
    decreases code
  {
    hide Put;
    if code == [] {
      assert code + more == more;
    } else {
      assert (code + more)[1..] == code[1..] + more;
      PutAllAppend(a64, Put(a64, o, code[0]), code[1..], more);
    }
  }

  // ---------------------------------------------------------------- control

  lemma BranchRuns<X>(h: Host<X>, image: seq<Cell>, o: Out, distance: int, c: Core<X>, p: Out)
    requires h.load % 4 == 0 && Level(h.a64, o) && Put(h.a64, o, Branch(distance)).cells <= image
    requires p.thumb == o.thumb
    requires PcValue(ModeOf(h.a64, o), h.load + 2 * |o.cells|) + 4 * distance == h.load + 2 * |p.cells|
    ensures Reaches(h, image, StateAt(h, o, c), StateAt(h, p, c))
  {
    hide Exec, Fetch, Size, Put, Reaches, PcValue;
    FetchAt(h, image, o, Branch(distance), c);
    ReachesStep(h, image, StateAt(h, o, c), StateAt(h, p, c));
  }

  lemma BranchRegRuns<X>(h: Host<X>, image: seq<Cell>, o: Out, rm: Reg, c: Core<X>, p: Out)
    requires h.load % 4 == 0 && Level(h.a64, o) && Put(h.a64, o, BranchReg(rm)).cells <= image
    requires !h.a64 && p.thumb && Get(c.regs, rm) == h.load + 2 * |p.cells| + 1
    ensures Reaches(h, image, StateAt(h, o, c), StateAt(h, p, c))
  {
    hide Exec, Fetch, Size, Put, Reaches, Get, Step, Exchange;
    FetchAt(h, image, o, BranchReg(rm), c);
    BranchRegStep(h, image, StateAt(h, o, c), rm);
    EvenAddress(h.load, |p.cells|);
    ExchangeToThumb(h.load + 2 * |p.cells|, StateAt(h, o, c));
    ReachesStep(h, image, StateAt(h, o, c), StateAt(h, p, c));
  }

  lemma BranchRegStep<X>(h: Host<X>, image: seq<Cell>, s: State<X>, rm: Reg)
    requires Fetch(h, image, s) == Some(BranchReg(rm))
    ensures Step(h, image, s) == Exchange(Get(s.core.regs, rm), s)
  {
    hide Exec, Fetch, Get, Exchange;
  }

  lemma ExchangeToThumb<X>(target: nat, s: State<X>)
    requires target % 2 == 0
    ensures Exchange(target + 1, s) == Some(s.(pc := target, mode := Thumb))
  {
    OddAfterEven(target);
  }

  lemma BranchPcRuns<X>(h: Host<X>, image: seq<Cell>, o: Out, c: Core<X>, p: Out)
    requires h.load % 4 == 0 && Level(h.a64, o) && Put(h.a64, o, BranchPc).cells <= image
    requires !h.a64 && o.thumb && !p.thumb && |o.cells| % 2 == 0 && |p.cells| == |o.cells| + 2
    ensures Reaches(h, image, StateAt(h, o, c), StateAt(h, p, c))
  {
    hide Exec, Fetch, Size, Put, Reaches;
    FetchAt(h, image, o, BranchPc, c);
    ReachesStep(h, image, StateAt(h, o, c), StateAt(h, p, c));
  }

  lemma WideSize(mode: Mode, insn: Insn)
    requires !mode.Thumb?
    ensures Size(mode, insn) == 2
  {
  }

  lemma {:induction false} WideLength(mode: Mode, code: seq<Insn>)
    requires !mode.Thumb?
    ensures Length(mode, code) == 2 * |code|
  {
    hide Size;
    if code != [] {
      WideSize(mode, code[0]);
      WideLength(mode, code[1..]);
    }
  }

  lemma LoadLevel<X(!new)>(h: Host<X>)
    requires WellFormed(h)
    ensures h.load % 4 == 0
  {
  }
}
