/** The pieces of a generated image that carry data: register tables and the memory block. */
module ArmTables {
  import opened Wrappers
  import opened Modular
  import opened ArmMachine
  import opened ArmAddressing
  import opened ArmGenerator
  import opened ArmExec
  import opened ArmPieces

  // ---------------------------------------------------------------- reading data

  ghost predicate DataAt(image: seq<Cell>, i: nat, words: seq<nat>) {
    i + 2 * |words| <= |image| && forall j :: 0 <= j < |words| ==> image[i + 2 * j] == Word(words[j])
  }

  lemma {:induction false} WordCellsAt(words: seq<nat>, j: nat)
    requires j < |words|
    ensures WordCells(words)[2 * j] == Word(words[j])
  {
    if j < |words| - 1 {
      WordCellsAt(words[..|words| - 1], j);
    }
  }

  lemma DataAfter(o: Out, words: seq<nat>, image: seq<Cell>)
    requires PutWords(o, words).cells <= image
    ensures DataAt(image, |o.cells|, words)
    ensures |PutWords(o, words).cells| == |o.cells| + 2 * |words|
  {
    hide WordCells;
    forall j | 0 <= j < |words| ensures image[|o.cells| + 2 * j] == Word(words[j]) {
      WordCellsAt(words, j);
      assert image[|o.cells| + 2 * j] == PutWords(o, words).cells[|o.cells| + 2 * j];
    }
  }

  lemma ReadFirst<X>(h: Host<X>, image: seq<Cell>, j: nat, n: nat)
    requires h.load % 4 == 0 && j % 2 == 0 && j < |image| && image[j].Word? && n > 0
    ensures ReadWords(h, image, h.load + 2 * j, n) ==
      var rest := ReadWords(h, image, h.load + 2 * (j + 2), n - 1);
      if rest.None? then None else Some([image[j].value] + rest.value)
  {
    WordAddress(h.load, j);
    var addr := h.load + 2 * j;
    assert (addr - h.load) / 2 == j && addr + 4 == h.load + 2 * (j + 2);
  }

  lemma {:induction false} ReadData<X>(h: Host<X>, image: seq<Cell>, i: nat, words: seq<nat>, k: nat, n: nat)
    requires DataAt(image, i, words) && h.load % 4 == 0 && i % 2 == 0 && k + n <= |words|
    ensures ReadWords(h, image, h.load + 2 * (i + 2 * k), n) == Some(words[k..k + n])
    decreases n
  {
    if n == 0 {
      assert words[k..k + n] == [];
    } else {
      assert image[i + 2 * k] == Word(words[k]);
      hide ReadWords;
      ReadFirst(h, image, i + 2 * k, n);
      ReadData(h, image, i, words, k + 1, n - 1);
      assert i + 2 * k + 2 == i + 2 * (k + 1);
      assert words[k..k + n] == [words[k]] + words[k + 1..k + n];
    }
  }

  /** Register `r0` points at word `k` of the data. */
  ghost predicate PointsAt<X>(h: Host<X>, i: nat, k: nat, c: Core<X>) {
    |c.regs| == RegCount(h.a64) && Get(c.regs, 0) == h.load + 2 * i + 4 * k
  }

  lemma LoadFloatsStep<X>(
    h: Host<X>, image: seq<Cell>, mode: Mode, pc: nat, which: nat, n: nat, words: seq<nat>, c: Core<X>)
    requires ReadWords(h, image, Get(c.regs, 0), n) == Some(words) && Get(c.regs, 0) + 4 * n < Modulus(h.a64)
    ensures Exec(h, image, mode, pc, LoadFloats(which, 0, n), c) ==
      Some(WithReg(c, 0, Get(c.regs, 0) + 4 * n).(rest := h.floats(which, words, c.rest)))
  {
    hide ReadWords, Get, Set;
  }

  lemma LoadFloatsExec<X>(
    h: Host<X>, image: seq<Cell>, mode: Mode, pc: nat, i: nat, words: seq<nat>, k: nat, which: nat, n: nat, c: Core<X>)
    requires DataAt(image, i, words) && h.load % 4 == 0 && i % 2 == 0 && k + n < |words|
    requires h.load + 2 * |image| <= Modulus(h.a64) && PointsAt(h, i, k, c)
    ensures var d := WithReg(c, 0, h.load + 2 * i + 4 * (k + n)).(rest := h.floats(which, words[k..k + n], c.rest));
      Exec(h, image, mode, pc, LoadFloats(which, 0, n), c) == Some(d) && PointsAt(h, i, k + n, d)
  {
    hide Exec, ReadWords, Modulus;
    ReadData(h, image, i, words, k, n);
    assert h.load + 2 * (i + 2 * k) == h.load + 2 * i + 4 * k;
    LoadFloatsStep(h, image, mode, pc, which, n, words[k..k + n], c);
    assert h.load + 2 * i + 4 * k + 4 * n == h.load + 2 * i + 4 * (k + n);
    hide DataAt;
    Pointed(h, i, k + n, c);
  }

  lemma LoadAllExec<X>(
    h: Host<X>, image: seq<Cell>, mode: Mode, pc: nat, i: nat, words: seq<nat>, k: nat, c: Core<X>)
    requires DataAt(image, i, words) && h.load % 4 == 0 && i % 2 == 0 && k + RegCount(h.a64) == |words|
    requires PointsAt(h, i, k, c)
    ensures Exec(h, image, mode, pc, LoadAll(0), c) == Some(c.(regs := words[k..]))
  {
    hide ReadWords;
    ReadData(h, image, i, words, k, RegCount(h.a64));
    assert h.load + 2 * (i + 2 * k) == h.load + 2 * i + 4 * k;
    assert words[k..k + RegCount(h.a64)] == words[k..];
  }

  lemma ExecCons<X>(
    h: Host<X>, image: seq<Cell>, mode: Mode, at: nat, insn: Insn, more: seq<Insn>, c: Core<X>, d: Core<X>)
    requires Falls(insn) && Exec(h, image, mode, h.load + 2 * at, insn, c) == Some(d) && !mode.Thumb?
    ensures ExecAll(h, image, mode, at, [insn] + more, c) == ExecAll(h, image, mode, at + 2, more, d)
  {
    hide Exec, Size, Falls;
    WideSize(mode, insn);
    assert ([insn] + more)[1..] == more;
  }

  // ---------------------------------------------------------------- jumping over data

  /** Code, a jump, and the data jumped over. */
  function WithData(a64: bool, o: Out, code: seq<Insn>, distance: int, words: seq<nat>): Out {
    PutWords(PutAll(a64, o, code + [Branch(distance)]), words)
  }

  lemma WithDataLayout(a64: bool, o: Out, code: seq<Insn>, distance: int, words: seq<nat>, image: seq<Cell>)
    requires Level(a64, o) && !o.thumb && WithData(a64, o, code, distance, words).cells <= image
    ensures var p := WithData(a64, o, code, distance, words);
      var i := |o.cells| + 2 * (|code| + 1);
      && |p.cells| == i + 2 * |words| && i % 2 == 0 && Level(a64, p) && !p.thumb && o.cells <= p.cells
      && DataAt(image, i, words)
    ensures var o1 := PutAll(a64, o, code);
      var o2 := Put(a64, o1, Branch(distance));
      && o1.cells <= o2.cells <= WithData(a64, o, code, distance, words).cells
      && Level(a64, o1) && !o1.thumb && |o1.cells| == |o.cells| + 2 * |code|
      && PutAll(a64, o, code + [Branch(distance)]) == o2
  {
    hide Put, PutAll, DataAt, PutWords, Level;
    JumpLayout(a64, o, code, distance);
    var o2 := Put(a64, PutAll(a64, o, code), Branch(distance));
    DataAfter(o2, words, image);
    PutWordsKeeps(a64, o2, words);
  }

  lemma JumpLayout(a64: bool, o: Out, code: seq<Insn>, distance: int)
    requires Level(a64, o) && !o.thumb
    ensures var o1 := PutAll(a64, o, code);
      var o2 := Put(a64, o1, Branch(distance));
      && PutAll(a64, o, code + [Branch(distance)]) == o2
      && o.cells <= o1.cells <= o2.cells
      && Level(a64, o1) && !o1.thumb && |o1.cells| == |o.cells| + 2 * |code|
      && Level(a64, o2) && !o2.thumb && |o2.cells| == |o.cells| + 2 * (|code| + 1) && |o2.cells| % 2 == 0
  {
    hide Put, PutAll, Size, Length;
    var o1 := PutAll(a64, o, code);
    PutAllAppend(a64, o, code, [Branch(distance)]);
    PutOne(a64, o1, Branch(distance));
    PutAllKeeps(a64, o, code);
    WideLength(ModeOf(a64, o), code);
    PutKeeps(a64, o1, Branch(distance));
    WideSize(ModeOf(a64, o1), Branch(distance));
  }

  lemma PutWordsKeeps(a64: bool, o: Out, words: seq<nat>)
    requires Level(a64, o)
    ensures var p := PutWords(o, words); Level(a64, p) && p.thumb == o.thumb && o.cells <= p.cells
  {
    hide WordCells;
  }

  /** A jump over exactly its data. */
  lemma WithDataRuns<X>(
    h: Host<X>, image: seq<Cell>, o: Out, code: seq<Insn>, distance: int, words: seq<nat>, c: Core<X>, d: Core<X>)
    requires h.load % 4 == 0 && Level(h.a64, o) && !o.thumb
    requires WithData(h.a64, o, code, distance, words).cells <= image
    requires distance == if h.a64 then |words| + 1 else |words| - 1
    requires ExecAll(h, image, ModeOf(h.a64, o), |o.cells|, code, c) == Some(d)
    ensures Reaches(h, image, StateAt(h, o, c), StateAt(h, WithData(h.a64, o, code, distance, words), d))
  {
    hide Put, PutAll, Reaches, ExecAll, WithData, StateAt, DataAt;
    WithDataLayout(h.a64, o, code, distance, words, image);
    var o1 := PutAll(h.a64, o, code);
    var p := WithData(h.a64, o, code, distance, words);
    PutAllRuns(h, image, o, code, c, d);
    BranchRuns(h, image, o1, distance, d, p);
    ReachesTrans(h, image, StateAt(h, o, c), StateAt(h, o1, d), StateAt(h, p, d));
  }

  // ---------------------------------------------------------------- ARM register tables

  function ArmTableView<X>(g: Host<X>, fp: bool, t: Table, v: View<X>): View<X>
    requires TableFits(false, fp, t)
  {
    var x := if fp then g.floats(1, t.floats[32..], g.floats(0, t.floats[..32], v.rest)) else v.rest;
    v.(regs := t.regs, rest := g.status(0, 0, x))
  }

  lemma ArmLoadsExec<X(!new)>(
    h: Host<X>, g: Host<X>, image: seq<Cell>, at: nat, fp: bool, t: Table, v: View<X>, block: Option<nat>)
    requires Loaded(h, image) && SameCpu(h, g) && !h.a64 && TableFits(false, fp, t)
    requires at % 2 == 0 && |v.regs| == RegCount(false)
    requires DataAt(image, at + 2 * (|ArmLoads(fp)| + 1), t.floats + t.regs)
    ensures var x := if fp then g.floats(1, t.floats[32..], g.floats(0, t.floats[..32], v.rest)) else v.rest;
      var w := v.(regs := t.regs, rest := x);
      ExecAll(h, image, Arm, at, ArmLoads(fp), CoreOf(v, block)) == Some(CoreOf(w, block))
  {
    hide ExecAll, Exec, DataAt, ReadWords, PointsAt, WellFormed, Set;
    LoadLevel(h);
    var c := CoreOf(v, block);
    var words := t.floats + t.regs;
    var i := at + 2 * (|ArmLoads(fp)| + 1);
    DataInside(image, i, words);
    var c1 := WithReg(c, 0, h.load + 2 * i);
    Pointed(h, i, 0, c);
    if fp {
      var l0, l1, all := LoadFloats(0, 0, 32), LoadFloats(1, 0, 32), LoadAll(0);
      assert ArmLoads(fp) == [AddPc(0, 12)] + ([l0] + ([l1] + [all]));
      AddPcExec(h, image, Arm, h.load + 2 * at, 12, c);
      ExecCons(h, image, Arm, at, AddPc(0, 12), [l0] + ([l1] + [all]), c, c1);
      ArmFloatLoads(h, image, at + 2, i, words, c1);
      assert words[..32] == t.floats[..32] && words[32..64] == t.floats[32..] && words[64..] == t.regs;
    } else {
      AddPcExec(h, image, Arm, h.load + 2 * at, 4, c);
      LoadAllExec(h, image, Arm, h.load + 2 * (at + 2), i, words, 0, c1);
      assert ArmLoads(fp) == [AddPc(0, 4)] + [LoadAll(0)];
      ExecCons(h, image, Arm, at, AddPc(0, 4), [LoadAll(0)], c, c1);
      ExecOne(h, image, Arm, at + 2, LoadAll(0), c1);
      assert words[0..] == t.regs;
    }
  }

  /** Two halves of the floating registers and then all the others. */
  lemma ArmFloatLoads<X>(h: Host<X>, image: seq<Cell>, at: nat, i: nat, words: seq<nat>, c: Core<X>)
    requires !h.a64 && h.load % 4 == 0 && h.load + 2 * |image| <= Modulus(false) && i % 2 == 0
    requires DataAt(image, i, words) && |words| == 64 + RegCount(false) && PointsAt(h, i, 0, c)
    ensures ExecAll(h, image, Arm, at, [LoadFloats(0, 0, 32)] + ([LoadFloats(1, 0, 32)] + [LoadAll(0)]), c) ==
      Some(c.(regs := words[64..], rest := h.floats(1, words[32..64], h.floats(0, words[..32], c.rest))))
  {
    hide ExecAll, Exec, DataAt, ReadWords, PointsAt, Set;
    var pc, l0, l1, all := h.load + 2 * at, LoadFloats(0, 0, 32), LoadFloats(1, 0, 32), LoadAll(0);
    LoadFloatsExec(h, image, Arm, pc, i, words, 0, 0, 32, c);
    var c1 := WithReg(c, 0, h.load + 2 * i + 4 * 32).(rest := h.floats(0, words[0..32], c.rest));
    ExecCons(h, image, Arm, at, l0, [l1] + [all], c, c1);
    LoadFloatsExec(h, image, Arm, pc + 4, i, words, 32, 1, 32, c1);
    var c2 := WithReg(c1, 0, h.load + 2 * i + 4 * 64).(rest := h.floats(1, words[32..64], c1.rest));
    ExecCons(h, image, Arm, at + 2, l1, [all], c1, c2);
    LoadAllExec(h, image, Arm, pc + 8, i, words, 64, c2);
    ExecOne(h, image, Arm, at + 4, all, c2);
    assert words[0..32] == words[..32];
  }

  lemma DataInside(image: seq<Cell>, i: nat, words: seq<nat>)
    requires DataAt(image, i, words)
    ensures i + 2 * |words| <= |image|
  {
  }

  lemma Pointed<X>(h: Host<X>, i: nat, k: nat, c: Core<X>)
    requires |c.regs| == RegCount(h.a64)
    ensures PointsAt(h, i, k, WithReg(c, 0, h.load + 2 * i + 4 * k))
  {
  }

  lemma StatusExec<X>(
    h: Host<X>, image: seq<Cell>, mode: Mode, pc: nat, which: nat, from: Option<Reg>, v: View<X>, block: Option<nat>)
    ensures var value := if from.Some? then Get(v.regs, from.value) else 0;
      Exec(h, image, mode, pc, Status(which, from), CoreOf(v, block)) ==
      Some(CoreOf(v.(rest := h.status(which, value, v.rest)), block))
  {
    hide Get;
  }

  lemma ArmRegdataRuns<X(!new)>(
    h: Host<X>, g: Host<X>, image: seq<Cell>, o: Out, fp: bool, t: Table, v: View<X>, block: Option<nat>)
    requires Loaded(h, image) && SameCpu(h, g) && !h.a64 && TableFits(false, fp, t)
    requires Level(false, o) && ArmRegdata(o, fp, t).cells <= image && |v.regs| == RegCount(false)
    ensures var p := ArmRegdata(o, fp, t);
      && Reaches(h, image, StateAt(h, o, CoreOf(v, block)), StateAt(h, p, CoreOf(ArmTableView(g, fp, t, v), block)))
      && Level(false, p) && !p.thumb && o.cells <= p.cells
  {
    hide Put, PutAll, Reaches, ExecAll, Exec, SwitchToArm, StateAt, DataAt, WellFormed, PutWords, Level;
    LoadLevel(h);
    var o0 := SwitchToArm(o);
    var words, distance := t.floats + t.regs, 13 + if fp then 64 else 0;
    var p := WithData(false, o0, ArmLoads(fp), distance, words);
    assert ArmRegdata(o, fp, t) == Put(false, p, FLAGS);
    ArmRegdataLayout(o, fp, t);
    ToArmRuns(h, image, o, CoreOf(v, block));
    WithDataLayout(false, o0, ArmLoads(fp), distance, words, image);
    var x := if fp then g.floats(1, t.floats[32..], g.floats(0, t.floats[..32], v.rest)) else v.rest;
    var w := v.(regs := t.regs, rest := x);
    ArmLoadsExec(h, g, image, |o0.cells|, fp, t, v, block);
    WithDataRuns(h, image, o0, ArmLoads(fp), distance, words, CoreOf(v, block), CoreOf(w, block));
    StatusExec(h, image, Arm, h.load + 2 * |p.cells|, 0, None, w, block);
    PutRuns(h, image, p, FLAGS, CoreOf(w, block), CoreOf(ArmTableView(g, fp, t, v), block));
    var s, s0, s1 := StateAt(h, o, CoreOf(v, block)), StateAt(h, o0, CoreOf(v, block)), StateAt(h, p, CoreOf(w, block));
    ReachesTrans(h, image, s, s0, s1);
    ReachesTrans(h, image, s, s1, StateAt(h, ArmRegdata(o, fp, t), CoreOf(ArmTableView(g, fp, t, v), block)));
  }

  lemma ArmRegdataLayout(o: Out, fp: bool, t: Table)
    requires Level(false, o)
    ensures var p := WithData(false, SwitchToArm(o), ArmLoads(fp), 13 + if fp then 64 else 0, t.floats + t.regs);
      && SwitchToArm(o).cells <= p.cells <= ArmRegdata(o, fp, t).cells
      && Level(false, p) && Level(false, ArmRegdata(o, fp, t)) && !ArmRegdata(o, fp, t).thumb && !p.thumb
      && Level(false, SwitchToArm(o)) && !SwitchToArm(o).thumb && o.cells <= SwitchToArm(o).cells
  {
    hide Put, PutAll, DataAt, SwitchToArm, ArmLoads;
    ToArmKeeps(o);
    var code, distance, words := ArmLoads(fp), 13 + if fp then 64 else 0, t.floats + t.regs;
    var p := WithData(false, SwitchToArm(o), code, distance, words);
    WithDataLayout(false, SwitchToArm(o), code, distance, words, p.cells);
    PutKeeps(false, p, FLAGS);
  }

  lemma ToArmKeeps(o: Out)
    requires Level(false, o)
    ensures Level(false, SwitchToArm(o)) && !SwitchToArm(o).thumb && o.cells <= SwitchToArm(o).cells
  {
    if o.thumb {
      hide Put, PutAll, ThumbAlign;
      ToArmPieces(o);
    }
  }

  // ---------------------------------------------------------------- alignment inside data

  /** How many words lie between `d` and the next multiple of `align`. */
  function Skip(d: nat, align: nat): (k: nat)
    requires align > 0
    ensures 4 * k < align
  {
    (align - 1 - (d + (align - 1)) % align) / 4
  }

  /** The phase of the load address decides; 64 is the largest alignment used. */
  lemma SkipPhase(load: nat, i: nat, align: nat)
    requires align == 16 || align == 64
    ensures Skip(load % 64 + 2 * i, align) == Skip(load + 2 * i, align)
  {
    var x := load % 64 + 2 * i + (align - 1);
    var q := if align == 16 then 4 * (load / 64) else load / 64;
    AddMultiple(x, align, q);
    assert x + align * q == load + 2 * i + (align - 1);
  }

  lemma SkipAligns(d: nat, align: nat)
    requires d % 4 == 0 && (align == 16 || align == 64)
    ensures var x := d + (align - 1); x - x % align == d + 4 * Skip(d, align)
  {
    var x, a := d + (align - 1), align / 4;
    var q, r := x / align, x % align;
    assert x == align * q + r;
    assert align * q == 4 * (a * q);
    assert align - 1 - r == 4 * (a * q - d / 4);
  }

  // ---------------------------------------------------------------- A64 register tables

  function FloatsView<X>(g: Host<X>, words: seq<nat>, k: nat, j: nat, x: X): X
    requires k + 128 <= |words|
    decreases 16 - j
  {
    if j >= 16 then x else FloatsView(g, words, k, j + 1, g.floats(j, words[k + 8 * j..k + 8 * j + 8], x))
  }

  lemma {:induction false} FloatLoadsExec<X>(
    h: Host<X>, g: Host<X>, image: seq<Cell>, at: nat, i: nat, words: seq<nat>, k: nat, j: nat, c: Core<X>)
    requires SameCpu(h, g) && DataAt(image, i, words) && h.load % 4 == 0 && i % 2 == 0 && k + 128 < |words| && j <= 16
    requires h.load + 2 * |image| <= Modulus(h.a64) && PointsAt(h, i, k + 8 * j, c)
    ensures var d := ExecAll(h, image, A64, at, FloatLoads(j), c);
      && d.Some? && |d.value.regs| == RegCount(h.a64)
      && d.value == c.(regs := d.value.regs, rest := FloatsView(g, words, k, j, c.rest))
    decreases 16 - j
  {
    hide Exec, ReadWords, DataAt, Modulus, Get, Set, ExecAll, RegCount, PointsAt, FloatLoads, FloatsView, WithReg;
    if j == 16 {
      FloatsEnd(h, g, image, at, i, words, k, c);
    } else {
      FloatsStep(g, words, k, j, c.rest);
      var p := k + 8 * j;
      LoadFloatsExec(h, image, A64, h.load + 2 * at, i, words, p, j, 8, c);
      var d := WithReg(c, 0, h.load + 2 * i + 4 * (p + 8)).(rest := h.floats(j, words[p..p + 8], c.rest));
      WithRegKeeps(c, h.load + 2 * i + 4 * (p + 8));
      ExecCons(h, image, A64, at, LoadFloats(j, 0, 8), FloatLoads(j + 1), c, d);
      assert k + 8 * (j + 1) == p + 8;
      FloatLoadsExec(h, g, image, at + 2, i, words, k, j + 1, d);
    }
  }

  lemma FloatsEnd<X>(
    h: Host<X>, g: Host<X>, image: seq<Cell>, at: nat, i: nat, words: seq<nat>, k: nat, c: Core<X>)
    requires k + 128 <= |words| && PointsAt(h, i, k + 128, c)
    ensures ExecAll(h, image, A64, at, FloatLoads(16), c) == Some(c) && |c.regs| == RegCount(h.a64)
    ensures FloatsView(g, words, k, 16, c.rest) == c.rest
  {
    hide Exec, Get;
  }

  lemma WithRegKeeps<X>(c: Core<X>, v: nat)
    ensures var d := WithReg(c, 0, v); d == c.(regs := d.regs)
  {
  }

  lemma FloatsStep<X>(g: Host<X>, words: seq<nat>, k: nat, j: nat, x: X)
    requires k + 128 <= |words| && j < 16
    ensures FloatLoads(j) == [LoadFloats(j, 0, 8)] + FloatLoads(j + 1)
    ensures FloatsView(g, words, k, j, x) ==
      FloatsView(g, words, k, j + 1, g.floats(j, words[k + 8 * j..k + 8 * j + 8], x))
  {
  }

  lemma {:induction false} ImmediatesRun(block: nat, regs: seq<nat>, i: nat, r: seq<nat>)
    requires i <= |regs| == |r| && (forall j :: 0 <= j < |regs| ==> regs[j] < M32)
    ensures RunRegs(true, block, Immediates(regs, i), r) == r[..i] + regs[i..]
    decreases |regs| - i
  {
    if i == |regs| {
      assert r[..i] + regs[i..] == r;
    } else {
      hide RunRegs, MovRi, MovRiValue;
      var s := Set(r, i, regs[i]);
      SmallImmediate(regs[i]);
      MovRiRuns(true, block, i, regs[i], r);
      RunAppend(true, block, MovRi(true, i, regs[i]), Immediates(regs, i + 1), r);
      ImmediatesRun(block, regs, i + 1, s);
      assert s[..i + 1] + regs[i + 1..] == r[..i] + regs[i..];
    }
  }

  lemma SmallImmediate(v: nat)
    requires v < M32
    ensures MovRiValue(true, v) == v
  {
  }

  lemma {:induction false} ImmediatesAreRegs(regs: seq<nat>, i: nat)
    ensures OnlyRegs(Immediates(regs, i))
    decreases |regs| - i
  {
    hide RegInsn, MovRi;
    if i < |regs| {
      ImmediatesAreRegs(regs, i + 1);
    }
  }

  function A64TableView<X>(g: Host<X>, at: nat, fp: bool, t: Table, v: View<X>): View<X>
    requires TableFits(true, fp, t)
  {
    var x := g.status(0, 0, v.rest);
    v.(regs := t.regs, rest := if fp then FloatsView(g, t.floats, Skip(g.load + 2 * (at + 8), 16), 0, x) else x)
  }
}
