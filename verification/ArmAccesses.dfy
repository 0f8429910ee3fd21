/** Where the accesses of a generated image go: each is the access of one item, and it runs at an
    address that the item's alignment divides. */
module ArmAccesses {
  import opened Wrappers
  import opened ArmMachine
  import opened ArmAddressing
  import opened ArmGenerator
  import opened ArmExec
  import opened ArmPieces
  import opened ArmTables
  import opened ArmSetup
  import opened ArmImage

  // ---------------------------------------------------------------- the accesses among the cells

  /** From cell `from` on, every access is one of `s`. */
  ghost predicate Only(cells: seq<Cell>, from: nat, s: set<Insn>) {
    forall i :: from <= i < |cells| && cells[i].Code? && cells[i].insn.Access? ==> cells[i].insn in s
  }

  ghost predicate CodeOnly(code: seq<Insn>, s: set<Insn>) {
    forall i :: 0 <= i < |code| && code[i].Access? ==> code[i] in s
  }

  /** `p` goes on from `o` with no accesses but those of `s`. */
  ghost predicate Goes(o: Out, p: Out, s: set<Insn>) { o.cells <= p.cells && Only(p.cells, |o.cells|, s) }

  lemma GoesOn(o: Out, p: Out, q: Out, s: set<Insn>)
    requires Goes(o, p, s) && Goes(p, q, s)
    ensures Goes(o, q, s)
  {
    forall i | |o.cells| <= i < |q.cells| && q.cells[i].Code? && q.cells[i].insn.Access? ensures q.cells[i].insn in s {
      if i < |p.cells| {
        assert q.cells[i] == p.cells[i];
      }
    }
  }

  lemma PutGoes(a64: bool, o: Out, insn: Insn, s: set<Insn>)
    requires insn.Access? ==> insn in s
    ensures Goes(o, Put(a64, o, insn), s)
  {
    hide Size, ModeOf;
  }

  lemma {:induction false} PutAllGoes(a64: bool, o: Out, code: seq<Insn>, s: set<Insn>)
    requires CodeOnly(code, s)
    ensures Goes(o, PutAll(a64, o, code), s)
    decreases code
  {
    hide Put;
    if code != [] {
      PutGoes(a64, o, code[0], s);
      PutAllGoes(a64, Put(a64, o, code[0]), code[1..], s);
      GoesOn(o, Put(a64, o, code[0]), PutAll(a64, o, code), s);
    }
  }

  lemma {:induction false} WordsAreData(words: seq<nat>)
    ensures forall i :: 0 <= i < |WordCells(words)| ==> !WordCells(words)[i].Code?
  {
    if words != [] {
      WordsAreData(words[..|words| - 1]);
    }
  }

  lemma PutWordsGoes(o: Out, words: seq<nat>, s: set<Insn>)
    ensures Goes(o, PutWords(o, words), s)
  {
    hide WordCells;
    WordsAreData(words);
  }

  lemma RegsOnly(code: seq<Insn>)
    requires OnlyRegs(code)
    ensures CodeOnly(code, {})
  {
  }

  // ---------------------------------------------------------------- the scaffolding has none

  lemma ToThumbGoes(o: Out)
    ensures Goes(o, SwitchToThumb(o), {})
  {
    hide Put, PutAll;
    if !o.thumb {
      var o1 := PutAll(false, o, [AddPc(0, 1), BranchReg(0)]);
      PutAllGoes(false, o, [AddPc(0, 1), BranchReg(0)], {});
      PutGoes(false, o1.(thumb := true), XorSelf(0), {});
      GoesOn(o, o1.(thumb := true), SwitchToThumb(o), {});
    }
  }

  lemma ToArmGoes(o: Out)
    ensures Goes(o, SwitchToArm(o), {})
  {
    hide Put, PutAll;
    if o.thumb {
      PutGoes(false, o, Nop, {});
      var o1 := ThumbAlign(o);
      PutAllGoes(false, o1, [BranchPc, Nop], {});
      GoesOn(o, o1, PutAll(false, o1, [BranchPc, Nop]), {});
    }
  }

  lemma ModeGoes(t: Target, o: Out)
    ensures Goes(o, ToTestMode(t, o), {})
  {
    hide SwitchToArm, SwitchToThumb;
    ToThumbGoes(o);
    ToArmGoes(o);
  }

  lemma ArmTableGoes(o: Out, fp: bool, t: Table)
    ensures Goes(o, ArmRegdata(o, fp, t), {})
  {
    hide Put, PutAll, PutWords, SwitchToArm;
    ToArmGoes(o);
    var o0, code := SwitchToArm(o), ArmLoads(fp) + [Branch(13 + if fp then 64 else 0)];
    var o1 := PutAll(false, o0, code);
    var o2 := PutWords(o1, t.floats + t.regs);
    PutAllGoes(false, o0, code, {});
    PutWordsGoes(o1, t.floats + t.regs, {});
    PutGoes(false, o2, FLAGS, {});
    hide Goes, ArmLoads;
    GoesOn(o, o0, o1, {});
    GoesOn(o, o1, o2, {});
    GoesOn(o, o2, Put(false, o2, FLAGS), {});
  }

  lemma {:induction false} FloatLoadsOnly(j: nat)
    ensures CodeOnly(FloatLoads(j), {})
    decreases 16 - j
  {
    if j < 16 {
      FloatLoadsOnly(j + 1);
    }
  }

  lemma A64FloatsGoes(o: Out, words: seq<nat>)
    ensures Goes(o, A64Floats(o, words), {})
  {
    hide Put, PutAll, PutWords, FloatLoads;
    var code := [AddPc(0, 27), ClearLow(0, 16), Branch(133)];
    var o1 := PutAll(true, o, code);
    var o2 := PutWords(o1, words);
    PutAllGoes(true, o, code, {});
    PutWordsGoes(o1, words, {});
    FloatLoadsOnly(0);
    PutAllGoes(true, o2, FloatLoads(0), {});
    hide Goes;
    GoesOn(o, o1, o2, {});
    GoesOn(o, o2, PutAll(true, o2, FloatLoads(0)), {});
  }

  lemma A64TableGoes(o: Out, fp: bool, t: Table)
    ensures Goes(o, A64Regdata(o, fp, t), {})
  {
    hide Put, PutAll, A64Floats, Immediates, OnlyRegs, CodeOnly;
    var o1 := Put(true, o, FLAGS);
    var o2 := if fp then A64Floats(o1, t.floats) else o1;
    PutGoes(true, o, FLAGS, {});
    A64FloatsGoes(o1, t.floats);
    ImmediatesAreRegs(t.regs, 0);
    RegsOnly(Immediates(t.regs, 0));
    PutAllGoes(true, o2, Immediates(t.regs, 0), {});
    GoesOn(o, o1, o2, {});
    hide Goes;
    GoesOn(o, o2, A64Regdata(o, fp, t), {});
  }

  lemma FreshGoes(target: Target, o: Out, fp: bool, t: Table)
    ensures Goes(o, ToTestMode(target, RegisterData(target.TestA64?, o, fp, t)), {})
  {
    hide Put, A64Regdata, ArmRegdata, ToTestMode, Goes;
    var a64 := target.TestA64?;
    var o1 := if a64 then A64Regdata(o, fp, t) else ArmRegdata(o, fp, t);
    var o2 := RegisterData(a64, o, fp, t);
    A64TableGoes(o, fp, t);
    ArmTableGoes(o, fp, t);
    PutGoes(a64, o1, Risuop(Compare), {});
    GoesOn(o, o1, o2, {});
    ModeGoes(target, o2);
    GoesOn(o, o2, ToTestMode(target, o2), {});
  }

  lemma BlockGoes(a64: bool, o: Out, words: seq<nat>)
    ensures Goes(o, MemblockSetup(a64, o, words), {})
  {
    hide PutAll, PutWords, SwitchToArm, Goes;
    var o0, p := SwitchToArm(o), MemblockSetup(a64, o, words);
    var code :=
      [AddPc(0, if a64 then 79 else 71), ClearLow(0, 64), Risuop(SetMemblock), Branch(if a64 then 2065 else 2063)];
    ToArmGoes(o);
    PutAllGoes(a64, o0, code, {});
    GoesOn(o, o0, PutAll(a64, o0, code), {});
    PutWordsGoes(PutAll(a64, o0, code), words, {});
    GoesOn(o, PutAll(a64, o0, code), p, {});
  }

  lemma FpscrGoes(a64: bool, o: Out, fpscr: nat)
    ensures Goes(o, SetFpscr(a64, o, fpscr), {})
  {
    hide PutAll, SwitchToArm, MovRi, Goes;
    var o0 := if a64 then o else SwitchToArm(o);
    ToArmGoes(o);
    PutAllGoes(a64, o, [], {});
    PutAllGoes(a64, o0, FpscrCode(a64, fpscr), {});
    if !a64 {
      GoesOn(o, o0, SetFpscr(a64, o, fpscr), {});
    }
  }

  lemma HeadGoes(p: Program)
    ensures Only(Head(p).cells, 0, {})
  {
    hide SetFpscr, MemblockSetup, RegisterData, ToTestMode;
    var a64 := p.target.TestA64?;
    HeadLevel(p);
    if p.fpscr.Some? {
      FpscrGoes(a64, EMPTY, p.fpscr.value);
    }
    if p.block.Some? {
      BlockGoes(a64, AfterFpscr(p), p.block.value);
    }
    FreshGoes(p.target, AfterBlock(p), p.fpscr.Some?, p.first);
    GoesOn(EMPTY, AfterFpscr(p), AfterBlock(p), {});
    GoesOn(EMPTY, AfterBlock(p), Head(p), {});
  }

  // ---------------------------------------------------------------- an item has one

  /** An access of item `item`: its instruction, its address, and the alignment 16 on A64 and 4
      otherwise unless the item has its own. */
  ghost predicate AccessOf(a64: bool, item: Item, insn: Insn) {
    && item.Memory? && insn.Access?
    && insn.n == item.n && insn.narrow == item.narrow && insn.address == item.address
    && (item.align.None? && a64 ==> insn.align == 16)
    && (item.align.None? && !a64 ==> insn.align == 4)
    && (item.align.Some? ==> insn.align == item.align.value)
  }

  function ItemAccess(a64: bool, item: Item): set<Insn>
    requires Accepted(a64, item)
  {
    if item.Plain? then {} else {Access(item.n, item.narrow, item.address, AlignOf(a64, item))}
  }

  lemma ItemOnly(a64: bool, item: Item)
    requires Accepted(a64, item)
    ensures CodeOnly(ItemCode(a64, item), ItemAccess(a64, item))
  {
    hide Prologue, Cleanup, Offset;
    if item.Memory? {
      RegSequences(a64, item.address, Offset(item.random, AlignOf(a64, item)));
    }
  }

  lemma TurnGoes(p: Program, o: Out, k: nat)
    requires Fits(p) && k < |p.items|
    ensures Accepted(p.target.TestA64?, p.items[k])
    ensures Goes(o, Turn(p, o, k), ItemAccess(p.target.TestA64?, p.items[k]))
  {
    hide PutAll, RegisterData, ToTestMode, CodeOnly, TableFits, Accepted, Promised;
    var a64, item := p.target.TestA64?, p.items[k];
    assert ItemFits(a64, item);
    ItemOnly(a64, item);
    hide ItemCode, ItemAccess;
    var s := ItemAccess(a64, item);
    var o1 := PutAll(a64, o, ItemCode(a64, item));
    PutAllGoes(a64, o, ItemCode(a64, item), s);
    if (k + 1) % 100 == 0 {
      FreshGoes(p.target, o1, p.fpscr.Some?, p.tables[(k + 1) / 100 - 1]);
      GoesOn(o, o1, Turn(p, o, k), s);
    }
  }

  /** Cell `i` was emitted for item `k`. */
  ghost predicate CellOf(p: Program, k: nat, i: nat)
    requires Fits(p)
  {
    k < |p.items| && |Turns(p, k).cells| <= i < |Turns(p, k + 1).cells|
  }

  lemma {:induction false} TurnsAccess(p: Program, k: nat, i: nat)
    requires Fits(p) && k <= |p.items| && i < |Turns(p, k).cells|
    requires Turns(p, k).cells[i].Code? && Turns(p, k).cells[i].insn.Access?
    ensures exists j: nat :: CellOf(p, j, i) && AccessOf(p.target.TestA64?, p.items[j], Turns(p, k).cells[i].insn)
    decreases k
  {
    hide Fits, Head, Turn, Accepted;
    if k == 0 {
      HeadGoes(p);
      assert false;
    } else {
      TurnsLevel(p, k);
      var o := Turns(p, k - 1);
      TurnGoes(p, o, k - 1);
      if i < |o.cells| {
        assert o.cells[i] == Turns(p, k).cells[i];
        TurnsAccess(p, k - 1, i);
      } else {
        assert CellOf(p, k - 1, i);
      }
    }
  }

  lemma ImageAccess(p: Program, i: nat)
    requires Fits(p) && i < |Image(p)| && Image(p)[i].Code? && Image(p)[i].insn.Access?
    ensures exists k: nat :: CellOf(p, k, i) && AccessOf(p.target.TestA64?, p.items[k], Image(p)[i].insn)
  {
    hide Fits, Turns, Put;
    var a64, o := p.target.TestA64?, Turns(p, |p.items|);
    PutGoes(a64, o, Risuop(TestEnd), {});
    assert i < |o.cells| && Image(p)[i] == o.cells[i];
    TurnsAccess(p, |p.items|, i);
  }

  // ---------------------------------------------------------------- the accesses of a run

  lemma NeverStuck<X(!new)>(h: Host<X>, p: Program, r: seq<nat>, x: X, n: nat, s: State<X>)
    requires Fits(p) && Loaded(h, Image(p)) && h.a64 == p.target.TestA64? && |r| == RegCount(h.a64)
    requires Steps(h, Image(p), StartOf(h, r, x), n) == Some(s) && !s.halted
    ensures Step(h, Image(p), s).Some?
  {
    hide Fits, Image, Loaded, StartOf, Step, ImageView, ProgramBlock;
    ImageRuns(h, p, r, x);
    var image, start := Image(p), StartOf(h, r, x);
    var t: State<X> :| Reaches(h, image, start, t) && t.halted;
    var m: nat :| Steps(h, image, start, m) == Some(t);
    hide Steps;
    if m <= n {
      StepsSum(h, image, start, m, n - m);
      HaltedStays(h, image, t, n - m);
      assert false;
    } else {
      StepsSum(h, image, start, n, m - n);
      FirstStep(h, image, s, m - n);
    }
  }

  lemma FirstStep<X>(h: Host<X>, image: seq<Cell>, s: State<X>, m: nat)
    requires m > 0 && Steps(h, image, s, m).Some?
    ensures Step(h, image, s).Some?
  {
    hide Step;
  }

  lemma AccessSteps<X>(h: Host<X>, image: seq<Cell>, s: State<X>)
    requires var insn := Fetch(h, image, s); insn.Some? && insn.value.Access?
    requires Step(h, image, s).Some?
    ensures var insn := Fetch(h, image, s).value;
      var ea := EffectiveAddress(h.a64, insn.address, s.core.regs);
      && s.core.block.Some? && insn.align > 0 && ea % insn.align == 0
      && 256 <= BlockOffset(h.a64, ea, s.core.block.value) < 1792
  {
    hide Fetch, EffectiveAddress, BlockOffset, Set, Advance;
  }

  lemma Fetched<X>(h: Host<X>, image: seq<Cell>, s: State<X>)
    requires Fetch(h, image, s).Some?
    ensures s.pc >= h.load && !s.halted
    ensures var i := (s.pc - h.load) / 2; i < |image| && image[i].Code? && Fetch(h, image, s) == Some(image[i].insn)
  {
  }

  /** In every run of an image, an access that is about to execute is the access of the item whose
      cells it lies in; its address is a multiple of 16 on A64 and of 4 otherwise, or of the item's
      own alignment, and lies in the block 256 bytes clear of both ends of the first 2 KiB. */
  lemma AccessesAligned<X(!new)>(h: Host<X>, p: Program, r: seq<nat>, x: X, n: nat, s: State<X>)
    requires Fits(p) && Loaded(h, Image(p)) && h.a64 == p.target.TestA64? && |r| == RegCount(h.a64)
    requires Steps(h, Image(p), StartOf(h, r, x), n) == Some(s)
    requires var insn := Fetch(h, Image(p), s); insn.Some? && insn.value.Access?
    ensures var insn := Fetch(h, Image(p), s).value;
      var ea := EffectiveAddress(h.a64, insn.address, s.core.regs);
      && s.pc >= h.load && s.core.block.Some?
      && 256 <= BlockOffset(h.a64, ea, s.core.block.value) < 1792
      && exists k: nat ::
           && CellOf(p, k, (s.pc - h.load) / 2)
           && var item := p.items[k];
              && item.Memory? && insn.n == item.n && insn.narrow == item.narrow && insn.address == item.address
              && (item.align.None? && h.a64 ==> ea % 16 == 0)
              && (item.align.None? && !h.a64 ==> ea % 4 == 0)
              && (item.align.Some? ==> item.align.value > 0 && ea % item.align.value == 0)
  {
    hide Fits, Image, Loaded, StartOf, Step, Steps, Fetch, EffectiveAddress, CellOf, BlockOffset;
    Fetched(h, Image(p), s);
    NeverStuck(h, p, r, x, n, s);
    AccessSteps(h, Image(p), s);
    ImageAccess(p, (s.pc - h.load) / 2);
  }

  // ---------------------------------------------------------------- every item's access runs

  /** The code of an item up to its access. */
  function Before(a64: bool, item: Item): seq<Insn>
    requires Accepted(a64, item) && item.Memory?
  {
    Prologue(a64, item.address, Offset(item.random, AlignOf(a64, item))) + Barrier(a64)
  }

  lemma ItemParts(a64: bool, item: Item)
    requires Accepted(a64, item) && item.Memory?
    ensures OnlyRegs(Before(a64, item))
    ensures var access := Access(item.n, item.narrow, item.address, AlignOf(a64, item));
      exists more :: ItemCode(a64, item) == Before(a64, item) + ([access] + more)
  {
    hide Prologue, Cleanup, Barrier, Offset, OnlyRegs;
    var align := AlignOf(a64, item);
    PiecesAreRegs(a64, item.address, Offset(item.random, align));
    var access := Access(item.n, item.narrow, item.address, align);
    var post := Barrier(a64) + if item.address.trashed then [] else Cleanup(a64, item.address.base);
    assert Around(a64, item) == Before(a64, item) + ([access] + post);
    hide Around, Before;
    var tail := [Risuop(CompareMem)] + [Risuop(Compare)];
    assert ItemCode(a64, item) == Around(a64, item) + tail;
    assert (Before(a64, item) + ([access] + post)) + tail == Before(a64, item) + ([access] + (post + tail));
  }

  /** Where the access of item `k` lies. */
  lemma AccessLies(p: Program, k: nat)
    requires Fits(p) && k < |p.items| && p.items[k].Memory?
    ensures var a64, item, o := p.target.TestA64?, p.items[k], Turns(p, k);
      && Accepted(a64, item) && Level(a64, o) && OnlyRegs(Before(a64, item))
      && var o1 := PutAll(a64, o, Before(a64, item));
         var o2 := Put(a64, o1, Access(item.n, item.narrow, item.address, AlignOf(a64, item)));
         && Level(a64, o1) && |o.cells| <= |o1.cells| < |o2.cells|
         && o1.cells <= o2.cells <= Turns(p, k + 1).cells
  {
    hide Put, PutAll, Before, OnlyRegs, Prologue, Cleanup, RegisterData, ToTestMode, Level, TableFits, Promised, Head,
      ItemCode;
    var a64, item, o := p.target.TestA64?, p.items[k], Turns(p, k);
    assert ItemFits(a64, item);
    ItemParts(a64, item);
    var access := Access(item.n, item.narrow, item.address, AlignOf(a64, item));
    var more :| ItemCode(a64, item) == Before(a64, item) + ([access] + more);
    TurnsLevel(p, k);
    TurnLevel(p, o, k);
    var o1 := PutAll(a64, o, Before(a64, item));
    var o2 := Put(a64, o1, access);
    PutAllAppend(a64, o, Before(a64, item), [access] + more);
    PutAllAppend(a64, o1, [access], more);
    PutOne(a64, o1, access);
    PutAllKeeps(a64, o, Before(a64, item));
    PutKeeps(a64, o1, access);
    PutAllKeeps(a64, o2, more);
  }

  lemma {:induction false} TurnsInside(p: Program, k: nat, n: nat)
    requires Fits(p) && k <= n <= |p.items|
    ensures Turns(p, k).cells <= Turns(p, n).cells
    decreases n
  {
    hide Fits, Turns;
    if k < n {
      TurnsInside(p, k, n - 1);
      TurnsLevel(p, n);
    }
  }

  lemma TurnsInImage(p: Program, k: nat)
    requires Fits(p) && k <= |p.items|
    ensures Turns(p, k).cells <= Image(p)
  {
    hide Fits, Turns, Put;
    TurnsInside(p, k, |p.items|);
    TurnsLevel(p, |p.items|);
    PutKeeps(p.target.TestA64?, Turns(p, |p.items|), Risuop(TestEnd));
  }

  /** Every item that accesses memory comes to its access. */
  lemma EveryAccessRuns<X(!new)>(h: Host<X>, p: Program, r: seq<nat>, x: X, k: nat)
    requires Fits(p) && Loaded(h, Image(p)) && h.a64 == p.target.TestA64? && |r| == RegCount(h.a64)
    requires k < |p.items| && p.items[k].Memory?
    ensures exists s: State<X> ::
      && Reaches(h, Image(p), StartOf(h, r, x), s)
      && s.pc >= h.load && CellOf(p, k, (s.pc - h.load) / 2)
      && var insn := Fetch(h, Image(p), s); insn.Some? && insn.value.Access? && insn.value.n == p.items[k].n
  {
    hide Fits, Image, Turns, TurnsView, ProgramBlock, Level, Put, PutAll, WellFormed, Exec, Fetch, Reaches, Before,
      Promised, OnlyRegs;
    var image, g, a64, item, o := Image(p), h.(load := h.load % 64), h.a64, p.items[k], Turns(p, k);
    TurnsInImage(p, k);
    TurnsInImage(p, k + 1);
    TurnsRun(h, g, image, p, k, r, x);
    AccessLies(p, k);
    LoadLevel(h);
    var access := Access(item.n, item.narrow, item.address, AlignOf(a64, item));
    var o1 := PutAll(a64, o, Before(a64, item));
    var c := CoreOf(TurnsView(g, p, k, x), ProgramBlock(h.load, p));
    var d := c.(regs := RunRegs(a64, BlockOf(c), Before(a64, item), c.regs));
    ExecRegs(h, image, ModeOf(a64, o), |o.cells|, Before(a64, item), c);
    PutAllRuns(h, image, o, Before(a64, item), c, d);
    FetchAt(h, image, o1, access, d);
    assert StateAt(h, EMPTY, Core(r, None, x, [])) == StartOf(h, r, x);
    ReachesTrans(h, image, StartOf(h, r, x), StateAt(h, o, c), StateAt(h, o1, d));
    var s := StateAt(h, o1, d);
    assert (s.pc - h.load) / 2 == |o1.cells|;
  }
}
