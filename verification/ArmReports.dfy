/** What risu sees of a run of a generated image, report by report. */
module ArmReports {
  import opened Wrappers
  import opened ArmMachine
  import opened ArmAddressing
  import opened ArmGenerator
  import opened ArmExec
  import opened ArmPieces
  import opened ArmTables
  import opened ArmSetup
  import opened ArmImage

  /** The reports made before instruction `k`: one for the register data at the start; one for each
      instruction, two if it accesses memory; and one more after every hundredth. */
  function Made(p: Program, k: nat): (n: nat)
    requires k <= |p.items|
    ensures n > k
  {
    if k == 0 then 1
    else Made(p, k - 1) + (if p.items[k - 1].Memory? then 2 else 1) + if k % 100 == 0 then 1 else 0
  }

  /** The registers instruction `k` finds: those of the last report, but entering Thumb behind
      register data clears r0. */
  function Found(p: Program, k: nat, r: seq<nat>): seq<nat> {
    if p.target.TestThumb? && k % 100 == 0 then Set(r, 0, 0) else r
  }

  predicate Tells<X(==)>(r: Report<X>, op: RisuOp, out: Outcome<X>) {
    r.op == op && r.regs == out.regs && r.rest == out.rest
  }

  /** The place in the block for a random position: the last one at or below 256 plus it that the
      alignment allows, which is 16 on A64 and 4 otherwise unless the item has its own. */
  ghost predicate Rounds(a64: bool, item: Item, off: nat)
    requires item.Memory?
  {
    && 256 <= off <= 256 + item.random
    && (item.align.None? && a64 ==> off % 16 == 0 && 256 + item.random - off < 16)
    && (item.align.None? && !a64 ==> off % 4 == 0 && 256 + item.random - off < 4)
    && (item.align.Some? ==>
          item.align.value > 0 && off % item.align.value == 0 && 256 + item.random - off < item.align.value)
  }

  /** Reports that tell what instruction `k` did to the state of the report before. */
  ghost predicate ItemTold<X>(h: Host<X>, p: Program, k: nat, trace: seq<Report<X>>)
    requires k < |p.items|
  {
    var b, item := Made(p, k), p.items[k];
    && b + (if item.Memory? then 2 else 1) <= |trace| && trace[b - 1].op == Compare
    && var r, x := Found(p, k, trace[b - 1].regs), trace[b - 1].rest;
       && (item.Plain? ==> Tells(trace[b], Compare, h.test(item.n, r, x)))
       && (item.Memory? ==>
             exists off :: Rounds(p.target.TestA64?, item, off) &&
               var out := AccessEffect(h, item.n, item.address, off, r, x);
               Tells(trace[b], CompareMem, out) && Tells(trace[b + 1], Compare, out))
  }

  /** The first `n` pairs of vector registers, eight words each from word `j` of the table on. */
  function Pairs<X>(h: Host<X>, words: seq<nat>, j: nat, n: nat, x: X): X
    requires j + 8 * n <= |words|
  {
    if n == 0 then x else h.floats(n - 1, words[j + 8 * (n - 1)..j + 8 * n], Pairs(h, words, j, n - 1, x))
  }

  /** The rest of the state behind fresh register data: flags cleared, and the floating registers
      loaded from the table, on A64 from one of its first words. */
  function Loads<X>(h: Host<X>, fp: bool, t: Table, j: nat, x: X): X
    requires TableFits(h.a64, fp, t) && j <= 4
  {
    if !fp then h.status(0, 0, x)
    else if h.a64 then Pairs(h, t.floats, j, 16, h.status(0, 0, x))
    else h.status(0, 0, h.floats(1, t.floats[32..], h.floats(0, t.floats[..32], x)))
  }

  ghost predicate DataTold<X>(h: Host<X>, fp: bool, t: Table, x: X, r: Report<X>)
    requires TableFits(h.a64, fp, t)
  {
    r.op == Compare && r.regs == t.regs && exists j: nat :: j <= 4 && r.rest == Loads(h, fp, t, j, x)
  }

  /** A report of fresh register data after every hundredth instruction. */
  ghost predicate RefreshTold<X>(h: Host<X>, p: Program, k: nat, trace: seq<Report<X>>)
    requires Fits(p) && h.a64 == p.target.TestA64? && k < |p.items|
  {
    (k + 1) % 100 == 0 ==>
      var b := Made(p, k + 1);
      b <= |trace| && DataTold(h, p.fpscr.Some?, p.tables[(k + 1) / 100 - 1], trace[b - 2].rest, trace[b - 1])
  }

  /** The rest of the state behind the setup: the status registers, then 8 KiB of the data from
      word `k` on as the memory block. */
  function SetUp<X>(h: Host<X>, p: Program, k: nat, x: X): X
    requires Fits(p) && k <= 16
  {
    var x1 := if p.fpscr.None? then x
      else h.status(1, p.fpscr.value, if h.a64 then h.status(2, 0, x) else x);
    if p.block.None? then x1 else h.attach(p.block.value[k..k + 2048], x1)
  }

  ghost predicate StartTold<X>(h: Host<X>, p: Program, x: X, r: Report<X>)
    requires Fits(p) && h.a64 == p.target.TestA64?
  {
    exists k: nat :: k <= 16 && DataTold(h, p.fpscr.Some?, p.first, SetUp(h, p, k, x), r)
  }

  // ---------------------------------------------------------------- by instructions

  /** The reports made before instruction `k`, and the state it finds. */
  ghost predicate Told<X>(h: Host<X>, p: Program, k: nat, x: X, v: View<X>)
    requires Fits(p) && h.a64 == p.target.TestA64? && k <= |p.items|
  {
    && |v.trace| == Made(p, k)
    && StartTold(h, p, x, v.trace[0])
    && (forall j :: 0 <= j < k ==> ItemTold(h, p, j, v.trace) && RefreshTold(h, p, j, v.trace))
    && var last := v.trace[|v.trace| - 1];
       last.op == Compare && v.regs == Found(p, k, last.regs) && v.rest == last.rest
  }

  lemma {:induction false} MadeGrows(p: Program, j: nat, k: nat)
    requires j <= k <= |p.items|
    ensures Made(p, j) <= Made(p, k)
    decreases k
  {
    if j < k {
      MadeGrows(p, j, k - 1);
    }
  }

  /** Loading pair by pair, from the front or from the back. */
  lemma {:induction false} FloatsArePairs<X>(g: Host<X>, h: Host<X>, words: seq<nat>, k: nat, j: nat, x: X)
    requires SameCpu(h, g) && k + 128 <= |words| && j <= 16
    ensures FloatsView(g, words, k, j, Pairs(h, words, k, j, x)) == Pairs(h, words, k, 16, x)
    decreases 16 - j
  {
    if j < 16 {
      FloatsArePairs(g, h, words, k, j + 1, x);
    }
  }

  lemma SkipSmall(d: nat, align: nat)
    requires align == 16 || align == 64
    ensures Skip(d, align) < align / 4
  {
  }

  /** Fresh register data adds one report. */
  lemma FreshTold<X>(h: Host<X>, g: Host<X>, target: Target, o: Out, fp: bool, t: Table, v: View<X>)
    requires SameCpu(h, g) && g.a64 == target.TestA64? && TableFits(g.a64, fp, t) && Level(g.a64, o)
    ensures var w := FreshView(g, target, o, fp, t, v);
      exists r :: w.trace == v.trace + [r] && r.op == Compare && DataTold(h, fp, t, v.rest, r)
        && w.regs == (if target.TestThumb? then Set(r.regs, 0, 0) else r.regs) && w.rest == r.rest
  {
    hide RegisterData, FloatsView, Skip, A64Regdata, ArmRegdata;
    DataLevel(g.a64, o, fp, t);
    var at := if g.a64 then |A64Regdata(o, fp, t).cells| else |ArmRegdata(o, fp, t).cells|;
    var j := if g.a64 && fp then Skip(g.load + 2 * (|o.cells| + 8), 16) else 0;
    SkipSmall(g.load + 2 * (|o.cells| + 8), 16);
    if g.a64 && fp {
      FloatsArePairs(g, h, t.floats, j, 0, g.status(0, 0, v.rest));
    }
    var r := Report(Compare, 2 * at, t.regs, Loads(h, fp, t, j, v.rest));
    assert DataTold(h, fp, t, v.rest, r);
    assert FreshView(g, target, o, fp, t, v).trace == v.trace + [r];
  }

  lemma HeadIsFresh<X>(h: Host<X>, g: Host<X>, p: Program, x: X) returns (k: nat)
    requires SameCpu(h, g) && g.a64 == p.target.TestA64? && Fits(p)
    ensures k <= 16
    ensures HeadView(g, p, x) ==
      FreshView(g, p.target, AfterBlock(p), p.fpscr.Some?, p.first, View([], SetUp(h, p, k, x), []))
  {
    hide FreshView, AfterBlock, Skip, BlockCell, TableFits, ItemFits;
    k := if p.block.Some? then Skip(g.load + 2 * BlockCell(p), 64) else 0;
    SkipSmall(g.load + 2 * BlockCell(p), 64);
  }

  lemma HeadTold<X>(h: Host<X>, g: Host<X>, p: Program, x: X)
    requires SameCpu(h, g) && g.a64 == p.target.TestA64? && Fits(p)
    ensures Told(h, p, 0, x, HeadView(g, p, x))
  {
    hide FreshView, AfterBlock, DataTold, Level, TableFits, ItemFits, SetUp, HeadView;
    HeadLevel(p);
    var k := HeadIsFresh(h, g, p, x);
    FreshTold(h, g, p.target, AfterBlock(p), p.fpscr.Some?, p.first, View([], SetUp(h, p, k, x), []));
  }

  lemma PlaceRounds(a64: bool, item: Item)
    requires item.Memory? && ItemFits(a64, item)
    ensures Rounds(a64, item, Offset(item.random, AlignOf(a64, item)))
  {
    hide Promised;
    OffsetInRange(item.random, AlignOf(a64, item));
  }

  /** An item adds the reports of its effect. */
  lemma ItemTells<X>(h: Host<X>, g: Host<X>, mode: Mode, at: nat, item: Item, v: View<X>)
    requires SameCpu(h, g) && ItemFits(h.a64, item)
    ensures var w := ItemView(g, mode, at, item, v);
      && (item.Plain? ==>
            exists s :: w.trace == v.trace + [s] && Tells(s, Compare, h.test(item.n, v.regs, v.rest))
              && w.regs == s.regs && w.rest == s.rest)
      && (item.Memory? ==>
            exists off, s, t :: w.trace == v.trace + [s, t] && w.regs == t.regs && w.rest == t.rest
              && Rounds(h.a64, item, off)
              && var out := AccessEffect(h, item.n, item.address, off, v.regs, v.rest);
                 Tells(s, CompareMem, out) && Tells(t, Compare, out))
  {
    hide Around, Length, AccessEffect, Rounds, Offset, Promised;
    var v1 := AroundView(g, item, v);
    var end := at + Length(mode, Around(g.a64, item));
    if item.Plain? {
      var s := Report(Compare, 2 * end, v1.regs, v1.rest);
      assert Tells(s, Compare, h.test(item.n, v.regs, v.rest));
      assert ItemView(g, mode, at, item, v).trace == v.trace + [s];
    } else {
      var off := Offset(item.random, AlignOf(g.a64, item));
      PlaceRounds(h.a64, item);
      SameEffect(h, g, item.n, item.address, off, v.regs, v.rest);
      var s := Report(CompareMem, 2 * end, v1.regs, v1.rest);
      var t := Report(Compare, 2 * (end + Size(mode, Risuop(CompareMem))), v1.regs, v1.rest);
      assert ItemView(g, mode, at, item, v).trace == v.trace + [s, t];
    }
  }

  /** Told reports stay told when others follow. */
  lemma ToldOn<X>(h: Host<X>, p: Program, k: nat, trace: seq<Report<X>>, more: seq<Report<X>>)
    requires Fits(p) && h.a64 == p.target.TestA64? && k <= |p.items| && |trace| == Made(p, k)
    requires forall j :: 0 <= j < k ==> ItemTold(h, p, j, trace) && RefreshTold(h, p, j, trace)
    ensures forall j :: 0 <= j < k ==> ItemTold(h, p, j, trace + more) && RefreshTold(h, p, j, trace + more)
  {
    hide Fits, Rounds, AccessEffect, Tells, Found, DataTold;
    forall j | 0 <= j < k ensures ItemTold(h, p, j, trace + more) && RefreshTold(h, p, j, trace + more) {
      MadeGrows(p, j + 1, k);
      assert ItemTold(h, p, j, trace) && RefreshTold(h, p, j, trace);
    }
  }

  /** The same in the middle of a turn, before register data. */
  ghost predicate Midway<X>(h: Host<X>, p: Program, k: nat, x: X, v: View<X>)
    requires Fits(p) && h.a64 == p.target.TestA64? && k < |p.items|
  {
    && |v.trace| == Made(p, k) + (if p.items[k].Memory? then 2 else 1)
    && StartTold(h, p, x, v.trace[0])
    && (forall j :: 0 <= j < k ==> ItemTold(h, p, j, v.trace) && RefreshTold(h, p, j, v.trace))
    && ItemTold(h, p, k, v.trace)
    && var last := v.trace[|v.trace| - 1];
       last.op == Compare && v.regs == last.regs && v.rest == last.rest
  }

  lemma PlainIsTold<X>(h: Host<X>, p: Program, k: nat, v: View<X>, s: Report<X>)
    requires k < |p.items| && p.items[k].Plain? && |v.trace| == Made(p, k) && v.trace[|v.trace| - 1].op == Compare
    requires v.regs == Found(p, k, v.trace[|v.trace| - 1].regs) && v.rest == v.trace[|v.trace| - 1].rest
    requires Tells(s, Compare, h.test(p.items[k].n, v.regs, v.rest))
    ensures ItemTold(h, p, k, v.trace + [s])
  {
    hide Found, Tells, Rounds, AccessEffect, Made;
  }

  lemma AccessIsTold<X>(h: Host<X>, p: Program, k: nat, v: View<X>, off: nat, s: Report<X>, t: Report<X>)
    requires k < |p.items| && p.items[k].Memory? && |v.trace| == Made(p, k) && v.trace[|v.trace| - 1].op == Compare
    requires v.regs == Found(p, k, v.trace[|v.trace| - 1].regs) && v.rest == v.trace[|v.trace| - 1].rest
    requires Rounds(p.target.TestA64?, p.items[k], off)
    requires var out := AccessEffect(h, p.items[k].n, p.items[k].address, off, v.regs, v.rest);
      Tells(s, CompareMem, out) && Tells(t, Compare, out)
    ensures ItemTold(h, p, k, v.trace + [s, t])
  {
    hide Found, Tells, Rounds, AccessEffect, Made;
  }

  lemma ItemMidway<X>(h: Host<X>, g: Host<X>, p: Program, mode: Mode, at: nat, k: nat, x: X, v: View<X>)
    requires SameCpu(h, g) && g.a64 == p.target.TestA64? && Fits(p) && k < |p.items|
    requires Told(h, p, k, x, v) && ItemFits(h.a64, p.items[k])
    ensures Midway(h, p, k, x, ItemView(g, mode, at, p.items[k], v))
  {
    hide ItemView, StartTold, Rounds, AccessEffect, Found, RefreshTold, Promised, Fits, AlignOf, ItemTold,
      Made;
    var item := p.items[k];
    ItemTells(h, g, mode, at, item, v);
    var v1 := ItemView(g, mode, at, item, v);
    if item.Plain? {
      var s :| v1.trace == v.trace + [s] && Tells(s, Compare, h.test(item.n, v.regs, v.rest))
        && v1.regs == s.regs && v1.rest == s.rest;
      PlainIsTold(h, p, k, v, s);
      ToldOn(h, p, k, v.trace, [s]);
    } else {
      var off, s, t :| v1.trace == v.trace + [s, t] && v1.regs == t.regs && v1.rest == t.rest
        && Rounds(h.a64, item, off)
        && var out := AccessEffect(h, item.n, item.address, off, v.regs, v.rest);
           Tells(s, CompareMem, out) && Tells(t, Compare, out);
      AccessIsTold(h, p, k, v, off, s, t);
      ToldOn(h, p, k, v.trace, [s, t]);
    }
  }

  /** Without register data in the turn. */
  lemma MidwayEnds<X>(h: Host<X>, p: Program, k: nat, x: X, v: View<X>)
    requires Fits(p) && h.a64 == p.target.TestA64? && k < |p.items| && Midway(h, p, k, x, v) && (k + 1) % 100 != 0
    ensures Told(h, p, k + 1, x, v)
  {
    hide Fits, ItemTold, DataTold, StartTold;
  }

  lemma MidwayRefreshed<X>(h: Host<X>, p: Program, k: nat, x: X, v: View<X>, r: Report<X>, w: View<X>)
    requires Fits(p) && h.a64 == p.target.TestA64? && k < |p.items| && Midway(h, p, k, x, v) && (k + 1) % 100 == 0
    requires DataTold(h, p.fpscr.Some?, p.tables[(k + 1) / 100 - 1], v.rest, r) && r.op == Compare
    requires w.trace == v.trace + [r] && w.rest == r.rest
    requires w.regs == if p.target.TestThumb? then Set(r.regs, 0, 0) else r.regs
    ensures Told(h, p, k + 1, x, w)
  {
    hide Fits, DataTold, StartTold, Rounds, AccessEffect, Tells;
    forall j | 0 <= j <= k ensures ItemTold(h, p, j, w.trace) && (j < k ==> RefreshTold(h, p, j, w.trace)) {
      MadeGrows(p, j, k);
      if j < k {
        MadeGrows(p, j + 1, k);
      }
      assert ItemTold(h, p, j, v.trace) && (j < k ==> RefreshTold(h, p, j, v.trace));
    }
    assert RefreshTold(h, p, k, w.trace);
  }

  lemma FitsAt(p: Program, k: nat)
    requires Fits(p) && k < |p.items|
    ensures ItemFits(p.target.TestA64?, p.items[k])
    ensures (k + 1) % 100 == 0 ==>
      (k + 1) / 100 - 1 < |p.tables|
      && TableFits(p.target.TestA64?, p.fpscr.Some?, p.tables[(k + 1) / 100 - 1])
  {
    hide ItemFits, TableFits;
  }

  lemma TurnTold<X>(h: Host<X>, g: Host<X>, p: Program, o: Out, k: nat, x: X, v: View<X>)
    requires SameCpu(h, g) && g.a64 == p.target.TestA64? && Fits(p) && k < |p.items|
    requires Level(g.a64, o) && o.thumb == p.target.TestThumb? && Told(h, p, k, x, v)
    ensures Told(h, p, k + 1, x, TurnView(g, p, o, k, v))
  {
    hide FreshView, ItemView, DataTold, Level, TableFits, Promised, AlignOf, PutAll, Fits, ItemCode, Told, Midway;
    FitsAt(p, k);
    TurnLevel(p, o, k);
    ItemMidway(h, g, p, ModeOf(g.a64, o), |o.cells|, k, x, v);
    var v1 := ItemView(g, ModeOf(g.a64, o), |o.cells|, p.items[k], v);
    var o1 := PutAll(g.a64, o, ItemCode(g.a64, p.items[k]));
    if (k + 1) % 100 == 0 {
      var fp, t := p.fpscr.Some?, p.tables[(k + 1) / 100 - 1];
      FreshTold(h, g, p.target, o1, fp, t, v1);
      var w := FreshView(g, p.target, o1, fp, t, v1);
      var r :| w.trace == v1.trace + [r] && r.op == Compare && DataTold(h, fp, t, v1.rest, r)
        && w.regs == (if p.target.TestThumb? then Set(r.regs, 0, 0) else r.regs) && w.rest == r.rest;
      MidwayRefreshed(h, p, k, x, v1, r, w);
    } else {
      MidwayEnds(h, p, k, x, v1);
    }
  }

  lemma {:induction false} TurnsTold<X>(h: Host<X>, g: Host<X>, p: Program, k: nat, x: X)
    requires SameCpu(h, g) && g.a64 == p.target.TestA64? && Fits(p) && k <= |p.items|
    ensures Told(h, p, k, x, TurnsView(g, p, k, x))
  {
    hide Fits, Told, TurnView, HeadView, Level, Turn, Head;
    if k == 0 {
      HeadTold(h, g, p, x);
    } else {
      TurnsTold(h, g, p, k - 1, x);
      TurnsLevel(p, k - 1);
      TurnTold(h, g, p, Turns(p, k - 1), k - 1, x, TurnsView(g, p, k - 1, x));
    }
  }

  /** The reports of every run: the register data; for each instruction its effect on the state
      reported last, the memory first if it accessed any; fresh register data after every
      hundredth; and the end of the test. */
  lemma ReportsMean<X(!new)>(h: Host<X>, p: Program, r: seq<nat>, x: X, t: State<X>)
    requires Fits(p) && Loaded(h, Image(p)) && h.a64 == p.target.TestA64? && |r| == RegCount(h.a64)
    requires Reaches(h, Image(p), StartOf(h, r, x), t) && t.halted
    ensures var trace, n := t.core.trace, |p.items|;
      && |trace| == Made(p, n) + 1
      && StartTold(h, p, x, trace[0])
      && (forall k :: 0 <= k < n ==> ItemTold(h, p, k, trace) && RefreshTold(h, p, k, trace))
      && var last := trace[Made(p, n) - 1];
         && trace[Made(p, n)].op == TestEnd && trace[Made(p, n)].rest == last.rest
         && trace[Made(p, n)].regs == Found(p, n, last.regs)
  {
    hide Reaches, Fits, Image, Loaded, ProgramBlock, StartOf, TurnsView, StartTold, ItemTold, RefreshTold, Found,
      Turns;
    var g, n := h.(load := h.load % 64), |p.items|;
    ImageRuns(h, p, r, x);
    var u: State<X> :| Reaches(h, Image(p), StartOf(h, r, x), u) && u.halted
      && u.core == CoreOf(ImageView(g, p, x), ProgramBlock(h.load, p));
    HaltsOnce(h, Image(p), StartOf(h, r, x), t, u);
    TurnsTold(h, g, p, n, x);
    var v := TurnsView(g, p, n, x);
    ToldOn(h, p, n, v.trace, t.core.trace[|v.trace|..]);
    assert t.core.trace == v.trace + t.core.trace[|v.trace|..];
  }
}
