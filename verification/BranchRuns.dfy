/** Every run through the branch harness: where it goes, how often the branch under test runs,
    and that nothing left in the registers depends on where the code lies.
 */
module BranchRuns {
  import opened Wrappers
  import opened Modular
  import opened BranchHarness

  /** The displacement and the draw are possible, and the code fits the address space. */
  ghost predicate Possible(h: Host, draw: Draw) {
    && WordSize(h.modulus) && h.load % 4 == 0 && h.load + 4 * |Harness(h.kind, h.bd, draw)| < h.modulus
    && (h.bd < 0 ==> draw.filler <= -h.bd)
    && (!h.kind.Direct? ==> 12 + 4 * h.bd < 0x8000)
  }

  /** The branch is jumped over when the filler is as long as the displacement. */
  predicate Skipped(bd: int, draw: Draw) { bd < 0 && draw.filler == -bd }

  // ---------------------------------------------------------------- layout

  function BranchAt(kind: Kind, bd: int, draw: Draw): nat { |Pre(kind, bd, draw)| }

  lemma AtMiddle(pre: seq<Insn>, piece: seq<Insn>, post: seq<Insn>)
    ensures At(pre + piece + post, |pre|, piece)
  {
  }

  lemma AtInside(code: seq<Insn>, i: int, outer: seq<Insn>, pre: seq<Insn>, piece: seq<Insn>, post: seq<Insn>)
    requires At(code, i, outer) && outer == pre + piece + post
    ensures At(code, i + |pre|, piece)
  {
    forall j | 0 <= j < |piece| ensures code[i + |pre| + j] == piece[j] {
      assert code[i + (|pre| + j)] == outer[|pre| + j];
    }
  }

  lemma Layout(kind: Kind, bd: int, draw: Draw)
    ensures var code := Harness(kind, bd, draw);
      var s, u := |Setup(kind, bd, draw)|, BranchAt(kind, bd, draw);
      && At(code, 0, Setup(kind, bd, draw)) && At(code, s, Lead(bd, draw.filler)) && At(code, u, [Under])
      && At(code, u + 1, Fill(7, Ahead(bd)))
      && At(code, u + 1 + Ahead(bd), Fill(4, draw.extra))
      && At(code, u + 1 + Ahead(bd) + draw.extra, Settle(kind, draw))
      && u == s + |Lead(bd, draw.filler)|
      && |code| == u + 1 + Ahead(bd) + draw.extra + |Settle(kind, draw)|
  {
    hide Setup, Lead, Settle, At, Fill;
    var code, setup := Harness(kind, bd, draw), Setup(kind, bd, draw);
    var lead, settle := Lead(bd, draw.filler), Settle(kind, draw);
    var f7, f4 := Fill(7, Ahead(bd)), Fill(4, draw.extra);
    FillLength(7, Ahead(bd));
    FillLength(4, draw.extra);
    assert code == [] + setup + (lead + [Under] + f7 + f4 + settle);
    AtMiddle([], setup, lead + [Under] + f7 + f4 + settle);
    assert code == setup + lead + ([Under] + f7 + f4 + settle);
    AtMiddle(setup, lead, [Under] + f7 + f4 + settle);
    assert code == (setup + lead) + [Under] + (f7 + f4 + settle);
    AtMiddle(setup + lead, [Under], f7 + f4 + settle);
    assert code == (setup + lead + [Under]) + f7 + (f4 + settle);
    AtMiddle(setup + lead + [Under], f7, f4 + settle);
    assert code == (setup + lead + [Under] + f7) + f4 + settle;
    AtMiddle(setup + lead + [Under] + f7, f4, settle);
    assert code == (setup + lead + [Under] + f7 + f4) + settle + [];
    AtMiddle(setup + lead + [Under] + f7 + f4, settle, []);
  }

  lemma {:induction false} FillLength(r: nat, n: nat)
    ensures |Fill(r, n)| == n && AllStraight(Fill(r, n))
  {
    if n > 0 {
      FillLength(r, n - 1);
    }
  }

  /** The parts of the lead of a backward branch. */
  lemma LeadLayout(code: seq<Insn>, i: int, bd: int, filler2: nat)
    requires bd < 0 && At(code, i, Lead(bd, filler2))
    ensures var f1 := Filler1(bd, filler2);
      && |Lead(bd, filler2)| == 2 + f1 + filler2
      && At(code, i, [Jump(1 - bd - filler2)]) && At(code, i + 1, Fill(3, f1))
      && At(code, i + 1 + f1, [Jump(2 + filler2)]) && At(code, i + 2 + f1, Fill(6, filler2))
  {
    hide At, Fill;
    var f1 := Filler1(bd, filler2);
    FillLength(3, f1);
    FillLength(6, filler2);
    FourPieces(code, i, [Jump(1 - bd - filler2)], Fill(3, f1), [Jump(2 + filler2)], Fill(6, filler2));
  }

  lemma FourPieces(code: seq<Insn>, i: int, a: seq<Insn>, b: seq<Insn>, c: seq<Insn>, d: seq<Insn>)
    requires At(code, i, a + b + c + d)
    ensures At(code, i, a) && At(code, i + |a|, b)
    ensures At(code, i + |a| + |b|, c) && At(code, i + |a| + |b| + |c|, d)
  {
    hide At;
    var all := a + b + c + d;
    assert all == [] + a + (b + c + d);
    AtInside(code, i, all, [], a, b + c + d);
    assert all == a + b + (c + d);
    AtInside(code, i, all, a, b, c + d);
    AtInside(code, i, all, a + b, c, d);
    assert all == (a + b + c) + d + [];
    AtInside(code, i, all, a + b + c, d, []);
  }

  // ---------------------------------------------------------------- single moves

  lemma JumpRuns(h: Host, code: seq<Insn>, words: int, s: State)
    requires h.modulus > 0 && At(code, s.at, [Jump(words)])
    ensures Reaches(h, code, s, s.(at := s.at + words))
  {
    hide Reaches;
    assert code[s.at + 0] == [Jump(words)][0];
    ReachesStep(h, code, s, s.(at := s.at + words));
  }

  lemma FillReaches(h: Host, code: seq<Insn>, r: nat, n: nat, s: State)
    requires h.modulus > 0 && At(code, s.at, Fill(r, n))
    ensures Reaches(h, code, s, Bump(h, r, n, s))
  {
    hide Reaches, At, ExecAll;
    FillRuns(h, r, n, s);
    PieceRuns(h, code, Fill(r, n), s);
  }

  lemma UnderRuns(h: Host, code: seq<Insn>, s: State, target: int)
    requires h.modulus > 0 && At(code, s.at, [Under])
    requires target == if h.taken(s.visits) then TargetOf(h, s) else s.at + 1
    ensures Reaches(h, code, s, Branched(h, s).(at := target))
  {
    hide Reaches, TargetOf, Branched;
    assert code[s.at + 0] == [Under][0];
    ReachesStep(h, code, s, Branched(h, s).(at := target));
  }

  // ---------------------------------------------------------------- around the branch

  /** A register branch finds the cell `t` in its register. */
  predicate Ready(h: Host, s: State, t: int) {
    match h.kind
    case Direct(_) => true
    case ToCtr => s.ctr == AddressOf(h, t)
    case ToLr => s.lr == AddressOf(h, t)
  }

  lemma TargetReady(h: Host, s: State, t: int)
    requires Ready(h, s, t) && t == s.at + h.bd
    ensures TargetOf(h, s) == t
  {
  }

  /** From the end of the setup to the first of the extra fillers. */
  function Around(h: Host, draw: Draw, s: State): State
    requires h.modulus > 0
  {
    if h.bd > 0 then
      var b := Branched(h, s);
      if h.taken(s.visits) then b.(at := s.at + h.bd) else Bump(h, 7, h.bd - 1, b.(at := s.at + 1))
    else
      var f1 := Filler1(h.bd, draw.filler);
      var u := s.at + 2 + f1 + draw.filler;
      if Skipped(h.bd, draw) then s.(at := u + 1)
      else Back(h, f1, s.at + 1, u + 1, Branched(h, AtBranch(h, draw, s)))
  }

  /** The state in which a backward branch runs. */
  function AtBranch(h: Host, draw: Draw, s: State): State
    requires h.modulus > 0
  {
    Bump(h, 6, draw.filler, s.(at := s.at + 2 + Filler1(h.bd, draw.filler)))
  }

  /** From the branch to `out`, by way of `f1` fillers at `back` if it was taken. */
  function Back(h: Host, f1: nat, back: int, out: int, b: State): State
    requires h.modulus > 0
  {
    if b.visits > 0 && h.taken(b.visits - 1) then Bump(h, 3, f1, b.(at := back)).(at := out) else b.(at := out)
  }

  lemma ForwardRuns(h: Host, code: seq<Insn>, draw: Draw, s: State)
    requires h.modulus > 0 && h.bd > 0 && Ready(h, s, s.at + h.bd)
    requires At(code, s.at, [Under]) && At(code, s.at + 1, Fill(7, h.bd - 1))
    ensures Reaches(h, code, s, Around(h, draw, s)) && Around(h, draw, s).at == s.at + h.bd
  {
    hide Reaches, At, TargetOf, Branched, Ready;
    TargetReady(h, s, s.at + h.bd);
    if h.taken(s.visits) {
      UnderRuns(h, code, s, s.at + h.bd);
    } else {
      UnderRuns(h, code, s, s.at + 1);
      var b := Branched(h, s).(at := s.at + 1);
      FillReaches(h, code, 7, h.bd - 1, b);
      ReachesTrans(h, code, s, b, Around(h, draw, s));
    }
  }

  lemma SkipRuns(h: Host, code: seq<Insn>, draw: Draw, s: State)
    requires h.modulus > 0 && h.bd < 0 && Skipped(h.bd, draw) && At(code, s.at, Lead(h.bd, draw.filler))
    ensures Reaches(h, code, s, Around(h, draw, s)) && Around(h, draw, s).at == s.at + |Lead(h.bd, draw.filler)| + 1
  {
    hide Reaches, At, Lead;
    LeadLayout(code, s.at, h.bd, draw.filler);
    JumpRuns(h, code, 1, s);
    var t := s.(at := s.at + 1);
    JumpRuns(h, code, 2 + draw.filler, t);
    ReachesTrans(h, code, s, t, Around(h, draw, s));
  }

  lemma BackwardRuns(h: Host, code: seq<Insn>, draw: Draw, s: State)
    requires h.modulus > 0 && h.bd < 0 && draw.filler < -h.bd && Ready(h, s, s.at + 1)
    requires At(code, s.at, Lead(h.bd, draw.filler)) && At(code, s.at + |Lead(h.bd, draw.filler)|, [Under])
    ensures Reaches(h, code, s, Around(h, draw, s)) && Around(h, draw, s).at == s.at + |Lead(h.bd, draw.filler)| + 1
  {
    hide Reaches, At, Lead, TargetOf, Ready;
    LeadLayout(code, s.at, h.bd, draw.filler);
    var f1 := Filler1(h.bd, draw.filler);
    assert f1 == -h.bd - 1 - draw.filler;
    var t0 := s.(at := s.at + 2 + f1);
    JumpRuns(h, code, 1 - h.bd - draw.filler, s);
    FillReaches(h, code, 6, draw.filler, t0);
    var t1 := Bump(h, 6, draw.filler, t0);
    ReachesTrans(h, code, s, t0, t1);
    StillReady(h, s, t1, s.at + 1);
    TargetReady(h, t1, s.at + 1);
    if h.taken(s.visits) {
      UnderRuns(h, code, t1, s.at + 1);
      var b := Branched(h, t1).(at := s.at + 1);
      ReachesTrans(h, code, s, t1, b);
      FillReaches(h, code, 3, f1, b);
      var t2 := Bump(h, 3, f1, b);
      ReachesTrans(h, code, s, b, t2);
      JumpRuns(h, code, 2 + draw.filler, t2);
      ReachesTrans(h, code, s, t2, Around(h, draw, s));
    } else {
      UnderRuns(h, code, t1, t1.at + 1);
      ReachesTrans(h, code, s, t1, Around(h, draw, s));
    }
  }

  lemma StillReady(h: Host, s: State, t: State, target: int)
    requires Ready(h, s, target) && t.lr == s.lr && t.ctr == s.ctr
    ensures Ready(h, t, target)
  {
  }

  // ---------------------------------------------------------------- setup

  function AfterConditions(h: Host, draw: Draw, s: State): State
    requires WordSize(h.modulus)
  {
    s.(at := s.at + |Conditions(h.kind, draw)|, regs := Set(s.regs, 5, MovRiValue(h.modulus, draw.cr)),
       ctr := if h.kind.ToCtr? then s.ctr else MovRiValue(h.modulus, draw.ctr - 1),
       cr := MovRiValue(h.modulus, draw.cr) % M32)
  }

  lemma ConditionsRun(h: Host, draw: Draw, s: State)
    requires WordSize(h.modulus) && 5 < |s.regs|
    ensures ExecAll(h, Conditions(h.kind, draw), s) == AfterConditions(h, draw, s)
    ensures AllStraight(Conditions(h.kind, draw))
  {
    hide ExecAll, MovRi, MovRiValue;
    MovRiStraight(5, draw.ctr - 1);
    MovRiStraight(5, draw.cr);
    var first := if h.kind.ToCtr? then [] else MovRi(5, draw.ctr - 1) + [Mt(Ctr, 5)];
    var s1 := ExecAll(h, first, s);
    if h.kind.ToCtr? {
      ExecNothing(h, s);
    } else {
      MovThen(h, draw.ctr - 1, Mt(Ctr, 5), s);
    }
    var second := MovRi(5, draw.cr) + [Mtcrf(5)];
    assert Conditions(h.kind, draw) == first + second;
    ExecAppend(h, first, second, s);
    MovThen(h, draw.cr, Mtcrf(5), s1);
  }

  lemma ExecNothing(h: Host, s: State)
    requires h.modulus > 0
    ensures ExecAll(h, [], s) == s
  {
  }

  /** A constant into r5, and an instruction that uses it. */
  lemma MovThen(h: Host, imm: int, insn: Insn, s: State)
    requires WordSize(h.modulus) && (insn == Mt(Ctr, 5) || insn == Mtcrf(5)) && 5 < |s.regs|
    ensures ExecAll(h, MovRi(5, imm) + [insn], s) ==
      s.(at := s.at + |MovRi(5, imm)| + 1, regs := Set(s.regs, 5, MovRiValue(h.modulus, imm)),
         ctr := if insn.Mt? then MovRiValue(h.modulus, imm) else s.ctr,
         cr := if insn.Mt? then s.cr else MovRiValue(h.modulus, imm) % M32)
  {
    hide ExecAll, MovRi, MovRiValue;
    MovRiRuns(h, 5, imm, s);
    ExecAppend(h, MovRi(5, imm), [insn], s);
    ExecOne(h, insn, ExecAll(h, MovRi(5, imm), s));
  }

  /** The cell a taken branch goes to, for a lead that starts at cell `start`. */
  function TargetCell(bd: int, start: int): int { if bd < 0 then start + 1 else start + bd }

  function AfterTarget(h: Host, s: State): State {
    var t := AddressOf(h, TargetCell(h.bd, s.at + 4));
    s.(at := s.at + 4, regs := Set(s.regs, 5, t),
       lr := if h.kind.ToLr? then t else AddressOf(h, s.at + 1), ctr := if h.kind.ToLr? then s.ctr else t)
  }

  lemma TargetRuns(h: Host, s: State)
    requires WordSize(h.modulus) && !h.kind.Direct? && 5 < |s.regs| && s.at >= 0
    requires AddressOf(h, TargetCell(h.bd, s.at + 4)) < h.modulus && 12 + 4 * h.bd < 0x8000
    ensures ExecAll(h, Target(h.kind, h.bd), s) == AfterTarget(h, s)
    ensures AllStraight(Target(h.kind, h.bd))
  {
    hide ExecAll, Exec, Signed16;
    var imm := if h.bd < 0 then 16 else 12 + 4 * h.bd;
    var first, second := [CallNext] + [Mf(5, Lr)], [Addi(5, 5, imm)] + [Mt(TargetSpr(h.kind), 5)];
    assert Target(h.kind, h.bd) == first + second;
    ExecAppend(h, first, second, s);
    WhereAmI(h, s);
    AddAndMove(h, imm, TargetSpr(h.kind), ExecAll(h, first, s));
    TargetValue(h, s.at, imm);
  }

  /** `bl` to the next instruction and `mflr` give the place of the code. */
  lemma WhereAmI(h: Host, s: State)
    requires h.modulus > 0 && 5 < |s.regs|
    ensures var here := AddressOf(h, s.at + 1);
      ExecAll(h, [CallNext] + [Mf(5, Lr)], s) == s.(at := s.at + 2, lr := here, regs := Set(s.regs, 5, here))
  {
    hide ExecAll;
    ExecAppend(h, [CallNext], [Mf(5, Lr)], s);
    ExecOne(h, CallNext, s);
    ExecOne(h, Mf(5, Lr), Exec(h, CallNext, s));
  }

  lemma AddAndMove(h: Host, imm: int, spr: Spr, s: State)
    requires h.modulus > 0 && 5 < |s.regs|
    ensures var v := (Get(s.regs, 5) + Signed16(imm)) % h.modulus;
      ExecAll(h, [Addi(5, 5, imm)] + [Mt(spr, 5)], s) ==
      s.(at := s.at + 2, regs := Set(s.regs, 5, v),
         lr := if spr.Lr? then v else s.lr, ctr := if spr.Lr? then s.ctr else v)
  {
    hide ExecAll, Signed16;
    ExecAppend(h, [Addi(5, 5, imm)], [Mt(spr, 5)], s);
    ExecOne(h, Addi(5, 5, imm), s);
    ExecOne(h, Mt(spr, 5), Exec(h, Addi(5, 5, imm), s));
  }

  lemma TargetValue(h: Host, at: int, imm: int)
    requires h.modulus > 0 && at >= 0 && imm == if h.bd < 0 then 16 else 12 + 4 * h.bd
    requires AddressOf(h, TargetCell(h.bd, at + 4)) < h.modulus && imm < 0x8000
    ensures (AddressOf(h, at + 1) + Signed16(imm)) % h.modulus == AddressOf(h, TargetCell(h.bd, at + 4))
  {
    var t := AddressOf(h, TargetCell(h.bd, at + 4));
    assert Signed16(imm) == imm;
    RemainderUnique(t, h.modulus, 0, t);
  }

  function AfterSetup(h: Host, draw: Draw, s: State): State
    requires WordSize(h.modulus)
  {
    var s1 := if h.kind.Direct? && h.kind.size >= 24 then s else AfterConditions(h, draw, s);
    if h.kind.Direct? then s1 else AfterTarget(h, s1)
  }

  lemma SetupRuns(h: Host, draw: Draw, s: State)
    requires Possible(h, draw) && 5 < |s.regs| && s.at == 0
    ensures var t := AfterSetup(h, draw, s);
      && Reaches(h, Harness(h.kind, h.bd, draw), s, t)
      && t.at == |Setup(h.kind, h.bd, draw)| && Ready(h, t, TargetCell(h.bd, t.at))
  {
    hide ExecAll, Conditions, Target, Reaches, Harness, At, MovRiValue;
    Layout(h.kind, h.bd, draw);
    LeadSize(h.bd, draw.filler);
    var first := if h.kind.Direct? && h.kind.size >= 24 then [] else Conditions(h.kind, draw);
    var second := if h.kind.Direct? then [] else Target(h.kind, h.bd);
    ExecNothing(h, s);
    ConditionsRun(h, draw, s);
    var s1 := if h.kind.Direct? && h.kind.size >= 24 then s else AfterConditions(h, draw, s);
    ExecNothing(h, s1);
    ExecAppend(h, first, second, s);
    assert |second| == if h.kind.Direct? then 0 else 4 by { TargetLength(h.kind, h.bd); }
    if !h.kind.Direct? {
      TargetRuns(h, s1);
    }
    assert AllStraight(first + second);
    PieceRuns(h, Harness(h.kind, h.bd, draw), first + second, s);
  }

  lemma TargetLength(kind: Kind, bd: int)
    ensures |Target(kind, bd)| == 4
  {
  }

  lemma LeadSize(bd: int, filler2: nat)
    ensures bd < 0 ==> |Lead(bd, filler2)| == 2 + Filler1(bd, filler2) + filler2
    ensures bd >= 0 ==> Lead(bd, filler2) == []
  {
    hide Fill;
    FillLength(3, Filler1(bd, filler2));
    FillLength(6, filler2);
  }

  // ---------------------------------------------------------------- after the branch

  /** The target register less the target address. */
  function Difference(h: Host, s: State): int
    requires h.modulus > 0
  {
    ((if h.kind.ToCtr? then s.ctr else s.lr) - Get(s.regs, 5)) % h.modulus
  }

  function AfterSettle(h: Host, draw: Draw, s: State): State
    requires WordSize(h.modulus)
  {
    if h.kind.Direct? then s
    else
      s.(at := s.at + |Settle(h.kind, draw)|,
         regs := Set(Set(s.regs, 8, Difference(h, s)), 5, MovRiValue(h.modulus, draw.last)),
         ctr := if h.kind.ToCtr? then Difference(h, s) else s.ctr)
  }

  lemma SettleRuns(h: Host, draw: Draw, s: State)
    requires WordSize(h.modulus) && |s.regs| == 32
    ensures ExecAll(h, Settle(h.kind, draw), s) == AfterSettle(h, draw, s)
    ensures AllStraight(Settle(h.kind, draw))
  {
    hide ExecAll, MovRi, MovRiValue;
    MovRiStraight(5, draw.last);
    if h.kind.Direct? {
      ExecNothing(h, s);
    } else {
      var spr := TargetSpr(h.kind);
      var mf, sub := Mf(8, spr), Subf(8, 5, 8);
      var more := if h.kind.ToCtr? then [Mt(Ctr, 8)] else [];
      var s1 := Exec(h, mf, s);
      var s2 := Exec(h, sub, s1);
      var s3 := ExecAll(h, more, s2);
      assert Settle(h.kind, draw) == [mf] + [sub] + (more + MovRi(5, draw.last));
      ExecAppend(h, [mf] + [sub], more + MovRi(5, draw.last), s);
      ExecAppend(h, [mf], [sub], s);
      ExecOne(h, mf, s);
      ExecOne(h, sub, s1);
      ExecAppend(h, more, MovRi(5, draw.last), s2);
      ExecNothing(h, s2);
      ExecOne(h, Mt(Ctr, 8), s2);
      MovRiRuns(h, 5, draw.last, s3);
      assert s2.regs == Set(s.regs, 8, Difference(h, s));
    }
  }

  // ---------------------------------------------------------------- the whole harness

  /** The state in which a run leaves the harness. */
  function End(h: Host, draw: Draw, s: State): State
    requires WordSize(h.modulus)
  {
    AfterSettle(h, draw, Bump(h, 4, draw.extra, Around(h, draw, AfterSetup(h, draw, s))))
  }

  lemma AroundKeeps(h: Host, draw: Draw, s: State)
    requires h.modulus > 0
    ensures |Around(h, draw, s).regs| == |s.regs|
    ensures Around(h, draw, s).visits == s.visits + if Skipped(h.bd, draw) then 0 else 1
  {
  }

  lemma AroundRuns(h: Host, draw: Draw, s: State)
    requires Possible(h, draw) && h.bd != 0
    requires s.at == |Setup(h.kind, h.bd, draw)| && Ready(h, s, TargetCell(h.bd, s.at))
    ensures Reaches(h, Harness(h.kind, h.bd, draw), s, Around(h, draw, s))
    ensures Around(h, draw, s).at == BranchAt(h.kind, h.bd, draw) + 1 + Ahead(h.bd)
  {
    hide Reaches, Harness, At, Setup, Lead, Ready, Settle, Fill;
    Layout(h.kind, h.bd, draw);
    LeadSize(h.bd, draw.filler);
    var code := Harness(h.kind, h.bd, draw);
    if h.bd > 0 {
      ForwardRuns(h, code, draw, s);
    } else if Skipped(h.bd, draw) {
      SkipRuns(h, code, draw, s);
    } else {
      BackwardRuns(h, code, draw, s);
    }
  }

  /** For every displacement but 0, every draw, and every behaviour of the branch, control leaves
      the harness at its end; the branch has run once, or not at all if it was jumped over. */
  lemma HarnessRuns(h: Host, draw: Draw, s: State)
    requires Possible(h, draw) && h.bd != 0 && |s.regs| == 32 && s.at == 0
    ensures var t := End(h, draw, s);
      && Reaches(h, Harness(h.kind, h.bd, draw), s, t)
      && t.at == |Harness(h.kind, h.bd, draw)|
      && t.visits == s.visits + if Skipped(h.bd, draw) then 0 else 1
  {
    hide Reaches, Harness, At, Around, AfterSetup, ExecAll, Ready, Setup, Settle, Fill, Skipped;
    Layout(h.kind, h.bd, draw);
    var code := Harness(h.kind, h.bd, draw);
    SetupRuns(h, draw, s);
    SetupKeeps(h, draw, s);
    var s1 := AfterSetup(h, draw, s);
    AroundRuns(h, draw, s1);
    AroundKeeps(h, draw, s1);
    var s2 := Around(h, draw, s1);
    ReachesTrans(h, code, s, s1, s2);
    FillReaches(h, code, 4, draw.extra, s2);
    var s3 := Bump(h, 4, draw.extra, s2);
    ReachesTrans(h, code, s, s2, s3);
    SettleRuns(h, draw, s3);
    PieceRuns(h, code, Settle(h.kind, draw), s3);
    ReachesTrans(h, code, s, s3, End(h, draw, s));
  }

  /** What the setup leaves: nothing for an unconditional branch; otherwise the drawn condition
      register, the drawn count less one unless the count register is the target, and the target. */
  lemma SetupMeans(h: Host, draw: Draw, s: State)
    requires WordSize(h.modulus)
    ensures var t := AfterSetup(h, draw, s);
      if h.kind.Direct? && h.kind.size >= 24 then t == s
      else
        && t.cr == draw.cr % M32
        && (!h.kind.ToCtr? ==> t.ctr % M32 == (draw.ctr - 1) % M32)
        && (h.kind.Direct? ==> t.lr == s.lr)
  {
    hide MovRiValue, Conditions, Set;
    MovRiExact(draw.cr);
    MovRiExact(draw.ctr - 1);
    LowTwice(draw.cr);
    LowTwice(draw.ctr - 1);
  }

  lemma LowTwice(x: int)
    ensures x % M32 % M32 == x % M32
  {
  }

  /** Every run whose branch is not jumped over comes to the branch with the drawn conditions, and a
      taken branch goes back to the first cell behind the leading jump, or forward over its fillers. */
  lemma BranchMeets(h: Host, draw: Draw, s: State)
    requires Possible(h, draw) && h.bd != 0 && |s.regs| == 32 && s.at == 0
    requires h.bd < 0 ==> draw.filler < -h.bd
    ensures exists u: State ::
      && Reaches(h, Harness(h.kind, h.bd, draw), s, u)
      && u.at == BranchAt(h.kind, h.bd, draw) && u.visits == s.visits
      && Harness(h.kind, h.bd, draw)[u.at] == Under
      && TargetOf(h, u) == u.at + h.bd
      && (h.kind.Direct? && h.kind.size >= 24 ==> u.cr == s.cr && u.ctr == s.ctr)
      && (!h.kind.Direct? || h.kind.size < 24 ==>
            u.cr == draw.cr % M32 && (!h.kind.ToCtr? ==> u.ctr % M32 == (draw.ctr - 1) % M32))
  {
    hide Reaches, Harness, At, AfterSetup, ExecAll, Ready, Setup, Settle, Fill, Lead, TargetOf;
    Layout(h.kind, h.bd, draw);
    LeadSize(h.bd, draw.filler);
    SetupRuns(h, draw, s);
    SetupKeeps(h, draw, s);
    SetupMeans(h, draw, s);
    var code, s1 := Harness(h.kind, h.bd, draw), AfterSetup(h, draw, s);
    if h.bd > 0 {
      TargetReady(h, s1, s1.at + h.bd);
      UnderThere(code, s1.at);
    } else {
      var u := AtBranch(h, draw, s1);
      LeadLayout(code, s1.at, h.bd, draw.filler);
      var t0 := s1.(at := s1.at + 2 + Filler1(h.bd, draw.filler));
      JumpRuns(h, code, 1 - h.bd - draw.filler, s1);
      FillReaches(h, code, 6, draw.filler, t0);
      ReachesTrans(h, code, s1, t0, u);
      ReachesTrans(h, code, s, s1, u);
      StillReady(h, s1, u, s1.at + 1);
      TargetReady(h, u, s1.at + 1);
      UnderThere(code, u.at);
    }
  }

  lemma UnderThere(code: seq<Insn>, i: int)
    requires At(code, i, [Under])
    ensures 0 <= i < |code| && code[i] == Under
  {
    assert code[i + 0] == [Under][0];
  }

  function Raised(h: Host, v: int, n: nat): int
    requires h.modulus > 0
  {
    if n == 0 then v else (v + n) % h.modulus
  }

  /** The registers tell what happened: a forward branch that was not taken has raised r7 by its
      fillers, a backward branch that was taken r3 by the fillers at its target, a backward branch
      that ran r6 by the ones in front of it, and every run r4 by the extra ones. */
  lemma FillersTell(h: Host, draw: Draw, s: State)
    requires WordSize(h.modulus) && h.bd != 0 && |s.regs| == 32
    ensures var t := End(h, draw, s); var ran, taken := !Skipped(h.bd, draw), h.taken(s.visits);
      && |t.regs| == 32
      && t.regs[7] == Raised(h, s.regs[7], if h.bd > 0 && !taken then h.bd - 1 else 0)
      && t.regs[3] == Raised(h, s.regs[3], if h.bd < 0 && ran && taken then Filler1(h.bd, draw.filler) else 0)
      && t.regs[6] == Raised(h, s.regs[6], if h.bd < 0 && ran then draw.filler else 0)
      && t.regs[4] == Raised(h, s.regs[4], draw.extra)
  {
    hide MovRiValue, Conditions, Settle, Difference, Skipped, Filler1, AfterSetup, AfterSettle, Around;
    var s1 := AfterSetup(h, draw, s);
    SetupOnly(h, draw, s);
    AroundTells(h, draw, s1);
    SettleOnly(h, draw, Bump(h, 4, draw.extra, Around(h, draw, s1)));
  }

  lemma SetupOnly(h: Host, draw: Draw, s: State)
    requires WordSize(h.modulus) && |s.regs| == 32
    ensures var t := AfterSetup(h, draw, s);
      |t.regs| == 32 && t.visits == s.visits && forall i :: 0 <= i < 32 && i != 5 ==> t.regs[i] == s.regs[i]
  {
    hide MovRiValue, Conditions;
  }

  lemma SettleOnly(h: Host, draw: Draw, s: State)
    requires WordSize(h.modulus) && |s.regs| == 32
    ensures var t := AfterSettle(h, draw, s);
      |t.regs| == 32 && forall i :: 0 <= i < 32 && i != 5 && i != 8 ==> t.regs[i] == s.regs[i]
  {
    hide MovRiValue, Settle, Difference;
  }

  lemma AroundTells(h: Host, draw: Draw, s: State)
    requires h.modulus > 0 && h.bd != 0 && |s.regs| == 32
    ensures var t := Around(h, draw, s); var ran, taken := !Skipped(h.bd, draw), h.taken(s.visits);
      && |t.regs| == 32 && t.regs[4] == s.regs[4]
      && t.regs[7] == Raised(h, s.regs[7], if h.bd > 0 && !taken then h.bd - 1 else 0)
      && t.regs[3] == Raised(h, s.regs[3], if h.bd < 0 && ran && taken then Filler1(h.bd, draw.filler) else 0)
      && t.regs[6] == Raised(h, s.regs[6], if h.bd < 0 && ran then draw.filler else 0)
  {
    hide Filler1, Skipped;
  }

  lemma SetupKeeps(h: Host, draw: Draw, s: State)
    requires WordSize(h.modulus)
    ensures AfterSetup(h, draw, s).visits == s.visits && |AfterSetup(h, draw, s).regs| == |s.regs|
  {
  }

  // ---------------------------------------------------------------- location independence

  /** The same but for the place: registers that hold addresses are at the same distance from
      the code.  Those are `lr`, and for a register branch `r5` and the count register. */
  ghost predicate Alike(h: Host, s: State, g: Host, t: State) {
    && s.at == t.at && s.visits == t.visits && s.cr == t.cr && |s.regs| == |t.regs| == 32
    && (forall i :: 0 <= i < 32 && i != 5 ==> s.regs[i] == t.regs[i])
    && s.lr - h.load == t.lr - g.load
    && (if h.kind.Direct? then s.regs[5] == t.regs[5] else s.regs[5] - h.load == t.regs[5] - g.load)
    && (if h.kind.ToCtr? then s.ctr - h.load == t.ctr - g.load else s.ctr == t.ctr)
  }

  /** The same to risu, which compares `lr` relative to the program counter. */
  ghost predicate Same(h: Host, s: State, g: Host, t: State) {
    && s.at == t.at && s.visits == t.visits && s.regs == t.regs
    && s.ctr == t.ctr && s.cr == t.cr && s.lr - h.load == t.lr - g.load
  }

  ghost predicate SameBranch(h: Host, g: Host) { g == h.(load := g.load) }

  lemma SetupAlike(h: Host, g: Host, draw: Draw, s: State, t: State)
    requires SameBranch(h, g) && WordSize(h.modulus) && Same(h, s, g, t) && |s.regs| == 32
    ensures Alike(h, AfterSetup(h, draw, s), g, AfterSetup(g, draw, t))
  {
    hide MovRiValue, Conditions;
  }

  lemma BumpAlike(h: Host, g: Host, i: nat, n: nat, s: State, t: State)
    requires SameBranch(h, g) && h.modulus > 0 && Alike(h, s, g, t) && i != 5
    ensures Alike(h, Bump(h, i, n, s), g, Bump(g, i, n, t))
  {
  }

  lemma MoveAlike(h: Host, g: Host, at: int, s: State, t: State)
    requires Alike(h, s, g, t)
    ensures Alike(h, s.(at := at), g, t.(at := at))
  {
  }

  lemma BranchedAlike(h: Host, g: Host, s: State, t: State)
    requires SameBranch(h, g) && h.modulus > 0 && Alike(h, s, g, t)
    requires Counter(h, s) && Counter(g, t)
    ensures Alike(h, Branched(h, s), g, Branched(g, t))
  {
    if h.kind.ToCtr? {
      RemainderUnique(s.ctr - 1, h.modulus, 0, s.ctr - 1);
      RemainderUnique(t.ctr - 1, h.modulus, 0, t.ctr - 1);
    }
  }

  lemma BumpKeeps(h: Host, i: nat, n: nat, s: State)
    requires h.modulus > 0
    ensures var t := Bump(h, i, n, s); t.ctr == s.ctr && t.visits == s.visits
  {
  }

  ghost predicate Counter(h: Host, s: State) { h.kind.ToCtr? ==> 0 < s.ctr < h.modulus }

  lemma ForwardAlike(h: Host, g: Host, draw: Draw, s: State, t: State)
    requires SameBranch(h, g) && h.modulus > 0 && Alike(h, s, g, t) && Counter(h, s) && Counter(g, t) && h.bd > 0
    ensures Alike(h, Around(h, draw, s), g, Around(g, draw, t))
  {
    SameFields(h, s, g, t);
    BranchedAlike(h, g, s, t);
    hide Alike, Branched, Bump;
    var b, c := Branched(h, s), Branched(g, t);
    MoveAlike(h, g, s.at + h.bd, b, c);
    MoveAlike(h, g, s.at + 1, b, c);
    BumpAlike(h, g, 7, h.bd - 1, b.(at := s.at + 1), c.(at := s.at + 1));
  }

  lemma BackAlike(h: Host, g: Host, f1: nat, back: int, out: int, b: State, c: State)
    requires SameBranch(h, g) && h.modulus > 0 && Alike(h, b, g, c)
    ensures Alike(h, Back(h, f1, back, out, b), g, Back(g, f1, back, out, c))
  {
    SameFields(h, b, g, c);
    hide Alike, Bump;
    MoveAlike(h, g, back, b, c);
    MoveAlike(h, g, out, b, c);
    BumpAlike(h, g, 3, f1, b.(at := back), c.(at := back));
    MoveAlike(h, g, out, Bump(h, 3, f1, b.(at := back)), Bump(g, 3, f1, c.(at := back)));
  }

  lemma AtBranchAlike(h: Host, g: Host, draw: Draw, s: State, t: State)
    requires SameBranch(h, g) && h.modulus > 0 && Alike(h, s, g, t) && Counter(h, s) && Counter(g, t)
    ensures var s1, t1 := AtBranch(h, draw, s), AtBranch(g, draw, t);
      Alike(h, s1, g, t1) && Counter(h, s1) && Counter(g, t1)
  {
    SameFields(h, s, g, t);
    hide Alike, Bump;
    var at := s.at + 2 + Filler1(h.bd, draw.filler);
    MoveAlike(h, g, at, s, t);
    BumpAlike(h, g, 6, draw.filler, s.(at := at), t.(at := at));
    BumpKeeps(h, 6, draw.filler, s.(at := at));
    BumpKeeps(g, 6, draw.filler, t.(at := at));
  }

  lemma AroundBack(h: Host, draw: Draw, s: State)
    requires h.modulus > 0 && h.bd <= 0 && !Skipped(h.bd, draw)
    ensures var f1 := Filler1(h.bd, draw.filler);
      Around(h, draw, s) == Back(h, f1, s.at + 1, s.at + 2 + f1 + draw.filler + 1, Branched(h, AtBranch(h, draw, s)))
  {
    hide Branched, Back, Filler1, AtBranch;
  }

  lemma BackwardAlike(h: Host, g: Host, draw: Draw, s: State, t: State)
    requires SameBranch(h, g) && h.modulus > 0 && Alike(h, s, g, t) && Counter(h, s) && Counter(g, t)
    requires h.bd <= 0 && !Skipped(h.bd, draw)
    ensures Alike(h, Around(h, draw, s), g, Around(g, draw, t))
  {
    hide Alike, Branched, Back, Filler1, AtBranch, Counter, Around;
    SameFields(h, s, g, t);
    AtBranchAlike(h, g, draw, s, t);
    BranchedAlike(h, g, AtBranch(h, draw, s), AtBranch(g, draw, t));
    var b, c := Branched(h, AtBranch(h, draw, s)), Branched(g, AtBranch(g, draw, t));
    AroundBack(h, draw, s);
    AroundBack(g, draw, t);
    var f1 := Filler1(h.bd, draw.filler);
    BackAlike(h, g, f1, s.at + 1, s.at + 2 + f1 + draw.filler + 1, b, c);
  }

  lemma AroundAlike(h: Host, g: Host, draw: Draw, s: State, t: State)
    requires SameBranch(h, g) && h.modulus > 0 && Alike(h, s, g, t) && Counter(h, s) && Counter(g, t)
    ensures Alike(h, Around(h, draw, s), g, Around(g, draw, t))
  {
    if h.bd > 0 {
      ForwardAlike(h, g, draw, s, t);
    } else if !Skipped(h.bd, draw) {
      BackwardAlike(h, g, draw, s, t);
    }
  }

  lemma SameFields(h: Host, s: State, g: Host, t: State)
    requires Alike(h, s, g, t)
    ensures s.at == t.at && s.visits == t.visits
  {
  }

  lemma SettleSame(h: Host, g: Host, draw: Draw, s: State, t: State)
    requires SameBranch(h, g) && WordSize(h.modulus) && Alike(h, s, g, t)
    ensures Same(h, AfterSettle(h, draw, s), g, AfterSettle(g, draw, t))
  {
    hide MovRiValue, Settle;
    if h.kind.Direct? {
      assert s.regs == t.regs;
    } else {
      assert Difference(h, s) == Difference(g, t);
    }
  }

  /** Two runs with the code in different places leave the same registers. */
  lemma HarnessIsRelative(h: Host, g: Host, draw: Draw, s: State, t: State)
    requires SameBranch(h, g) && Possible(h, draw) && Possible(g, draw) && h.bd != 0
    requires Same(h, s, g, t) && |s.regs| == 32 && s.at == 0
    ensures Same(h, End(h, draw, s), g, End(g, draw, t))
  {
    hide Same, AfterSetup, Around, AfterSettle, Alike, Reaches, Harness;
    SameStart(h, s, g, t);
    SetupAlike(h, g, draw, s, t);
    SetupCounter(h, draw, s);
    SetupCounter(g, draw, t);
    var s1, t1 := AfterSetup(h, draw, s), AfterSetup(g, draw, t);
    AroundAlike(h, g, draw, s1, t1);
    var s2, t2 := Around(h, draw, s1), Around(g, draw, t1);
    BumpAlike(h, g, 4, draw.extra, s2, t2);
    SettleSame(h, g, draw, Bump(h, 4, draw.extra, s2), Bump(g, 4, draw.extra, t2));
  }

  lemma SameStart(h: Host, s: State, g: Host, t: State)
    requires Same(h, s, g, t)
    ensures s.at == t.at && |s.regs| == |t.regs|
  {
  }

  lemma SetupCounter(h: Host, draw: Draw, s: State)
    requires Possible(h, draw) && |s.regs| == 32 && s.at == 0 && h.bd != 0
    ensures Counter(h, AfterSetup(h, draw, s))
  {
    hide Reaches, Harness, At, Setup, Lead, Settle, Fill, Target, Conditions;
    Layout(h.kind, h.bd, draw);
    SetupRuns(h, draw, s);
    LeadSize(h.bd, draw.filler);
  }

  // ---------------------------------------------------------------- displacement zero

  ghost predicate GetsOut(h: Host, draw: Draw, s: State)
    requires h.modulus > 0
  {
    exists t :: Reaches(h, Harness(h.kind, h.bd, draw), s, t) && t.at == |Harness(h.kind, h.bd, draw)|
  }

  /** Control gets out with the given count of visits. */
  ghost predicate LeavesAt(h: Host, draw: Draw, s: State, visits: nat)
    requires h.modulus > 0
  {
    var code := Harness(h.kind, h.bd, draw);
    exists t :: Reaches(h, code, s, t) && t.at == |code| && t.visits == visits
  }

  /** A taken branch at cell `u` with displacement 0 comes back.  Counting takes the target one
      cell down, to the instruction that loads the counter again. */
  ghost predicate Circles(h: Host, code: seq<Insn>, u: int, s: State) {
    && At(code, u, [Under])
    && match h.kind
       case Direct(_) => s.at == u && h.bd == 0
       case ToLr => s.at == u && s.lr == AddressOf(h, u) && !h.links
       case ToCtr =>
         && At(code, u - 1, [Mt(Ctr, 5)]) && Get(s.regs, 5) == AddressOf(h, u) && 8 <= AddressOf(h, u) < h.modulus
         && (s.at == u - 1 || (s.at == u && AddressOf(h, u) - 1 <= s.ctr <= AddressOf(h, u)))
  }

  lemma CircleOn(h: Host, code: seq<Insn>, u: int, s: State)
    requires h.modulus > 0 && (forall v :: h.taken(v)) && Circles(h, code, u, s)
    ensures Step(h, code, s).Some? && Circles(h, code, u, Step(h, code, s).value)
  {
    assert code[u + 0] == [Under][0];
    if h.kind.ToCtr? {
      assert code[u - 1 + 0] == [Mt(Ctr, 5)][0];
      if s.at == u {
        RemainderUnique(s.ctr - 1, h.modulus, 0, s.ctr - 1);
      }
    }
  }

  lemma {:induction false} CirclesForever(h: Host, code: seq<Insn>, u: int, s: State, n: nat)
    requires h.modulus > 0 && (forall v :: h.taken(v)) && Circles(h, code, u, s)
    ensures var t := Steps(h, code, s, n); t.Some? && Circles(h, code, u, t.value)
    decreases n
  {
    hide Step, Circles;
    if n > 0 {
      CircleOn(h, code, u, s);
      CirclesForever(h, code, u, Step(h, code, s).value, n - 1);
    }
  }

  lemma SetupCircles(h: Host, draw: Draw, s: State)
    requires Possible(h, draw) && h.bd == 0 && !(h.kind.ToLr? && h.links) && |s.regs| == 32 && s.at == 0
    ensures var u := AfterSetup(h, draw, s); Circles(h, Harness(h.kind, h.bd, draw), u.at, u)
  {
    hide Reaches, Harness, At, Settle, Fill, Lead, MovRiValue, Conditions;
    var code, u := Harness(h.kind, h.bd, draw), AfterSetup(h, draw, s);
    Layout(h.kind, h.bd, draw);
    LeadSize(h.bd, draw.filler);
    SetupRuns(h, draw, s);
    if h.kind.ToCtr? {
      var setup := Setup(h.kind, h.bd, draw);
      var n := |setup| - 1;
      assert setup == setup[..n] + [Mt(Ctr, 5)] + [];
      AtInside(code, 0, setup, setup[..n], [Mt(Ctr, 5)], []);
    }
  }

  lemma ZeroStays(h: Host, draw: Draw, s: State)
    requires Possible(h, draw) && h.bd == 0 && !(h.kind.ToLr? && h.links) && (forall v :: h.taken(v))
    requires |s.regs| == 32 && s.at == 0
    ensures !GetsOut(h, draw, s)
  {
    hide Harness, Setup, Settle, Fill, AfterSetup, Step, Ready, Lead, Circles, Steps;
    var code := Harness(h.kind, h.bd, draw);
    SetupRuns(h, draw, s);
    SetupCircles(h, draw, s);
    var u := AfterSetup(h, draw, s);
    var k: nat :| Steps(h, code, s, k) == Some(u);
    forall t, n: nat | Steps(h, code, s, n) == Some(t) ensures t.at != |code| {
      if n >= k {
        StepsSum(h, code, s, k, n - k);
        CirclesForever(h, code, u.at, u, n - k);
        CirclesInside(h, code, u.at, t);
      } else {
        StepsSum(h, code, s, n, k - n);
        OutsideStops(h, code, t, k - n);
      }
    }
  }

  lemma CirclesInside(h: Host, code: seq<Insn>, u: int, t: State)
    requires Circles(h, code, u, t)
    ensures t.at < |code|
  {
  }

  lemma OutsideStops(h: Host, code: seq<Insn>, t: State, n: nat)
    requires h.modulus > 0 && n > 0
    ensures t.at == |code| ==> Steps(h, code, t, n).None?
  {
  }

  /** From the branch to the end of the harness, once control is past it. */
  lemma PastBranch(h: Host, draw: Draw, s: State, v: State)
    requires Possible(h, draw) && |v.regs| == 32 && h.bd <= 0
    requires v.at == BranchAt(h.kind, h.bd, draw) + 1 && Reaches(h, Harness(h.kind, h.bd, draw), s, v)
    ensures LeavesAt(h, draw, s, v.visits)
  {
    hide Reaches, Harness, At, ExecAll, Setup, Settle, Fill, Lead;
    var code := Harness(h.kind, h.bd, draw);
    Layout(h.kind, h.bd, draw);
    FillReaches(h, code, 4, draw.extra, v);
    var v1 := Bump(h, 4, draw.extra, v);
    ReachesTrans(h, code, s, v, v1);
    SettleRuns(h, draw, v1);
    PieceRuns(h, code, Settle(h.kind, draw), v1);
    ReachesTrans(h, code, s, v1, AfterSettle(h, draw, v1));
  }

  /** With displacement 0 a linking branch to the link register does leave: the first visit makes
      the link register point past the branch, so a second visit ends it. */
  lemma LinkedZeroLeaves(h: Host, draw: Draw, s: State)
    requires Possible(h, draw) && h.bd == 0 && h.kind.ToLr? && h.links && |s.regs| == 32 && s.at == 0
    ensures LeavesAt(h, draw, s, s.visits + if h.taken(s.visits) then 2 else 1)
  {
    hide Reaches, Harness, At, Setup, Settle, Fill, Lead;
    var code, u := Harness(h.kind, h.bd, draw), AfterSetup(h, draw, s);
    Layout(h.kind, h.bd, draw);
    LeadSize(h.bd, draw.filler);
    SetupRuns(h, draw, s);
    SetupKeeps(h, draw, s);
    hide AfterSetup;
    if h.taken(s.visits) {
      var v := Branched(h, u).(at := u.at);
      UnderRuns(h, code, u, u.at);
      ReachesTrans(h, code, s, u, v);
      var x := Branched(h, v).(at := v.at + 1);
      UnderRuns(h, code, v, v.at + 1);
      ReachesTrans(h, code, s, v, x);
      PastBranch(h, draw, s, x);
    } else {
      var v := Branched(h, u).(at := u.at + 1);
      UnderRuns(h, code, u, u.at + 1);
      ReachesTrans(h, code, s, u, v);
      PastBranch(h, draw, s, v);
    }
  }

  /** Control gets out whatever the branch does exactly when the displacement is not 0 or the
      branch goes to the link register and links. */
  lemma OnlyZeroLoops(h: Host, draw: Draw, s: State)
    requires Possible(h, draw) && |s.regs| == 32 && s.at == 0
    ensures (forall f: nat -> bool :: GetsOut(h.(taken := f), draw, s)) <==> h.bd != 0 || (h.kind.ToLr? && h.links)
  {
    hide Harness, Reaches, End, GetsOut;
    if h.bd == 0 && !(h.kind.ToLr? && h.links) {
      var g := h.(taken := (v: nat) => true);
      ZeroStays(g, draw, s);
    } else {
      forall f: nat -> bool ensures GetsOut(h.(taken := f), draw, s) {
        Leaves(h.(taken := f), draw, s);
      }
    }
  }

  lemma Leaves(h: Host, draw: Draw, s: State)
    requires Possible(h, draw) && (h.bd != 0 || (h.kind.ToLr? && h.links)) && |s.regs| == 32 && s.at == 0
    ensures GetsOut(h, draw, s)
  {
    hide Harness, Reaches, End, Possible;
    if h.bd == 0 {
      LinkedZeroLeaves(h, draw, s);
    } else {
      HarnessRuns(h, draw, s);
    }
  }
}
