/** The PowerPC branch harness: code around a branch under test that makes it run once and lets
    control out again, whether the branch is taken or not.
 */
module BranchHarness {
  import opened Wrappers
  import opened Modular

  datatype Spr = Lr | Ctr

  datatype Insn =
    | Addi(rd: nat, ra: nat, imm: int)
    | Li(rd: nat, imm: int)
    | Lis(rd: nat, imm: int)
    | Ori(rd: nat, imm: int)                 // after Lis, which clears the low half
    | Subf(rd: nat, ra: nat, rb: nat)        // rd := rb - ra
    | Mt(spr: Spr, rs: nat)
    | Mf(rd: nat, spr: Spr)
    | Mtcrf(rs: nat)
    | CallNext                               // bl to the next instruction
    | Jump(words: int)
    | Under                                  // the branch under test

  /** The branch under test: by a displacement field of `size` bits, or to a register. */
  datatype Kind = Direct(size: nat) | ToCtr | ToLr

  // ---------------------------------------------------------------- the emitted code

  const M16 := 0x1_0000
  const M32 := 0x1_0000_0000
  const M64 := 0x1_0000_0000_0000_0000

  /** A 16-bit field, sign extended. */
  function Signed16(imm: int): int {
    var x := imm % M16;
    if x >= 0x8000 then x - M16 else x
  }

  /** The upper 17 bits are not all the same. */
  predicate Wide(imm: int) {
    var top := imm % M32 / 0x8000;
    top != 0 && top != 0x1_FFFF
  }

  /** `write_mov_ri` */
  function MovRi(rd: nat, imm: int): seq<Insn> {
    if Wide(imm) then
      [Lis(rd, imm / M16 % M16)] + if imm % M16 != 0 then [Ori(rd, imm % M16)] else []
    else [Li(rd, imm % M16)]
  }

  function Fill(r: nat, n: nat): seq<Insn> { if n == 0 then [] else [Addi(r, r, 1)] + Fill(r, n - 1) }

  /** The random values the harness draws. */
  datatype Draw = Draw(ctr: nat, cr: nat, filler: nat, extra: nat, last: nat)

  /** The condition register, and the counter unless it holds the target. */
  function Conditions(kind: Kind, draw: Draw): seq<Insn> {
    (if kind.ToCtr? then [] else MovRi(5, draw.ctr - 1) + [Mt(Ctr, 5)]) + MovRi(5, draw.cr) + [Mtcrf(5)]
  }

  function TargetSpr(kind: Kind): Spr { if kind.ToCtr? then Ctr else Lr }

  /** The address of the target, relative to the code itself. */
  function Target(kind: Kind, bd: int): seq<Insn> {
    [CallNext, Mf(5, Lr), Addi(5, 5, if bd < 0 then 16 else 12 + 4 * bd), Mt(TargetSpr(kind), 5)]
  }

  function Setup(kind: Kind, bd: int, draw: Draw): seq<Insn> {
    (if kind.Direct? && kind.size >= 24 then [] else Conditions(kind, draw)) +
    if kind.Direct? then [] else Target(kind, bd)
  }

  /** How many fillers go before the jump that leaves a backward branch. */
  function Filler1(bd: int, filler2: nat): nat {
    if bd + 1 + filler2 < 0 then -(bd + 1 + filler2) else 0
  }

  /** What lies between the setup and the branch. */
  function Lead(bd: int, filler2: nat): seq<Insn> {
    if bd < 0 then
      [Jump(1 - bd - filler2)] + Fill(3, Filler1(bd, filler2)) + [Jump(2 + filler2)] + Fill(6, filler2)
    else []
  }

  /** `branch_pre` */
  function Pre(kind: Kind, bd: int, draw: Draw): seq<Insn> { Setup(kind, bd, draw) + Lead(bd, draw.filler) }

  /** The registers made comparable again. */
  function Settle(kind: Kind, draw: Draw): seq<Insn> {
    match kind
    case Direct(_) => []
    case ToCtr => [Mf(8, Ctr), Subf(8, 5, 8), Mt(Ctr, 8)] + MovRi(5, draw.last)
    case ToLr => [Mf(8, Lr), Subf(8, 5, 8)] + MovRi(5, draw.last)
  }

  function Ahead(bd: int): nat { if bd <= 0 then 0 else bd - 1 }

  /** `branch_post` */
  function Post(kind: Kind, bd: int, draw: Draw): seq<Insn> {
    Fill(7, Ahead(bd)) + Fill(4, draw.extra) + Settle(kind, draw)
  }

  function Harness(kind: Kind, bd: int, draw: Draw): seq<Insn> {
    Pre(kind, bd, draw) + [Under] + Post(kind, bd, draw)
  }

  // ---------------------------------------------------------------- the processor

  /** The branch under test: whether it links or counts, and when it is taken. */
  datatype Host = Host(load: nat, modulus: nat, kind: Kind, bd: int, links: bool, counts: bool, taken: nat -> bool)

  datatype State = State(at: int, regs: seq<int>, lr: int, ctr: int, cr: int, visits: nat)

  function Get(r: seq<int>, i: nat): int { if i < |r| then r[i] else 0 }

  function Set(r: seq<int>, i: nat, v: int): (s: seq<int>)
    ensures |s| == |r|
  {
    if i < |r| then r[i := v] else r
  }

  function AddressOf(h: Host, at: int): int { h.load + 4 * at }

  predicate Straight(insn: Insn) { !insn.Jump? && insn != Under }

  /** An instruction that goes on to the next. */
  function Exec(h: Host, insn: Insn, s: State): State
    requires h.modulus > 0
  {
    var t := s.(at := s.at + 1);
    match insn
    case Addi(rd, ra, imm) => t.(regs := Set(s.regs, rd, (Get(s.regs, ra) + Signed16(imm)) % h.modulus))
    case Li(rd, imm) => t.(regs := Set(s.regs, rd, Signed16(imm) % h.modulus))
    case Lis(rd, imm) => t.(regs := Set(s.regs, rd, Signed16(imm) * M16 % h.modulus))
    case Ori(rd, imm) => t.(regs := Set(s.regs, rd, Get(s.regs, rd) / M16 * M16 + imm % M16))
    case Subf(rd, ra, rb) => t.(regs := Set(s.regs, rd, (Get(s.regs, rb) - Get(s.regs, ra)) % h.modulus))
    case Mt(spr, rs) => if spr.Lr? then t.(lr := Get(s.regs, rs)) else t.(ctr := Get(s.regs, rs))
    case Mf(rd, spr) => t.(regs := Set(s.regs, rd, if spr.Lr? then s.lr else s.ctr))
    case Mtcrf(rs) => t.(cr := Get(s.regs, rs) % M32)
    case CallNext => t.(lr := AddressOf(h, s.at + 1))
    case _ => t
  }

  /** Where a taken branch goes; the two low bits of a target register do not count. */
  function TargetOf(h: Host, s: State): int {
    match h.kind
    case Direct(_) => s.at + h.bd
    case ToCtr => (s.ctr - h.load) / 4
    case ToLr => (s.lr - h.load) / 4
  }

  /** The state after the branch under test, before its target is taken. */
  function Branched(h: Host, s: State): State
    requires h.modulus > 0
  {
    s.(visits := s.visits + 1,
       lr := if h.links then AddressOf(h, s.at + 1) else s.lr,
       ctr := if h.counts then (s.ctr - 1) % h.modulus else s.ctr)
  }

  /** One instruction; nothing is known outside the harness. */
  function Step(h: Host, code: seq<Insn>, s: State): Option<State>
    requires h.modulus > 0
  {
    if !(0 <= s.at < |code|) then None
    else match code[s.at]
      case Jump(words) => Some(s.(at := s.at + words))
      case Under =>
        Some(Branched(h, s).(at := if h.taken(s.visits) then TargetOf(h, s) else s.at + 1))
      case insn => Some(Exec(h, insn, s))
  }

  function Steps(h: Host, code: seq<Insn>, s: State, n: nat): Option<State>
    requires h.modulus > 0
    decreases n
  {
    if n == 0 then Some(s)
    else
      var t := Step(h, code, s);
      if t.None? then None else Steps(h, code, t.value, n - 1)
  }

  ghost predicate Reaches(h: Host, code: seq<Insn>, s: State, t: State)
    requires h.modulus > 0
  {
    exists n: nat :: Steps(h, code, s, n) == Some(t)
  }

  lemma ReachesSelf(h: Host, code: seq<Insn>, s: State)
    requires h.modulus > 0
    ensures Reaches(h, code, s, s)
  {
    assert Steps(h, code, s, 0) == Some(s);
  }

  lemma ReachesStep(h: Host, code: seq<Insn>, s: State, t: State)
    requires h.modulus > 0 && Step(h, code, s) == Some(t)
    ensures Reaches(h, code, s, t)
  {
    hide Step;
    assert Steps(h, code, t, 0) == Some(t);
    assert Steps(h, code, s, 1) == Some(t);
  }

  lemma {:induction false} StepsSum(h: Host, code: seq<Insn>, s: State, n: nat, k: nat)
    requires h.modulus > 0 && Steps(h, code, s, n).Some?
    ensures Steps(h, code, s, n + k) == Steps(h, code, Steps(h, code, s, n).value, k)
    decreases n
  {
    hide Step;
    if n > 0 {
      StepsSum(h, code, Step(h, code, s).value, n - 1, k);
    }
  }

  lemma ReachesTrans(h: Host, code: seq<Insn>, s: State, t: State, u: State)
    requires h.modulus > 0 && Reaches(h, code, s, t) && Reaches(h, code, t, u)
    ensures Reaches(h, code, s, u)
  {
    hide Steps;
    var n: nat :| Steps(h, code, s, n) == Some(t);
    var k: nat :| Steps(h, code, t, k) == Some(u);
    StepsSum(h, code, s, n, k);
  }

  // ---------------------------------------------------------------- straight-line pieces

  ghost predicate At(code: seq<Insn>, i: int, piece: seq<Insn>) {
    0 <= i && i + |piece| <= |code| && forall j :: 0 <= j < |piece| ==> code[i + j] == piece[j]
  }

  function ExecAll(h: Host, piece: seq<Insn>, s: State): State
    requires h.modulus > 0
  {
    if piece == [] then s else ExecAll(h, piece[1..], Exec(h, piece[0], s))
  }

  ghost predicate AllStraight(piece: seq<Insn>) { forall j :: 0 <= j < |piece| ==> Straight(piece[j]) }

  lemma {:induction false} PieceRuns(h: Host, code: seq<Insn>, piece: seq<Insn>, s: State)
    requires h.modulus > 0 && At(code, s.at, piece) && AllStraight(piece)
    ensures Reaches(h, code, s, ExecAll(h, piece, s)) && ExecAll(h, piece, s).at == s.at + |piece|
  {
    hide Reaches;
    if piece == [] {
      ReachesSelf(h, code, s);
    } else {
      assert code[s.at] == piece[0];
      var t := Exec(h, piece[0], s);
      assert Step(h, code, s) == Some(t) && t.at == s.at + 1 by { OneStraight(h, code, s); }
      hide Exec, Step;
      ReachesStep(h, code, s, t);
      PieceRuns(h, code, piece[1..], t);
      ReachesTrans(h, code, s, t, ExecAll(h, piece, s));
    }
  }

  lemma OneStraight(h: Host, code: seq<Insn>, s: State)
    requires h.modulus > 0 && 0 <= s.at < |code| && Straight(code[s.at])
    ensures Step(h, code, s) == Some(Exec(h, code[s.at], s)) && Exec(h, code[s.at], s).at == s.at + 1
  {
  }

  lemma {:induction false} ExecAppend(h: Host, p: seq<Insn>, q: seq<Insn>, s: State)
    requires h.modulus > 0
    ensures ExecAll(h, p + q, s) == ExecAll(h, q, ExecAll(h, p, s))
  {
    hide Exec;
    if p == [] {
      assert p + q == q;
    } else {
      assert (p + q)[1..] == p[1..] + q;
      ExecAppend(h, p[1..], q, Exec(h, p[0], s));
    }
  }

  /** `n` fillers count register `i` up. */
  function Bump(h: Host, i: nat, n: nat, s: State): State
    requires h.modulus > 0
  {
    s.(at := s.at + n, regs := if n == 0 then s.regs else Set(s.regs, i, (Get(s.regs, i) + n) % h.modulus))
  }

  lemma {:induction false} FillRuns(h: Host, i: nat, n: nat, s: State)
    requires h.modulus > 0
    ensures ExecAll(h, Fill(i, n), s) == Bump(h, i, n, s)
    ensures |Fill(i, n)| == n && AllStraight(Fill(i, n))
  {
    if n > 0 {
      var t := Exec(h, Addi(i, i, 1), s);
      assert t == Bump(h, i, 1, s);
      assert Fill(i, n)[1..] == Fill(i, n - 1);
      FillRuns(h, i, n - 1, t);
      AddMod(Get(s.regs, i) + 1, n - 1, h.modulus);
      hide ExecAll, Exec;
      assert Bump(h, i, n - 1, t).regs == Bump(h, i, n, s).regs;
    }
  }

  // ---------------------------------------------------------------- constants

  lemma MovRiStraight(rd: nat, imm: int)
    ensures AllStraight(MovRi(rd, imm))
  {
  }

  lemma ExecOne(h: Host, insn: Insn, s: State)
    requires h.modulus > 0
    ensures ExecAll(h, [insn], s) == Exec(h, insn, s)
  {
    hide Exec;
    assert [insn][1..] == [];
  }

  predicate WordSize(m: nat) { m == M32 || m == M64 }

  /** The register value `write_mov_ri` produces. */
  function MovRiValue(m: nat, imm: int): int
    requires m > 0
  {
    if Wide(imm) then Signed16(imm / M16 % M16) * M16 % m / M16 * M16 + imm % M16 else Signed16(imm % M16) % m
  }

  lemma MovRiRuns(h: Host, rd: nat, imm: int, s: State)
    requires WordSize(h.modulus)
    ensures ExecAll(h, MovRi(rd, imm), s) ==
      s.(at := s.at + |MovRi(rd, imm)|, regs := Set(s.regs, rd, MovRiValue(h.modulus, imm)))
  {
    hide ExecAll, Wide, Signed16;
    var low, high := imm % M16, imm / M16 % M16;
    if Wide(imm) {
      LisValue(h.modulus, high);
      var first := Exec(h, Lis(rd, high), s);
      ExecOne(h, Lis(rd, high), s);
      if low != 0 {
        ExecAppend(h, [Lis(rd, high)], [Ori(rd, low)], s);
        ExecOne(h, Ori(rd, low), first);
      } else {
        assert MovRi(rd, imm) == [Lis(rd, high)];
      }
    } else {
      ExecOne(h, Li(rd, low), s);
    }
  }

  function Signed32(x: nat): int { if x < 0x8000_0000 then x else x - M32 }

  /** What is loaded is the low 32 bits of the constant, sign extended. */
  lemma MovRiExtends(m: nat, imm: int)
    requires WordSize(m)
    ensures MovRiValue(m, imm) == Signed32(imm % M32) % m
  {
    var low, high := imm % M16, imm / M16 % M16;
    var x := imm % M32;
    assert x == high * M16 + low;
    if Wide(imm) {
      WideValue(m, high, low);
    } else {
      NarrowValue(m, high, low);
    }
  }

  lemma WideValue(m: nat, high: nat, low: nat)
    requires WordSize(m) && high < M16 && low < M16
    ensures Signed16(high) * M16 % m / M16 * M16 + low == Signed32(high * M16 + low) % m
  {
    var v := Signed16(high) * M16;
    assert Signed32(high * M16 + low) == v + low;
    assert v % m == if v >= 0 then v else v + m;
    assert (v + low) % m == if v >= 0 then v + low else v + m + low;
    assert (v % m) / M16 * M16 == v % m;
  }

  lemma NarrowValue(m: nat, high: nat, low: nat)
    requires WordSize(m) && high < M16 && low < M16
    requires (high * M16 + low) / 0x8000 == 0 || (high * M16 + low) / 0x8000 == 0x1_FFFF
    ensures Signed16(low) == Signed32(high * M16 + low)
  {
  }

  /** On 32-bit registers every constant is loaded exactly; on 64-bit registers exactly those are
      whose upper 33 bits are equal, among the signed 64-bit numbers those in [-2^31, 2^31). */
  lemma MovRiExact(imm: int)
    ensures MovRiValue(M32, imm) == imm % M32
    ensures MovRiValue(M64, imm) == imm % M64 <==> imm % M64 < 0x8000_0000 || imm % M64 >= M64 - 0x8000_0000
    ensures -M64 / 2 <= imm < M64 / 2 ==>
      (MovRiValue(M64, imm) == imm % M64 <==> -0x8000_0000 <= imm < 0x8000_0000)
    ensures MovRiValue(M64, imm) % M32 == imm % M32
  {
    hide MovRiValue;
    MovRiExtends(M32, imm);
    MovRiExtends(M64, imm);
    LowHalf(imm);
    SignExtended(imm % M32);
  }

  lemma LowHalf(imm: int)
    ensures var y := imm % M64; imm % M32 == y % M32
    ensures -M64 / 2 <= imm < M64 / 2 ==> imm % M64 == if imm >= 0 then imm else imm + M64
  {
    var q, y := imm / M64, imm % M64;
    var p, x := y / M32, y % M32;
    assert imm == M64 * q + y && y == M32 * p + x;
    RemainderUnique(imm, M32, M32 * q + p, x);
    if 0 <= imm < M64 {
      RemainderUnique(imm, M64, 0, imm);
    } else if -M64 <= imm < 0 {
      RemainderUnique(imm, M64, -1, imm + M64);
    }
  }

  lemma SignExtended(x: nat)
    requires x < M32
    ensures Signed32(x) % M32 == x
    ensures Signed32(x) % M64 == if x < 0x8000_0000 then x else x - M32 + M64
  {
    if x < 0x8000_0000 {
      RemainderUnique(x, M32, 0, x);
      RemainderUnique(x, M64, 0, x);
    } else {
      RemainderUnique(x - M32, M32, -1, x);
      RemainderUnique(x - M32, M64, -1, x - M32 + M64);
    }
  }

  lemma LisValue(m: nat, high: nat)
    requires (m == M32 || m == M64) && high < M16
    ensures var v := Signed16(high) * M16 % m; v % M32 == high * M16 && v / M16 * M16 == v
  {
    assert m == M32 ==> Signed16(high) * M16 % m == high * M16;
  }
}
