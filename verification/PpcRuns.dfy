/** PowerPC runs: the protocol with the comparison, the context update and the trap numbers of the
    PowerPC, and what its results then say about the registers. */
module PpcRuns {
  import opened Wrappers
  import opened WireHeader
  import opened Ieee
  import opened Reginfo
  import opened FpRules
  import opened Comparer
  import opened Tolerance
  import opened RegisterBits
  import opened RegisterFiles
  import opened Protocol
  import Lockstep
  import LiveRun
  import Traces

  // ---------------------------------------------------------------- the image as bytes

  function Number(w: Word): (n: nat)
    ensures n < 0x1_0000_0000
  {
    w.bits as nat
  }

  function WordOf(n: nat): Word { if n < 0x1_0000_0000 then Word(n as bv32) else Word(0) }

  lemma WordBack(w: Word)
    ensures WordOf(Number(w)) == w
  {
  }

  function WordBytes(ws: seq<Word>): (s: seq<Byte>)
    ensures |s| == 4 * |ws|
  {
    if ws == [] then [] else ToBytes(4, Number(ws[0])) + WordBytes(ws[1..])
  }

  function WordsFrom(s: seq<Byte>, n: nat): (ws: seq<Word>)
    requires |s| >= 4 * n
    ensures |ws| == n
  {
    if n == 0 then [] else [WordOf(FromBytes(s[..4]))] + WordsFrom(s[4..], n - 1)
  }

  lemma {:induction false} WordsBack(ws: seq<Word>, rest: seq<Byte>)
    ensures WordsFrom(WordBytes(ws) + rest, |ws|) == ws
  {
    hide Number, WordOf, ToBytes, FromBytes;
    if ws != [] {
      var first, more := ToBytes(4, Number(ws[0])), WordBytes(ws[1..]);
      WordsBack(ws[1..], rest);
      PowersOf256();
      FromToBytes(4, Number(ws[0]));
      WordBack(ws[0]);
      var s := WordBytes(ws) + rest;
      assert s == first + (more + rest);
      assert s[..4] == first && s[4..] == more + rest;
    }
  }

  function DoubleBytes(ds: seq<Double>): (s: seq<Byte>)
    ensures |s| == 8 * |ds|
  {
    if ds == [] then [] else ToBytes(8, ds[0]) + DoubleBytes(ds[1..])
  }

  function DoublesFrom(s: seq<Byte>, n: nat): (ds: seq<Double>)
    requires |s| >= 8 * n
    ensures |ds| == n
  {
    if n == 0 then []
    else
      var v := FromBytes(s[..8]);
      [if v < P64 then v else 0] + DoublesFrom(s[8..], n - 1)
  }

  lemma {:induction false} DoublesBack(ds: seq<Double>, rest: seq<Byte>)
    ensures DoublesFrom(DoubleBytes(ds) + rest, |ds|) == ds
  {
    hide ToBytes, FromBytes;
    if ds != [] {
      var first, more := ToBytes(8, ds[0]), DoubleBytes(ds[1..]);
      DoublesBack(ds[1..], rest);
      PowersOf256();
      FromToBytes(8, ds[0]);
      var s := DoubleBytes(ds) + rest;
      assert s == first + (more + rest);
      assert s[..8] == first && s[8..] == more + rest;
    }
  }

  /** The words of an image in front of its floating registers. */
  function Words(r: Image): (ws: seq<Word>)
    ensures |ws| == 44
  {
    [r.secondPrev, r.prev, r.faulting, r.next] + r.gregs +
      [r.nip, r.msr, r.ctr, r.lnk, r.xer, r.ccr, r.mq, r.fpscr]
  }

  function FromWords(ws: seq<Word>, ds: seq<Double>): Image
    requires |ws| == 44 && |ds| == 32
  {
    RegInfo(ws[0], ws[1], ws[2], ws[3], ws[4..36], ws[36], ws[37], ws[38], ws[39], ws[40], ws[41], ws[42], ds, ws[43])
  }

  const IMAGESIZE := 432

  function EncodeImage(r: Image): (s: seq<Byte>)
    ensures |s| == IMAGESIZE
  {
    WordBytes(Words(r)) + DoubleBytes(r.fpregs)
  }

  function DecodeImage(s: seq<Byte>): Image {
    if |s| != IMAGESIZE then FromWords(seq(44, _ => Word(0)), NO_FLOATS)
    else FromWords(WordsFrom(s, 44), DoublesFrom(s[176..], 32))
  }

  lemma ImageBack(r: Image)
    ensures DecodeImage(EncodeImage(r)) == r
  {
    hide WordBytes, WordsFrom, DoubleBytes, DoublesFrom;
    var s := EncodeImage(r);
    WordsBack(Words(r), DoubleBytes(r.fpregs));
    DoublesBack(r.fpregs, []);
    assert DoubleBytes(r.fpregs) + [] == DoubleBytes(r.fpregs);
    assert s[176..] == DoubleBytes(r.fpregs);
    assert Words(r)[4..36] == r.gregs;
  }

  // ---------------------------------------------------------------- the architecture

  /** `get_risuop`: the low bits of a trap with the right key; other instructions are illegal. */
  function TrapOf(r: Image): Op {
    if r.faulting.bits & 0xFFFF_FFF0 != 0x0000_5AF0 then Sigill
    else
      match OpOf(((r.faulting.bits & 15) as bv4) as nat)
      case Some(op) => op
      case None => Sigill
  }

  /** The trap instructions are the words 0x5AF0 to 0x5AF6; every other word is illegal. */
  lemma TrapMeans(r: Image)
    ensures TrapOf(r) ==
      if r.faulting.bits == 0x5AF0 then Compare
      else if r.faulting.bits == 0x5AF1 then TestEnd
      else if r.faulting.bits == 0x5AF2 then SetMemblock
      else if r.faulting.bits == 0x5AF3 then GetMemblock
      else if r.faulting.bits == 0x5AF4 then CompareMem
      else if r.faulting.bits == 0x5AF5 then SetupBegin
      else if r.faulting.bits == 0x5AF6 then SetupEnd
      else Sigill
  {
  }

  function SetParam<X>(c: Context<X>, v: nat): Context<X> {
    if |c.gpr| == 0 then c else c.(gpr := c.gpr[0 := WordOf(v)])
  }

  /** What is not in the registers: reading an image off the context, memory, and running on. */
  datatype Machine<!X> = Machine(
    regs: Context<X> -> Image,
    memory: (Context<X>, nat) -> seq<Byte>,
    resume: Context<X> -> Context<X>,
    masterBig: bool,
    apprenticeBig: bool)

  ghost predicate HasBlocks<X(!new)>(mc: Machine<X>) {
    forall c: Context<X>, p: nat :: |mc.memory(c, p)| == MEMBLOCKLEN
  }

  ghost function PpcArch<X>(o: Opts, rules: seq<FpRule>, mc: Machine<X>): Arch<Context<X>, Image> {
    Arch(
      mc.regs,
      (r: Image) => TrapOf(r),
      (r: Image) => Number(r.nip),
      (r: Image) => Number(r.gregs[0]),
      (r: Image) => IMAGESIZE,
      IMAGESIZE,
      (r: Image) => EncodeImage(r),
      (s: seq<Byte>) => DecodeImage(s),
      (m: Image, a: Image, signals: nat) => IsEq(o, rules, m, a, signals).Same?,
      mc.memory,
      (c: Context<X>, v: nat) => SetParam(c, v),
      (c: Context<X>, r: Image) => Update(o.gregsMask, c, r),
      mc.resume,
      Ptr32,
      mc.masterBig,
      mc.apprenticeBig)
  }

  lemma PpcWellFormed<X(!new)>(o: Opts, rules: seq<FpRule>, mc: Machine<X>)
    requires HasBlocks(mc)
    ensures WellFormed(PpcArch(o, rules, mc))
  {
    hide EncodeImage, DecodeImage, IsEq, Update, TrapOf;
    var arch := PpcArch(o, rules, mc);
    PowersOf256();
    forall r: Image ensures arch.decode(arch.encode(r)) == r {
      ImageBack(r);
    }
  }

  lemma PpcEqual<X>(o: Opts, rules: seq<FpRule>, mc: Machine<X>, m: Image, a: Image, signals: nat)
    ensures PpcArch(o, rules, mc).equal(m, a, signals) <==> Tolerable(o, rules, m, a, signals)
  {
    hide IsEq, Tolerable, Update, TrapOf;
    IsEqMeans(o, rules, m, a, signals);
  }

  // ---------------------------------------------------------------- whole runs

  /** Two PowerPC processors saw the same trap: its kind, its registers up to the tolerances unless
      it was part of the setup, and its memory block if that was compared. */
  ghost predicate SameTrap<X>(o: Opts, rules: seq<FpRule>, e: Sent<Context<X>, Image>, s: Seen<Context<X>, Image>) {
    && e.op == s.op
    && (RegOp(e.op) && !e.setup ==> Tolerable(o, rules, e.reg, s.reg, s.signals))
    && (e.op == CompareMem ==> e.mem == s.mem)
  }

  lemma SameTrapAgrees<X>(
    o: Opts, rules: seq<FpRule>, mc: Machine<X>, e: Sent<Context<X>, Image>, s: Seen<Context<X>, Image>)
    ensures Lockstep.Agrees(PpcArch(o, rules, mc), e, s) <==> SameTrap(o, rules, e, s)
    ensures Lockstep.RegistersDiffer(PpcArch(o, rules, mc), e, s) <==>
      RegOp(e.op) && RegOp(s.op) && !e.setup && !Tolerable(o, rules, e.reg, s.reg, s.signals)
  {
    hide PpcArch, Tolerable;
    PpcEqual(o, rules, mc, e.reg, s.reg, s.signals);
  }

  /** The result of a PowerPC run, for every image and interleaving: the test ends well exactly if
      every trap was the same on both sides and the last one is TESTEND; a register mismatch is
      reported exactly if the last pair of traps compares registers that are not accepted; and all
      traps before the last were the same. */
  lemma PpcVerdict<X(!new)>(
    o: Opts, rules: seq<FpRule>, mc: Machine<X>, cm: Context<X>, ca: Context<X>, acts: seq<Action>)
    requires HasBlocks(mc) && Schedule(PpcArch(o, rules, mc), Start(cm, ca), acts)
    requires Live(PpcArch(o, rules, mc), Start(cm, ca), acts).a.phase.Halted?
    ensures var w := Live(PpcArch(o, rules, mc), Start(cm, ca), acts); var n := |w.a.log|; var r := w.a.phase.res;
      && 0 < n <= |w.m.log| && (forall k :: 0 <= k < n - 1 ==> SameTrap(o, rules, w.m.log[k], w.a.log[k]))
      && (r == End <==>
            && |w.m.log| == n && w.m.log[n - 1].op == TestEnd
            && forall k :: 0 <= k < n ==> SameTrap(o, rules, w.m.log[k], w.a.log[k]))
      && (r == MismatchReg <==>
            && |w.m.log| == n && var e, s := w.m.log[n - 1], w.a.log[n - 1];
            && RegOp(e.op) && RegOp(s.op) && !e.setup && !Tolerable(o, rules, e.reg, s.reg, s.signals))
  {
    hide PpcArch, Tolerable, HasBlocks, WellFormed, Schedule, Live, SameTrap, Lockstep.Agrees,
      Lockstep.RegistersDiffer;
    PpcWellFormed(o, rules, mc);
    var arch := PpcArch(o, rules, mc);
    LiveRun.VerdictCorrect(arch, cm, ca, acts);
    var w := Live(arch, Start(cm, ca), acts);
    forall k | 0 <= k < |w.a.log| ensures Lockstep.Agrees(arch, w.m.log[k], w.a.log[k]) <==>
      SameTrap(o, rules, w.m.log[k], w.a.log[k])
    {
      SameTrapAgrees(o, rules, mc, w.m.log[k], w.a.log[k]);
    }
    SameTrapAgrees(o, rules, mc, w.m.log[|w.a.log| - 1], w.a.log[|w.a.log| - 1]);
  }

  /** A test that ends well hides nothing: at every compared trap, every selected floating register
      was equal, or was written by one of the last two instructions, or held quiet NaNs or zeros on
      both sides. */
  lemma EndConfines<X(!new)>(
    o: Opts, rules: seq<FpRule>, mc: Machine<X>, cm: Context<X>, ca: Context<X>, acts: seq<Action>, k: nat, i: nat)
    requires HasBlocks(mc) && Schedule(PpcArch(o, rules, mc), Start(cm, ca), acts)
    requires Live(PpcArch(o, rules, mc), Start(cm, ca), acts).a.phase == Halted(End)
    requires var w := Live(PpcArch(o, rules, mc), Start(cm, ca), acts);
      k < |w.a.log| && k < |w.m.log| && RegOp(w.m.log[k].op) && !w.m.log[k].setup
    requires i < 32 && Selected(o.fpregsMask, i)
    requires forall j :: 0 <= j < |rules| ==> RuleConfined(rules[j])
    ensures var w := Live(PpcArch(o, rules, mc), Start(cm, ca), acts); var m, a := w.m.log[k].reg, w.a.log[k].reg;
      m.fpregs[i] == a.fpregs[i] || Confined(m, i, a.fpregs[i])
  {
    hide PpcArch, HasBlocks, Schedule, Live, Tolerable, Selected, Confined, IsEq, RuleConfined;
    PpcVerdict(o, rules, mc, cm, ca, acts);
    var w := Live(PpcArch(o, rules, mc), Start(cm, ca), acts);
    var e, s := w.m.log[k], w.a.log[k];
    assert SameTrap(o, rules, e, s);
    IsEqMeans(o, rules, e.reg, s.reg, s.signals);
    if e.reg.fpregs[i] != s.reg.fpregs[i] {
      AcceptanceConfines(o, rules, e.reg, s.reg, s.signals, i);
    }
  }

  /** Nor does it in the general registers: every selected one was equal, or the target of the
      instruction behind an illegal one, or differed in one of the four ways that are let pass. */
  lemma EndGregs<X(!new)>(
    o: Opts, rules: seq<FpRule>, mc: Machine<X>, cm: Context<X>, ca: Context<X>, acts: seq<Action>, k: nat, i: nat)
    requires HasBlocks(mc) && Schedule(PpcArch(o, rules, mc), Start(cm, ca), acts)
    requires Live(PpcArch(o, rules, mc), Start(cm, ca), acts).a.phase == Halted(End)
    requires var w := Live(PpcArch(o, rules, mc), Start(cm, ca), acts);
      k < |w.a.log| && k < |w.m.log| && RegOp(w.m.log[k].op) && !w.m.log[k].setup
    requires i < 32 && BitOf(o.gregsMask, i)
    ensures var w := Live(PpcArch(o, rules, mc), Start(cm, ca), acts); var m, a := w.m.log[k].reg, w.a.log[k].reg;
      m.gregs[i] == a.gregs[i] || PatchedTarget(a, i) || GregTolerated(m, i, a.gregs[i], a.nip)
  {
    hide PpcArch, HasBlocks, Schedule, Live, BitOf, PatchedTarget, GregTolerated;
    PpcVerdict(o, rules, mc, cm, ca, acts);
    var w := Live(PpcArch(o, rules, mc), Start(cm, ca), acts);
    var e, s := w.m.log[k], w.a.log[k];
    assert SameTrap(o, rules, e, s);
    assert GregPart(o, e.reg, s.reg);
  }

  /** A GETMEMBLOCK that was accepted leaves in r0 what was there plus what r0 held at the last
      SETMEMBLOCK, modulo 2 to the 32, and changes nothing else. */
  lemma PpcAddress<X(!new)>(
    o: Opts, rules: seq<FpRule>, mc: Machine<X>, cm: Context<X>, ca: Context<X>, acts: seq<Action>, k: nat, j: nat)
    requires Schedule(PpcArch(o, rules, mc), Start(cm, ca), acts)
    requires var log := Live(PpcArch(o, rules, mc), Start(cm, ca), acts).a.log;
      && k < |log| && log[k].op == GetMemblock && log[k].res == Ok
      && Traces.LastSet(Traces.SeenTraps(log[..k]), j) && |log[k].before.gpr| > 0
    ensures var log := Live(PpcArch(o, rules, mc), Start(cm, ca), acts).a.log;
      var sum := (Number(log[k].reg.gregs[0]) + Number(log[j].reg.gregs[0])) % 0x1_0000_0000;
      log[k].after == log[k].before.(gpr := log[k].before.gpr[0 := WordOf(sum)])
  {
    var arch := PpcArch(o, rules, mc);
    PowersOf256();
    hide IsEq, Update, EncodeImage, DecodeImage, TrapOf, Live, Schedule, Traces.LastSet, Number, WordOf;
    Traces.AddressAdded(arch, cm, ca, acts, k, j);
  }

  /** In particular with the rules of the code. */
  lemma PpcEndConfines<X(!new)>(
    o: Opts, mc: Machine<X>, cm: Context<X>, ca: Context<X>, acts: seq<Action>, k: nat, i: nat)
    requires HasBlocks(mc) && Schedule(PpcArch(o, PpcRules(), mc), Start(cm, ca), acts)
    requires Live(PpcArch(o, PpcRules(), mc), Start(cm, ca), acts).a.phase == Halted(End)
    requires var w := Live(PpcArch(o, PpcRules(), mc), Start(cm, ca), acts);
      k < |w.a.log| && k < |w.m.log| && RegOp(w.m.log[k].op) && !w.m.log[k].setup
    requires i < 32 && Selected(o.fpregsMask, i)
    ensures var w := Live(PpcArch(o, PpcRules(), mc), Start(cm, ca), acts);
      var m, a := w.m.log[k].reg, w.a.log[k].reg;
      m.fpregs[i] == a.fpregs[i] || Confined(m, i, a.fpregs[i])
  {
    hide PpcArch, PpcRules, HasBlocks, Schedule, Live, Selected, Confined, RuleConfined;
    PpcRulesConfined();
    EndConfines(o, PpcRules(), mc, cm, ca, acts, k, i);
  }

  /** And its tolerated differences do not accumulate: after each accepted COMPARE the apprentice's
      registers are those the master reported. */
  lemma PpcRestores<X(!new)>(
    o: Opts, rules: seq<FpRule>, mc: Machine<X>, cm: Context<X>, ca: Context<X>, acts: seq<Action>, k: nat)
    requires HasBlocks(mc) && Schedule(PpcArch(o, rules, mc), Start(cm, ca), acts)
    requires k < |Live(PpcArch(o, rules, mc), Start(cm, ca), acts).a.log|
    requires var s := Live(PpcArch(o, rules, mc), Start(cm, ca), acts).a.log[k]; s.op == Compare && s.res == Ok
    ensures var w := Live(PpcArch(o, rules, mc), Start(cm, ca), acts);
      k < |w.m.log| && Restored(o.gregsMask, w.a.log[k].before, w.m.log[k].reg, w.a.log[k].after)
  {
    hide HasBlocks, WellFormed, Schedule, Live, IsEq, Update, Restored, EncodeImage, DecodeImage, TrapOf;
    PpcWellFormed(o, rules, mc);
    assert UpdatesAsPpc(PpcArch(o, rules, mc), o.gregsMask);
    hide PpcArch, UpdatesAsPpc;
    ToleranceDoesNotAccumulate(PpcArch(o, rules, mc), o.gregsMask, cm, ca, acts, k);
  }
}
