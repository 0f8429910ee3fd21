/** One invariant of every interleaving of the two sides, as long as every memory block that is
    compared was set. */
module Interleaving {
  import opened Wrappers
  import opened WireHeader
  import opened Protocol
  import opened Lockstep

  /** Images set their memory block before they compare it. */
  ghost predicate Disciplined<C(!new), R(!new)>(arch: Arch<C, R>, m0: Master<C, R>) {
    forall n: nat :: AllHaveBlock(MasterAfter(arch, m0, n).log)
  }

  ghost predicate Fresh<C, R>(m0: Master<C, R>, a0: Apprentice<C, R>) {
    && m0.phase.Running? && !m0.setup && m0.memblock.None? && m0.signals == m0.illegal == 0 && m0.log == []
    && a0.phase.Ready? && !a0.setup && a0.memblock.None? && a0.signals == a0.illegal == 0 && a0.log == []
  }

  // ---------------------------------------------------------------- one packet

  lemma HeaderArrives<C(!new), R(!new)>(arch: Arch<C, R>, t: Apprentice<C, R>, e: Sent<C, R>)
    requires WellFormed(arch) && HasBlock(e)
    ensures ApprenticeHeader(arch, t, Some(HeaderBytes(arch, e))) ==
      if PayloadOf(arch, e).Some? then (t.(phase := AwaitPayload(HeaderOf(arch, e), e.op)), [Ok])
      else Decide(arch, t, e.op, BodyOf(e))
  {
    PowersOf256();
    HeaderRoundTrip(HeaderOf(arch, e), arch.masterBig, arch.apprenticeBig, arch.ptr);
    assert OpOf(OpCode(e.op)) == Some(e.op);
  }

  lemma PayloadArrives<C(!new), R(!new)>(arch: Arch<C, R>, t: Apprentice<C, R>, e: Sent<C, R>)
    requires WellFormed(arch) && HasBlock(e)
    requires e.mem.Some? ==> |e.mem.value| == MEMBLOCKLEN
    requires PayloadOf(arch, e).Some?
    requires t.phase == AwaitPayload(HeaderOf(arch, e), e.op)
    ensures |PayloadOf(arch, e).value| == HeaderOf(arch, e).size
    ensures ApprenticePayload(arch, t, PayloadOf(arch, e))
         == Decide(arch, t.(phase := AwaitHeader), e.op, BodyOf(e))
  {
    assert arch.decode(arch.encode(e.reg)) == e.reg;
  }

  // ---------------------------------------------------------------- the invariant

  /** The master is where an unstopped master would be, up to the packet in flight. */
  ghost predicate MasterLink<C, R>(arch: Arch<C, R>, m0: Master<C, R>, m: Master<C, R>) {
    if m.phase.Running? then m == MasterAfter(arch, m0, m.signals)
    else
      && m.signals > 0
      && var b := MasterAfter(arch, m0, m.signals - 1);
      && b.phase.Running?
      && var t := MasterTrap(arch, b).0;
      && t.phase.SentHeader?
      && m == t.(phase := m.phase)
      && (m.phase.Stopped? ==> m.phase.res == End)
      && (!m.phase.Stopped? ==> m.phase.e == t.phase.e)
  }

  /** The apprentice is where the reference would be with the events sent so far. */
  ghost predicate ApprenticeLink<C, R>(
    arch: Arch<C, R>, a0: Apprentice<C, R>, a: Apprentice<C, R>, log: seq<Sent<C, R>>)
    requires AllHaveBlock(log)
  {
    if a.phase.Ready? || a.phase.Halted? then a == ApprenticeAfter(arch, a0, log, a.signals)
    else
      && a.signals > 0
      && var b := ApprenticeAfter(arch, a0, log, a.signals - 1);
      && b.phase.Ready? && !Silent(arch, b)
      && a == ApprenticeTrap(arch, b).(phase := a.phase)
  }

  predicate Idle<C, R>(a: Apprentice<C, R>) { a.phase.Ready? || a.phase.AwaitHeader? }

  /** What is on the wires in each phase. */
  ghost predicate Wires<C, R>(arch: Arch<C, R>, w: World<C, R>) {
    var behind := |w.a.log| + 1 == |w.m.log|;
    var level := |w.a.log| == |w.m.log|;
    match w.m.phase
    case Running => w.packets == [] && w.replies == [] && Idle(w.a) && level
    case SentHeader(e) =>
      || (w.packets == [HeaderBytes(arch, e)] && w.replies == [] && Idle(w.a) && behind)
      || (w.packets == [] && w.replies == [Ok] && PayloadOf(arch, e).Some? && behind
          && w.a.phase == AwaitPayload(HeaderOf(arch, e), e.op))
      || (w.packets == [] && w.replies == [Ok] && PayloadOf(arch, e).None? && Idle(w.a) && level)
      || (w.packets == [] && w.replies == [End] && w.a.phase.Halted? && level)
    case SentPayload(e) =>
      PayloadOf(arch, e).Some? &&
      (|| (w.packets == [PayloadOf(arch, e).value] && w.replies == [] && behind
           && w.a.phase == AwaitPayload(HeaderOf(arch, e), e.op))
       || (w.packets == [] && w.replies == [Ok] && Idle(w.a) && level)
       || (w.packets == [] && w.replies == [End] && w.a.phase.Halted? && level))
    case Stopped(_) => w.packets == [] && w.replies == [] && w.a.phase.Halted? && level
  }

  ghost predicate Inv<C, R>(arch: Arch<C, R>, m0: Master<C, R>, a0: Apprentice<C, R>, w: World<C, R>) {
    && MasterLink(arch, m0, w.m)
    && AllHaveBlock(w.m.log) && LogOk(w.m.log)
    && ApprenticeLink(arch, a0, w.a, w.m.log)
    && Wires(arch, w)
  }

  /** The state of the reference the apprentice last completed. */
  ghost function Base<C, R>(
    arch: Arch<C, R>, a0: Apprentice<C, R>, a: Apprentice<C, R>, log: seq<Sent<C, R>>): Apprentice<C, R>
    requires AllHaveBlock(log) && ApprenticeLink(arch, a0, a, log)
  {
    if a.phase.Ready? || a.phase.Halted? then a else ApprenticeAfter(arch, a0, log, a.signals - 1)
  }

  lemma BaseOk<C(!new), R(!new)>(
    arch: Arch<C, R>, a0: Apprentice<C, R>, a: Apprentice<C, R>, log: seq<Sent<C, R>>)
    requires AllHaveBlock(log) && LogOk(log)
    requires ApprenticeOk(arch, a0, log)
    requires ApprenticeLink(arch, a0, a, log)
    ensures ApprenticeOk(arch, Base(arch, a0, a, log), log)
    ensures Base(arch, a0, a, log).log == a.log
  {
    hide ApprenticeAfter, ApprenticeOk, LogOk, AllHaveBlock;
    ApprenticeAfterOk(arch, a0, log, a.signals);
    if a.signals > 0 {
      ApprenticeAfterOk(arch, a0, log, a.signals - 1);
    }
  }

  lemma FreshApprenticeOk<C(!new), R(!new)>(
    arch: Arch<C, R>, m0: Master<C, R>, a0: Apprentice<C, R>, log: seq<Sent<C, R>>)
    requires Fresh(m0, a0)
    ensures ApprenticeOk(arch, a0, log)
  {
    assert SeenOps(a0.log) == [];
  }

  lemma FreshMasterOk<C(!new), R(!new)>(m0: Master<C, R>, a0: Apprentice<C, R>)
    requires Fresh(m0, a0)
    ensures MasterOk(m0)
  {
    assert SentOps(m0.log) == [];
  }

  /** The history of a live master is that of an unstopped one. */
  lemma MasterHistory<C(!new), R(!new)>(arch: Arch<C, R>, m0: Master<C, R>, m: Master<C, R>)
    requires WellFormed(arch)
    requires MasterOk(m0)
    requires MasterLink(arch, m0, m)
    ensures m.log == MasterAfter(arch, m0, m.signals).log && LogOk(m.log)
  {
    hide MasterAfter, LogOk, WellFormed, EventOf, HeaderBytes;
    MasterAfterOk(arch, m0, m.signals);
    if !m.phase.Running? {
      MasterAfterStep(arch, m0, m.signals - 1);
    }
  }

  // ---------------------------------------------------------------- each action keeps it

  lemma MoreEventsLink<C(!new), R(!new)>(
    arch: Arch<C, R>, a0: Apprentice<C, R>, a: Apprentice<C, R>, log: seq<Sent<C, R>>, log': seq<Sent<C, R>>)
    requires AllHaveBlock(log) && LogOk(log) && AllHaveBlock(log') && log <= log'
    requires ApprenticeOk(arch, a0, log) && a0.signals == 0
    requires ApprenticeLink(arch, a0, a, log)
    ensures ApprenticeLink(arch, a0, a, log')
  {
    hide ApprenticeAfter, ApprenticeOk, LogOk, AllHaveBlock;
    if a.phase.Ready? || a.phase.Halted? {
      MoreEvents(arch, a0, log, log', a.signals);
    } else {
      MoreEvents(arch, a0, log, log', a.signals - 1);
    }
  }

  lemma EventAt<C, R>(log: seq<Sent<C, R>>, k: nat)
    requires LogOk(log) && k < |log|
    ensures EventOk(log, k)
  {
  }

  lemma MTrapLink<C(!new), R(!new)>(arch: Arch<C, R>, m0: Master<C, R>, m: Master<C, R>)
    requires MasterLink(arch, m0, m) && m.phase.Running?
    ensures MasterLink(arch, m0, MasterTrap(arch, m).0)
    ensures m.log <= MasterTrap(arch, m).0.log
  {
    hide MasterAfter, EventOf;
    MasterAfterStep(arch, m0, m.signals);
  }

  lemma MTrapKeeps<C(!new), R(!new)>(arch: Arch<C, R>, m0: Master<C, R>, a0: Apprentice<C, R>, w: World<C, R>)
    requires WellFormed(arch) && Fresh(m0, a0)
    requires Inv(arch, m0, a0, w) && Enabled(w, MTrap) && AllHaveBlock(Do(arch, w, MTrap).m.log)
    ensures Inv(arch, m0, a0, Do(arch, w, MTrap))
  {
    hide ApprenticeAfter, ApprenticeOk, ApprenticeLink, LogOk, MasterOk, AllHaveBlock, HeaderBytes, WellFormed,
      MasterLink, MasterAfter;
    var m := w.m;
    var m' := MasterTrap(arch, m).0;
    MTrapLink(arch, m0, m);
    FreshMasterOk(m0, a0);
    MasterHistory(arch, m0, m');
    FreshApprenticeOk(arch, m0, a0, m.log);
    MoreEventsLink(arch, a0, w.a, m.log, m'.log);
  }

  lemma LastAccepted<C(!new), R(!new)>(arch: Arch<C, R>, m0: Master<C, R>, a0: Apprentice<C, R>, w: World<C, R>)
    requires Fresh(m0, a0)
    requires Inv(arch, m0, a0, w)
    requires Idle(w.a) && |w.a.log| == |w.m.log| > 0
    ensures w.m.log[|w.m.log| - 1].op != TestEnd
  {
    FreshApprenticeOk(arch, m0, a0, w.m.log);
    BaseOk(arch, a0, w.a, w.m.log);
    assert PairOk(arch, w.m.log, w.a.log, |w.a.log| - 1);
  }

  lemma MAckKeeps<C(!new), R(!new)>(arch: Arch<C, R>, m0: Master<C, R>, a0: Apprentice<C, R>, w: World<C, R>)
    requires WellFormed(arch) && Fresh(m0, a0)
    requires Inv(arch, m0, a0, w) && Enabled(w, MAck)
    ensures Inv(arch, m0, a0, Do(arch, w, MAck))
  {
    hide ApprenticeLink, LogOk, MasterLink, AllHaveBlock, HeaderBytes, HeaderOf, WellFormed, PayloadOf, MasterFinish;
    InFlight(arch, m0, w.m);
    FinishLink(arch, m0, w.m);
    AckLink(arch, m0, w.m, SentPayload(w.m.phase.e));
    AckLink(arch, m0, w.m, Stopped(End));
    if Idle(w.a) && |w.a.log| == |w.m.log| {
      LastAccepted(arch, m0, a0, w);
    }
  }

  /** The master goes on as the unstopped master does. */
  lemma FinishLink<C, R>(arch: Arch<C, R>, m0: Master<C, R>, m: Master<C, R>)
    requires MasterLink(arch, m0, m) && (m.phase.SentHeader? || m.phase.SentPayload?)
    ensures var m' := MasterFinish(arch, m, m.phase.e);
      && MasterLink(arch, m0, m') && m'.log == m.log
      && m'.phase == if m.phase.e.op == TestEnd then Stopped(End) else Running
  {
    hide MasterAfter, MasterTrap, MasterFinish;
    MasterAfterStep(arch, m0, m.signals - 1);
    FinishPhase(arch, MasterTrap(arch, MasterAfter(arch, m0, m.signals - 1)).0, m.phase, m.phase.e);
    FinishPhase(arch, m, m.phase, m.phase.e);
  }

  lemma AckLink<C, R>(arch: Arch<C, R>, m0: Master<C, R>, m: Master<C, R>, phase: MasterPhase<C, R>)
    requires MasterLink(arch, m0, m) && (m.phase.SentHeader? || m.phase.SentPayload?)
    requires phase == SentPayload(m.phase.e) || phase == Stopped(End)
    ensures MasterLink(arch, m0, m.(phase := phase))
  {
    hide MasterAfter, MasterTrap;
  }

  lemma ApprenticeAfterSilent<C, R>(arch: Arch<C, R>, a0: Apprentice<C, R>, log: seq<Sent<C, R>>, n: nat)
    requires AllHaveBlock(log)
    requires var b := ApprenticeAfter(arch, a0, log, n); b.phase.Ready? && Silent(arch, b)
    ensures ApprenticeAfter(arch, a0, log, n + 1) == ApprenticeTrap(arch, ApprenticeAfter(arch, a0, log, n))
  {
    hide Serve, ApprenticeTrap;
  }

  lemma ATrapKeeps<C(!new), R(!new)>(arch: Arch<C, R>, m0: Master<C, R>, a0: Apprentice<C, R>, w: World<C, R>)
    requires WellFormed(arch) && Fresh(m0, a0)
    requires Inv(arch, m0, a0, w) && Enabled(w, ATrap)
    ensures Inv(arch, m0, a0, Do(arch, w, ATrap))
  {
    hide ApprenticeAfter, LogOk, MasterLink, WellFormed, HeaderBytes;
    if Silent(arch, w.a) {
      ApprenticeAfterSilent(arch, a0, w.m.log, w.a.signals);
    }
  }

  lemma ApprenticeAfterServe<C, R>(arch: Arch<C, R>, a0: Apprentice<C, R>, log: seq<Sent<C, R>>, n: nat)
    requires AllHaveBlock(log)
    requires var b := ApprenticeAfter(arch, a0, log, n);
      b.phase.Ready? && !Silent(arch, b) && |b.log| < |log|
    ensures var b := ApprenticeAfter(arch, a0, log, n);
      ApprenticeAfter(arch, a0, log, n + 1) == Serve(arch, b, log[|b.log|])
  {
    hide Serve, ApprenticeTrap;
  }

  /** Every conclusion sends exactly one response, and it says whether the apprentice goes on. */
  lemma OneReply<C, R>(arch: Arch<C, R>, t: Apprentice<C, R>, mop: Op, body: Body<R>)
    requires RegOp(mop) ==> body.Registers?
    requires mop == CompareMem ==> body.Memory?
    ensures var (a, replies) := Decide(arch, t, mop, body);
      (a.phase.Ready? && replies == [Ok]) || (a.phase.Halted? && replies == [End])
  {
    hide Judge, Effect;
  }

  /** The reference serves the event in flight. */
  lemma ServedLink<C(!new), R(!new)>(
    arch: Arch<C, R>, m0: Master<C, R>, a0: Apprentice<C, R>, a: Apprentice<C, R>, log: seq<Sent<C, R>>)
    requires Fresh(m0, a0)
    requires AllHaveBlock(log) && LogOk(log) && |a.log| + 1 == |log|
    requires a.phase.AwaitHeader? || a.phase.AwaitPayload?
    requires ApprenticeLink(arch, a0, a, log)
    ensures var e := log[|log| - 1];
      var (a', replies) := Decide(arch, a.(phase := AwaitHeader), e.op, BodyOf(e));
      && ApprenticeLink(arch, a0, a', log)
      && |a'.log| == |log|
      && ((a'.phase.Ready? && replies == [Ok]) || (a'.phase.Halted? && replies == [End]))
  {
    hide LogOk, ApprenticeOk, Decide, ApprenticeAfter, Fresh;
    var e := log[|log| - 1];
    var b := Base(arch, a0, a, log);
    FreshApprenticeOk(arch, m0, a0, log);
    BaseOk(arch, a0, a, log);
    ServeOk(arch, b, log);
    ApprenticeAfterServe(arch, a0, log, a.signals - 1);
    OneReply(arch, ApprenticeTrap(arch, b), e.op, BodyOf(e));
  }

  lemma InFlight<C, R>(arch: Arch<C, R>, m0: Master<C, R>, m: Master<C, R>)
    requires MasterLink(arch, m0, m) && (m.phase.SentHeader? || m.phase.SentPayload?)
    ensures m.log != [] && m.phase.e == m.log[|m.log| - 1]
  {
    hide MasterAfter, EventOf, HeaderBytes;
  }

  lemma HeaderLinks<C, R>(
    arch: Arch<C, R>, a0: Apprentice<C, R>, a: Apprentice<C, R>, log: seq<Sent<C, R>>, phase: ApprenticePhase)
    requires AllHaveBlock(log) && ApprenticeLink(arch, a0, a, log) && a.phase.AwaitHeader? && phase.AwaitPayload?
    ensures ApprenticeLink(arch, a0, a.(phase := phase), log)
  {
    hide ApprenticeAfter, AllHaveBlock, Silent, ApprenticeTrap;
  }

  lemma AHeaderKeeps<C(!new), R(!new)>(arch: Arch<C, R>, m0: Master<C, R>, a0: Apprentice<C, R>, w: World<C, R>)
    requires WellFormed(arch) && Fresh(m0, a0)
    requires Inv(arch, m0, a0, w) && Enabled(w, AHeader)
    ensures Inv(arch, m0, a0, Do(arch, w, AHeader))
  {
    hide ApprenticeLink, LogOk, MasterLink, ApprenticeHeader, Decide, HeaderBytes, WellFormed, PayloadOf, HeaderOf;
    var e := w.m.phase.e;
    InFlight(arch, m0, w.m);
    HeaderArrives(arch, w.a, e);
    HeaderLinks(arch, a0, w.a, w.m.log, AwaitPayload(HeaderOf(arch, e), e.op));
    if PayloadOf(arch, e).None? {
      ServedLink(arch, m0, a0, w.a, w.m.log);
    }
  }

  lemma APayloadKeeps<C(!new), R(!new)>(arch: Arch<C, R>, m0: Master<C, R>, a0: Apprentice<C, R>, w: World<C, R>)
    requires WellFormed(arch) && Fresh(m0, a0)
    requires Inv(arch, m0, a0, w) && Enabled(w, APayload)
    ensures Inv(arch, m0, a0, Do(arch, w, APayload))
  {
    hide ApprenticeLink, LogOk, MasterLink, ApprenticePayload, Decide, HeaderBytes, WellFormed, PayloadOf, HeaderOf;
    var e := w.m.phase.e;
    InFlight(arch, m0, w.m);
    EventAt(w.m.log, |w.m.log| - 1);
    PayloadArrives(arch, w.a, e);
    ServedLink(arch, m0, a0, w.a, w.m.log);
  }

  lemma ActionKeeps<C(!new), R(!new)>(
    arch: Arch<C, R>, m0: Master<C, R>, a0: Apprentice<C, R>, w: World<C, R>, act: Action)
    requires WellFormed(arch) && Fresh(m0, a0)
    requires Inv(arch, m0, a0, w) && Enabled(w, act) && (act == MTrap ==> AllHaveBlock(Do(arch, w, act).m.log))
    ensures Inv(arch, m0, a0, Do(arch, w, act))
  {
    hide Inv, Do, WellFormed, Fresh, Enabled, AllHaveBlock;
    match act
    case MTrap => MTrapKeeps(arch, m0, a0, w);
    case MAck => MAckKeeps(arch, m0, a0, w);
    case ATrap => ATrapKeeps(arch, m0, a0, w);
    case AHeader => AHeaderKeeps(arch, m0, a0, w);
    case APayload => APayloadKeeps(arch, m0, a0, w);
  }

  lemma TrapHasBlock<C(!new), R(!new)>(arch: Arch<C, R>, m0: Master<C, R>, a0: Apprentice<C, R>, w: World<C, R>)
    requires WellFormed(arch) && Fresh(m0, a0) && Disciplined(arch, m0)
    requires Inv(arch, m0, a0, w) && Enabled(w, MTrap)
    ensures AllHaveBlock(Do(arch, w, MTrap).m.log)
  {
    hide LogOk, MasterOk, AllHaveBlock, WellFormed, MasterLink, MasterAfter, MasterTrap, ApprenticeLink, Wires;
    var m' := MasterTrap(arch, w.m).0;
    MTrapLink(arch, m0, w.m);
    FreshMasterOk(m0, a0);
    MasterHistory(arch, m0, m');
    assert AllHaveBlock(MasterAfter(arch, m0, m'.signals).log);
  }

  lemma {:induction false} RunKeeps<C(!new), R(!new)>(
    arch: Arch<C, R>, m0: Master<C, R>, a0: Apprentice<C, R>, w: World<C, R>, acts: seq<Action>)
    requires WellFormed(arch) && Fresh(m0, a0) && Disciplined(arch, m0)
    requires Inv(arch, m0, a0, w) && Schedule(arch, w, acts)
    ensures Inv(arch, m0, a0, Live(arch, w, acts))
    decreases |acts|
  {
    hide Inv, Do, WellFormed, Fresh, Disciplined, Enabled, AllHaveBlock;
    if acts != [] {
      if acts[0] == MTrap {
        TrapHasBlock(arch, m0, a0, w);
      }
      ActionKeeps(arch, m0, a0, w, acts[0]);
      RunKeeps(arch, m0, a0, Do(arch, w, acts[0]), acts[1..]);
    }
  }

  lemma StartInv<C(!new), R(!new)>(arch: Arch<C, R>, m0: Master<C, R>, a0: Apprentice<C, R>)
    requires Fresh(m0, a0)
    ensures Inv(arch, m0, a0, World(m0, a0, [], []))
  {
    hide MasterServe, Serve, ApprenticeTrap, MasterTrap;
  }

  /** Every state of every interleaving from the start satisfies the invariant. */
  lemma LiveInv<C(!new), R(!new)>(arch: Arch<C, R>, cm: C, ca: C, acts: seq<Action>)
    requires WellFormed(arch) && Disciplined(arch, StartMaster(cm))
    requires Schedule(arch, Start(cm, ca), acts)
    ensures Inv(arch, StartMaster(cm), StartApprentice(ca), Live(arch, Start(cm, ca), acts))
  {
    hide Inv, WellFormed, Disciplined, Schedule, Live;
    StartInv(arch, StartMaster(cm), StartApprentice(ca));
    RunKeeps(arch, StartMaster(cm), StartApprentice(ca), Start(cm, ca), acts);
  }

  lemma PairsAgree<C(!new), R(!new)>(
    arch: Arch<C, R>, m0: Master<C, R>, a0: Apprentice<C, R>, w: World<C, R>)
    requires Fresh(m0, a0) && Inv(arch, m0, a0, w)
    ensures |w.a.log| <= |w.m.log|
    ensures forall k :: 0 <= k < |w.a.log| ==> PairOk(arch, w.m.log, w.a.log, k)
    ensures w.a.phase.Halted? ==>
      |w.a.log| == |w.m.log| > 0 && w.a.log[|w.a.log| - 1].res == w.a.phase.res != Ok
    ensures !w.a.phase.Halted? ==> forall k :: 0 <= k < |w.a.log| ==> w.a.log[k].res == Ok
  {
    hide LogOk, MasterLink, ApprenticeAfter, HeaderBytes, PairOk, SeenOps;
    FreshApprenticeOk(arch, m0, a0, w.m.log);
    BaseOk(arch, a0, w.a, w.m.log);
  }

  lemma SameCounts<C(!new), R(!new)>(arch: Arch<C, R>, a: Apprentice<C, R>, log: seq<Sent<C, R>>)
    requires |a.log| == |log|
    requires forall k :: 0 <= k < |log| ==> a.log[k].op == log[k].op
    ensures SeenOps(a.log) == SentOps(log)
  {
  }

  /** The master's counters and flags follow from its history. */
  lemma MasterCounts<C(!new), R(!new)>(arch: Arch<C, R>, m0: Master<C, R>, m: Master<C, R>)
    requires WellFormed(arch) && MasterOk(m0) && MasterLink(arch, m0, m)
    ensures m.signals == m.illegal + Checkpoints(SentOps(m.log))
    ensures m.phase.Running? ==>
      && m.setup == SetupOf(SentOps(m.log))
      && (m.memblock.Some? <==> SetMemblock in SentOps(m.log))
  {
    hide MasterAfter, WellFormed, LogOk, SentOps, Checkpoints, SetupOf, HeaderBytes, MasterServe, EventOf;
    MasterAfterOk(arch, m0, m.signals);
    if !m.phase.Running? {
      MasterAfterStep(arch, m0, m.signals - 1);
      MasterServeFields(arch, MasterAfter(arch, m0, m.signals - 1));
    }
  }

  lemma OpsEqual<C(!new), R(!new)>(arch: Arch<C, R>, a: Apprentice<C, R>, log: seq<Sent<C, R>>)
    requires |a.log| == |log|
    requires forall k :: 0 <= k < |a.log| ==> PairOk(arch, log, a.log, k)
    requires forall k :: 0 <= k < |a.log| ==> k < |a.log| - 1 || a.log[k].res == Ok || a.log[k].res == End
    ensures forall k :: 0 <= k < |log| ==> a.log[k].op == log[k].op
  {
    forall k | 0 <= k < |log| ensures a.log[k].op == log[k].op {
      assert PairOk(arch, log, a.log, k);
    }
  }
}
