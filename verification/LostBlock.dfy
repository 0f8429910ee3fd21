/** Runs in which the master compares a memory block it never set: it announces 8192 bytes and
    sends none, so the apprentice takes the next header for the block.  One more invariant covers
    these runs, and together with `Interleaving` every run there is.
 */
module LostBlock {
  import opened Wrappers
  import opened WireHeader
  import opened Protocol
  import opened Lockstep
  import opened Interleaving

  /** The apprentice waits for the block announced by `e`. */
  function WaitsFor<C, R>(arch: Arch<C, R>, e: Sent<C, R>): ApprenticePhase {
    AwaitPayload(HeaderOf(arch, e), CompareMem)
  }

  /** The apprentice after the events `good`, which are all it will ever compare: still working,
      or halted by the packet it took for the block of `e`. */
  ghost predicate Starved<C, R>(
    arch: Arch<C, R>, a0: Apprentice<C, R>, a: Apprentice<C, R>, good: seq<Sent<C, R>>, e: Sent<C, R>)
  {
    && AllHaveBlock(good)
    && if a.phase.Halted? then
         && |a.log| == |good| + 1
         && var t := a.(phase := WaitsFor(arch, e), log := a.log[..|good|]);
         && ApprenticeLink(arch, a0, t, good)
         && a == Conclude(arch, t, BadIo, t.cpu).0
       else |a.log| == |good| && ApprenticeLink(arch, a0, a, good)
  }

  /** The wires from the header of `e`, the event without a block, to the end of the run. */
  ghost predicate LostWires<C, R>(arch: Arch<C, R>, w: World<C, R>, e: Sent<C, R>, g: nat) {
    var first, second := |w.m.log| == g + 1, |w.m.log| == g + 2;
    var waiting := w.a.phase == WaitsFor(arch, e);
    match w.m.phase
    case Running => w.packets == [] && w.replies == [] && waiting && first
    case SentHeader(f) =>
      || (w.packets == [HeaderBytes(arch, f)] && w.replies == [] && Idle(w.a) && f == e && first)
      || (w.packets == [] && w.replies == [Ok] && waiting && f == e && first)
      || (w.packets == [HeaderBytes(arch, f)] && w.replies == [] && waiting && second)
      || (w.packets == [] && w.replies == [End] && w.a.phase == Halted(BadIo) && second)
    case SentPayload(_) => false
    case Stopped(_) => w.packets == [] && w.replies == [] && w.a.phase == Halted(BadIo) && second
  }

  /** Event `g` is the first whose block was never set. */
  ghost predicate Lost<C, R>(arch: Arch<C, R>, m0: Master<C, R>, a0: Apprentice<C, R>, w: World<C, R>, g: nat) {
    && g < |w.m.log|
    && MasterLink(arch, m0, w.m)
    && LogOk(w.m.log[..g]) && !HasBlock(w.m.log[g])
    && Starved(arch, a0, w.a, w.m.log[..g], w.m.log[g])
    && LostWires(arch, w, w.m.log[g], g)
  }

  // ---------------------------------------------------------------- single steps

  lemma UnsetHeaderArrives<C(!new), R(!new)>(arch: Arch<C, R>, t: Apprentice<C, R>, e: Sent<C, R>)
    requires WellFormed(arch) && !HasBlock(e)
    ensures ApprenticeHeader(arch, t, Some(HeaderBytes(arch, e))) == (t.(phase := WaitsFor(arch, e)), [Ok])
  {
    hide Encode, Decode, Judge, Effect;
    PowersOf256();
    HeaderRoundTrip(HeaderOf(arch, e), arch.masterBig, arch.apprenticeBig, arch.ptr);
  }

  /** A header is never as long as a memory block. */
  lemma HeaderIsNoBlock<C, R>(arch: Arch<C, R>, e: Sent<C, R>, f: Sent<C, R>)
    requires !HasBlock(e)
    ensures Received(HeaderBytes(arch, f), HeaderOf(arch, e).size) == None
  {
    hide Encode;
  }

  lemma BadPayload<C, R>(arch: Arch<C, R>, t: Apprentice<C, R>)
    requires t.phase.AwaitPayload?
    ensures ApprenticePayload(arch, t, None) == Conclude(arch, t, BadIo, t.cpu)
    ensures Conclude(arch, t, BadIo, t.cpu).0.phase == Halted(BadIo)
    ensures Conclude(arch, t, BadIo, t.cpu).1 == [End]
    ensures var a := Conclude(arch, t, BadIo, t.cpu).0;
      |a.log| == |t.log| + 1 && a.(phase := t.phase, log := a.log[..|t.log|]) == t
  {
    hide OwnMemory;
  }

  /** A payload of another length than announced stops the apprentice. */
  lemma WrongLengthHalts<C, R>(arch: Arch<C, R>, t: Apprentice<C, R>, pkt: seq<Byte>)
    requires t.phase.AwaitPayload? && |pkt| != t.phase.h.size
    ensures ApprenticePayload(arch, t, Received(pkt, t.phase.h.size)).0.phase == Halted(BadIo)
  {
    BadPayload(arch, t);
  }

  /** A master on a host of the other byte order writes payloads of the wrong length: the apprentice
      understands its header and stops at its payload, whatever the bytes are. */
  lemma ForeignHostLosesStep<C(!new), R(!new)>(
    arch: Arch<C, R>, t: Apprentice<C, R>, e: Sent<C, R>, hostBig: bool, targetBig: bool, pkt: seq<Byte>)
    requires WellFormed(arch) && HasBlock(e) && PayloadOf(arch, e).Some? && hostBig != targetBig
    requires 0 < HeaderOf(arch, e).size < 0x1_0000
    requires |pkt| == PayloadLength(HeaderOf(arch, e), hostBig, targetBig, arch.ptr)
    ensures var waiting := ApprenticeHeader(arch, t, Some(HeaderBytes(arch, e))).0;
      && waiting.phase == AwaitPayload(HeaderOf(arch, e), e.op)
      && ApprenticePayload(arch, waiting, Received(pkt, waiting.phase.h.size)).0.phase == Halted(BadIo)
  {
    hide ApprenticeHeader, HeaderBytes, ApprenticePayload, PayloadLength;
    HeaderArrives(arch, t, e);
    PowersOf256();
    LengthNeedsNativeOrder(HeaderOf(arch, e), hostBig, targetBig, arch.ptr);
    WrongLengthHalts(arch, t.(phase := AwaitPayload(HeaderOf(arch, e), e.op)), pkt);
  }

  // ---------------------------------------------------------------- the actions

  /** A good run becomes a lost one when the master reports a comparison without a block. */
  lemma MTrapLoses<C(!new), R(!new)>(arch: Arch<C, R>, m0: Master<C, R>, a0: Apprentice<C, R>, w: World<C, R>)
    requires WellFormed(arch) && Fresh(m0, a0)
    requires Inv(arch, m0, a0, w) && Enabled(w, MTrap) && !AllHaveBlock(Do(arch, w, MTrap).m.log)
    ensures Lost(arch, m0, a0, Do(arch, w, MTrap), |w.m.log|)
  {
    hide ApprenticeAfter, ApprenticeLink, LogOk, HeaderBytes, WellFormed, MasterLink, MasterAfter, EventOf;
    var m, m' := w.m, MasterTrap(arch, w.m).0;
    MTrapLink(arch, m0, m);
    assert m'.log[..|m.log|] == m.log;
  }

  lemma LostMTrap<C(!new), R(!new)>(
    arch: Arch<C, R>, m0: Master<C, R>, a0: Apprentice<C, R>, w: World<C, R>, g: nat)
    requires Lost(arch, m0, a0, w, g) && Enabled(w, MTrap)
    ensures Lost(arch, m0, a0, Do(arch, w, MTrap), g)
  {
    hide ApprenticeLink, LogOk, HeaderBytes, MasterLink, EventOf, Starved, HasBlock, WaitsFor;
    var m' := MasterTrap(arch, w.m).0;
    MTrapLink(arch, m0, w.m);
    assert m'.log[..g] == w.m.log[..g] && m'.log[g] == w.m.log[g];
  }

  lemma LostMAck<C(!new), R(!new)>(
    arch: Arch<C, R>, m0: Master<C, R>, a0: Apprentice<C, R>, w: World<C, R>, g: nat)
    requires Lost(arch, m0, a0, w, g) && Enabled(w, MAck)
    ensures Lost(arch, m0, a0, Do(arch, w, MAck), g)
  {
    hide ApprenticeLink, LogOk, HeaderBytes, EventOf, Starved, WaitsFor, MasterAfter;
    hide MasterLink, MasterFinish;
    InFlight(arch, m0, w.m);
    FinishLink(arch, m0, w.m);
    AckLink(arch, m0, w.m, Stopped(End));
  }

  lemma TrapLink<C(!new), R(!new)>(
    arch: Arch<C, R>, a0: Apprentice<C, R>, a: Apprentice<C, R>, log: seq<Sent<C, R>>)
    requires AllHaveBlock(log) && ApprenticeLink(arch, a0, a, log) && a.phase.Ready?
    ensures ApprenticeLink(arch, a0, ApprenticeTrap(arch, a), log)
    ensures Idle(ApprenticeTrap(arch, a)) && ApprenticeTrap(arch, a).log == a.log
  {
    hide ApprenticeAfter;
    if Silent(arch, a) {
      ApprenticeAfterSilent(arch, a0, log, a.signals);
    }
  }

  lemma LostATrap<C(!new), R(!new)>(
    arch: Arch<C, R>, m0: Master<C, R>, a0: Apprentice<C, R>, w: World<C, R>, g: nat)
    requires Lost(arch, m0, a0, w, g) && Enabled(w, ATrap)
    ensures Lost(arch, m0, a0, Do(arch, w, ATrap), g)
  {
    hide ApprenticeLink, LogOk, HeaderBytes, MasterLink, AllHaveBlock, ApprenticeTrap, HasBlock;
    TrapLink(arch, a0, w.a, w.m.log[..g]);
  }

  lemma PhaseLink<C(!new), R(!new)>(
    arch: Arch<C, R>, a0: Apprentice<C, R>, a: Apprentice<C, R>, log: seq<Sent<C, R>>, phase: ApprenticePhase)
    requires AllHaveBlock(log) && ApprenticeLink(arch, a0, a, log)
    requires (a.phase.AwaitHeader? || a.phase.AwaitPayload?) && (phase.AwaitHeader? || phase.AwaitPayload?)
    ensures ApprenticeLink(arch, a0, a.(phase := phase), log)
  {
    hide ApprenticeAfter, ApprenticeTrap;
  }

  lemma LostAHeader<C(!new), R(!new)>(
    arch: Arch<C, R>, m0: Master<C, R>, a0: Apprentice<C, R>, w: World<C, R>, g: nat)
    requires WellFormed(arch) && Lost(arch, m0, a0, w, g) && Enabled(w, AHeader)
    ensures Lost(arch, m0, a0, Do(arch, w, AHeader), g)
  {
    hide ApprenticeLink, LogOk, HeaderBytes, MasterLink, AllHaveBlock, ApprenticeHeader, HasBlock, WellFormed;
    var e := w.m.log[g];
    UnsetHeaderArrives(arch, w.a, e);
    PhaseLink(arch, a0, w.a, w.m.log[..g], WaitsFor(arch, e));
  }

  lemma LostAPayload<C(!new), R(!new)>(
    arch: Arch<C, R>, m0: Master<C, R>, a0: Apprentice<C, R>, w: World<C, R>, g: nat)
    requires Lost(arch, m0, a0, w, g) && Enabled(w, APayload)
    ensures Lost(arch, m0, a0, Do(arch, w, APayload), g)
  {
    hide ApprenticeLink, LogOk, HeaderBytes, MasterLink, AllHaveBlock, ApprenticePayload, HasBlock, Conclude, HeaderOf;
    HeaderIsNoBlock(arch, w.m.log[g], w.m.phase.e);
    BadPayload(arch, w.a);
  }

  lemma LostKeeps<C(!new), R(!new)>(
    arch: Arch<C, R>, m0: Master<C, R>, a0: Apprentice<C, R>, w: World<C, R>, g: nat, act: Action)
    requires WellFormed(arch) && Lost(arch, m0, a0, w, g) && Enabled(w, act)
    ensures Lost(arch, m0, a0, Do(arch, w, act), g)
  {
    hide Lost, Do, WellFormed, Enabled;
    match act
    case MTrap => LostMTrap(arch, m0, a0, w, g);
    case MAck => LostMAck(arch, m0, a0, w, g);
    case ATrap => LostATrap(arch, m0, a0, w, g);
    case AHeader => LostAHeader(arch, m0, a0, w, g);
    case APayload => LostAPayload(arch, m0, a0, w, g);
  }

  // ---------------------------------------------------------------- every run

  /** What holds of every state of every run. */
  ghost predicate AnyInv<C, R>(arch: Arch<C, R>, m0: Master<C, R>, a0: Apprentice<C, R>, w: World<C, R>) {
    Inv(arch, m0, a0, w) || exists g: nat :: Lost(arch, m0, a0, w, g)
  }

  lemma AnyKeeps<C(!new), R(!new)>(
    arch: Arch<C, R>, m0: Master<C, R>, a0: Apprentice<C, R>, w: World<C, R>, act: Action)
    requires WellFormed(arch) && Fresh(m0, a0) && AnyInv(arch, m0, a0, w) && Enabled(w, act)
    ensures AnyInv(arch, m0, a0, Do(arch, w, act))
  {
    hide Inv, Lost, Do, WellFormed, Fresh, Enabled, AllHaveBlock;
    if Inv(arch, m0, a0, w) {
      if act == MTrap && !AllHaveBlock(Do(arch, w, act).m.log) {
        MTrapLoses(arch, m0, a0, w);
      } else {
        ActionKeeps(arch, m0, a0, w, act);
      }
    } else {
      var g: nat :| Lost(arch, m0, a0, w, g);
      LostKeeps(arch, m0, a0, w, g, act);
    }
  }

  lemma {:induction false} AnyRunKeeps<C(!new), R(!new)>(
    arch: Arch<C, R>, m0: Master<C, R>, a0: Apprentice<C, R>, w: World<C, R>, acts: seq<Action>)
    requires WellFormed(arch) && Fresh(m0, a0) && AnyInv(arch, m0, a0, w) && Schedule(arch, w, acts)
    ensures AnyInv(arch, m0, a0, Live(arch, w, acts))
    decreases |acts|
  {
    hide AnyInv, Do, WellFormed, Fresh, Enabled;
    if acts != [] {
      AnyKeeps(arch, m0, a0, w, acts[0]);
      AnyRunKeeps(arch, m0, a0, Do(arch, w, acts[0]), acts[1..]);
    }
  }
}
