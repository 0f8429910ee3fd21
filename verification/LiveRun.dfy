/** What every live run keeps, whatever the interleaving and whatever the image does. */
module LiveRun {
  import opened Wrappers
  import opened WireHeader
  import opened Protocol
  import opened Lockstep
  import opened Interleaving
  import opened LostBlock

  /** Every state of every interleaving from the start satisfies one of the two invariants. */
  lemma AnyLive<C(!new), R(!new)>(arch: Arch<C, R>, cm: C, ca: C, acts: seq<Action>)
    requires WellFormed(arch) && Schedule(arch, Start(cm, ca), acts)
    ensures AnyInv(arch, StartMaster(cm), StartApprentice(ca), Live(arch, Start(cm, ca), acts))
  {
    hide Inv, Lost, WellFormed, Schedule, Live;
    StartInv(arch, StartMaster(cm), StartApprentice(ca));
    AnyRunKeeps(arch, StartMaster(cm), StartApprentice(ca), Start(cm, ca), acts);
  }

  // ---------------------------------------------------------------- the two histories

  /** Trap `k` was compared, and what came of it. */
  ghost predicate Compared<C, R>(arch: Arch<C, R>, w: World<C, R>, k: nat)
    requires k < |w.m.log| && k < |w.a.log|
  {
    var e, o := w.m.log[k], w.a.log[k];
    && Verdict(arch, e, o)
    && o.setup == e.setup
    && (o.res == Ok && o.op == Compare ==> o.after == arch.update(o.before, e.reg))
  }

  /** The number of traps compared; a packet that is no block is taken but not compared. */
  function Pairs<C, R>(a: Apprentice<C, R>): nat {
    if a.phase == Halted(BadIo) && a.log != [] then |a.log| - 1 else |a.log|
  }

  /** The history of the apprentice against that of the master. */
  ghost predicate Histories<C, R>(arch: Arch<C, R>, w: World<C, R>) {
    && Pairs(w.a) <= |w.a.log| <= |w.m.log|
    && (forall k :: 0 <= k < Pairs(w.a) ==> Compared(arch, w, k))
    && (forall k :: 0 <= k < |w.a.log| && (k < |w.a.log| - 1 || !w.a.phase.Halted?) ==> w.a.log[k].res == Ok)
    && (w.a.phase.Halted? ==> w.a.log != [] && w.a.log[|w.a.log| - 1].res == w.a.phase.res != Ok)
    && (w.a.phase.Halted? && w.a.phase != Halted(BadIo) ==> |w.m.log| == |w.a.log| && AllHaveBlock(w.m.log))
    && (w.a.phase == Halted(BadIo) ==>
          && |w.m.log| == |w.a.log| + 1 && AllHaveBlock(w.m.log[..|w.a.log| - 1])
          && !HasBlock(w.m.log[|w.a.log| - 1]))
  }

  lemma GoodHistories<C(!new), R(!new)>(arch: Arch<C, R>, m0: Master<C, R>, a0: Apprentice<C, R>, w: World<C, R>)
    requires Fresh(m0, a0) && Inv(arch, m0, a0, w)
    ensures Histories(arch, w)
  {
    hide Inv, AllHaveBlock, Compared, PairOk, Verdict, Fresh;
    PairsAgree(arch, m0, a0, w);
    InvBlocks(arch, m0, a0, w);
    forall k | 0 <= k < |w.a.log| ensures Compared(arch, w, k) && (k < |w.a.log| - 1 ==> w.a.log[k].res == Ok) {
      PairCompared(arch, w, k);
    }
    if w.a.phase.Halted? {
      PairCompared(arch, w, |w.a.log| - 1);
      NeverBadIo(arch, w.m.log[|w.a.log| - 1], w.a.log[|w.a.log| - 1]);
    }
  }

  lemma PairCompared<C, R>(arch: Arch<C, R>, w: World<C, R>, k: nat)
    requires k < |w.m.log| && k < |w.a.log| && PairOk(arch, w.m.log, w.a.log, k)
    ensures Compared(arch, w, k) && Verdict(arch, w.m.log[k], w.a.log[k])
    ensures k < |w.a.log| - 1 ==> w.a.log[k].res == Ok
  {
    hide Verdict;
  }

  lemma InvBlocks<C, R>(arch: Arch<C, R>, m0: Master<C, R>, a0: Apprentice<C, R>, w: World<C, R>)
    requires Inv(arch, m0, a0, w)
    ensures AllHaveBlock(w.m.log)
  {
  }

  lemma NeverBadIo<C, R>(arch: Arch<C, R>, e: Sent<C, R>, o: Seen<C, R>)
    requires Verdict(arch, e, o)
    ensures o.res != BadIo
  {
  }

  /** The apprentice of a lost run before the packet that is no block. */
  ghost function Before<C, R>(arch: Arch<C, R>, a: Apprentice<C, R>, e: Sent<C, R>, g: nat): Apprentice<C, R>
    requires g <= |a.log|
  {
    if a.phase.Halted? then a.(phase := WaitsFor(arch, e), log := a.log[..g]) else a
  }

  lemma StarvedPairs<C(!new), R(!new)>(
    arch: Arch<C, R>, m0: Master<C, R>, a0: Apprentice<C, R>, a: Apprentice<C, R>, good: seq<Sent<C, R>>, e: Sent<C, R>)
    requires Fresh(m0, a0) && LogOk(good) && Starved(arch, a0, a, good, e)
    ensures |good| <= |a.log|
    ensures forall k :: 0 <= k < |good| ==> PairOk(arch, good, a.log[..|good|], k) && a.log[k].res == Ok
    ensures a.phase.Halted? ==> |a.log| == |good| + 1 && a.log[|good|].res == BadIo && a.phase == Halted(BadIo)
  {
    hide LogOk, PairOk, ApprenticeAfter, AllHaveBlock, SeenOps, Checkpoints, SetupOf;
    var t := Before(arch, a, e, |good|);
    FreshApprenticeOk(arch, m0, a0, good);
    BaseOk(arch, a0, t, good);
    assert a.log[..|good|] == t.log;
    assert forall k :: 0 <= k < |good| ==> t.log[k] == a.log[k];
  }

  lemma LostHistories<C(!new), R(!new)>(
    arch: Arch<C, R>, m0: Master<C, R>, a0: Apprentice<C, R>, w: World<C, R>, g: nat)
    requires Fresh(m0, a0) && Lost(arch, m0, a0, w, g)
    ensures Histories(arch, w) && Pairs(w.a) == g
    ensures w.a.phase.Halted? ==> w.a.phase == Halted(BadIo)
  {
    hide LogOk, MasterLink, Verdict, HeaderBytes, Starved, AllHaveBlock, HasBlock;
    var good, e := w.m.log[..g], w.m.log[g];
    StarvedPairs(arch, m0, a0, w.a, good, e);
    assert AllHaveBlock(good) by { StarvedBlocks(arch, a0, w.a, good, e); }
    forall k | 0 <= k < g ensures Compared(arch, w, k) {
      assert PairOk(arch, good, w.a.log[..g], k);
      assert good[k] == w.m.log[k] && w.a.log[..g][k] == w.a.log[k];
    }
    StarvedLength(arch, a0, w.a, good, e);
  }

  lemma StarvedBlocks<C, R>(
    arch: Arch<C, R>, a0: Apprentice<C, R>, a: Apprentice<C, R>, good: seq<Sent<C, R>>, e: Sent<C, R>)
    requires Starved(arch, a0, a, good, e)
    ensures AllHaveBlock(good)
  {
  }

  lemma StarvedLength<C, R>(
    arch: Arch<C, R>, a0: Apprentice<C, R>, a: Apprentice<C, R>, good: seq<Sent<C, R>>, e: Sent<C, R>)
    requires Starved(arch, a0, a, good, e)
    ensures |a.log| == |good| + if a.phase.Halted? then 1 else 0
  {
  }

  lemma AnyHistories<C(!new), R(!new)>(arch: Arch<C, R>, cm: C, ca: C, acts: seq<Action>)
    requires WellFormed(arch) && Schedule(arch, Start(cm, ca), acts)
    ensures Histories(arch, Live(arch, Start(cm, ca), acts))
  {
    hide Inv, Lost, WellFormed, Schedule, Live, Histories;
    var m0, a0 := StartMaster<C, R>(cm), StartApprentice<C, R>(ca);
    AnyLive(arch, cm, ca, acts);
    var w := Live(arch, Start(cm, ca), acts);
    if Inv(arch, m0, a0, w) {
      GoodHistories(arch, m0, a0, w);
    } else {
      var g: nat :| Lost(arch, m0, a0, w, g);
      LostHistories(arch, m0, a0, w, g);
    }
  }

  // ---------------------------------------------------------------- the verdict

  /** The first `n` traps agreed and the test went on. */
  ghost predicate AgreedUpTo<C, R>(arch: Arch<C, R>, w: World<C, R>, n: nat) {
    && n <= |w.m.log| && n <= |w.a.log|
    && forall k :: 0 <= k < n ==> Agrees(arch, w.m.log[k], w.a.log[k]) && w.m.log[k].op != TestEnd
  }

  lemma OkMeansAgreed<C(!new), R(!new)>(arch: Arch<C, R>, w: World<C, R>, n: nat)
    requires Histories(arch, w) && n <= Pairs(w.a) && forall k :: 0 <= k < n ==> w.a.log[k].res == Ok
    ensures AgreedUpTo(arch, w, n)
  {
    hide Agrees, AllHaveBlock;
    forall k | 0 <= k < n ensures Agrees(arch, w.m.log[k], w.a.log[k]) && w.m.log[k].op != TestEnd {
      assert Compared(arch, w, k);
    }
  }

  /** Verdict correctness: when the apprentice stops, its result says exactly how the two
      histories of communicated traps compare, whatever the interleaving was.  The one result
      that is not a comparison is an I/O error, and it comes exactly when the master compared a
      memory block that it never set. */
  lemma VerdictCorrect<C(!new), R(!new)>(arch: Arch<C, R>, cm: C, ca: C, acts: seq<Action>)
    requires WellFormed(arch) && Schedule(arch, Start(cm, ca), acts)
    requires Live(arch, Start(cm, ca), acts).a.phase.Halted?
    ensures var w := Live(arch, Start(cm, ca), acts); var n := |w.a.log|; var r := w.a.phase.res;
      && 0 < n <= |w.m.log| && AgreedUpTo(arch, w, n - 1) && w.a.log[n - 1].res == r
      && (r == BadIo <==> exists k :: 0 <= k < |w.m.log| && !HasBlock(w.m.log[k]))
      && (r == BadIo ==> |w.m.log| == n + 1 && !HasBlock(w.m.log[n - 1]))
      && (r != BadIo ==> |w.m.log| == n && Verdict(arch, w.m.log[n - 1], w.a.log[n - 1]))
      && (r == End <==>
            && |w.m.log| == n && w.m.log[n - 1].op == TestEnd
            && forall k :: 0 <= k < n ==> Agrees(arch, w.m.log[k], w.a.log[k]))
  {
    hide WellFormed, Schedule, Live, Agrees;
    AnyHistories(arch, cm, ca, acts);
    var w := Live(arch, Start(cm, ca), acts);
    var n := |w.a.log|;
    OkMeansAgreed(arch, w, n - 1);
    if w.a.phase != Halted(BadIo) {
      assert Compared(arch, w, n - 1);
    }
  }

  /** As long as the apprentice runs, everything compared so far agreed. */
  lemma RunningMeansAgreed<C(!new), R(!new)>(arch: Arch<C, R>, cm: C, ca: C, acts: seq<Action>)
    requires WellFormed(arch) && Schedule(arch, Start(cm, ca), acts)
    requires !Live(arch, Start(cm, ca), acts).a.phase.Halted?
    ensures var w := Live(arch, Start(cm, ca), acts); AgreedUpTo(arch, w, |w.a.log|)
  {
    hide WellFormed, Schedule, Live, Agrees, Compared, AllHaveBlock;
    AnyHistories(arch, cm, ca, acts);
    var w := Live(arch, Start(cm, ca), acts);
    OkMeansAgreed(arch, w, |w.a.log|);
  }

  /** Every accepted COMPARE, in setup or not, overwrites the apprentice's context with the
      registers the master reported. */
  lemma AcceptedCompareUpdates<C(!new), R(!new)>(arch: Arch<C, R>, cm: C, ca: C, acts: seq<Action>, k: nat)
    requires WellFormed(arch) && Schedule(arch, Start(cm, ca), acts)
    requires k < |Live(arch, Start(cm, ca), acts).a.log|
    requires var o := Live(arch, Start(cm, ca), acts).a.log[k]; o.op == Compare && o.res == Ok
    ensures var w := Live(arch, Start(cm, ca), acts);
      k < |w.m.log| && w.a.log[k].after == arch.update(w.a.log[k].before, w.m.log[k].reg)
  {
    hide WellFormed, Schedule, Live, Verdict, AllHaveBlock;
    AnyHistories(arch, cm, ca, acts);
    var w := Live(arch, Start(cm, ca), acts);
    assert Compared(arch, w, k);
  }

  // ---------------------------------------------------------------- progress

  /** Every packet the apprentice takes, well formed or not, is answered by exactly one byte;
      nothing else is ever sent back. */
  lemma OneReplyPerPacket<C, R>(arch: Arch<C, R>, w: World<C, R>, act: Action)
    requires Enabled(w, act) && act != MAck
    ensures |Do(arch, w, act).replies| == |w.replies| + (if act == AHeader || act == APayload then 1 else 0)
  {
    hide Judge, Effect, Decode, MasterTrap, ApprenticeTrap;
  }

  /** Some side can move, or both have stopped; a stopped apprentice stops the master next. */
  ghost predicate Moves<C, R>(arch: Arch<C, R>, w: World<C, R>) {
    && (w.m.phase.Stopped? <==> forall act :: !Enabled(w, act))
    && (w.m.phase.Stopped? ==> w.m.phase.res == End && w.a.phase.Halted? && w.packets == [] && w.replies == [])
    && (w.a.phase.Halted? && !w.m.phase.Stopped? ==>
          Enabled(w, MAck) && Do(arch, w, MAck).m.phase == Stopped(End))
  }

  /** What is ready to move in a state of either kind. */
  ghost predicate Poised<C, R>(w: World<C, R>) {
    match w.m.phase
    case Running => true
    case Stopped(_) => w.packets == [] && w.replies == [] && w.a.phase.Halted?
    case _ =>
      || (w.replies == [Ok] && !w.a.phase.Halted?)
      || (w.replies == [End] && w.a.phase.Halted?)
      || (w.replies == [] && w.packets != [] && !w.a.phase.Halted?)
  }

  lemma ReadyMoves<C, R>(arch: Arch<C, R>, w: World<C, R>)
    requires Poised(w) && (w.m.phase.Stopped? ==> w.m.phase.res == End) && (w.m.phase.Running? ==> !w.a.phase.Halted?)
    ensures Moves(arch, w)
  {
    if w.m.phase.Running? {
      assert Enabled(w, MTrap);
    } else if w.replies != [] {
      assert Enabled(w, MAck);
    } else if w.a.phase.Ready? {
      assert Enabled(w, ATrap);
    } else if w.a.phase.AwaitHeader? {
      assert w.packets != [] ==> Enabled(w, AHeader);
    } else if w.a.phase.AwaitPayload? {
      assert w.packets != [] ==> Enabled(w, APayload);
    }
  }

  lemma GoodMoves<C(!new), R(!new)>(arch: Arch<C, R>, m0: Master<C, R>, a0: Apprentice<C, R>, w: World<C, R>)
    requires Inv(arch, m0, a0, w)
    ensures Moves(arch, w)
  {
    hide LogOk, AllHaveBlock, ApprenticeLink, MasterAfter, HeaderBytes, Moves, MasterTrap;
    ReadyMoves(arch, w);
  }

  lemma LostMoves<C(!new), R(!new)>(
    arch: Arch<C, R>, m0: Master<C, R>, a0: Apprentice<C, R>, w: World<C, R>, g: nat)
    requires Lost(arch, m0, a0, w, g)
    ensures Moves(arch, w)
  {
    hide LogOk, HasBlock, Starved, MasterAfter, HeaderBytes, Moves, MasterTrap;
    ReadyMoves(arch, w);
  }

  /** No deadlock: in every reachable state either both sides have stopped or one can move, and a
      stopped apprentice stops the master in the same exchange: the one that was compared last,
      or the one whose header was taken for a block. */
  lemma NoDeadlock<C(!new), R(!new)>(arch: Arch<C, R>, cm: C, ca: C, acts: seq<Action>)
    requires WellFormed(arch) && Schedule(arch, Start(cm, ca), acts)
    ensures var w := Live(arch, Start(cm, ca), acts);
      && Moves(arch, w)
      && (w.a.phase.Halted? ==> |w.m.log| == |w.a.log| + if w.a.phase == Halted(BadIo) then 1 else 0)
  {
    hide Inv, Lost, WellFormed, Schedule, Live, Moves, Compared, AllHaveBlock, HasBlock;
    var m0, a0 := StartMaster<C, R>(cm), StartApprentice<C, R>(ca);
    AnyLive(arch, cm, ca, acts);
    AnyHistories(arch, cm, ca, acts);
    var w := Live(arch, Start(cm, ca), acts);
    if Inv(arch, m0, a0, w) {
      GoodMoves(arch, m0, a0, w);
    } else {
      var g: nat :| Lost(arch, m0, a0, w, g);
      LostMoves(arch, m0, a0, w, g);
    }
  }

  // ---------------------------------------------------------------- agreement

  /** The checkpoint the apprentice has entered but the master has not reported yet. */
  function Entered<C, R>(arch: Arch<C, R>, a: Apprentice<C, R>): nat {
    if a.phase.AwaitHeader? && arch.op(arch.regs(a.cpu)) != Sigill then 1 else 0
  }

  /** Flags and counters of the two sides, up to a trap the apprentice waits in. */
  ghost predicate InStep<C, R>(arch: Arch<C, R>, w: World<C, R>) {
    && w.m.setup == w.a.setup
    && (w.m.memblock.Some? <==> w.a.memblock.Some?)
    && w.m.signals - w.m.illegal + Entered(arch, w.a) == w.a.signals - w.a.illegal
  }

  lemma TrapCounts<C, R>(arch: Arch<C, R>, b: Apprentice<C, R>)
    requires b.phase.Ready? && !Silent(arch, b)
    ensures var a := ApprenticeTrap(arch, b);
      && a.phase.AwaitHeader? && a.setup == b.setup && a.memblock == b.memblock && a.log == b.log
      && a.signals - a.illegal == b.signals - b.illegal + Entered(arch, a)
  {
  }

  lemma GoodAgreement<C(!new), R(!new)>(arch: Arch<C, R>, m0: Master<C, R>, a0: Apprentice<C, R>, w: World<C, R>)
    requires WellFormed(arch) && Fresh(m0, a0) && Inv(arch, m0, a0, w)
    ensures w.m.phase.Running? && Idle(w.a) ==> InStep(arch, w)
    ensures w.a.phase == Halted(End) ==> w.m.signals - w.m.illegal == w.a.signals - w.a.illegal
  {
    hide WellFormed, LogOk, MasterLink, HeaderBytes, PairOk, ApprenticeAfter, SeenOps, SentOps, Checkpoints, SetupOf,
      ApprenticeTrap;
    if (w.m.phase.Running? && Idle(w.a)) || w.a.phase == Halted(End) {
      FreshMasterOk(m0, a0);
      MasterCounts(arch, m0, w.m);
      FreshApprenticeOk(arch, m0, a0, w.m.log);
      BaseOk(arch, a0, w.a, w.m.log);
      PairsAgree(arch, m0, a0, w);
      OpsEqual(arch, w.a, w.m.log);
      SameCounts(arch, w.a, w.m.log);
      if w.a.phase.AwaitHeader? {
        TrapCounts(arch, Base(arch, a0, w.a, w.m.log));
      }
    }
  }

  /** Whenever nothing is in flight, the two sides agree on the setup flag, on having a block, and
      on what they counted, although each may have skipped other illegal instructions during
      setup; and they agree on the counts when the test ended well. */
  lemma QuiescentAgreement<C(!new), R(!new)>(arch: Arch<C, R>, cm: C, ca: C, acts: seq<Action>)
    requires WellFormed(arch) && Schedule(arch, Start(cm, ca), acts)
    ensures var w := Live(arch, Start(cm, ca), acts);
      && (w.m.phase.Running? && Idle(w.a) ==> InStep(arch, w))
      && (w.a.phase == Halted(End) ==> w.m.signals - w.m.illegal == w.a.signals - w.a.illegal)
  {
    hide Inv, WellFormed, Schedule, Live, InStep, LogOk, MasterLink, HasBlock, Starved, HeaderBytes;
    var m0, a0 := StartMaster<C, R>(cm), StartApprentice<C, R>(ca);
    AnyLive(arch, cm, ca, acts);
    var w := Live(arch, Start(cm, ca), acts);
    if Inv(arch, m0, a0, w) {
      GoodAgreement(arch, m0, a0, w);
    }
  }
}
