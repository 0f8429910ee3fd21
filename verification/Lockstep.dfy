/** What every run of the protocol keeps: the verdict, the lockstep of the two sides, freedom
    from deadlock, and the equality of live and replayed runs.

    Both kinds of run are related to one reference: the apprentice handling the master's
    events one after the other (`ApprenticeAfter`), with no channel in between.
 */
module Lockstep {
  import opened Wrappers
  import opened WireHeader
  import opened Protocol

  // ---------------------------------------------------------------- the reference

  function BodyOf<C, R>(e: Sent<C, R>): Body<R> {
    if RegOp(e.op) then Registers(e.reg)
    else if e.op == CompareMem && e.mem.Some? then Memory(e.mem.value)
    else Nothing
  }

  /** A master that sets its memory block before comparing it always has a block to send. */
  predicate HasBlock<C, R>(e: Sent<C, R>) { e.op == CompareMem ==> e.mem.Some? }

  predicate Silent<C, R>(arch: Arch<C, R>, a: Apprentice<C, R>) {
    arch.op(arch.regs(a.cpu)) == Sigill && a.setup
  }

  /** The apprentice takes one trap with the master's next event at hand. */
  function Serve<C, R>(arch: Arch<C, R>, a: Apprentice<C, R>, e: Sent<C, R>): Apprentice<C, R>
    requires HasBlock(e)
  {
    Decide(arch, ApprenticeTrap(arch, a), e.op, BodyOf(e)).0
  }

  predicate AllHaveBlock<C, R>(log: seq<Sent<C, R>>) { forall k :: 0 <= k < |log| ==> HasBlock(log[k]) }

  /** The apprentice after `n` traps, or as far as the given events let it come. */
  function ApprenticeAfter<C, R>(arch: Arch<C, R>, a: Apprentice<C, R>, log: seq<Sent<C, R>>, n: nat): Apprentice<C, R>
    requires AllHaveBlock(log)
  {
    if n == 0 then a
    else
      var p := ApprenticeAfter(arch, a, log, n - 1);
      if !p.phase.Ready? then p
      else if Silent(arch, p) then ApprenticeTrap(arch, p)
      else if |p.log| < |log| then Serve(arch, p, log[|p.log|])
      else p
  }

  // ---------------------------------------------------------------- what a verdict means

  /** The two sides saw the same thing. */
  ghost predicate Agrees<C, R>(arch: Arch<C, R>, e: Sent<C, R>, o: Seen<C, R>) {
    && e.op == o.op
    && (RegOp(e.op) && !e.setup ==> arch.equal(e.reg, o.reg, o.signals))
    && (e.op == CompareMem ==> e.mem == o.mem)
  }

  ghost predicate RegistersDiffer<C, R>(arch: Arch<C, R>, e: Sent<C, R>, o: Seen<C, R>) {
    RegOp(e.op) && RegOp(o.op) && !e.setup && !arch.equal(e.reg, o.reg, o.signals)
  }

  /** Each result of a comparison, characterised by what the two sides saw. */
  ghost predicate Verdict<C, R>(arch: Arch<C, R>, e: Sent<C, R>, o: Seen<C, R>) {
    && (o.res == Ok <==> Agrees(arch, e, o) && e.op != TestEnd)
    && (o.res == End <==> Agrees(arch, e, o) && e.op == TestEnd)
    && (o.res == MismatchReg <==> RegistersDiffer(arch, e, o))
    && (o.res == MismatchMem <==> e.op == o.op == CompareMem && e.mem != o.mem)
    && (o.res == MismatchOp <==> e.op != o.op && !RegistersDiffer(arch, e, o))
    && (o.res == Ok || o.res == End || o.res == MismatchReg || o.res == MismatchMem || o.res == MismatchOp)
  }

  // ---------------------------------------------------------------- histories

  function SentOps<C, R>(log: seq<Sent<C, R>>): seq<Op> {
    seq(|log|, i requires 0 <= i < |log| => log[i].op)
  }

  function SeenOps<C, R>(log: seq<Seen<C, R>>): seq<Op> {
    seq(|log|, i requires 0 <= i < |log| => log[i].op)
  }

  /** The `is_setup` flag as a function of the communicated ops. */
  function SetupOf(ops: seq<Op>): bool {
    ops != [] && SetupAfter(SetupOf(ops[..|ops| - 1]), ops[|ops| - 1])
  }

  /** `signal_count - illegal_instructions`, the number of checkpoints. */
  function Checkpoints(ops: seq<Op>): nat {
    if ops == [] then 0
    else Checkpoints(ops[..|ops| - 1]) + if ops[|ops| - 1] == Sigill then 0 else 1
  }

  lemma OpsSnoc(ops: seq<Op>, op: Op)
    ensures SetupOf(ops + [op]) == SetupAfter(SetupOf(ops), op)
    ensures Checkpoints(ops + [op]) == Checkpoints(ops) + if op == Sigill then 0 else 1
    ensures SetMemblock in ops + [op] <==> op == SetMemblock || SetMemblock in ops
  {
    assert (ops + [op])[..|ops|] == ops;
  }

  ghost predicate EventOk<C, R>(log: seq<Sent<C, R>>, k: nat)
    requires k < |log|
  {
    && log[k].setup == SetupOf(SentOps(log[..k]))
    && (log[k].mem.Some? <==> SetMemblock in SentOps(log[..k]))
    && (log[k].mem.Some? ==> |log[k].mem.value| == MEMBLOCKLEN)
    && (k < |log| - 1 ==> log[k].op != TestEnd)
  }

  ghost predicate LogOk<C, R>(log: seq<Sent<C, R>>) {
    forall k :: 0 <= k < |log| ==> EventOk(log, k)
  }

  ghost predicate MasterOk<C, R>(m: Master<C, R>) {
    && LogOk(m.log)
    && m.signals == m.illegal + Checkpoints(SentOps(m.log))
    && match m.phase
       case Running =>
         && m.setup == SetupOf(SentOps(m.log))
         && (m.memblock.Some? <==> SetMemblock in SentOps(m.log))
         && (forall k :: 0 <= k < |m.log| ==> m.log[k].op != TestEnd)
       case Stopped(r) => r == End && m.log != [] && m.log[|m.log| - 1].op == TestEnd
       case _ => false
  }

  lemma LogSnoc<C, R>(log: seq<Sent<C, R>>, e: Sent<C, R>)
    requires LogOk(log)
    requires forall k :: 0 <= k < |log| ==> log[k].op != TestEnd
    requires e.setup == SetupOf(SentOps(log))
    requires e.mem.Some? <==> SetMemblock in SentOps(log)
    requires e.mem.Some? ==> |e.mem.value| == MEMBLOCKLEN
    ensures LogOk(log + [e])
    ensures SentOps(log + [e]) == SentOps(log) + [e.op]
  {
    var log' := log + [e];
    forall k | 0 <= k < |log'| ensures EventOk(log', k) {
      if k < |log| {
        assert EventOk(log, k);
        assert log'[..k] == log[..k];
      } else {
        assert log'[..k] == log;
      }
    }
  }

  lemma MasterServeLog<C, R>(arch: Arch<C, R>, m: Master<C, R>)
    ensures m.log <= MasterServe(arch, m).log
  {
  }

  /** What serving one trap does to each field of the master. */
  lemma MasterServeFields<C(!new), R(!new)>(arch: Arch<C, R>, m: Master<C, R>)
    requires m.phase.Running?
    ensures var e := EventOf(arch, m); var m' := MasterServe(arch, m);
      && m'.signals == m.signals + 1
      && m'.illegal == m.illegal + (if e.op == Sigill then 1 else 0)
      && (if e.op == Sigill && m.setup then
            m'.log == m.log && m'.phase == Running && m'.setup == m.setup && m'.memblock == m.memblock
          else
            && m'.log == m.log + [e]
            && (e.op == TestEnd ==> m'.phase == Stopped(End))
            && (e.op != TestEnd ==>
                  && m'.phase == Running
                  && m'.setup == SetupAfter(m.setup, e.op)
                  && (m'.memblock.Some? <==> e.op == SetMemblock || m.memblock.Some?)))
  {
    hide HeaderBytes, EventOf, SetupAfter;
  }

  lemma EventFields<C(!new), R(!new)>(arch: Arch<C, R>, m: Master<C, R>)
    requires WellFormed(arch)
    ensures var e := EventOf(arch, m);
      && e.setup == m.setup
      && (e.mem.Some? <==> m.memblock.Some?)
      && (e.mem.Some? ==> |e.mem.value| == MEMBLOCKLEN)
  {
  }

  lemma MasterServeOk<C(!new), R(!new)>(arch: Arch<C, R>, m: Master<C, R>)
    requires WellFormed(arch)
    requires MasterOk(m) && m.phase.Running?
    ensures MasterOk(MasterServe(arch, m))
    ensures MasterServe(arch, m).signals == m.signals + 1
  {
    hide MasterServe, EventOf, WellFormed, LogOk, SentOps, SetupOf, Checkpoints;
    var e := EventOf(arch, m);
    MasterServeFields(arch, m);
    EventFields(arch, m);
    if !(e.op == Sigill && m.setup) {
      LogSnoc(m.log, e);
      OpsSnoc(SentOps(m.log), e.op);
    }
  }

  lemma MasterServeStopped<C, R>(arch: Arch<C, R>, m: Master<C, R>)
    requires !m.phase.Running?
    ensures MasterServe(arch, m) == m
  {
    hide MasterTrap, MasterFinish;
  }

  lemma MasterAfterStep<C, R>(arch: Arch<C, R>, m: Master<C, R>, n: nat)
    ensures MasterAfter(arch, m, n + 1) == MasterServe(arch, MasterAfter(arch, m, n))
  {
    hide MasterServe;
  }

  lemma {:induction false} MasterAfterOk<C(!new), R(!new)>(arch: Arch<C, R>, m: Master<C, R>, n: nat)
    requires WellFormed(arch)
    requires MasterOk(m)
    ensures MasterOk(MasterAfter(arch, m, n))
    ensures MasterAfter(arch, m, n).signals <= m.signals + n
    ensures MasterAfter(arch, m, n).phase.Running? ==> MasterAfter(arch, m, n).signals == m.signals + n
  {
    hide MasterServe, MasterOk, WellFormed;
    if n > 0 {
      MasterAfterOk(arch, m, n - 1);
      var p := MasterAfter(arch, m, n - 1);
      if p.phase.Running? {
        MasterServeOk(arch, p);
      } else {
        MasterServeStopped(arch, p);
      }
    }
  }

  /** A later state of the unstopped master has a longer history. */
  lemma {:induction false} MasterLogGrows<C, R>(arch: Arch<C, R>, m: Master<C, R>, i: nat, j: nat)
    requires i <= j
    ensures MasterAfter(arch, m, i).log <= MasterAfter(arch, m, j).log
    ensures !MasterAfter(arch, m, i).phase.Running? ==> MasterAfter(arch, m, i) == MasterAfter(arch, m, j)
  {
    hide MasterServe;
    if i < j {
      MasterLogGrows(arch, m, i, j - 1);
      var p := MasterAfter(arch, m, j - 1);
      MasterServeLog(arch, p);
      if !p.phase.Running? {
        MasterServeStopped(arch, p);
      }
    }
  }

  // ---------------------------------------------------------------- the apprentice against a history

  ghost predicate PairOk<C, R>(arch: Arch<C, R>, log: seq<Sent<C, R>>, seen: seq<Seen<C, R>>, k: nat)
    requires k < |log| && k < |seen|
  {
    && Verdict(arch, log[k], seen[k])
    && seen[k].setup == log[k].setup
    && (k < |seen| - 1 ==> seen[k].res == Ok)
    && (seen[k].res == Ok && seen[k].op == Compare ==> seen[k].after == arch.update(seen[k].before, log[k].reg))
  }

  /** The apprentice between two traps, or stopped. */
  ghost predicate ApprenticeOk<C, R>(arch: Arch<C, R>, a: Apprentice<C, R>, log: seq<Sent<C, R>>) {
    && |a.log| <= |log|
    && (forall k :: 0 <= k < |a.log| ==> PairOk(arch, log, a.log, k))
    && a.signals == a.illegal + Checkpoints(SeenOps(a.log))
    && match a.phase
       case Ready =>
         && (forall k :: 0 <= k < |a.log| ==> a.log[k].res == Ok)
         && a.setup == SetupOf(SeenOps(a.log))
         && (a.memblock.Some? <==> SetMemblock in SeenOps(a.log))
       case Halted(r) => a.log != [] && a.log[|a.log| - 1].res == r && r != Ok
       case _ => false
  }

  /** Accepted traps have equal ops on both sides. */
  lemma SameOps<C, R>(arch: Arch<C, R>, a: Apprentice<C, R>, log: seq<Sent<C, R>>)
    requires ApprenticeOk(arch, a, log) && a.phase.Ready?
    ensures SeenOps(a.log) == SentOps(log[..|a.log|])
  {
    forall k | 0 <= k < |a.log| ensures a.log[k].op == log[k].op {
      assert PairOk(arch, log, a.log, k);
    }
  }

  /** The comparison itself: its result is the verdict on the pair, and it is answered once. */
  lemma DecideVerdict<C(!new), R(!new)>(arch: Arch<C, R>, t: Apprentice<C, R>, e: Sent<C, R>)
    requires HasBlock(e)
    requires e.setup == t.setup
    requires e.mem.Some? ==> t.memblock.Some?
    ensures var (a, replies) := Decide(arch, t, e.op, BodyOf(e));
      && |a.log| == |t.log| + 1 && a.log[..|t.log|] == t.log
      && var o := a.log[|t.log|];
      && Verdict(arch, e, o)
      && o.op == arch.op(arch.regs(t.cpu)) && o.setup == t.setup
      && (o.res == Ok && o.op == Compare ==> o.after == arch.update(o.before, e.reg))
      && a.phase == (if o.res == Ok then Ready else Halted(o.res))
      && replies == [if o.res == Ok then Ok else End]
  {
  }

  /** What an answered trap does to the fields of the apprentice. */
  lemma ServeFields<C(!new), R(!new)>(arch: Arch<C, R>, a: Apprentice<C, R>, e: Sent<C, R>)
    requires HasBlock(e) && a.phase.Ready? && !Silent(arch, a)
    ensures var b := Serve(arch, a, e); var op := arch.op(arch.regs(a.cpu));
      && b.signals == a.signals + 1
      && b.illegal == a.illegal + (if op == Sigill then 1 else 0)
      && (b.phase.Ready? ==>
            && b.setup == SetupAfter(a.setup, op)
            && (b.memblock.Some? <==> op == SetMemblock || a.memblock.Some?))
  {
    hide Judge, Effect, SetupAfter;
  }

  lemma PairsSnoc<C(!new), R(!new)>(
    arch: Arch<C, R>, log: seq<Sent<C, R>>, seen: seq<Seen<C, R>>, seen': seq<Seen<C, R>>)
    requires |seen'| == |seen| + 1 <= |log| && seen'[..|seen|] == seen
    requires forall k :: 0 <= k < |seen| ==> PairOk(arch, log, seen, k) && seen[k].res == Ok
    requires PairOk(arch, log, seen', |seen|)
    ensures forall k :: 0 <= k < |seen'| ==> PairOk(arch, log, seen', k)
    ensures SeenOps(seen') == SeenOps(seen) + [seen'[|seen|].op]
  {
    hide Verdict;
    forall k | 0 <= k < |seen| ensures PairOk(arch, log, seen', k) {
      assert PairOk(arch, log, seen, k);
      assert seen'[k] == seen[k];
    }
  }

  /** The entry an answered trap adds to the log. */
  lemma ServePair<C(!new), R(!new)>(arch: Arch<C, R>, a: Apprentice<C, R>, log: seq<Sent<C, R>>)
    requires LogOk(log) && AllHaveBlock(log)
    requires ApprenticeOk(arch, a, log) && a.phase.Ready? && !Silent(arch, a)
    requires |a.log| < |log|
    ensures var n := |a.log|; var b := Serve(arch, a, log[n]);
      && |b.log| == n + 1 && b.log[..n] == a.log && PairOk(arch, log, b.log, n)
      && b.log[n].op == arch.op(arch.regs(a.cpu))
      && b.phase == (if b.log[n].res == Ok then Ready else Halted(b.log[n].res))
  {
    hide Decide, Verdict, SentOps, SeenOps, SetupOf, Checkpoints;
    var n := |a.log|;
    assert EventOk(log, n);
    SameOps(arch, a, log);
    DecideVerdict(arch, ApprenticeTrap(arch, a), log[n]);
  }

  lemma ServeOk<C(!new), R(!new)>(arch: Arch<C, R>, a: Apprentice<C, R>, log: seq<Sent<C, R>>)
    requires LogOk(log) && AllHaveBlock(log)
    requires ApprenticeOk(arch, a, log) && a.phase.Ready? && !Silent(arch, a)
    requires |a.log| < |log|
    ensures ApprenticeOk(arch, Serve(arch, a, log[|a.log|]), log)
    ensures |Serve(arch, a, log[|a.log|]).log| == |a.log| + 1
    ensures Serve(arch, a, log[|a.log|]).signals == a.signals + 1
  {
    hide Serve, PairOk, SeenOps, SetupOf, Checkpoints, LogOk, EventOk;
    var n := |a.log|;
    assert HasBlock(log[n]);
    ServePair(arch, a, log);
    ServeFields(arch, a, log[n]);
    var b := Serve(arch, a, log[n]);
    PairsSnoc(arch, log, a.log, b.log);
    OpsSnoc(SeenOps(a.log), b.log[n].op);
    assert forall k :: 0 <= k < n ==> b.log[..n][k] == b.log[k];
  }

  lemma SilentOk<C(!new), R(!new)>(arch: Arch<C, R>, a: Apprentice<C, R>, log: seq<Sent<C, R>>)
    requires ApprenticeOk(arch, a, log) && a.phase.Ready? && Silent(arch, a)
    ensures ApprenticeOk(arch, ApprenticeTrap(arch, a), log)
    ensures ApprenticeTrap(arch, a).signals == a.signals + 1
  {
    hide PairOk, SeenOps, SetupOf, Checkpoints;
  }

  lemma {:induction false} ApprenticeAfterOk<C(!new), R(!new)>(
    arch: Arch<C, R>, a: Apprentice<C, R>, log: seq<Sent<C, R>>, n: nat)
    requires LogOk(log) && AllHaveBlock(log)
    requires ApprenticeOk(arch, a, log)
    ensures ApprenticeOk(arch, ApprenticeAfter(arch, a, log, n), log)
    ensures ApprenticeAfter(arch, a, log, n).signals <= a.signals + n
  {
    hide Serve, ApprenticeOk, LogOk, ApprenticeTrap;
    if n > 0 {
      ApprenticeAfterOk(arch, a, log, n - 1);
      var p := ApprenticeAfter(arch, a, log, n - 1);
      if p.phase.Ready? && Silent(arch, p) {
        SilentOk(arch, p, log);
      } else if p.phase.Ready? && |p.log| < |log| {
        ServeOk(arch, p, log);
      }
    }
  }

  lemma StepSignals<C(!new), R(!new)>(arch: Arch<C, R>, a: Apprentice<C, R>, log: seq<Sent<C, R>>, n: nat)
    requires AllHaveBlock(log) && n > 0
    ensures ApprenticeAfter(arch, a, log, n).signals <= ApprenticeAfter(arch, a, log, n - 1).signals + 1
  {
    hide Serve;
    var p := ApprenticeAfter(arch, a, log, n - 1);
    if p.phase.Ready? && !Silent(arch, p) && |p.log| < |log| {
      ServeFields(arch, p, log[|p.log|]);
    }
  }

  /** More events do not change what was already done with fewer. */
  lemma {:induction false} MoreEvents<C(!new), R(!new)>(
    arch: Arch<C, R>, a: Apprentice<C, R>, log: seq<Sent<C, R>>, log': seq<Sent<C, R>>, n: nat)
    requires log <= log' && AllHaveBlock(log')
    requires AllHaveBlock(log)
    requires LogOk(log) && ApprenticeOk(arch, a, log)
    requires ApprenticeAfter(arch, a, log, n).signals == a.signals + n
    ensures ApprenticeAfter(arch, a, log', n) == ApprenticeAfter(arch, a, log, n)
  {
    hide Serve, ApprenticeOk, LogOk, ApprenticeTrap;
    if n > 0 {
      ApprenticeAfterOk(arch, a, log, n - 1);
      StepSignals(arch, a, log, n);
      MoreEvents(arch, a, log, log', n - 1);
    }
  }

  /** A stopped apprentice stays as it is. */
  lemma {:induction false} StoppedStays<C, R>(
    arch: Arch<C, R>, a: Apprentice<C, R>, log: seq<Sent<C, R>>, i: nat, j: nat)
    requires AllHaveBlock(log) && i <= j
    requires ApprenticeAfter(arch, a, log, i).phase.Halted?
    ensures ApprenticeAfter(arch, a, log, j) == ApprenticeAfter(arch, a, log, i)
  {
    hide Serve, ApprenticeTrap;
    if i < j {
      StoppedStays(arch, a, log, i, j - 1);
    }
  }
}
