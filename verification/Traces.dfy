/** What the two histories of a run record is what happened: the contexts the processors went
    through, the setup flag, and the memory at the block that was set last. */
module Traces {
  import opened Wrappers
  import opened WireHeader
  import opened Protocol
  import opened Lockstep
  import LiveRun

  // ---------------------------------------------------------------- the block and the setup flag

  /** Kind and registers of each trap. */
  datatype Trap<+R> = Trap(op: Op, reg: R)

  function SentTraps<C, R>(log: seq<Sent<C, R>>): (ts: seq<Trap<R>>)
    ensures |ts| == |log| && forall i :: 0 <= i < |log| ==> ts[i] == Trap(log[i].op, log[i].reg)
  {
    seq(|log|, i requires 0 <= i < |log| => Trap(log[i].op, log[i].reg))
  }

  function SeenTraps<C, R>(log: seq<Seen<C, R>>): (ts: seq<Trap<R>>)
    ensures |ts| == |log| && forall i :: 0 <= i < |log| ==> ts[i] == Trap(log[i].op, log[i].reg)
  {
    seq(|log|, i requires 0 <= i < |log| => Trap(log[i].op, log[i].reg))
  }

  /** The block address after the given traps, and the setup flag. */
  function BlockOf<C, R>(arch: Arch<C, R>, ts: seq<Trap<R>>): Option<nat> {
    if ts == [] then None
    else
      var t := ts[|ts| - 1];
      if t.op == SetMemblock then Some(arch.param(t.reg)) else BlockOf(arch, ts[..|ts| - 1])
  }

  function FlagOf<R>(ts: seq<Trap<R>>): bool {
    ts != [] && SetupAfter(FlagOf(ts[..|ts| - 1]), ts[|ts| - 1].op)
  }

  /** Trap `j` is the last SETMEMBLOCK among the given traps. */
  ghost predicate LastSet<R>(ts: seq<Trap<R>>, j: nat) {
    j < |ts| && ts[j].op == SetMemblock && forall i :: j < i < |ts| ==> ts[i].op != SetMemblock
  }

  /** Trap `j` opened a setup that was not closed. */
  ghost predicate OpenedAt<R>(ts: seq<Trap<R>>, j: nat) {
    j < |ts| && ts[j].op == SetupBegin && forall i :: j < i < |ts| ==> ts[i].op != SetupEnd
  }

  /** The block is the parameter of the last SETMEMBLOCK. */
  lemma {:induction false} BlockMeans<C, R>(arch: Arch<C, R>, ts: seq<Trap<R>>)
    ensures BlockOf(arch, ts).None? <==> forall j :: 0 <= j < |ts| ==> ts[j].op != SetMemblock
    ensures forall j: nat :: LastSet(ts, j) ==> BlockOf(arch, ts) == Some(arch.param(ts[j].reg))
  {
    if ts != [] && ts[|ts| - 1].op != SetMemblock {
      var init := ts[..|ts| - 1];
      BlockMeans(arch, init);
      forall j: nat | LastSet(ts, j) ensures BlockOf(arch, ts) == Some(arch.param(ts[j].reg)) {
        assert LastSet(init, j) && init[j] == ts[j];
      }
      assert forall j :: 0 <= j < |init| ==> init[j] == ts[j];
    }
  }

  /** The flag is set exactly while some SETUPBEGIN has no SETUPEND behind it. */
  lemma {:induction false} FlagMeans<R>(ts: seq<Trap<R>>)
    ensures FlagOf(ts) <==> exists j: nat :: OpenedAt(ts, j)
  {
    if ts != [] {
      var n := |ts| - 1;
      var init := ts[..n];
      FlagMeans(init);
      if ts[n].op == SetupBegin {
        assert OpenedAt(ts, n);
      } else if ts[n].op != SetupEnd {
        if FlagOf(init) {
          var j: nat :| OpenedAt(init, j);
          assert OpenedAt(ts, j);
        }
        if exists j: nat :: OpenedAt(ts, j) {
          var j: nat :| OpenedAt(ts, j);
          assert OpenedAt(init, j);
        }
      }
    }
  }

  lemma TrapsSnoc<C, R>(arch: Arch<C, R>, ts: seq<Trap<R>>, t: Trap<R>)
    ensures BlockOf(arch, ts + [t]) == if t.op == SetMemblock then Some(arch.param(t.reg)) else BlockOf(arch, ts)
    ensures FlagOf(ts + [t]) == SetupAfter(FlagOf(ts), t.op)
  {
    assert (ts + [t])[..|ts|] == ts;
  }

  // ---------------------------------------------------------------- one moment of a history

  /** From `c`, `n` illegal instructions of the setup are passed over, and `d` is reached. */
  ghost predicate Passes<C, R>(arch: Arch<C, R>, c: C, n: nat, d: C, setup: bool) {
    if n == 0 then c == d
    else setup && arch.op(arch.regs(c)) == Sigill && Passes(arch, arch.resume(c), n - 1, d, setup)
  }

  lemma {:induction false} PassOne<C, R>(arch: Arch<C, R>, c: C, n: nat, d: C)
    requires Passes(arch, c, n, d, true) && arch.op(arch.regs(d)) == Sigill
    ensures Passes(arch, c, n + 1, arch.resume(d), true)
  {
    if n > 0 {
      PassOne(arch, arch.resume(c), n - 1, d);
    }
  }

  /** The memory at the block that was set last, if one was. */
  function Block8K<C, R>(arch: Arch<C, R>, c: C, ts: seq<Trap<R>>): Option<seq<Byte>> {
    match BlockOf(arch, ts) case None => None case Some(b) => Some(arch.memory(c, b))
  }

  /** What an op other than COMPARE leaves of the context: GETMEMBLOCK adds the address of the block
      to the parameter register, and nothing else changes it. */
  function Left<C, R>(arch: Arch<C, R>, ts: seq<Trap<R>>, c: C): C {
    var r := arch.regs(c);
    if arch.op(r) != GetMemblock then c
    else arch.setParam(c, (arch.param(r) + Address(BlockOf(arch, ts))) % Pow256(arch.ptr.Bytes()))
  }

  // ---------------------------------------------------------------- the apprentice

  /** The context the image runs on from after `k` traps. */
  function SeenFrom<C, R>(arch: Arch<C, R>, c0: C, log: seq<Seen<C, R>>, k: nat): C
    requires k <= |log|
  {
    if k == 0 then c0 else arch.resume(log[k - 1].after)
  }

  function SignalsTo<C, R>(log: seq<Seen<C, R>>, k: nat): nat
    requires k <= |log|
  {
    if k == 0 then 0 else log[k - 1].signals
  }

  ghost predicate SeenTrue<C, R>(arch: Arch<C, R>, c0: C, log: seq<Seen<C, R>>, k: nat)
    requires k < |log|
  {
    var o, ts := log[k], SeenTraps(log[..k]);
    && o.reg == arch.regs(o.before) && o.op == arch.op(o.reg)
    && o.mem == Block8K(arch, o.before, ts) && o.setup == FlagOf(ts)
    && (o.res == Ok && o.op != Compare ==> o.after == Left(arch, ts, o.before))
    && exists n: nat ::
         Passes(arch, SeenFrom(arch, c0, log, k), n, o.before, o.setup) && o.signals == SignalsTo(log, k) + n + 1
  }

  /** The apprentice is where its history says. */
  ghost predicate ApprenticeThere<C, R>(arch: Arch<C, R>, c0: C, a: Apprentice<C, R>) {
    && (forall k :: 0 <= k < |a.log| ==> SeenTrue(arch, c0, a.log, k))
    && (!a.phase.Halted? ==>
          && a.memblock == BlockOf(arch, SeenTraps(a.log)) && a.setup == FlagOf(SeenTraps(a.log))
          && exists n: nat ::
               && Passes(arch, SeenFrom(arch, c0, a.log, |a.log|), n, a.cpu, a.setup)
               && a.signals == SignalsTo(a.log, |a.log|) + n + if a.phase.Ready? then 0 else 1)
  }

  lemma SeenSnoc<C, R>(arch: Arch<C, R>, c0: C, log: seq<Seen<C, R>>, o: Seen<C, R>, k: nat)
    requires k < |log| && SeenTrue(arch, c0, log, k)
    ensures SeenTrue(arch, c0, log + [o], k)
  {
    hide BlockOf, FlagOf, Passes, Left;
    assert (log + [o])[..k] == log[..k];
    assert SeenFrom(arch, c0, log + [o], k) == SeenFrom(arch, c0, log, k);
  }

  lemma ApprenticeTrapThere<C, R>(arch: Arch<C, R>, c0: C, a: Apprentice<C, R>)
    requires ApprenticeThere(arch, c0, a) && a.phase.Ready?
    ensures ApprenticeThere(arch, c0, ApprenticeTrap(arch, a))
  {
    hide BlockOf, FlagOf, SeenTrue;
    var n: nat :|
      && Passes(arch, SeenFrom(arch, c0, a.log, |a.log|), n, a.cpu, a.setup)
      && a.signals == SignalsTo(a.log, |a.log|) + n;
    if arch.op(arch.regs(a.cpu)) == Sigill && a.setup {
      PassOne(arch, SeenFrom(arch, c0, a.log, |a.log|), n, a.cpu);
    }
  }

  lemma ConcludeThere<C, R>(arch: Arch<C, R>, c0: C, a: Apprentice<C, R>, res: Result, after: C)
    requires ApprenticeThere(arch, c0, a) && (a.phase.AwaitHeader? || a.phase.AwaitPayload?)
    requires res == Ok && arch.op(arch.regs(a.cpu)) != Compare ==> after == Left(arch, SeenTraps(a.log), a.cpu)
    ensures ApprenticeThere(arch, c0, Conclude(arch, a, res, after).0)
  {
    hide BlockOf, FlagOf, Left, SetupAfter;
    var b := Conclude(arch, a, res, after).0;
    var r := arch.regs(a.cpu);
    var o := Seen(arch.op(r), r, OwnMemory(arch, a), a.setup, a.signals, res, a.cpu, after);
    assert b.log == a.log + [o];
    hide SeenTrue, Conclude;
    forall k | 0 <= k < |b.log| ensures SeenTrue(arch, c0, b.log, k) {
      if k < |a.log| {
        SeenSnoc(arch, c0, a.log, o, k);
      } else {
        LastSeen(arch, c0, a, o);
      }
    }
    ConcludeState(arch, c0, a, res, after, o);
  }

  lemma LastSeen<C, R>(arch: Arch<C, R>, c0: C, a: Apprentice<C, R>, o: Seen<C, R>)
    requires ApprenticeThere(arch, c0, a) && (a.phase.AwaitHeader? || a.phase.AwaitPayload?)
    requires var r := arch.regs(a.cpu);
      o == Seen(arch.op(r), r, OwnMemory(arch, a), a.setup, a.signals, o.res, a.cpu, o.after)
    requires o.res == Ok && o.op != Compare ==> o.after == Left(arch, SeenTraps(a.log), a.cpu)
    ensures SeenTrue(arch, c0, a.log + [o], |a.log|)
  {
    hide BlockOf, FlagOf, Passes, Left;
    var log := a.log + [o];
    assert log[..|a.log|] == a.log;
    assert SeenFrom(arch, c0, log, |a.log|) == SeenFrom(arch, c0, a.log, |a.log|);
  }

  lemma ConcludeState<C, R>(arch: Arch<C, R>, c0: C, a: Apprentice<C, R>, res: Result, after: C, o: Seen<C, R>)
    requires ApprenticeThere(arch, c0, a)
    requires var r := arch.regs(a.cpu);
      o == Seen(arch.op(r), r, OwnMemory(arch, a), a.setup, a.signals, res, a.cpu, after)
    requires a.phase.AwaitHeader? || a.phase.AwaitPayload?
    ensures var b := Conclude(arch, a, res, after).0;
      !b.phase.Halted? ==>
        && b.memblock == BlockOf(arch, SeenTraps(b.log)) && b.setup == FlagOf(SeenTraps(b.log)) && b.phase.Ready?
        && Passes(arch, SeenFrom(arch, c0, b.log, |b.log|), 0, b.cpu, b.setup)
        && b.signals == SignalsTo(b.log, |b.log|) + 0
  {
    hide BlockOf, FlagOf, SeenTrue, SetupAfter, OwnMemory;
    var b := Conclude(arch, a, res, after).0;
    if res == Ok {
      assert SeenTraps(b.log) == SeenTraps(a.log) + [Trap(o.op, o.reg)];
      TrapsSnoc(arch, SeenTraps(a.log), Trap(o.op, o.reg));
    }
  }

  lemma DecideThere<C, R>(arch: Arch<C, R>, c0: C, a: Apprentice<C, R>, mop: Op, body: Body<R>)
    requires ApprenticeThere(arch, c0, a) && (a.phase.AwaitHeader? || a.phase.AwaitPayload?)
    requires (RegOp(mop) ==> body.Registers?) && (mop == CompareMem ==> body.Memory?)
    ensures ApprenticeThere(arch, c0, Decide(arch, a, mop, body).0)
  {
    hide Judge, Conclude, BlockOf, FlagOf, SeenTrue, Passes;
    var res := Judge(arch, a, mop, body);
    ConcludeThere(arch, c0, a, res, if res == Ok then Effect(arch, a, body) else a.cpu);
  }

  lemma HeaderThere<C, R>(arch: Arch<C, R>, c0: C, a: Apprentice<C, R>, got: Option<seq<Byte>>)
    requires ApprenticeThere(arch, c0, a) && a.phase.AwaitHeader?
    requires got.Some? ==> |got.value| == HeaderLen(arch.ptr)
    ensures ApprenticeThere(arch, c0, ApprenticeHeader(arch, a, got).0)
  {
    hide Decide, Conclude, Decode, BlockOf, FlagOf, SeenTrue, Passes, Left;
    forall res | res != Ok ensures ApprenticeThere(arch, c0, Conclude(arch, a, res, a.cpu).0) {
      ConcludeThere(arch, c0, a, res, a.cpu);
    }
    forall mop | !RegOp(mop) && mop != CompareMem
      ensures ApprenticeThere(arch, c0, Decide(arch, a, mop, Nothing).0)
    {
      DecideThere(arch, c0, a, mop, Nothing);
    }
  }

  lemma PayloadThere<C, R>(arch: Arch<C, R>, c0: C, a: Apprentice<C, R>, got: Option<seq<Byte>>)
    requires ApprenticeThere(arch, c0, a) && a.phase.AwaitPayload?
    ensures ApprenticeThere(arch, c0, ApprenticePayload(arch, a, got).0)
  {
    hide Decide, Conclude, BlockOf, FlagOf, SeenTrue, Passes, Left, ApprenticeThere;
    ConcludeThere(arch, c0, a, BadIo, a.cpu);
    ConcludeThere(arch, c0, a, BadSizeReginfo, a.cpu);
    if got.Some? {
      if RegOp(a.phase.mop) {
        DecideThere(arch, c0, a, a.phase.mop, Registers(arch.decode(got.value)));
      } else {
        DecideThere(arch, c0, a, a.phase.mop, Memory(got.value));
      }
    }
  }

  // ---------------------------------------------------------------- the master

  /** The context the image runs on from after `k` traps. */
  function SentFrom<C, R>(arch: Arch<C, R>, c0: C, log: seq<Sent<C, R>>, k: nat): C
    requires k <= |log|
  {
    if k == 0 then c0 else arch.resume(Left(arch, SentTraps(log[..k - 1]), log[k - 1].before))
  }

  ghost predicate SentTrue<C, R>(arch: Arch<C, R>, c0: C, log: seq<Sent<C, R>>, k: nat)
    requires k < |log|
  {
    var e, ts := log[k], SentTraps(log[..k]);
    && e.reg == arch.regs(e.before) && e.op == arch.op(e.reg)
    && e.mem == Block8K(arch, e.before, ts) && e.setup == FlagOf(ts)
    && exists n: nat :: Passes(arch, SentFrom(arch, c0, log, k), n, e.before, e.setup)
  }

  /** The master is where its history says. */
  ghost predicate MasterThere<C, R>(arch: Arch<C, R>, c0: C, m: Master<C, R>) {
    && (forall k :: 0 <= k < |m.log| ==> SentTrue(arch, c0, m.log, k))
    && match m.phase
       case Running =>
         && m.memblock == BlockOf(arch, SentTraps(m.log)) && m.setup == FlagOf(SentTraps(m.log))
         && exists n: nat :: Passes(arch, SentFrom(arch, c0, m.log, |m.log|), n, m.cpu, m.setup)
       case SentHeader(e) => AtEvent(arch, m, e)
       case SentPayload(e) => AtEvent(arch, m, e)
       case Stopped(_) => true
  }

  /** The trap being reported is the last one, and its effect is still to come. */
  ghost predicate AtEvent<C, R>(arch: Arch<C, R>, m: Master<C, R>, e: Sent<C, R>) {
    && m.log != [] && e == m.log[|m.log| - 1] && m.cpu == e.before
    && var ts := SentTraps(m.log[..|m.log| - 1]); m.memblock == BlockOf(arch, ts) && m.setup == FlagOf(ts)
  }

  lemma SentSnoc<C, R>(arch: Arch<C, R>, c0: C, log: seq<Sent<C, R>>, e: Sent<C, R>, k: nat)
    requires k < |log| && SentTrue(arch, c0, log, k)
    ensures SentTrue(arch, c0, log + [e], k)
  {
    hide BlockOf, FlagOf, Passes, Left;
    assert (log + [e])[..k] == log[..k];
    if k > 0 {
      assert (log + [e])[..k - 1] == log[..k - 1];
    }
    assert SentFrom(arch, c0, log + [e], k) == SentFrom(arch, c0, log, k);
  }

  lemma LastSent<C, R>(arch: Arch<C, R>, c0: C, m: Master<C, R>)
    requires MasterThere(arch, c0, m) && m.phase.Running?
    ensures SentTrue(arch, c0, m.log + [EventOf(arch, m)], |m.log|)
  {
    hide BlockOf, FlagOf, Passes, Left;
    var log := m.log + [EventOf(arch, m)];
    assert log[..|m.log|] == m.log;
    if m.log != [] {
      assert log[..|m.log| - 1] == m.log[..|m.log| - 1];
    }
    assert SentFrom(arch, c0, log, |m.log|) == SentFrom(arch, c0, m.log, |m.log|);
  }

  lemma MasterTrapThere<C, R>(arch: Arch<C, R>, c0: C, m: Master<C, R>)
    requires MasterThere(arch, c0, m) && m.phase.Running?
    ensures MasterThere(arch, c0, MasterTrap(arch, m).0)
  {
    hide BlockOf, FlagOf, SentTrue, HeaderBytes;
    var e := EventOf(arch, m);
    if e.op == Sigill && m.setup {
      var n: nat :| Passes(arch, SentFrom(arch, c0, m.log, |m.log|), n, m.cpu, m.setup);
      PassOne(arch, SentFrom(arch, c0, m.log, |m.log|), n, m.cpu);
    } else {
      var log := m.log + [e];
      forall k | 0 <= k < |log| ensures SentTrue(arch, c0, log, k) {
        if k < |m.log| {
          SentSnoc(arch, c0, m.log, e, k);
        } else {
          LastSent(arch, c0, m);
        }
      }
      assert log[..|m.log|] == m.log;
    }
  }

  lemma MasterAckThere<C, R>(arch: Arch<C, R>, c0: C, m: Master<C, R>, resp: Result)
    requires MasterThere(arch, c0, m) && (m.phase.SentHeader? || m.phase.SentPayload?)
    ensures MasterThere(arch, c0, MasterAck(arch, m, resp).0)
  {
    hide BlockOf, FlagOf, SentTrue, PayloadOf, MasterFinish;
    MasterFinishThere(arch, c0, m);
  }

  lemma MasterFinishThere<C, R>(arch: Arch<C, R>, c0: C, m: Master<C, R>)
    requires MasterThere(arch, c0, m) && (m.phase.SentHeader? || m.phase.SentPayload?)
    ensures MasterThere(arch, c0, MasterFinish(arch, m, m.phase.e))
  {
    hide BlockOf, FlagOf, SetupAfter;
    var e, n := m.phase.e, |m.log| - 1;
    assert SentTrue(arch, c0, m.log, n);
    hide SentTrue;
    assert SentTraps(m.log) == SentTraps(m.log[..n]) + [Trap(e.op, e.reg)];
    TrapsSnoc(arch, SentTraps(m.log[..n]), Trap(e.op, e.reg));
    var m' := MasterFinish(arch, m, e);
    assert m'.log == m.log;
    if e.op != TestEnd {
      assert Passes(arch, SentFrom(arch, c0, m'.log, |m'.log|), 0, m'.cpu, m'.setup);
    }
  }

  // ---------------------------------------------------------------- whole runs

  ghost predicate BothThere<C, R>(arch: Arch<C, R>, cm: C, ca: C, w: World<C, R>) {
    MasterThere(arch, cm, w.m) && ApprenticeThere(arch, ca, w.a)
  }

  lemma ActionThere<C, R>(arch: Arch<C, R>, cm: C, ca: C, w: World<C, R>, act: Action)
    requires BothThere(arch, cm, ca, w) && Enabled(w, act)
    ensures BothThere(arch, cm, ca, Do(arch, w, act))
  {
    hide MasterThere, ApprenticeThere, MasterTrap, MasterAck, ApprenticeTrap, ApprenticeHeader, ApprenticePayload;
    match act {
      case MTrap => MasterTrapThere(arch, cm, w.m);
      case MAck => MasterAckThere(arch, cm, w.m, w.replies[0]);
      case ATrap => ApprenticeTrapThere(arch, ca, w.a);
      case AHeader => HeaderThere(arch, ca, w.a, Received(w.packets[0], HeaderLen(arch.ptr)));
      case APayload => PayloadThere(arch, ca, w.a, Received(w.packets[0], w.a.phase.h.size));
    }
  }

  lemma {:induction false} RunThere<C, R>(arch: Arch<C, R>, cm: C, ca: C, w: World<C, R>, acts: seq<Action>)
    requires BothThere(arch, cm, ca, w) && Schedule(arch, w, acts)
    ensures BothThere(arch, cm, ca, Live(arch, w, acts))
    decreases |acts|
  {
    hide BothThere, Do, Enabled;
    if acts != [] {
      ActionThere(arch, cm, ca, w, acts[0]);
      RunThere(arch, cm, ca, Do(arch, w, acts[0]), acts[1..]);
    }
  }

  lemma StartThere<C, R>(arch: Arch<C, R>, cm: C, ca: C)
    ensures BothThere(arch, cm, ca, Start(cm, ca))
  {
    var w := Start<C, R>(cm, ca);
    assert Passes(arch, SentFrom(arch, cm, w.m.log, 0), 0, w.m.cpu, w.m.setup);
    assert Passes(arch, SeenFrom(arch, ca, w.a.log, 0), 0, w.a.cpu, w.a.setup);
  }

  /** Each trap of a history is the one its context shows, reached from the context that the trap
      before left by passing over illegal instructions of the setup only. */
  ghost predicate AllSent<C, R>(arch: Arch<C, R>, c0: C, log: seq<Sent<C, R>>) {
    forall k :: 0 <= k < |log| ==> SentTrue(arch, c0, log, k)
  }

  ghost predicate AllSeen<C, R>(arch: Arch<C, R>, c0: C, log: seq<Seen<C, R>>) {
    forall k :: 0 <= k < |log| ==> SeenTrue(arch, c0, log, k)
  }

  /** In every run both histories are true. */
  lemma HistoriesTrue<C, R>(arch: Arch<C, R>, cm: C, ca: C, acts: seq<Action>)
    requires Schedule(arch, Start(cm, ca), acts)
    ensures var w := Live(arch, Start(cm, ca), acts); AllSent(arch, cm, w.m.log) && AllSeen(arch, ca, w.a.log)
  {
    hide Live, Schedule, SentTrue, SeenTrue;
    StartThere(arch, cm, ca);
    RunThere(arch, cm, ca, Start(cm, ca), acts);
  }

  /** Trap `k` is recorded with the memory at the parameter of the last SETMEMBLOCK before it, if there
      is one; and as part of the setup exactly while a SETUPBEGIN before it has no SETUPEND behind it. */
  ghost predicate SentShows<C, R>(arch: Arch<C, R>, log: seq<Sent<C, R>>, k: nat)
    requires k < |log|
  {
    var e, ts := log[k], SentTraps(log[..k]);
    && e.reg == arch.regs(e.before) && e.op == arch.op(e.reg)
    && (forall j: nat :: LastSet(ts, j) ==> e.mem == Some(arch.memory(e.before, arch.param(log[j].reg))))
    && ((forall j :: 0 <= j < k ==> log[j].op != SetMemblock) ==> e.mem == None)
    && (e.setup <==> exists j: nat :: OpenedAt(ts, j))
  }

  ghost predicate SeenShows<C, R>(arch: Arch<C, R>, log: seq<Seen<C, R>>, k: nat)
    requires k < |log|
  {
    var o, ts := log[k], SeenTraps(log[..k]);
    && o.reg == arch.regs(o.before) && o.op == arch.op(o.reg)
    && (forall j: nat :: LastSet(ts, j) ==> o.mem == Some(arch.memory(o.before, arch.param(log[j].reg))))
    && ((forall j :: 0 <= j < k ==> log[j].op != SetMemblock) ==> o.mem == None)
    && (o.setup <==> exists j: nat :: OpenedAt(ts, j))
  }

  lemma SentMeans<C, R>(arch: Arch<C, R>, c0: C, log: seq<Sent<C, R>>, k: nat)
    requires k < |log| && AllSent(arch, c0, log)
    ensures SentShows(arch, log, k)
  {
    hide BlockOf, FlagOf, Passes, SentFrom;
    assert SentTrue(arch, c0, log, k);
    var ts := SentTraps(log[..k]);
    BlockMeans(arch, ts);
    FlagMeans(ts);
  }

  lemma SeenMeans<C, R>(arch: Arch<C, R>, c0: C, log: seq<Seen<C, R>>, k: nat)
    requires k < |log| && AllSeen(arch, c0, log)
    ensures SeenShows(arch, log, k)
  {
    hide BlockOf, FlagOf, Passes, SeenFrom, Left;
    assert SeenTrue(arch, c0, log, k);
    var ts := SeenTraps(log[..k]);
    BlockMeans(arch, ts);
    FlagMeans(ts);
  }

  /** The parameter register after a GETMEMBLOCK: the address that SETMEMBLOCK `j` gave is added, modulo
      the size of a pointer. */
  function WithAddress<C, R>(arch: Arch<C, R>, log: seq<Seen<C, R>>, k: nat, j: nat): C
    requires k < |log| && j < |log|
  {
    var sum := arch.param(log[k].reg) + arch.param(log[j].reg);
    arch.setParam(log[k].before, sum % Pow256(arch.ptr.Bytes()))
  }

  lemma LeftMeans<C, R>(arch: Arch<C, R>, c0: C, log: seq<Seen<C, R>>, k: nat, j: nat)
    requires k < |log| && AllSeen(arch, c0, log) && LastSet(SeenTraps(log[..k]), j)
    requires log[k].op == GetMemblock && log[k].res == Ok
    ensures log[k].after == WithAddress(arch, log, k, j)
  {
    hide BlockOf, FlagOf, Passes, SeenFrom, Left, WithAddress;
    assert SeenTrue(arch, c0, log, k);
    var o, ts := log[k], SeenTraps(log[..k]);
    assert o.after == Left(arch, ts, o.before) && o.reg == arch.regs(o.before) && o.op == arch.op(o.reg);
    hide SeenTrue, AllSeen;
    AddressLeft(arch, log, k, j);
  }

  lemma AddressLeft<C, R>(arch: Arch<C, R>, log: seq<Seen<C, R>>, k: nat, j: nat)
    requires k < |log| && LastSet(SeenTraps(log[..k]), j) && log[k].op == GetMemblock
    requires log[k].reg == arch.regs(log[k].before) && log[k].op == arch.op(log[k].reg)
    ensures Left(arch, SeenTraps(log[..k]), log[k].before) == WithAddress(arch, log, k, j)
  {
    hide BlockOf, Pow256;
    BlockMeans(arch, SeenTraps(log[..k]));
  }

  /** In every run, on both sides, a trap is recorded with the memory at the block set last and with
      the setup it belongs to. */
  lemma MemoryRecorded<C, R>(arch: Arch<C, R>, cm: C, ca: C, acts: seq<Action>, k: nat)
    requires Schedule(arch, Start(cm, ca), acts)
    ensures var log := Live(arch, Start(cm, ca), acts).m.log; k < |log| ==> SentShows(arch, log, k)
    ensures var log := Live(arch, Start(cm, ca), acts).a.log; k < |log| ==> SeenShows(arch, log, k)
  {
    hide Live, Schedule, AllSent, AllSeen, SentShows, SeenShows;
    HistoriesTrue(arch, cm, ca, acts);
    var w := Live(arch, Start(cm, ca), acts);
    if k < |w.m.log| {
      SentMeans(arch, cm, w.m.log, k);
    }
    if k < |w.a.log| {
      SeenMeans(arch, ca, w.a.log, k);
    }
  }

  /** In every run, a GETMEMBLOCK that was accepted added the address of the block set last. */
  lemma AddressAdded<C, R>(arch: Arch<C, R>, cm: C, ca: C, acts: seq<Action>, k: nat, j: nat)
    requires Schedule(arch, Start(cm, ca), acts)
    requires var log := Live(arch, Start(cm, ca), acts).a.log;
      k < |log| && log[k].op == GetMemblock && log[k].res == Ok && LastSet(SeenTraps(log[..k]), j)
    ensures var log := Live(arch, Start(cm, ca), acts).a.log; log[k].after == WithAddress(arch, log, k, j)
  {
    hide Live, Schedule, AllSent, AllSeen, WithAddress;
    HistoriesTrue(arch, cm, ca, acts);
    LeftMeans(arch, ca, Live(arch, Start(cm, ca), acts).a.log, k, j);
  }

  /** The two memories a COMPAREMEM compares: on each side that at the parameter of the last
      SETMEMBLOCK, trap `j`. */
  ghost predicate SameMemory<C, R>(arch: Arch<C, R>, w: World<C, R>, k: nat, j: nat)
    requires k < |w.m.log| && k < |w.a.log| && j < k
  {
    arch.memory(w.m.log[k].before, arch.param(w.m.log[j].reg)) ==
    arch.memory(w.a.log[k].before, arch.param(w.a.log[j].reg))
  }

  /** Where both sides saw the same kinds of traps, the same one set the block. */
  lemma SameSet<C, R>(arch: Arch<C, R>, w: World<C, R>, k: nat, j: nat)
    requires k < |w.m.log| && k < |w.a.log| && LiveRun.AgreedUpTo(arch, w, k)
    requires LastSet(SeenTraps(w.a.log[..k]), j) && SentShows(arch, w.m.log, k) && SeenShows(arch, w.a.log, k)
    ensures w.m.log[k].mem.Some? && w.a.log[k].mem.Some?
    ensures w.m.log[k].mem == w.a.log[k].mem <==> SameMemory(arch, w, k, j)
  {
    hide OpenedAt;
    var ts, us := SentTraps(w.m.log[..k]), SeenTraps(w.a.log[..k]);
    forall i | 0 <= i < k ensures ts[i].op == us[i].op {
      assert Agrees(arch, w.m.log[i], w.a.log[i]);
    }
    assert LastSet(ts, j);
  }

  /** Over every run: a COMPAREMEM that was passed compared equal memories, and the run stops with a
      memory mismatch exactly if its last trap is a COMPAREMEM on both sides and the memories at the
      blocks set last differ. */
  lemma MemoryVerdict<C(!new), R(!new)>(arch: Arch<C, R>, cm: C, ca: C, acts: seq<Action>, k: nat, j: nat)
    requires WellFormed(arch) && Schedule(arch, Start(cm, ca), acts)
    requires var a := Live(arch, Start(cm, ca), acts).a;
      a.phase.Halted? && a.phase.res != BadIo && k < |a.log| && LastSet(SeenTraps(a.log[..k]), j)
    ensures var w := Live(arch, Start(cm, ca), acts); var n := |w.a.log|;
      && n == |w.m.log|
      && (k < n - 1 && w.a.log[k].op == CompareMem ==> SameMemory(arch, w, k, j))
      && (k == n - 1 ==>
            (w.a.phase.res == MismatchMem <==>
               w.m.log[k].op == w.a.log[k].op == CompareMem && !SameMemory(arch, w, k, j)))
  {
    hide WellFormed, Live, Schedule, SentShows, SeenShows, SameMemory, RegistersDiffer;
    LiveRun.VerdictCorrect(arch, cm, ca, acts);
    MemoryRecorded(arch, cm, ca, acts, k);
    var w := Live(arch, Start(cm, ca), acts);
    assert LiveRun.AgreedUpTo(arch, w, k);
    SameSet(arch, w, k, j);
    hide LastSet;
    if k < |w.a.log| - 1 {
      assert Agrees(arch, w.m.log[k], w.a.log[k]);
    }
  }
}
