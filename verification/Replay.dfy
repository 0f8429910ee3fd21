/** Playback of a recorded trace gives the verdict of the live run. */
module Replay {
  import opened Wrappers
  import opened WireHeader
  import opened Protocol
  import opened Lockstep
  import opened Interleaving

  lemma TapeSnoc<C, R>(arch: Arch<C, R>, log: seq<Sent<C, R>>, k: nat)
    requires k < |log|
    ensures Tape(arch, log[..k + 1]) == Tape(arch, log[..k]) + EventBytes(arch, log[k])
  {
    hide EventBytes;
    assert log[..k + 1][..k] == log[..k];
  }

  lemma {:induction false} TapePrefix<C, R>(arch: Arch<C, R>, log: seq<Sent<C, R>>, k: nat)
    requires k <= |log|
    ensures Tape(arch, log[..k]) <= Tape(arch, log)
    decreases |log| - k
  {
    hide EventBytes, Tape;
    if k < |log| {
      TapeSnoc(arch, log, k);
      TapePrefix(arch, log, k + 1);
    } else {
      assert log[..k] == log;
    }
  }

  /** The tape holds the header and the payload of event `k` where the player looks for them. */
  lemma TapeAt<C, R>(arch: Arch<C, R>, log: seq<Sent<C, R>>, k: nat)
    requires k < |log|
    ensures var tape := Tape(arch, log); var pos := |Tape(arch, log[..k])|;
      var e := log[k]; var n := HeaderLen(arch.ptr);
      && ReadTape(tape, pos, n) == Some(HeaderBytes(arch, e))
      && (PayloadOf(arch, e).None? ==> |Tape(arch, log[..k + 1])| == pos + n)
      && (PayloadOf(arch, e).Some? ==>
            var p := PayloadOf(arch, e).value;
            ReadTape(tape, pos + n, |p|) == Some(p) && |Tape(arch, log[..k + 1])| == pos + n + |p|)
  {
    hide HeaderBytes, PayloadOf, Tape;
    TapeSnoc(arch, log, k);
    TapePrefix(arch, log, k + 1);
    var a := Tape(arch, log[..k]);
    var h := HeaderBytes(arch, log[k]);
    var p := if PayloadOf(arch, log[k]).Some? then PayloadOf(arch, log[k]).value else [];
    Slices(Tape(arch, log), a, h, p);
  }

  lemma Slices(t: seq<Byte>, a: seq<Byte>, h: seq<Byte>, p: seq<Byte>)
    requires a + (h + p) <= t
    ensures |a| + |h| + |p| <= |t|
    ensures t[|a|..|a| + |h|] == h
    ensures t[|a| + |h|..|a| + |h| + |p|] == p
  {
    assert t[..|a| + |h| + |p|] == a + (h + p);
  }

  /** A complete recording: the master's history up to and including TESTEND. */
  ghost predicate Recorded<C, R>(log: seq<Sent<C, R>>) {
    LogOk(log) && AllHaveBlock(log) && log != [] && log[|log| - 1].op == TestEnd
  }

  /** Where the player stands: at the start of an event, or past its header. */
  ghost predicate PlayerAt<C, R>(arch: Arch<C, R>, a0: Apprentice<C, R>, log: seq<Sent<C, R>>, p: Player<C, R>)
    requires AllHaveBlock(log)
  {
    && ApprenticeLink(arch, a0, p.a, log)
    && |p.a.log| <= |log|
    && var pos := |Tape(arch, log[..|p.a.log|])|;
    match p.a.phase
    case AwaitPayload(h, mop) =>
      && |p.a.log| < |log|
      && var e := log[|p.a.log|];
      && h == HeaderOf(arch, e) && mop == e.op && PayloadOf(arch, e).Some?
      && p.pos == pos + HeaderLen(arch.ptr)
    case _ => p.pos == pos
  }

  /** An apprentice that goes on has not come to the master's TESTEND. */
  lemma EndStops<C(!new), R(!new)>(arch: Arch<C, R>, b: Apprentice<C, R>, log: seq<Sent<C, R>>)
    requires ApprenticeOk(arch, b, log) && b.phase.Ready?
    ensures forall k :: 0 <= k < |b.log| ==> log[k].op != TestEnd
  {
    forall k | 0 <= k < |b.log| ensures log[k].op != TestEnd {
      assert PairOk(arch, log, b.log, k);
    }
  }

  /** The recording lasts as long as the apprentice runs. */
  lemma EventsLeft<C(!new), R(!new)>(
    arch: Arch<C, R>, m0: Master<C, R>, a0: Apprentice<C, R>, a: Apprentice<C, R>, log: seq<Sent<C, R>>)
    requires Fresh(m0, a0) && Recorded(log)
    requires ApprenticeLink(arch, a0, a, log)
    ensures ApprenticeOk(arch, Base(arch, a0, a, log), log) && Base(arch, a0, a, log).log == a.log
    ensures !a.phase.Halted? ==> |a.log| < |log|
  {
    hide LogOk, AllHaveBlock, ApprenticeAfter, Verdict;
    FreshApprenticeOk(arch, m0, a0, log);
    BaseOk(arch, a0, a, log);
    if !a.phase.Halted? {
      EndStops(arch, Base(arch, a0, a, log), log);
    }
  }

  /** The reference serves event `|a.log|`. */
  lemma ServeLink<C(!new), R(!new)>(
    arch: Arch<C, R>, m0: Master<C, R>, a0: Apprentice<C, R>, a: Apprentice<C, R>, log: seq<Sent<C, R>>)
    requires Fresh(m0, a0) && Recorded(log)
    requires ApprenticeLink(arch, a0, a, log)
    requires a.phase.AwaitHeader? || a.phase.AwaitPayload?
    ensures |a.log| < |log|
    ensures var e := log[|a.log|];
      var a' := Decide(arch, a.(phase := AwaitHeader), e.op, BodyOf(e)).0;
      && ApprenticeLink(arch, a0, a', log)
      && (a'.phase.Ready? || a'.phase.Halted?)
      && |a'.log| == |a.log| + 1
  {
    hide LogOk, ApprenticeOk, Decide, ApprenticeAfter, Fresh;
    EventsLeft(arch, m0, a0, a, log);
    var b := Base(arch, a0, a, log);
    var e := log[|a.log|];
    ServeOk(arch, b, log);
    ApprenticeAfterServe(arch, a0, log, a.signals - 1);
    OneReply(arch, ApprenticeTrap(arch, b), e.op, BodyOf(e));
  }

  lemma PlayHeader<C(!new), R(!new)>(
    arch: Arch<C, R>, m0: Master<C, R>, a0: Apprentice<C, R>, log: seq<Sent<C, R>>, p: Player<C, R>)
    requires WellFormed(arch) && Fresh(m0, a0) && Recorded(log)
    requires PlayerAt(arch, a0, log, p) && p.a.phase.AwaitHeader?
    ensures PlayerAt(arch, a0, log, Play(arch, Tape(arch, log), p))
  {
    hide LogOk, ApprenticeAfter, Decide, WellFormed, Fresh, HeaderBytes, ApprenticeHeader, Tape, HeaderLen, ReadTape;
    ServeLink(arch, m0, a0, p.a, log);
    var e := log[|p.a.log|];
    HeaderArrives(arch, p.a, e);
    TapeAt(arch, log, |p.a.log|);
  }

  lemma PlayPayload<C(!new), R(!new)>(
    arch: Arch<C, R>, m0: Master<C, R>, a0: Apprentice<C, R>, log: seq<Sent<C, R>>, p: Player<C, R>)
    requires WellFormed(arch) && Fresh(m0, a0) && Recorded(log)
    requires PlayerAt(arch, a0, log, p) && p.a.phase.AwaitPayload?
    ensures PlayerAt(arch, a0, log, Play(arch, Tape(arch, log), p))
  {
    hide LogOk, ApprenticeAfter, Decide, WellFormed, Fresh, HeaderBytes, ApprenticePayload, Tape, HeaderLen, ReadTape;
    ServeLink(arch, m0, a0, p.a, log);
    var e := log[|p.a.log|];
    EventAt(log, |p.a.log|);
    PayloadArrives(arch, p.a, e);
    TapeAt(arch, log, |p.a.log|);
  }

  lemma PlayTrap<C(!new), R(!new)>(
    arch: Arch<C, R>, a0: Apprentice<C, R>, log: seq<Sent<C, R>>, p: Player<C, R>)
    requires Recorded(log)
    requires PlayerAt(arch, a0, log, p) && p.a.phase.Ready?
    ensures PlayerAt(arch, a0, log, Play(arch, Tape(arch, log), p))
  {
    hide LogOk, ApprenticeAfter, Tape, ApprenticeHeader, ApprenticePayload;
    if Silent(arch, p.a) {
      ApprenticeAfterSilent(arch, a0, log, p.a.signals);
    }
  }

  lemma {:induction false} PlaybackKeeps<C(!new), R(!new)>(
    arch: Arch<C, R>, m0: Master<C, R>, a0: Apprentice<C, R>, log: seq<Sent<C, R>>, p: Player<C, R>, n: nat)
    requires WellFormed(arch) && Fresh(m0, a0) && Recorded(log)
    requires PlayerAt(arch, a0, log, p)
    ensures PlayerAt(arch, a0, log, Playback(arch, Tape(arch, log), p, n))
  {
    hide PlayerAt, Tape, WellFormed, Fresh, LogOk, ApprenticeTrap, ApprenticeHeader, ApprenticePayload;
    if n > 0 {
      PlaybackKeeps(arch, m0, a0, log, p, n - 1);
      var q := Playback(arch, Tape(arch, log), p, n - 1);
      match q.a.phase
      case Ready => PlayTrap(arch, a0, log, q);
      case AwaitHeader => PlayHeader(arch, m0, a0, log, q);
      case AwaitPayload(_, _) => PlayPayload(arch, m0, a0, log, q);
      case Halted(_) =>
    }
  }

  lemma PlayerStart<C(!new), R(!new)>(arch: Arch<C, R>, m0: Master<C, R>, a0: Apprentice<C, R>, log: seq<Sent<C, R>>)
    requires Fresh(m0, a0) && AllHaveBlock(log)
    ensures PlayerAt(arch, a0, log, Player(a0, 0))
  {
    hide Serve, ApprenticeTrap, EventBytes;
  }

  // ---------------------------------------------------------------- the theorems

  lemma RecordingComplete<C(!new), R(!new)>(arch: Arch<C, R>, m0: Master<C, R>, a0: Apprentice<C, R>, n: nat)
    requires WellFormed(arch) && Fresh(m0, a0)
    requires MasterAfter(arch, m0, n).phase.Stopped? && AllHaveBlock(MasterAfter(arch, m0, n).log)
    ensures Recorded(MasterAfter(arch, m0, n).log) && Disciplined(arch, m0)
  {
    hide MasterAfter, WellFormed, LogOk, SentOps;
    FreshMasterOk(m0, a0);
    MasterAfterOk(arch, m0, n);
    forall k: nat ensures AllHaveBlock(MasterAfter(arch, m0, k).log) {
      MasterLogGrows(arch, m0, if k <= n then k else n, if k <= n then n else k);
    }
  }

  /** Playback of a complete recording never reads past its end, and when it stops its result is
      the verdict on the two histories: no read, size or format error is reachable. */
  lemma PlaybackCorrect<C(!new), R(!new)>(arch: Arch<C, R>, cm: C, ca: C, n: nat, steps: nat)
    requires WellFormed(arch)
    requires var m := MasterAfter(arch, StartMaster(cm), n); m.phase.Stopped? && AllHaveBlock(m.log)
    ensures var log := MasterAfter(arch, StartMaster(cm), n).log;
      var p := Playback(arch, Tape(arch, log), Player(StartApprentice(ca), 0), steps);
      && p.pos <= |Tape(arch, log)|
      && |p.a.log| <= |log|
      && (forall k :: 0 <= k < |p.a.log| ==> Verdict(arch, log[k], p.a.log[k]))
      && (p.a.phase.Halted? ==> p.a.log != [] && p.a.phase.res == p.a.log[|p.a.log| - 1].res)
  {
    hide WellFormed, Disciplined, MasterAfter, Playback, LogOk, HeaderBytes, HeaderLen, ApprenticeAfter, Tape, ReadTape;
    var m0, a0 := StartMaster<C, R>(cm), StartApprentice<C, R>(ca);
    RecordingComplete(arch, m0, a0, n);
    var log := MasterAfter(arch, m0, n).log;
    PlayerStart(arch, m0, a0, log);
    PlaybackKeeps(arch, m0, a0, log, Player(a0, 0), steps);
    var p := Playback(arch, Tape(arch, log), Player(a0, 0), steps);
    EventsLeft(arch, m0, a0, p.a, log);
    forall k | 0 <= k < |p.a.log| ensures Verdict(arch, log[k], p.a.log[k]) {
      assert PairOk(arch, log, p.a.log, k);
    }
    TapePrefix(arch, log, |p.a.log|);
    if p.a.phase.AwaitPayload? {
      TapeAt(arch, log, |p.a.log|);
      TapePrefix(arch, log, |p.a.log| + 1);
    }
  }

  /** What a live master sent is a prefix of what it would record. */
  lemma LiveIsPrefix<C(!new), R(!new)>(
    arch: Arch<C, R>, m0: Master<C, R>, a0: Apprentice<C, R>, m: Master<C, R>, n: nat)
    requires WellFormed(arch) && Fresh(m0, a0)
    requires MasterLink(arch, m0, m)
    requires MasterAfter(arch, m0, n).phase.Stopped?
    ensures m.log <= MasterAfter(arch, m0, n).log
  {
    hide MasterAfter, WellFormed, LogOk, MasterTrap, MasterOk;
    FreshMasterOk(m0, a0);
    MasterHistory(arch, m0, m);
    var k := if m.phase.Running? then m.signals else m.signals - 1;
    if n <= k {
      MasterLogGrows(arch, m0, n, k);
      assert false;
    } else {
      MasterLogGrows(arch, m0, m.signals, n);
    }
  }

  /** A stopped live apprentice and a stopped player of the same master's recording are in the
      same state: same result, same history, same trap counts, same CPU context. */
  lemma ReplayEqualsLive<C(!new), R(!new)>(
    arch: Arch<C, R>, cm: C, ca: C, acts: seq<Action>, n: nat, steps: nat)
    requires WellFormed(arch) && Schedule(arch, Start(cm, ca), acts)
    requires Live(arch, Start(cm, ca), acts).a.phase.Halted?
    requires var m := MasterAfter(arch, StartMaster(cm), n); m.phase.Stopped? && AllHaveBlock(m.log)
    requires var tape := Tape(arch, MasterAfter(arch, StartMaster(cm), n).log);
      Playback(arch, tape, Player(StartApprentice(ca), 0), steps).a.phase.Halted?
    ensures var tape := Tape(arch, MasterAfter(arch, StartMaster(cm), n).log);
      Playback(arch, tape, Player(StartApprentice(ca), 0), steps).a == Live(arch, Start(cm, ca), acts).a
  {
    hide WellFormed, Disciplined, Schedule, Live, MasterAfter, Playback, LogOk, MasterLink, Wires, Tape,
      ApprenticeAfter, ApprenticeOk;
    var m0, a0 := StartMaster<C, R>(cm), StartApprentice<C, R>(ca);
    var log := MasterAfter(arch, m0, n).log;
    RecordingComplete(arch, m0, a0, n);
    LiveInv(arch, cm, ca, acts);
    var w := Live(arch, Start(cm, ca), acts);
    LiveIsPrefix(arch, m0, a0, w.m, n);
    FreshApprenticeOk(arch, m0, a0, w.m.log);
    MoreEvents(arch, a0, w.m.log, log, w.a.signals);
    PlayerStart(arch, m0, a0, log);
    PlaybackKeeps(arch, m0, a0, log, Player(a0, 0), steps);
    var p := Playback(arch, Tape(arch, log), Player(a0, 0), steps);
    if w.a.signals <= p.a.signals {
      StoppedStays(arch, a0, log, w.a.signals, p.a.signals);
    } else {
      StoppedStays(arch, a0, log, p.a.signals, w.a.signals);
    }
  }

  /** The player passes through every state of the reference. */
  lemma {:induction false} PlaybackReaches<C(!new), R(!new)>(
    arch: Arch<C, R>, m0: Master<C, R>, a0: Apprentice<C, R>, log: seq<Sent<C, R>>, j: nat) returns (n: nat)
    requires WellFormed(arch) && Fresh(m0, a0) && Recorded(log)
    requires ApprenticeAfter(arch, a0, log, j).signals == j
    ensures Playback(arch, Tape(arch, log), Player(a0, 0), n).a == ApprenticeAfter(arch, a0, log, j)
  {
    hide WellFormed, LogOk, Tape, ApprenticeOk, ApprenticeTrap, ApprenticeHeader, ApprenticePayload, Serve, PlayerAt,
      Fresh;
    n := 0;
    if j > 0 {
      FreshApprenticeOk(arch, m0, a0, log);
      FreshSignals(m0, a0);
      ApprenticeAfterOk(arch, a0, log, j - 1);
      StepSignals(arch, a0, log, j);
      n := PlaybackReaches(arch, m0, a0, log, j - 1);
      var tape := Tape(arch, log);
      var p := Playback(arch, tape, Player(a0, 0), n);
      PlayerStart(arch, m0, a0, log);
      PlaybackKeeps(arch, m0, a0, log, Player(a0, 0), n);
      PlaybackSteps(arch, tape, Player(a0, 0), n);
      if Silent(arch, p.a) {
        n := n + 1;
      } else {
        PlayServes(arch, m0, a0, log, p);
        var p2 := Play(arch, tape, Play(arch, tape, p));
        n := n + if p2.a.phase.AwaitPayload? then 3 else 2;
      }
    }
  }

  lemma PlaybackSteps<C, R>(arch: Arch<C, R>, tape: seq<Byte>, p: Player<C, R>, n: nat)
    ensures var q := Playback(arch, tape, p, n);
      && Playback(arch, tape, p, n + 1) == Play(arch, tape, q)
      && Playback(arch, tape, p, n + 2) == Play(arch, tape, Play(arch, tape, q))
      && Playback(arch, tape, p, n + 3) == Play(arch, tape, Play(arch, tape, Play(arch, tape, q)))
  {
    hide Play;
    assert Playback(arch, tape, p, n + 2) == Play(arch, tape, Playback(arch, tape, p, n + 1));
  }

  lemma FreshSignals<C, R>(m0: Master<C, R>, a0: Apprentice<C, R>)
    requires Fresh(m0, a0)
    ensures a0.signals == 0
  {
  }

  /** Two or three steps of the player serve one event. */
  lemma PlayServes<C(!new), R(!new)>(
    arch: Arch<C, R>, m0: Master<C, R>, a0: Apprentice<C, R>, log: seq<Sent<C, R>>, p: Player<C, R>)
    requires WellFormed(arch) && Fresh(m0, a0) && Recorded(log)
    requires PlayerAt(arch, a0, log, p) && p.a.phase.Ready? && !Silent(arch, p.a)
    ensures |p.a.log| < |log|
    ensures var tape := Tape(arch, log);
      var p2 := Play(arch, tape, Play(arch, tape, p));
      var p3 := if p2.a.phase.AwaitPayload? then Play(arch, tape, p2) else p2;
      p3.a == Serve(arch, p.a, log[|p.a.log|])
  {
    hide LogOk, ApprenticeAfter, Decide, WellFormed, Fresh, HeaderBytes, ApprenticeHeader, ApprenticePayload, Tape,
      HeaderLen, ReadTape, ApprenticeOk;
    EventsLeft(arch, m0, a0, p.a, log);
    var k := |p.a.log|;
    var e := log[k];
    EventAt(log, k);
    TapeAt(arch, log, k);
    var t := ApprenticeTrap(arch, p.a);
    HeaderArrives(arch, t, e);
    OneReply(arch, t, e.op, BodyOf(e));
    if PayloadOf(arch, e).Some? {
      PayloadArrives(arch, t.(phase := AwaitPayload(HeaderOf(arch, e), e.op)), e);
    }
  }

  /** Wherever a live run stops, the playback of the recording stops too, in the same state. */
  lemma PlaybackCatchesUp<C(!new), R(!new)>(arch: Arch<C, R>, cm: C, ca: C, acts: seq<Action>, n: nat)
    returns (steps: nat)
    requires WellFormed(arch) && Schedule(arch, Start(cm, ca), acts)
    requires Live(arch, Start(cm, ca), acts).a.phase.Halted?
    requires var m := MasterAfter(arch, StartMaster(cm), n); m.phase.Stopped? && AllHaveBlock(m.log)
    ensures var tape := Tape(arch, MasterAfter(arch, StartMaster(cm), n).log);
      Playback(arch, tape, Player(StartApprentice(ca), 0), steps).a == Live(arch, Start(cm, ca), acts).a
  {
    hide WellFormed, Disciplined, Schedule, Live, MasterAfter, Playback, LogOk, MasterLink, Wires, Tape,
      ApprenticeAfter, ApprenticeOk;
    var m0, a0 := StartMaster<C, R>(cm), StartApprentice<C, R>(ca);
    var log := MasterAfter(arch, m0, n).log;
    RecordingComplete(arch, m0, a0, n);
    LiveInv(arch, cm, ca, acts);
    var w := Live(arch, Start(cm, ca), acts);
    LiveIsPrefix(arch, m0, a0, w.m, n);
    FreshApprenticeOk(arch, m0, a0, w.m.log);
    MoreEvents(arch, a0, w.m.log, log, w.a.signals);
    steps := PlaybackReaches(arch, m0, a0, log, w.a.signals);
  }
}
