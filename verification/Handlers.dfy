/** The signal handlers of both sides as they are written: one call per trap, updating the
    process state in place and blocking inside.  Each is proved to be the composition of the
    steps of `Protocol` that the blocking points cut it into.
 */
module Handlers {
  import opened Wrappers
  import opened WireHeader
  import opened Protocol
  import Lockstep
  import Replay

  // ---------------------------------------------------------------- master

  /** The response bytes cover what the master reads for one event: the second only after a
      header that was accepted and announced a payload. */
  predicate Covers<C, R>(arch: Arch<C, R>, e: Sent<C, R>, replies: seq<Result>) {
    replies != [] && (replies[0] == Ok && PayloadOf(arch, e).Some? ==> |replies| >= 2)
  }

  /** The same for a call of the handler, which may pass over the trap in silence. */
  predicate Answered<C, R>(arch: Arch<C, R>, m: Master<C, R>, replies: seq<Result>) {
    var t := MasterTrap(arch, m).0;
    t.phase.SentHeader? ==> Covers(arch, t.phase.e, replies)
  }

  /** The trap handler of the master with its response bytes at hand: the state, the packets
      written, and the bytes not read. */
  function MasterHandles<C, R>(arch: Arch<C, R>, m: Master<C, R>, replies: seq<Result>)
    : (Master<C, R>, seq<seq<Byte>>, seq<Result>)
    requires Answered(arch, m, replies)
  {
    var (t, out) := MasterTrap(arch, m);
    if !t.phase.SentHeader? then (t, out, replies)
    else
      var (u, out') := MasterAck(arch, t, replies[0]);
      if u.phase.SentPayload? then
        SentNeedsTwo(arch, t, replies);
        (MasterAck(arch, u, replies[1]).0, out + out', replies[2..])
      else (u, out + out', replies[1..])
  }

  lemma SentNeedsTwo<C, R>(arch: Arch<C, R>, t: Master<C, R>, replies: seq<Result>)
    requires t.phase.SentHeader? && Covers(arch, t.phase.e, replies)
    ensures MasterAck(arch, t, replies[0]).0.phase.SentPayload? ==> |replies| >= 2
  {
    hide PayloadOf;
  }

  class MasterProcess<C, R> {
    const arch: Arch<C, R>
    /** Record to a file instead of talking to an apprentice. */
    const trace: bool
    var cpu: C
    var isSetup: bool
    var memblock: Option<nat>
    var signalCount: nat
    var illegalInstructions: nat
    var header: Header
    /** Everything reported so far. */
    var log: seq<Sent<C, R>>
    /** Packets written, and the response bytes the peer is going to give. */
    var written: seq<seq<Byte>>
    var replies: seq<Result>

    constructor (arch: Arch<C, R>, trace: bool, cpu: C, replies: seq<Result>)
      ensures this.arch == arch && this.trace == trace && this.replies == replies && written == []
      ensures State(Running) == StartMaster(cpu)
    {
      this.arch, this.trace, this.cpu, this.replies := arch, trace, cpu, replies;
      isSetup, memblock, signalCount, illegalInstructions := false, None, 0, 0;
      header, log, written := Header(0, 0, 0, 0), [], [];
    }

    function State(phase: MasterPhase<C, R>): Master<C, R>
      reads this
    {
      Master(cpu, phase, isSetup, memblock, signalCount, illegalInstructions, log)
    }

    /** The answers a call sees: a file accepts everything. */
    function Input(): seq<Result>
      reads `replies
    {
      if trace then [Ok, Ok] else replies
    }

    method WriteBuffer(pkt: seq<Byte>) returns (res: Result)
      requires trace || replies != []
      modifies `written, `replies
      ensures written == old(written) + [pkt]
      ensures res == if trace then Ok else old(replies)[0]
      ensures replies == if trace then old(replies) else old(replies)[1..]
    {
      written := written + [pkt];
      if trace {
        res := Ok;
      } else {
        res, replies := replies[0], replies[1..];
      }
    }

    /** Write the header and the payload and wait for the answers. */
    method Report(e: Sent<C, R>) returns (res: Result)
      requires trace || Covers(arch, e, replies)
      modifies `header, `written, `replies
      ensures res == Answer(arch, e, old(Input()))
      ensures written == old(written) + Packets(arch, e, old(Input())[0])
      ensures replies == if trace then old(replies) else NotRead(arch, e, old(replies))
    {
      hide Encode;
      header := HeaderOf(arch, e);
      var extra := PayloadOf(arch, e);
      res := WriteBuffer(Encode(header, arch.masterBig, arch.ptr));
      if res == Ok && extra.Some? {
        res := WriteBuffer(extra.value);
      }
    }

    /** The second switch of `send_register_info`. */
    method CarryOut(e: Sent<C, R>, ghost m: Master<C, R>) returns (res: Result)
      requires m == State(m.phase)
      modifies `cpu, `isSetup, `memblock
      ensures res == Ok || res == End
      ensures res == Ok ==> State(Running).(cpu := arch.resume(cpu)) == MasterFinish(arch, m, e)
      ensures res == End ==> State(Stopped(End)) == MasterFinish(arch, m, e)
    {
      hide Pow256, Address, MasterFinish;
      FinishFields(arch, m, e);
      res := Ok;
      match e.op {
        case TestEnd => res := End;
        case SetMemblock => memblock := Some(arch.param(e.reg));
        case GetMemblock =>
          cpu := arch.setParam(cpu, (arch.param(e.reg) + Address(memblock)) % Pow256(arch.ptr.Bytes()));
        case SetupBegin => isSetup := true;
        case SetupEnd => isSetup := false;
        case _ =>
      }
    }

    /** The entry of the handler; a setup SIGILL is passed over in silence. */
    method Enter() returns (e: Option<Sent<C, R>>)
      modifies `cpu, `signalCount, `illegalInstructions, `log
      ensures State(if e.None? then Running else SentHeader(e.value)) == MasterTrap(arch, old(State(Running))).0
    {
      hide HeaderBytes;
      signalCount := signalCount + 1;
      var r := arch.regs(cpu);
      var op := arch.op(r);
      if op == Sigill {
        illegalInstructions := illegalInstructions + 1;
        if isSetup {
          cpu := arch.resume(cpu);
          return None;
        }
      }
      e := Some(Sent(cpu, op, r, if memblock.Some? then Some(arch.memory(cpu, memblock.value)) else None, isSetup));
      log := log + [e.value];
    }

    /** `master_sigill` around `send_register_info`: returns the result the process stops
        with, if it stops. */
    method MasterSigill() returns (stop: Option<Result>)
      requires trace || Answered(arch, State(Running), replies)
      modifies this
      ensures Answered(arch, old(State(Running)), old(Input()))
      ensures var phase := if stop.None? then Running else Stopped(stop.value);
        var spec := MasterHandles(arch, old(State(Running)), old(Input()));
        && State(phase) == spec.0 && written == old(written) + spec.1
        && replies == if trace then old(replies) else spec.2
    {
      hide MasterHandles, MasterFinish, Packets, Answer, MasterTrap, NotRead, PayloadOf;
      assert Answered(arch, State(Running), Input());
      HandlesByAnswer(arch, State(Running), Input());
      var entered := Enter();
      if entered.None? {
        return None;
      }
      var e := entered.value;
      ghost var t := State(SentHeader(e));
      var res := Report(e);
      if res == Ok {
        res := CarryOut(e, t);
        if res == Ok {
          cpu := arch.resume(cpu);
        }
      }
      stop := if res == Ok then None else Some(res);
    }
  }

  lemma FinishFields<C, R>(arch: Arch<C, R>, m: Master<C, R>, e: Sent<C, R>)
    ensures e.op == TestEnd ==> MasterFinish(arch, m, e) == m.(phase := Stopped(End))
    ensures e.op != TestEnd ==>
      MasterFinish(arch, m, e) == Master(
        arch.resume(
          if e.op != GetMemblock then m.cpu
          else arch.setParam(m.cpu, (arch.param(e.reg) + Address(m.memblock)) % Pow256(arch.ptr.Bytes()))),
        Running, if e.op == SetupBegin then true else if e.op == SetupEnd then false else m.setup,
        if e.op == SetMemblock then Some(arch.param(e.reg)) else m.memblock, m.signals, m.illegal, m.log)
  {
    hide Pow256, Address;
  }

  /** The last answer the master gets for an event. */
  function Answer<C, R>(arch: Arch<C, R>, e: Sent<C, R>, replies: seq<Result>): Result
    requires Covers(arch, e, replies)
  {
    if replies[0] == Ok && PayloadOf(arch, e).Some? then replies[1] else replies[0]
  }

  /** The response bytes left after an event. */
  function NotRead<C, R>(arch: Arch<C, R>, e: Sent<C, R>, replies: seq<Result>): seq<Result>
    requires Covers(arch, e, replies)
  {
    if replies[0] == Ok && PayloadOf(arch, e).Some? then replies[2..] else replies[1..]
  }

  function Packets<C, R>(arch: Arch<C, R>, e: Sent<C, R>, first: Result): seq<seq<Byte>> {
    [HeaderBytes(arch, e)] +
      if first == Ok && PayloadOf(arch, e).Some? then [PayloadOf(arch, e).value] else []
  }

  lemma HandlesByAnswer<C, R>(arch: Arch<C, R>, m: Master<C, R>, replies: seq<Result>)
    requires m.phase.Running? && Answered(arch, m, replies)
    ensures var t := MasterTrap(arch, m).0;
      MasterHandles(arch, m, replies) ==
        if !t.phase.SentHeader? then (t, [], replies)
        else
          var e := t.phase.e; var res := Answer(arch, e, replies);
          (if res == Ok then MasterFinish(arch, t, e) else t.(phase := Stopped(res)),
           Packets(arch, e, replies[0]), NotRead(arch, e, replies))
  {
    hide HeaderBytes, EventOf, MasterFinish, MasterTrap, PayloadOf;
    TrapPackets(arch, m);
    var t := MasterTrap(arch, m).0;
    if t.phase.SentHeader? {
      FinishPhase(arch, t, SentPayload(t.phase.e), t.phase.e);
    }
  }

  lemma TrapPackets<C, R>(arch: Arch<C, R>, m: Master<C, R>)
    requires m.phase.Running?
    ensures var (t, out) := MasterTrap(arch, m);
      out == if t.phase.SentHeader? then [HeaderBytes(arch, t.phase.e)] else []
  {
    hide HeaderBytes, EventOf;
  }

  /** Recording to a file is the unstopped master of the playback theorems, and what it writes is
      the tape of its events. */
  lemma RecordingServes<C, R>(arch: Arch<C, R>, m: Master<C, R>)
    requires m.phase.Running?
    ensures Answered(arch, m, [Ok, Ok])
    ensures MasterHandles(arch, m, [Ok, Ok]).0 == MasterServe(arch, m)
    ensures var t := MasterTrap(arch, m).0;
      Concat(MasterHandles(arch, m, [Ok, Ok]).1) == if t.phase.SentHeader? then EventBytes(arch, t.phase.e) else []
  {
    hide HeaderBytes, EventOf, PayloadOf, MasterTrap, MasterFinish;
    TrapPackets(arch, m);
    var t := MasterTrap(arch, m).0;
    if t.phase.SentHeader? {
      FinishPhase(arch, t, SentPayload(t.phase.e), t.phase.e);
      var h, p := HeaderBytes(arch, t.phase.e), PayloadOf(arch, t.phase.e);
      if p.Some? {
        ConcatTwo(h, p.value);
      } else {
        ConcatOne(h);
      }
    }
  }

  function Concat(packets: seq<seq<Byte>>): seq<Byte> {
    if packets == [] then [] else packets[0] + Concat(packets[1..])
  }

  lemma ConcatOne(x: seq<Byte>)
    ensures Concat([x]) == x + [] && Concat([x] + []) == x + []
  {
    assert [x] + [] == [x] && [x][1..] == [];
  }

  lemma ConcatTwo(x: seq<Byte>, y: seq<Byte>)
    ensures Concat([x] + [y]) == x + y
  {
    assert ([x] + [y])[1..] == [y];
    ConcatOne(y);
  }

  /** A file accepts everything. */
  lemma FileAnswers<C, R>(arch: Arch<C, R>, m: Master<C, R>)
    ensures Answered(arch, m, [Ok, Ok])
  {
    hide MasterTrap, PayloadOf;
  }

  /** The state of a recording master after at most `n` calls of its handler, and what it wrote. */
  function Recording<C, R>(arch: Arch<C, R>, m: Master<C, R>, n: nat): (Master<C, R>, seq<seq<Byte>>) {
    if n == 0 then (m, [])
    else
      var (s, out) := Recording(arch, m, n - 1);
      if !s.phase.Running? then (s, out)
      else
        FileAnswers(arch, s);
        var h := MasterHandles(arch, s, [Ok, Ok]);
        (h.0, out + h.1)
  }

  /** The whole file is the tape of everything reported. */
  lemma {:induction false} RecordingIsTape<C, R>(arch: Arch<C, R>, m: Master<C, R>, n: nat)
    requires m.phase.Running? && m.log == []
    ensures Recording(arch, m, n).0 == MasterAfter(arch, m, n)
    ensures Concat(Recording(arch, m, n).1) == Tape(arch, MasterAfter(arch, m, n).log)
  {
    hide MasterHandles, MasterServe, MasterTrap, EventBytes, Concat;
    if n == 0 {
      ConcatNone();
    } else {
      RecordingIsTape(arch, m, n - 1);
      var (s, out) := Recording(arch, m, n - 1);
      ServeLog(arch, s);
      if s.phase.Running? {
        RecordingServes(arch, s);
        ConcatAppend(out, MasterHandles(arch, s, [Ok, Ok]).1);
        var t := MasterTrap(arch, s).0;
        if t.phase.SentHeader? {
          TapeAppend(arch, s.log, t.phase.e);
        } else {
          assert Concat(out) + [] == Concat(out);
        }
      }
    }
  }

  lemma ServeLog<C, R>(arch: Arch<C, R>, m: Master<C, R>)
    ensures !m.phase.Running? ==> MasterServe(arch, m) == m
    ensures var t := MasterTrap(arch, m).0;
      m.phase.Running? ==> MasterServe(arch, m).log == if t.phase.SentHeader? then m.log + [t.phase.e] else m.log
  {
    hide HeaderBytes, EventOf, MasterFinish;
    var t := MasterTrap(arch, m).0;
    if m.phase.Running? && t.phase.SentHeader? {
      FinishPhase(arch, t, t.phase, t.phase.e);
    }
  }

  lemma TapeAppend<C, R>(arch: Arch<C, R>, log: seq<Sent<C, R>>, e: Sent<C, R>)
    ensures Tape(arch, log + [e]) == Tape(arch, log) + EventBytes(arch, e)
  {
    hide EventBytes;
    assert (log + [e])[..|log|] == log;
  }

  lemma ConcatNone()
    ensures Concat([]) == []
  {
  }

  lemma {:induction false} ConcatAppend(a: seq<seq<Byte>>, b: seq<seq<Byte>>)
    ensures Concat(a + b) == Concat(a) + Concat(b)
  {
    if a == [] {
      assert a + b == b;
    } else {
      assert (a + b)[1..] == a[1..] + b;
      ConcatAppend(a[1..], b);
    }
  }

  // ---------------------------------------------------------------- apprentice

  datatype Source = Socket(packets: seq<seq<Byte>>) | File(tape: seq<Byte>, pos: nat)

  /** A read of `n` bytes: one packet from the peer, or the next bytes of the trace file. */
  function Read(src: Source, n: nat): (r: (Option<seq<Byte>>, Source))
    requires src.Socket? ==> src.packets != []
    ensures r.0.Some? ==> |r.0.value| == n
    ensures src.Socket? ==> r.1 == Socket(src.packets[1..])
    ensures src.File? ==> r.1.File?
  {
    match src
    case Socket(packets) => (Received(packets[0], n), Socket(packets[1..]))
    case File(tape, pos) => (ReadTape(tape, pos, n), File(tape, pos + n))
  }

  /** The packets cover what the apprentice reads for one trap: the second only after a header
      that it acknowledged. */
  predicate Supplied<C, R>(arch: Arch<C, R>, t: Apprentice<C, R>, src: Source) {
    src.Socket? ==>
      && src.packets != []
      && (ApprenticeHeader(arch, t, Received(src.packets[0], HeaderLen(arch.ptr))).0.phase.AwaitPayload? ==>
            |src.packets| >= 2)
  }

  /** The trap handler of the apprentice with its input at hand. */
  function ApprenticeHandles<C, R>(arch: Arch<C, R>, a: Apprentice<C, R>, src: Source)
    : (Apprentice<C, R>, seq<Result>, Source)
    requires var t := ApprenticeTrap(arch, a); t.phase.AwaitHeader? ==> Supplied(arch, t, src)
  {
    var t := ApprenticeTrap(arch, a);
    if !t.phase.AwaitHeader? then (t, [], src) else Exchange(arch, t, src)
  }

  /** The same from the first read on. */
  function Exchange<C, R>(arch: Arch<C, R>, t: Apprentice<C, R>, src: Source)
    : (Apprentice<C, R>, seq<Result>, Source)
    requires Supplied(arch, t, src)
  {
    var (got, src1) := Read(src, HeaderLen(arch.ptr));
    var (u, replies) := ApprenticeHeader(arch, t, got);
    if !u.phase.AwaitPayload? then (u, replies, src1)
    else
      var (got', src2) := Read(src1, u.phase.h.size);
      var (v, replies') := ApprenticePayload(arch, u, got');
      (v, replies + replies', src2)
  }

  /** What the comparison switch and the `done` label make of what was received. */
  function Compared<C, R>(arch: Arch<C, R>, t: Apprentice<C, R>, res: Result, mop: Op, body: Body<R>)
    : (Apprentice<C, R>, seq<Result>)
    requires res == Ok ==> (RegOp(mop) ==> body.Registers?) && (mop == CompareMem ==> body.Memory?)
  {
    if res == Ok then Decide(arch, t, mop, body) else Conclude(arch, t, res, t.cpu)
  }

  lemma ComparedBy<C, R>(arch: Arch<C, R>, t: Apprentice<C, R>, early: Result, mop: Op, body: Body<R>)
    requires early == Ok ==> (RegOp(mop) ==> body.Registers?) && (mop == CompareMem ==> body.Memory?)
    ensures var res := if early == Ok then Judge(arch, t, mop, body) else early;
      Compared(arch, t, early, mop, body) == Conclude(arch, t, res, if res == Ok then Effect(arch, t, body) else t.cpu)
  {
    hide Judge, Effect, Conclude;
  }

  /** What the checks on a decoded header come to. */
  function Checked<C, R>(arch: Arch<C, R>, h: Header): Result {
    if h.magic != RISU_MAGIC then BadMagic
    else
      match OpOf(h.op)
      case None => BadOp
      case Some(mop) =>
        if RegOp(mop) then if h.size > arch.maxSize then BadSizeHeader else Ok
        else if mop == CompareMem then if h.size != MEMBLOCKLEN then BadSizeMemblock else Ok
        else if h.size != 0 then BadSizeZero else Ok
  }

  predicate Announces(mop: Op) { RegOp(mop) || mop == CompareMem }

  lemma HeaderBy<C, R>(arch: Arch<C, R>, t: Apprentice<C, R>, got: seq<Byte>)
    requires |got| == HeaderLen(arch.ptr)
    ensures var h := Decode(got, arch.apprenticeBig, arch.ptr); var c := Checked(arch, h);
      && (c == Ok ==> OpOf(h.op).Some?)
      && ApprenticeHeader(arch, t, Some(got)) ==
           if c != Ok then Conclude(arch, t, c, t.cpu)
           else if Announces(OpOf(h.op).value) then (t.(phase := AwaitPayload(h, OpOf(h.op).value)), [Ok])
           else Decide(arch, t, OpOf(h.op).value, Nothing)
  {
    hide Decode, Decide, Conclude;
  }

  lemma ConcludeEnds<C, R>(arch: Arch<C, R>, t: Apprentice<C, R>, res: Result, after: C)
    ensures !Conclude(arch, t, res, after).0.phase.AwaitPayload?
  {
    hide OwnMemory, SetupAfter;
  }

  lemma DecideEnds<C, R>(arch: Arch<C, R>, t: Apprentice<C, R>, mop: Op, body: Body<R>)
    requires (RegOp(mop) ==> body.Registers?) && (mop == CompareMem ==> body.Memory?)
    ensures !Decide(arch, t, mop, body).0.phase.AwaitPayload?
  {
    hide Conclude, Judge, Effect;
    var res := Judge(arch, t, mop, body);
    ConcludeEnds(arch, t, res, if res == Ok then Effect(arch, t, body) else t.cpu);
  }

  /** An exchange by the outcome of the header checks. */
  lemma ExchangeBy<C, R>(arch: Arch<C, R>, t: Apprentice<C, R>, src: Source)
    requires Supplied(arch, t, src)
    ensures src.Socket? ==> src.packets != []
    ensures var (got, src1) := Read(src, HeaderLen(arch.ptr));
      if got.None? then
        var end := Conclude(arch, t, BadIo, t.cpu); Exchange(arch, t, src) == (end.0, [] + end.1, src1)
      else
        var h := Decode(got.value, arch.apprenticeBig, arch.ptr); var c := Checked(arch, h);
        if c != Ok then
          var end := Conclude(arch, t, c, t.cpu); Exchange(arch, t, src) == (end.0, [] + end.1, src1)
        else if !Announces(OpOf(h.op).value) then
          var end := Decide(arch, t, OpOf(h.op).value, Nothing);
          Exchange(arch, t, src) == (end.0, [] + end.1, src1)
        else
          && (src.Socket? ==> src1.packets != [])
          && var (got', src2) := Read(src1, h.size);
             var end := ApprenticePayload(arch, t.(phase := AwaitPayload(h, OpOf(h.op).value)), got');
             Exchange(arch, t, src) == (end.0, [Ok] + end.1, src2)
  {
    hide Decode, Decide, Conclude, ApprenticeHeader, ApprenticePayload, Checked;
    var got := Read(src, HeaderLen(arch.ptr)).0;
    ReadAPacket(src, HeaderLen(arch.ptr));
    var end := Exchange(arch, t, src).1;
    assert [] + end == end;
    ConcludeEnds(arch, t, BadIo, t.cpu);
    if got.None? {
      HeaderMissing(arch, t);
    } else {
      HeaderBy(arch, t, got.value);
      var h := Decode(got.value, arch.apprenticeBig, arch.ptr);
      ConcludeEnds(arch, t, Checked(arch, h), t.cpu);
      if Checked(arch, h) == Ok && !Announces(OpOf(h.op).value) {
        DecideEnds(arch, t, OpOf(h.op).value, Nothing);
      }
    }
  }

  lemma ReadAPacket(src: Source, n: nat)
    requires src.Socket? ==> src.packets != []
    ensures src.Socket? ==> Read(src, n) == (Received(src.packets[0], n), Socket(src.packets[1..]))
  {
  }

  lemma HeaderMissing<C, R>(arch: Arch<C, R>, t: Apprentice<C, R>)
    ensures ApprenticeHeader(arch, t, None) == Conclude(arch, t, BadIo, t.cpu)
  {
  }

  /** The payload likewise. */
  lemma PayloadBy<C, R>(arch: Arch<C, R>, u: Apprentice<C, R>, got: Option<seq<Byte>>)
    requires u.phase.AwaitPayload?
    ensures ApprenticePayload(arch, u, got) ==
      if got.None? then Conclude(arch, u, BadIo, u.cpu)
      else if !RegOp(u.phase.mop) then Decide(arch, u, u.phase.mop, Memory(got.value))
      else if u.phase.h.size != arch.size(arch.decode(got.value)) then Conclude(arch, u, BadSizeReginfo, u.cpu)
      else Decide(arch, u, u.phase.mop, Registers(arch.decode(got.value)))
  {
    hide Decide, Conclude;
  }

  class ApprenticeProcess<C, R> {
    const arch: Arch<C, R>
    var cpu: C
    var isSetup: bool
    var memblock: Option<nat>
    var signalCount: nat
    var illegalInstructions: nat
    var header: Header
    var log: seq<Seen<C, R>>
    var source: Source
    /** Response bytes sent; a trace file is not answered. */
    var responses: seq<Result>

    constructor (arch: Arch<C, R>, cpu: C, source: Source)
      ensures this.arch == arch && this.source == source && responses == []
      ensures State(Ready) == StartApprentice(cpu)
    {
      this.arch, this.cpu, this.source := arch, cpu, source;
      isSetup, memblock, signalCount, illegalInstructions := false, None, 0, 0;
      header, log, responses := Header(0, 0, 0, 0), [], [];
    }

    function State(phase: ApprenticePhase): Apprentice<C, R>
      reads this
    {
      Apprentice(cpu, phase, isSetup, memblock, signalCount, illegalInstructions, log)
    }

    method ReadBuffer(n: nat) returns (res: Result, data: seq<Byte>)
      requires source.Socket? ==> source.packets != []
      modifies `source
      ensures (if res == Ok then Some(data) else None, source) == Read(old(source), n)
      ensures res == Ok || res == BadIo
      ensures res == Ok ==> |data| == n
    {
      var (got, rest) := Read(source, n);
      source := rest;
      match got
      case Some(d) => res, data := Ok, d;
      case None => res, data := BadIo, [];
    }

    method Respond(r: Result)
      modifies `responses
      ensures responses == if source.Socket? then old(responses) + [r] else old(responses)
    {
      if source.Socket? {
        responses := responses + [r];
      }
    }

    /** `recv_register_info`: the header, its checks, and the payload it announces.  `u` is the
        apprentice when the comparison begins, `acked` the answer to the header. */
    method RecvRegisterInfo(ghost t: Apprentice<C, R>)
      returns (res: Result, mop: Op, body: Body<R>, ghost u: Apprentice<C, R>, ghost acked: seq<Result>)
      requires Supplied(arch, t, source)
      modifies `source, `responses, `header
      ensures res == Ok ==> (RegOp(mop) ==> body.Registers?) && (mop == CompareMem ==> body.Memory?)
      ensures source.Socket? <==> old(source.Socket?)
      ensures u == t.(phase := u.phase)
      ensures var spec := Compared(arch, u, res, mop, body);
        Exchange(arch, t, old(source)) == (spec.0, acked + spec.1, source)
      ensures responses == if source.Socket? then old(responses) + acked else old(responses)
    {
      hide Decode, Decide, Conclude, Read, ApprenticeHeader, ApprenticePayload, Exchange, Supplied;
      ExchangeBy(arch, t, source);
      u, acked := t, [];
      mop, body := Compare, Nothing;
      var data;
      res, data := ReadBuffer(HeaderLen(arch.ptr));
      if res != Ok {
        return;
      }
      header := Decode(data, arch.apprenticeBig, arch.ptr);
      if header.magic != RISU_MAGIC {
        res := BadMagic;
        return;
      }
      var known := OpOf(header.op);
      if known.None? {
        res := BadOp;
        return;
      }
      mop := known.value;
      if RegOp(mop) {
        if header.size > arch.maxSize {
          res := BadSizeHeader;
          return;
        }
        u, acked := t.(phase := AwaitPayload(header, mop)), [Ok];
        PayloadBy(arch, u, Read(source, header.size).0);
        Respond(Ok);
        res, data := ReadBuffer(header.size);
        body := Registers(arch.decode(data));
        if res == Ok && header.size != arch.size(body.reg) {
          res := BadSizeReginfo;
        }
      } else if mop == CompareMem {
        if header.size != MEMBLOCKLEN {
          res := BadSizeMemblock;
          return;
        }
        u, acked := t.(phase := AwaitPayload(header, mop)), [Ok];
        PayloadBy(arch, u, Read(source, header.size).0);
        Respond(Ok);
        res, data := ReadBuffer(MEMBLOCKLEN);
        body := Memory(data);
      } else {
        res := if header.size == 0 then Ok else BadSizeZero;
      }
    }

    /** The first part of the comparison switch: COMPARE, TESTEND and SIGILL. */
    method CompareRegisters(op: Op, mop: Op, body: Body<R>, ghost t: Apprentice<C, R>) returns (res: Result)
      requires t == State(t.phase) && op == arch.op(arch.regs(cpu)) && RegOp(op)
      requires (RegOp(mop) ==> body.Registers?) && (mop == CompareMem ==> body.Memory?)
      modifies `cpu
      ensures res == Judge(arch, t, mop, body)
      ensures cpu == if res == Ok then Effect(arch, t, body) else t.cpu
    {
      res := Ok;
      if mop != Compare && mop != TestEnd && mop != Sigill {
        res := MismatchOp;
      } else if !isSetup && !arch.equal(body.reg, arch.regs(cpu), signalCount) {
        res := MismatchReg;
      } else if op != mop {
        res := MismatchOp;
      } else if op == TestEnd {
        res := End;
      } else if op != Sigill {
        cpu := arch.update(cpu, body.reg);
      }
    }

    /** The comparison switch of `recv_and_compare_register_info`: decides, and carries out what
        an accepted op does to the block, the setup flag and the context. */
    method CompareSwitch(op: Op, mop: Op, body: Body<R>, ghost t: Apprentice<C, R>) returns (res: Result)
      requires t == State(t.phase) && op == arch.op(arch.regs(cpu))
      requires (RegOp(mop) ==> body.Registers?) && (mop == CompareMem ==> body.Memory?)
      modifies `cpu, `isSetup, `memblock
      ensures res == Judge(arch, t, mop, body)
      ensures cpu == if res == Ok then Effect(arch, t, body) else t.cpu
      ensures isSetup == if res == Ok then SetupAfter(t.setup, op) else t.setup
      ensures memblock == if res == Ok && op == SetMemblock then Some(arch.param(arch.regs(t.cpu))) else t.memblock
    {
      match op {
        case Compare | TestEnd | Sigill =>
          res := CompareRegisters(op, mop, body, t);
        case SetMemblock =>
          res := if op != mop then MismatchOp else Ok;
          if res == Ok {
            memblock := Some(arch.param(arch.regs(cpu)));
          }
        case GetMemblock =>
          res := if op != mop then MismatchOp else Ok;
          if res == Ok {
            var paramreg := arch.param(arch.regs(cpu));
            cpu := arch.setParam(cpu, (paramreg + Address(memblock)) % Pow256(arch.ptr.Bytes()));
          }
        case CompareMem =>
          res := Ok;
          if op != mop {
            res := MismatchOp;
          } else if memblock.None? {
            res := Segv;
          } else if arch.memory(cpu, memblock.value) != body.mem {
            res := MismatchMem;
          }
        case SetupBegin | SetupEnd =>
          res := if op != mop then MismatchOp else Ok;
          if res == Ok {
            isSetup := op == SetupBegin;
          }
      }
    }

    /** The switch, unless the packets were already rejected, and the `done` label: answer, and
        return to the image or stop. */
    method CompareAndAnswer(early: Result, mop: Op, body: Body<R>, ghost t: Apprentice<C, R>)
      returns (stop: Option<Result>)
      requires t == State(t.phase)
      requires early == Ok ==> (RegOp(mop) ==> body.Registers?) && (mop == CompareMem ==> body.Memory?)
      modifies this
      ensures var phase := if stop.None? then Ready else Halted(stop.value);
        var spec := Compared(arch, t, early, mop, body);
        && State(phase) == spec.0
        && source == old(source)
        && responses == if source.Socket? then old(responses) + spec.1 else old(responses)
    {
      hide Judge, Effect, Compared, Conclude, OwnMemory, SetupAfter;
      ComparedBy(arch, t, early, mop, body);
      var r := arch.regs(cpu);
      var op := arch.op(r);
      var entry := Seen(op, r, OwnMemory(arch, State(Ready)), isSetup, signalCount, early, cpu, cpu);
      OwnMemoryPhase(arch, State(Ready), t);
      if early == Ok {
        var res := CompareSwitch(op, mop, body, t);
        stop := Done(entry.(res := res, after := cpu), t);
      } else {
        stop := Done(entry, t);
      }
    }

    /** The `done` label, after the switch: record, answer, and return to the image or stop. */
    method Done(entry: Seen<C, R>, ghost t: Apprentice<C, R>) returns (stop: Option<Result>)
      requires var r := arch.regs(t.cpu);
        entry == Seen(arch.op(r), r, OwnMemory(arch, t), t.setup, t.signals, entry.res, t.cpu, entry.after)
      requires cpu == entry.after && (entry.res != Ok ==> cpu == t.cpu)
      requires isSetup == if entry.res == Ok then SetupAfter(t.setup, entry.op) else t.setup
      requires memblock ==
        if entry.res == Ok && entry.op == SetMemblock then Some(arch.param(entry.reg)) else t.memblock
      requires signalCount == t.signals && illegalInstructions == t.illegal && log == t.log
      modifies `cpu, `log, `responses
      ensures var phase := if stop.None? then Ready else Halted(stop.value);
        var spec := Conclude(arch, t, entry.res, entry.after);
        && State(phase) == spec.0
        && responses == if source.Socket? then old(responses) + spec.1 else old(responses)
    {
      hide Conclude, OwnMemory, SetupAfter;
      ConcludeForm(arch, t, entry.res, entry.after);
      log := log + [entry];
      Respond(if entry.res == Ok then Ok else End);
      if entry.res == Ok {
        cpu := arch.resume(cpu);
        stop := None;
      } else {
        stop := Some(entry.res);
      }
    }

    /** The entry of the handler; a setup SIGILL is passed over in silence. */
    method Enter() returns (silent: bool)
      modifies `cpu, `signalCount, `illegalInstructions
      ensures State(if silent then Ready else AwaitHeader) == ApprenticeTrap(arch, old(State(Ready)))
    {
      signalCount := signalCount + 1;
      if arch.op(arch.regs(cpu)) == Sigill {
        illegalInstructions := illegalInstructions + 1;
        if isSetup {
          cpu := arch.resume(cpu);
          return true;
        }
      }
      return false;
    }

    /** `apprentice_sigill` around `recv_and_compare_register_info`. */
    method ApprenticeSigill() returns (stop: Option<Result>)
      requires var t := ApprenticeTrap(arch, State(Ready)); t.phase.AwaitHeader? ==> Supplied(arch, t, source)
      modifies this
      ensures var phase := if stop.None? then Ready else Halted(stop.value);
        var spec := ApprenticeHandles(arch, old(State(Ready)), old(source));
        && State(phase) == spec.0
        && source == spec.2
        && responses == if source.Socket? then old(responses) + spec.1 else old(responses)
    {
      hide Exchange, Compared, Supplied, ApprenticeTrap;
      var silent := Enter();
      if silent {
        return None;
      }
      ghost var t := State(AwaitHeader);
      var res, mop, body, u, acked := RecvRegisterInfo(t);
      stop := CompareAndAnswer(res, mop, body, u);
    }
  }

  // ---------------------------------------------------------------- replaying from a file

  lemma FileSupplies<C, R>(arch: Arch<C, R>, t: Apprentice<C, R>, tape: seq<Byte>, pos: nat)
    ensures Supplied(arch, t, File(tape, pos))
  {
  }

  /** A call of the handler on a trace file is as many steps of playback as it reads, and one. */
  lemma FileHandlesPlays<C, R>(arch: Arch<C, R>, a: Apprentice<C, R>, tape: seq<Byte>, pos: nat) returns (steps: nat)
    requires a.phase.Ready?
    ensures var t := ApprenticeTrap(arch, a); t.phase.AwaitHeader? ==> Supplied(arch, t, File(tape, pos))
    ensures var h := ApprenticeHandles(arch, a, File(tape, pos));
      && h.2.File? && h.2.tape == tape && 1 <= steps <= 3
      && Playback(arch, tape, Player(a, pos), steps) == Player(h.0, h.2.pos)
  {
    hide ApprenticeTrap, ApprenticeHeader, ApprenticePayload, HeaderLen, Supplied;
    var p := Player(a, pos);
    var t := ApprenticeTrap(arch, a);
    FileSupplies(arch, t, tape, pos);
    assert Playback(arch, tape, p, 1) == Play(arch, tape, p) == Player(t, pos);
    TrapPhases(arch, a);
    if !t.phase.AwaitHeader? {
      return 1;
    }
    assert Playback(arch, tape, p, 2) == Play(arch, tape, Player(t, pos));
    var n := HeaderLen(arch.ptr);
    var u := ApprenticeHeader(arch, t, ReadTape(tape, pos, n)).0;
    if !u.phase.AwaitPayload? {
      return 2;
    }
    assert Playback(arch, tape, p, 3) == Play(arch, tape, Player(u, pos + n));
    return 3;
  }

  lemma TrapPhases<C, R>(arch: Arch<C, R>, a: Apprentice<C, R>)
    requires a.phase.Ready?
    ensures var t := ApprenticeTrap(arch, a); t.phase.Ready? || t.phase.AwaitHeader?
  {
  }

  /** The apprentice after at most `n` calls of its handler on a trace file, and its place there. */
  function Replaying<C, R>(arch: Arch<C, R>, a: Apprentice<C, R>, tape: seq<Byte>, n: nat): Player<C, R> {
    if n == 0 then Player(a, 0)
    else
      var p := Replaying(arch, a, tape, n - 1);
      if !p.a.phase.Ready? then p
      else
        FileSupplies(arch, ApprenticeTrap(arch, p.a), tape, p.pos);
        var h := ApprenticeHandles(arch, p.a, File(tape, p.pos));
        Player(h.0, if h.2.File? then h.2.pos else p.pos)
  }

  /** Calling the handler again and again is playback. */
  lemma {:induction false} ReplayingIsPlayback<C, R>(arch: Arch<C, R>, a: Apprentice<C, R>, tape: seq<Byte>, n: nat)
    returns (steps: nat)
    ensures Replaying(arch, a, tape, n) == Playback(arch, tape, Player(a, 0), steps)
  {
    hide ApprenticeHandles, Play, Supplied, ApprenticeTrap;
    if n == 0 {
      return 0;
    }
    steps := ReplayingIsPlayback(arch, a, tape, n - 1);
    var p := Replaying(arch, a, tape, n - 1);
    if p.a.phase.Ready? {
      var more := FileHandlesPlays(arch, p.a, tape, p.pos);
      PlaybackJoins(arch, tape, Player(a, 0), steps, more);
      steps := steps + more;
    }
  }

  /** End to end: the handlers replaying what the handlers recorded leave the apprentice in the
      state in which it leaves a live run. */
  lemma RecordedReplaysLive<C(!new), R(!new)>(
    arch: Arch<C, R>, cm: C, ca: C, acts: seq<Action>, n: nat, calls: nat)
    requires WellFormed(arch) && Schedule(arch, Start(cm, ca), acts)
    requires Live(arch, Start(cm, ca), acts).a.phase.Halted?
    requires var m := Recording(arch, StartMaster(cm), n).0; m.phase.Stopped? && Lockstep.AllHaveBlock(m.log)
    requires var file := Concat(Recording(arch, StartMaster(cm), n).1);
      Replaying(arch, StartApprentice(ca), file, calls).a.phase.Halted?
    ensures var file := Concat(Recording(arch, StartMaster(cm), n).1);
      Replaying(arch, StartApprentice(ca), file, calls).a == Live(arch, Start(cm, ca), acts).a
  {
    hide WellFormed, Schedule, Live, Recording, Replaying, Playback, MasterAfter, Lockstep.AllHaveBlock, Tape, Concat;
    RecordingIsTape(arch, StartMaster(cm), n);
    var file := Concat(Recording(arch, StartMaster(cm), n).1);
    var steps := ReplayingIsPlayback(arch, StartApprentice(ca), file, calls);
    Replay.ReplayEqualsLive(arch, cm, ca, acts, n, steps);
  }

  lemma {:induction false} PlaybackJoins<C, R>(
    arch: Arch<C, R>, tape: seq<Byte>, p: Player<C, R>, n: nat, more: nat)
    ensures Playback(arch, tape, p, n + more) == Playback(arch, tape, Playback(arch, tape, p, n), more)
    decreases more
  {
    hide Play;
    if more > 0 {
      PlaybackJoins(arch, tape, p, n, more - 1);
    }
  }

  lemma ConcludeForm<C, R>(arch: Arch<C, R>, t: Apprentice<C, R>, res: Result, after: C)
    ensures var r := arch.regs(t.cpu); var op := arch.op(r);
      var log := t.log + [Seen(op, r, OwnMemory(arch, t), t.setup, t.signals, res, t.cpu, after)];
      Conclude(arch, t, res, after) ==
        if res == Ok then
          (Apprentice(arch.resume(after), Ready, SetupAfter(t.setup, op),
                      if op == SetMemblock then Some(arch.param(r)) else t.memblock, t.signals, t.illegal, log),
           [Ok])
        else (Apprentice(t.cpu, Halted(res), t.setup, t.memblock, t.signals, t.illegal, log), [End])
  {
    hide OwnMemory, SetupAfter;
  }

  lemma OwnMemoryPhase<C, R>(arch: Arch<C, R>, a: Apprentice<C, R>, t: Apprentice<C, R>)
    requires a == t.(phase := a.phase)
    ensures OwnMemory(arch, a) == OwnMemory(arch, t)
  {
  }
}
