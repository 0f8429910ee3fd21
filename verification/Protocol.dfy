/** The master and the apprentice of a risu run, as two state machines.

    Each side is cut at the points where the C code blocks: taking a trap, waiting for
    a response byte, waiting for a packet.  `Live` joins the two by two FIFO channels;
    `Playback` feeds the apprentice from a recorded tape instead.
 */
module Protocol {
  import opened Wrappers
  import opened WireHeader

  datatype Op = Sigill | Compare | TestEnd | SetMemblock | GetMemblock | CompareMem | SetupBegin | SetupEnd

  /** `RisuResult`.  `Segv` is not one of its values: it marks a comparison through the null
      memory-block pointer, where the C program would crash. */
  datatype Result =
    | Ok | End | MismatchReg | MismatchMem | MismatchOp | BadIo | BadMagic | BadSizeHeader
    | BadSizeReginfo | BadSizeMemblock | BadSizeZero | BadOp | Segv

  /** Ops whose payload is a register image. */
  predicate RegOp(op: Op) { op == Compare || op == TestEnd || op == Sigill }

  function OpCode(op: Op): nat {
    match op
    case Sigill => 0xFFFF_FFFF
    case Compare => 0
    case TestEnd => 1
    case SetMemblock => 2
    case GetMemblock => 3
    case CompareMem => 4
    case SetupBegin => 5
    case SetupEnd => 6
  }

  function OpOf(code: nat): (o: Option<Op>)
    ensures o.Some? ==> OpCode(o.value) == code
    ensures forall op :: OpCode(op) == code ==> o == Some(op)
  {
    if code == 0xFFFF_FFFF then Some(Sigill)
    else if code == 0 then Some(Compare)
    else if code == 1 then Some(TestEnd)
    else if code == 2 then Some(SetMemblock)
    else if code == 3 then Some(GetMemblock)
    else if code == 4 then Some(CompareMem)
    else if code == 5 then Some(SetupBegin)
    else if code == 6 then Some(SetupEnd)
    else None
  }

  /** What risu takes from its per-architecture code: `C` is the interrupted CPU context,
      `R` the register image.  `resume` steps over the trapping instruction and runs the
      image up to the next trap. */
  datatype Arch<!C, !R> = Arch(
    regs: C -> R,
    op: R -> Op,
    pc: R -> nat,
    param: R -> nat,
    size: R -> nat,
    maxSize: nat,
    encode: R -> seq<Byte>,
    decode: seq<Byte> -> R,
    equal: (R, R, nat) -> bool,
    memory: (C, nat) -> seq<Byte>,
    setParam: (C, nat) -> C,
    update: (C, R) -> C,
    resume: C -> C,
    ptr: PtrSize,
    masterBig: bool,
    apprenticeBig: bool)

  ghost predicate WellFormed<C(!new), R(!new)>(arch: Arch<C, R>) {
    && arch.maxSize < Pow256(4)
    && (forall r: R :: arch.decode(arch.encode(r)) == r)
    && (forall r: R :: |arch.encode(r)| == arch.size(r) <= arch.maxSize)
    && (forall r: R :: arch.pc(r) < Pow256(arch.ptr.Bytes()))
    && (forall c: C, p: nat :: |arch.memory(c, p)| == MEMBLOCKLEN)
  }

  function Address(memblock: Option<nat>): nat {
    if memblock.Some? then memblock.value else 0
  }

  function SetupAfter(setup: bool, op: Op): bool {
    if op == SetupBegin then true else if op == SetupEnd then false else setup
  }

  // ---------------------------------------------------------------- master

  /** One trap the master told the other side about: the interrupted context, what was reported,
      and the setup flag. */
  datatype Sent<+C, +R> = Sent(before: C, op: Op, reg: R, mem: Option<seq<Byte>>, setup: bool)

  function HeaderOf<C, R>(arch: Arch<C, R>, e: Sent<C, R>): Header {
    Header(
      RISU_MAGIC,
      if RegOp(e.op) then arch.size(e.reg) else if e.op == CompareMem then MEMBLOCKLEN else 0,
      OpCode(e.op),
      arch.pc(e.reg))
  }

  function HeaderBytes<C, R>(arch: Arch<C, R>, e: Sent<C, R>): (s: seq<Byte>)
    ensures |s| == HeaderLen(arch.ptr)
  {
    Encode(HeaderOf(arch, e), arch.masterBig, arch.ptr)
  }

  /** The second packet; a memory block that was never set is a null pointer and is not sent. */
  function PayloadOf<C, R>(arch: Arch<C, R>, e: Sent<C, R>): Option<seq<Byte>> {
    if RegOp(e.op) then Some(arch.encode(e.reg))
    else if e.op == CompareMem then e.mem
    else None
  }

  datatype MasterPhase<+C, +R> = Running | SentHeader(e: Sent<C, R>) | SentPayload(e: Sent<C, R>) | Stopped(res: Result)

  datatype Master<C, R> = Master(
    cpu: C, phase: MasterPhase<C, R>, setup: bool, memblock: Option<nat>,
    signals: nat, illegal: nat, log: seq<Sent<C, R>>)

  function EventOf<C, R>(arch: Arch<C, R>, m: Master<C, R>): Sent<C, R> {
    var r := arch.regs(m.cpu);
    Sent(m.cpu, arch.op(r), r,
         if m.memblock.Some? then Some(arch.memory(m.cpu, m.memblock.value)) else None,
         m.setup)
  }

  /** Entry of `master_sigill` up to the first blocking write. */
  function MasterTrap<C, R>(arch: Arch<C, R>, m: Master<C, R>): (Master<C, R>, seq<seq<Byte>>) {
    var e := EventOf(arch, m);
    var m1 := m.(signals := m.signals + 1, illegal := m.illegal + if e.op == Sigill then 1 else 0);
    if e.op == Sigill && m.setup then (m1.(cpu := arch.resume(m.cpu)), [])
    else (m1.(phase := SentHeader(e), log := m.log + [e]), [HeaderBytes(arch, e)])
  }

  /** The tail of `send_register_info` and of the handler, once every packet was accepted. */
  function MasterFinish<C, R>(arch: Arch<C, R>, m: Master<C, R>, e: Sent<C, R>): Master<C, R> {
    if e.op == TestEnd then m.(phase := Stopped(End))
    else
      var cpu := if e.op == GetMemblock
                 then arch.setParam(m.cpu, (arch.param(e.reg) + Address(m.memblock)) % Pow256(arch.ptr.Bytes()))
                 else m.cpu;
      m.(phase := Running,
         cpu := arch.resume(cpu),
         setup := SetupAfter(m.setup, e.op),
         memblock := if e.op == SetMemblock then Some(arch.param(e.reg)) else m.memblock)
  }

  lemma FinishPhase<C, R>(arch: Arch<C, R>, m: Master<C, R>, phase: MasterPhase<C, R>, e: Sent<C, R>)
    ensures MasterFinish(arch, m.(phase := phase), e) == MasterFinish(arch, m, e)
    ensures var m' := MasterFinish(arch, m, e);
      && m'.log == m.log && m'.signals == m.signals
      && if e.op == TestEnd then m' == m.(phase := Stopped(End)) else m'.phase.Running?
  {
  }

  /** A response byte arrives. */
  function MasterAck<C, R>(arch: Arch<C, R>, m: Master<C, R>, resp: Result): (Master<C, R>, seq<seq<Byte>>)
    requires m.phase.SentHeader? || m.phase.SentPayload?
  {
    if resp != Ok then (m.(phase := Stopped(resp)), [])
    else if m.phase.SentHeader? && PayloadOf(arch, m.phase.e).Some?
    then (m.(phase := SentPayload(m.phase.e)), [PayloadOf(arch, m.phase.e).value])
    else (MasterFinish(arch, m, m.phase.e), [])
  }

  // ---------------------------------------------------------------- apprentice

  /** One trap the apprentice compared: what it was, the outcome, and the context left behind. */
  datatype Seen<+C, +R> = Seen(
    op: Op, reg: R, mem: Option<seq<Byte>>, setup: bool, signals: nat, res: Result, before: C, after: C)

  datatype ApprenticePhase = Ready | AwaitHeader | AwaitPayload(h: Header, mop: Op) | Halted(res: Result)

  datatype Apprentice<C, R> = Apprentice(
    cpu: C, phase: ApprenticePhase, setup: bool, memblock: Option<nat>,
    signals: nat, illegal: nat, log: seq<Seen<C, R>>)

  /** What came with the header. */
  datatype Body<+R> = Nothing | Registers(reg: R) | Memory(mem: seq<Byte>)

  function OwnMemory<C, R>(arch: Arch<C, R>, a: Apprentice<C, R>): Option<seq<Byte>> {
    if a.memblock.Some? then Some(arch.memory(a.cpu, a.memblock.value)) else None
  }

  /** Entry of `apprentice_sigill` up to the first blocking read. */
  function ApprenticeTrap<C, R>(arch: Arch<C, R>, a: Apprentice<C, R>): Apprentice<C, R> {
    var op := arch.op(arch.regs(a.cpu));
    var a1 := a.(signals := a.signals + 1, illegal := a.illegal + if op == Sigill then 1 else 0);
    if op == Sigill && a.setup then a1.(cpu := arch.resume(a.cpu))
    else a1.(phase := AwaitHeader)
  }

  /** The comparison switch of `recv_and_compare_register_info`. */
  function Judge<C, R>(arch: Arch<C, R>, a: Apprentice<C, R>, mop: Op, body: Body<R>): Result
    requires RegOp(mop) ==> body.Registers?
    requires mop == CompareMem ==> body.Memory?
  {
    var r := arch.regs(a.cpu);
    var op := arch.op(r);
    if RegOp(op) then
      if !RegOp(mop) then MismatchOp
      else if !a.setup && !arch.equal(body.reg, r, a.signals) then MismatchReg
      else if op != mop then MismatchOp
      else if op == TestEnd then End
      else Ok
    else if op != mop then MismatchOp
    else if op == CompareMem then
      match OwnMemory(arch, a)
      case None => Segv
      case Some(own) => if own != body.mem then MismatchMem else Ok
    else Ok
  }

  /** What an accepted trap does to the interrupted context. */
  function Effect<C, R>(arch: Arch<C, R>, a: Apprentice<C, R>, body: Body<R>): C {
    var r := arch.regs(a.cpu);
    match arch.op(r)
    case Compare => if body.Registers? then arch.update(a.cpu, body.reg) else a.cpu
    case GetMemblock =>
      arch.setParam(a.cpu, (arch.param(r) + Address(a.memblock)) % Pow256(arch.ptr.Bytes()))
    case _ => a.cpu
  }

  /** The `done` label: answer the master, then resume or stop. */
  function Conclude<C, R>(arch: Arch<C, R>, a: Apprentice<C, R>, res: Result, after: C)
    : (Apprentice<C, R>, seq<Result>)
  {
    var r := arch.regs(a.cpu);
    var op := arch.op(r);
    var a1 := a.(log := a.log + [Seen(op, r, OwnMemory(arch, a), a.setup, a.signals, res, a.cpu, after)]);
    if res == Ok then
      (a1.(phase := Ready,
           cpu := arch.resume(after),
           setup := SetupAfter(a.setup, op),
           memblock := if op == SetMemblock then Some(arch.param(r)) else a.memblock),
       [Ok])
    else (a1.(phase := Halted(res)), [End])
  }

  function Decide<C, R>(arch: Arch<C, R>, a: Apprentice<C, R>, mop: Op, body: Body<R>)
    : (Apprentice<C, R>, seq<Result>)
    requires RegOp(mop) ==> body.Registers?
    requires mop == CompareMem ==> body.Memory?
  {
    var res := Judge(arch, a, mop, body);
    Conclude(arch, a, res, if res == Ok then Effect(arch, a, body) else a.cpu)
  }

  /** The header read; `None` stands for a read of the wrong length. */
  function ApprenticeHeader<C, R>(arch: Arch<C, R>, a: Apprentice<C, R>, got: Option<seq<Byte>>)
    : (Apprentice<C, R>, seq<Result>)
    requires got.Some? ==> |got.value| == HeaderLen(arch.ptr)
  {
    if got.None? then Conclude(arch, a, BadIo, a.cpu)
    else
      var h := Decode(got.value, arch.apprenticeBig, arch.ptr);
      if h.magic != RISU_MAGIC then Conclude(arch, a, BadMagic, a.cpu)
      else
        match OpOf(h.op)
        case None => Conclude(arch, a, BadOp, a.cpu)
        case Some(mop) =>
          if RegOp(mop) then
            if h.size > arch.maxSize then Conclude(arch, a, BadSizeHeader, a.cpu)
            else (a.(phase := AwaitPayload(h, mop)), [Ok])
          else if mop == CompareMem then
            if h.size != MEMBLOCKLEN then Conclude(arch, a, BadSizeMemblock, a.cpu)
            else (a.(phase := AwaitPayload(h, mop)), [Ok])
          else if h.size != 0 then Conclude(arch, a, BadSizeZero, a.cpu)
          else Decide(arch, a, mop, Nothing)
  }

  /** The payload read, after the header was acknowledged. */
  function ApprenticePayload<C, R>(arch: Arch<C, R>, a: Apprentice<C, R>, got: Option<seq<Byte>>)
    : (Apprentice<C, R>, seq<Result>)
    requires a.phase.AwaitPayload?
  {
    if got.None? then Conclude(arch, a, BadIo, a.cpu)
    else if RegOp(a.phase.mop) then
      var r := arch.decode(got.value);
      if a.phase.h.size != arch.size(r) then Conclude(arch, a, BadSizeReginfo, a.cpu)
      else Decide(arch, a, a.phase.mop, Registers(r))
    else Decide(arch, a, a.phase.mop, Memory(got.value))
  }

  // ---------------------------------------------------------------- the two joined by sockets

  /** Packets travel from master to apprentice, response bytes travel back. */
  datatype World<C, R> = World(m: Master<C, R>, a: Apprentice<C, R>, packets: seq<seq<Byte>>, replies: seq<Result>)

  /** A packet satisfies a read only if it has the expected length (`recv_data_pkt`). */
  function Received(pkt: seq<Byte>, n: nat): Option<seq<Byte>> {
    if |pkt| == n then Some(pkt) else None
  }

  datatype Action = MTrap | MAck | ATrap | AHeader | APayload

  predicate Enabled<C, R>(w: World<C, R>, act: Action) {
    match act
    case MTrap => w.m.phase.Running?
    case MAck => (w.m.phase.SentHeader? || w.m.phase.SentPayload?) && w.replies != []
    case ATrap => w.a.phase.Ready?
    case AHeader => w.a.phase.AwaitHeader? && w.packets != []
    case APayload => w.a.phase.AwaitPayload? && w.packets != []
  }

  function Do<C, R>(arch: Arch<C, R>, w: World<C, R>, act: Action): World<C, R>
    requires Enabled(w, act)
  {
    match act
    case MTrap =>
      var (m, out) := MasterTrap(arch, w.m);
      w.(m := m, packets := w.packets + out)
    case MAck =>
      var (m, out) := MasterAck(arch, w.m, w.replies[0]);
      w.(m := m, packets := w.packets + out, replies := w.replies[1..])
    case ATrap => w.(a := ApprenticeTrap(arch, w.a))
    case AHeader =>
      var (a, resp) := ApprenticeHeader(arch, w.a, Received(w.packets[0], HeaderLen(arch.ptr)));
      w.(a := a, packets := w.packets[1..], replies := w.replies + resp)
    case APayload =>
      var (a, resp) := ApprenticePayload(arch, w.a, Received(w.packets[0], w.a.phase.h.size));
      w.(a := a, packets := w.packets[1..], replies := w.replies + resp)
  }

  /** Both sides at the entry of the image. */
  function StartMaster<C, R>(c: C): Master<C, R> { Master(c, Running, false, None, 0, 0, []) }

  function StartApprentice<C, R>(c: C): Apprentice<C, R> { Apprentice(c, Ready, false, None, 0, 0, []) }

  function Start<C, R>(cm: C, ca: C): World<C, R> { World(StartMaster(cm), StartApprentice(ca), [], []) }

  /** A schedule is any interleaving of enabled actions. */
  predicate Schedule<C, R>(arch: Arch<C, R>, w: World<C, R>, acts: seq<Action>)
    decreases |acts|
  {
    acts == [] || (Enabled(w, acts[0]) && Schedule(arch, Do(arch, w, acts[0]), acts[1..]))
  }

  function Live<C, R>(arch: Arch<C, R>, w: World<C, R>, acts: seq<Action>): World<C, R>
    requires Schedule(arch, w, acts)
    decreases |acts|
  {
    if acts == [] then w else Live(arch, Do(arch, w, acts[0]), acts[1..])
  }

  // ---------------------------------------------------------------- recording and playback

  /** The master with every packet accepted, as when writing a trace file. */
  function MasterServe<C, R>(arch: Arch<C, R>, m: Master<C, R>): Master<C, R> {
    if !m.phase.Running? then m
    else
      var m1 := MasterTrap(arch, m).0;
      if m1.phase.SentHeader? then MasterFinish(arch, m1, m1.phase.e) else m1
  }

  /** The state after `n` traps of a master that is never told to stop. */
  function MasterAfter<C, R>(arch: Arch<C, R>, m: Master<C, R>, n: nat): Master<C, R> {
    if n == 0 then m else MasterServe(arch, MasterAfter(arch, m, n - 1))
  }

  function EventBytes<C, R>(arch: Arch<C, R>, e: Sent<C, R>): seq<Byte> {
    HeaderBytes(arch, e) + if PayloadOf(arch, e).Some? then PayloadOf(arch, e).value else []
  }

  /** The trace file holding the given events. */
  function Tape<C, R>(arch: Arch<C, R>, log: seq<Sent<C, R>>): seq<Byte> {
    if log == [] then [] else Tape(arch, log[..|log| - 1]) + EventBytes(arch, log[|log| - 1])
  }

  datatype Player<C, R> = Player(a: Apprentice<C, R>, pos: nat)

  /** A read of `n` bytes at `pos`; a short read is an error. */
  function ReadTape(tape: seq<Byte>, pos: nat, n: nat): Option<seq<Byte>> {
    if pos + n <= |tape| then Some(tape[pos..pos + n]) else None
  }

  /** One blocking step of the apprentice against the tape. */
  function Play<C, R>(arch: Arch<C, R>, tape: seq<Byte>, p: Player<C, R>): Player<C, R> {
    match p.a.phase
    case Ready => p.(a := ApprenticeTrap(arch, p.a))
    case AwaitHeader =>
      var n := HeaderLen(arch.ptr);
      Player(ApprenticeHeader(arch, p.a, ReadTape(tape, p.pos, n)).0, p.pos + n)
    case AwaitPayload(h, _) =>
      Player(ApprenticePayload(arch, p.a, ReadTape(tape, p.pos, h.size)).0, p.pos + h.size)
    case Halted(_) => p
  }

  function Playback<C, R>(arch: Arch<C, R>, tape: seq<Byte>, p: Player<C, R>, n: nat): Player<C, R> {
    if n == 0 then p else Play(arch, tape, Playback(arch, tape, p, n - 1))
  }
}
