/**
 * One stream session as a step system: the tick goroutine offering telemetry, the writer goroutine draining the
 * bounded queue, the reader goroutine doing the handshake, any number of direct senders, and the closer. A step is
 * one atomic operation: a load or store of an atomic, a lock or unlock, a channel operation, or some bytes of a write.
 */
module Session {
  import opened Common
  import opened Framing

  datatype Kind = Hello | Pose | Event | Heartbeat | End | Control

  /** A frame as its producer handed it over; a `None` body is a payload that does not marshal. */
  datatype Frame = Frame(kind: Kind, body: Option<Body>)

  predicate IsTelemetry(f: Frame) {
    f.kind.Pose? || f.kind.Event? || f.kind.Heartbeat?
  }

  predicate Encodes(f: Frame) {
    f.body.Some? && |f.body.value| <= MAX_FRAME_BYTES
  }

  function Wire(f: Frame): (r: Bytes)
    requires Encodes(f)
    ensures |r| == WireLength(f)
  {
    Encoded(f.body.value)
  }

  function WireLength(f: Frame): nat
    requires Encodes(f)
  {
    LENGTH_PREFIX_BYTES + |f.body.value|
  }

  /** The tick goroutine inside `enqueue`. */
  datatype TickPc =
    | TickIdle
    | TickLoaded(f: Frame)  // read the server's session pointer
    | TickGated(f: Frame)   // saw `subscribed`
    | TickOpen(f: Frame)    // saw `quit` open
    | TickCounted(f: Frame) // bumped `queued`
    | TickFull(f: Frame)    // the queue turned the frame away
    | TickStopped

  /** No enqueue is under way that the queue might still take. */
  predicate Quiet(t: TickPc) {
    t.TickIdle? || t.TickFull? || t.TickStopped?
  }

  /** The writer goroutine inside `writeLoop` and `writeFrame`. */
  datatype WriterPc =
    | WriterIdle
    | WriterTook(f: Frame)
    | WriterWants(f: Frame)
    | WriterWrites(f: Frame)
    | WriterWrote(f: Frame)
    | WriterSkipped(f: Frame)
    | WriterFailed(f: Frame)
    | WriterDetached(f: Frame)
    | WriterStopped(lost: Option<Frame>)

  datatype ReaderPc =
    | ReaderReady
    | ReaderGreeting(f: Frame) // `greeted` is set, the reply is encoded, the write lock is wanted
    | ReaderReplying(f: Frame)
    | ReaderEnded
    | ReaderDetached
    | ReaderDone

  datatype CloserPc =
    | CloseIdle
    | ClosePolling
    | CloseLoaded(w: int)
    | CloseWaiting
    | CloseFlushed
    | CloseSending
    | CloseDone

  datatype Sender = ByReader | ByEnder | ByMgmt(id: nat)

  /** A direct send in progress; `fatal` is whether the reader gives up once it is over. */
  datatype Send = Send(f: Frame, fatal: bool)

  datatype Holder = TheWriter | TheHello | TheSender(s: Sender)

  datatype Stage = Entered | Cleared | Writing(sent: nat)

  datatype Lock = Free | Held(who: Holder, f: Frame, stage: Stage)

  /** How the shutdown flush ended, whether no enqueue was under way then, and how much had been accepted. */
  datatype Flush = Flush(byCounter: bool, quiet: bool, accepted: nat)

  /** The atomics, channels and locks the goroutines share. */
  datatype Shared = Shared(
    attached: bool,          // the server's session pointer is this session
    quit: bool,
    greeted: bool,
    subscribed: bool,
    queued: int,
    written: int,
    queue: seq<Frame>,
    accepted: seq<Frame>,    // history: every frame the queue took, in order
    broken: bool,            // the connection is dead
    lock: Lock,
    direct: map<Sender, Send>
  )

  /** What the peer has received. */
  datatype Peer = Peer(
    wire: Bytes,
    log: seq<Frame>,         // history: frames whose write succeeded, in order
    torn: Option<Part>       // history: the frame whose bytes end the wire, and how many of them
  )

  datatype Part = Part(f: Frame, sent: nat)

  datatype Config = Config(
    cap: nat,
    failureKills: bool,      // a failed write leaves the connection dead
    stdio: bool
  )

  datatype State = State(
    cfg: Config,
    sh: Shared,
    peer: Peer,
    tick: TickPc,
    writer: WriterPc,
    reader: ReaderPc,
    closer: CloserPc,
    flush: Option<Flush>
  )

  function Start(cfg: Config): State {
    State(cfg, Shared(true, false, false, false, 0, 0, [], [], false, Free, map[]), Peer([], [], None),
          TickIdle, WriterIdle, ReaderReady, CloseIdle, None)
  }

  // ---- the tick goroutine: `enqueue` -----------------------------------------------------------------------

  datatype TickOp = Begin(f: Frame) | Gate | CheckQuit | Count | Offer | Rollback | Stop

  predicate TickEnabled(s: State, op: TickOp) {
    match op
    case Begin(f) => s.tick.TickIdle? && s.sh.attached && IsTelemetry(f)
    case Gate => s.tick.TickLoaded?
    case CheckQuit => s.tick.TickGated?
    case Count => s.tick.TickOpen?
    case Offer => s.tick.TickCounted?
    case Rollback => s.tick.TickFull?
    case Stop => s.tick.TickIdle?
  }

  function TickStep(s: State, op: TickOp): State
    requires TickEnabled(s, op)
  {
    match op
    case Begin(f) => s.(tick := TickLoaded(f))
    case Gate => s.(tick := if s.sh.subscribed then TickGated(s.tick.f) else TickIdle)
    case CheckQuit => s.(tick := if s.sh.quit then TickIdle else TickOpen(s.tick.f))
    case Count => s.(tick := TickCounted(s.tick.f), sh := s.sh.(queued := s.sh.queued + 1))
    case Offer =>
      if |s.sh.queue| < s.cfg.cap then
        s.(tick := TickIdle, sh := s.sh.(queue := s.sh.queue + [s.tick.f], accepted := s.sh.accepted + [s.tick.f]))
      else s.(tick := TickFull(s.tick.f))
    case Rollback => s.(tick := TickIdle, sh := s.sh.(queued := s.sh.queued - 1))
    case Stop => s.(tick := TickStopped)
  }

  // ---- the writer goroutine: `writeLoop` and `writeFrame`, up to and after the write itself -----------------

  datatype WriterOp = Take | SeeQuit | Encode | WriterLock | CountWritten | DetachWriter | ShutdownWriter

  predicate WriterEnabled(s: State, op: WriterOp) {
    match op
    case Take => s.writer.WriterIdle? && s.sh.queue != []
    case SeeQuit => s.writer.WriterIdle? && s.sh.quit
    case Encode => s.writer.WriterTook?
    case WriterLock => s.writer.WriterWants? && s.sh.lock.Free?
    case CountWritten => s.writer.WriterWrote? || s.writer.WriterSkipped?
    case DetachWriter => s.writer.WriterFailed?
    case ShutdownWriter => s.writer.WriterDetached?
  }

  function WriterStep(s: State, op: WriterOp): State
    requires WriterEnabled(s, op)
  {
    match op
    case Take => s.(writer := WriterTook(s.sh.queue[0]), sh := s.sh.(queue := s.sh.queue[1..]))
    case SeeQuit => s.(writer := WriterStopped(None))
    case Encode => s.(writer := if Encodes(s.writer.f) then WriterWants(s.writer.f) else WriterSkipped(s.writer.f))
    case WriterLock =>
      s.(writer := WriterWrites(s.writer.f), sh := s.sh.(lock := Held(TheWriter, s.writer.f, Writing(0))))
    case CountWritten => s.(writer := WriterIdle, sh := s.sh.(written := s.sh.written + 1))
    case DetachWriter => s.(writer := WriterDetached(s.writer.f), sh := s.sh.(attached := false))
    case ShutdownWriter => s.(writer := WriterStopped(Some(s.writer.f)), sh := s.sh.(quit := true))
  }

  // ---- the reader goroutine: `dispatch`, `handleHello` and `readerEnded` -------------------------------------

  datatype ReaderOp =
    | Greet(f: Frame) | HelloLock | HelloCheckQuit | HelloSubscribe
    | Reply(f: Frame, fatal: bool) | End | DetachReader | ShutdownReader

  predicate ReaderEnabled(s: State, op: ReaderOp) {
    match op
    case Greet(f) => s.reader.ReaderReady? && ByReader !in s.sh.direct && !s.sh.greeted && f.kind.Hello?
    case HelloLock => s.reader.ReaderGreeting? && s.sh.lock.Free?
    case HelloCheckQuit => s.sh.lock.Held? && s.sh.lock.who.TheHello? && s.sh.lock.stage.Entered?
    case HelloSubscribe => s.sh.lock.Held? && s.sh.lock.who.TheHello? && s.sh.lock.stage.Cleared?
    case Reply(f, fatal) => s.reader.ReaderReady? && ByReader !in s.sh.direct && f.kind.Control?
    case End => s.reader.ReaderReady? && ByReader !in s.sh.direct
    case DetachReader => s.reader.ReaderEnded? && !s.cfg.stdio
    case ShutdownReader => s.reader.ReaderDetached?
  }

  function ReaderStep(s: State, op: ReaderOp): State
    requires ReaderEnabled(s, op)
  {
    match op
    case Greet(f) =>
      s.(sh := s.sh.(greeted := true), reader := if Encodes(f) then ReaderGreeting(f) else ReaderEnded)
    case HelloLock =>
      s.(reader := ReaderReplying(s.reader.f), sh := s.sh.(lock := Held(TheHello, s.reader.f, Entered)))
    case HelloCheckQuit =>
      if s.sh.quit then s.(reader := ReaderEnded, sh := s.sh.(lock := Free))
      else s.(sh := s.sh.(lock := s.sh.lock.(stage := Cleared)))
    case HelloSubscribe => s.(sh := s.sh.(subscribed := true, lock := s.sh.lock.(stage := Writing(0))))
    case Reply(f, fatal) =>
      if Encodes(f) then s.(sh := s.sh.(direct := s.sh.direct[ByReader := Send(f, fatal)]))
      else if fatal then s.(reader := ReaderEnded)
      else s
    case End => s.(reader := ReaderEnded)
    case DetachReader => s.(reader := ReaderDetached, sh := s.sh.(attached := false))
    case ShutdownReader => s.(reader := ReaderDone, sh := s.sh.(quit := true))
  }

  // ---- direct senders: `send`, up to the write ---------------------------------------------------------------

  datatype SendOp = MgmtResult(id: nat, f: Frame) | SendLock(k: Sender) | SendCheckQuit

  predicate SendEnabled(s: State, op: SendOp) {
    match op
    case MgmtResult(id, f) => s.sh.greeted && ByMgmt(id) !in s.sh.direct && f.kind.Control?
    case SendLock(k) => k in s.sh.direct && s.sh.lock.Free?
    case SendCheckQuit => s.sh.lock.Held? && s.sh.lock.who.TheSender? && s.sh.lock.stage.Entered?
  }

  /** The direct send by `k` is over: it is forgotten, and a reader that sent a fatal refusal ends. */
  function SendOver(s: State, k: Sender): State {
    s.(sh := s.sh.(lock := Free, direct := s.sh.direct - {k}),
       reader := if k.ByReader? && k in s.sh.direct && s.sh.direct[k].fatal then ReaderEnded else s.reader)
  }

  function SendStep(s: State, op: SendOp): State
    requires SendEnabled(s, op)
  {
    match op
    case MgmtResult(id, f) =>
      if Encodes(f) then s.(sh := s.sh.(direct := s.sh.direct[ByMgmt(id) := Send(f, false)])) else s
    case SendLock(k) => s.(sh := s.sh.(lock := Held(TheSender(k), s.sh.direct[k].f, Entered)))
    case SendCheckQuit =>
      if s.sh.quit then SendOver(s, s.sh.lock.who.s) else s.(sh := s.sh.(lock := s.sh.lock.(stage := Writing(0))))
  }

  // ---- whoever holds the write lock: the write itself, and the connection ------------------------------------

  datatype WireOp = WriteSome(upTo: nat) | WriteOk | WriteFail | Break

  predicate InWrite(s: State) {
    s.sh.lock.Held? && s.sh.lock.stage.Writing? && Encodes(s.sh.lock.f)
  }

  predicate WireEnabled(s: State, op: WireOp) {
    match op
    case WriteSome(upTo) => InWrite(s) && !s.sh.broken && s.sh.lock.stage.sent < upTo <= WireLength(s.sh.lock.f)
    case WriteOk => InWrite(s) && s.sh.lock.stage.sent == WireLength(s.sh.lock.f)
    case WriteFail => InWrite(s) && (s.sh.broken || !s.cfg.failureKills)
    case Break => true
  }

  function WireStep(s: State, op: WireOp): State
    requires WireEnabled(s, op)
  {
    match op
    case WriteSome(upTo) =>
      var f, sent := s.sh.lock.f, s.sh.lock.stage.sent;
      s.(sh := s.sh.(lock := s.sh.lock.(stage := Writing(upTo))),
         peer := s.peer.(wire := s.peer.wire + Wire(f)[sent..upTo], torn := Some(Part(f, upTo))))
    case WriteOk => Finished(s.(peer := s.peer.(log := s.peer.log + [s.sh.lock.f], torn := None)), true)
    case WriteFail => Finished(s, false)
    case Break => s.(sh := s.sh.(broken := true))
  }

  /** The holder's write has returned, and the lock is free again. */
  function Finished(s: State, ok: bool): State
    requires InWrite(s)
  {
    match s.sh.lock.who
    case TheWriter =>
      s.(sh := s.sh.(lock := Free), writer := if ok then WriterWrote(s.sh.lock.f) else WriterFailed(s.sh.lock.f))
    case TheHello => s.(sh := s.sh.(lock := Free), reader := if ok then ReaderReady else ReaderEnded)
    case TheSender(k) => SendOver(s, k)
  }

  // ---- the closer: `closeWithReason`, `flushWithin`, `sendWithin`, `shutdown` --------------------------------

  datatype CloseOp = BeginClose | LoadWritten | TestCounters | Poll | GiveUp | SendEnd(f: Frame) | Shutdown

  predicate CloseEnabled(s: State, op: CloseOp) {
    match op
    case BeginClose => s.closer.CloseIdle?
    case LoadWritten => s.closer.ClosePolling?
    case TestCounters => s.closer.CloseLoaded?
    case Poll => s.closer.CloseWaiting?
    case GiveUp => s.closer.CloseWaiting?
    case SendEnd(f) => s.closer.CloseFlushed? && f.kind.End? && Encodes(f)
    case Shutdown => s.closer.CloseSending?
  }

  function CloseStep(s: State, op: CloseOp): State
    requires CloseEnabled(s, op)
  {
    match op
    case BeginClose => s.(closer := ClosePolling, sh := s.sh.(attached := false))
    case LoadWritten => s.(closer := CloseLoaded(s.sh.written))
    case TestCounters =>
      if s.closer.w >= s.sh.queued then
        s.(closer := CloseFlushed, flush := Some(Flush(true, Quiet(s.tick), |s.sh.accepted|)))
      else s.(closer := CloseWaiting)
    case Poll => s.(closer := ClosePolling)
    case GiveUp => s.(closer := CloseFlushed, flush := Some(Flush(false, Quiet(s.tick), |s.sh.accepted|)))
    case SendEnd(f) => s.(closer := CloseSending, sh := s.sh.(direct := s.sh.direct[ByEnder := Send(f, false)]))
    case Shutdown => s.(closer := CloseDone, sh := s.sh.(quit := true))
  }

  // ---- runs --------------------------------------------------------------------------------------------------

  datatype Op =
    | Ticker(t: TickOp) | Writer(w: WriterOp) | Reader(r: ReaderOp)
    | Sending(d: SendOp) | OnWire(o: WireOp) | Closer(c: CloseOp)

  predicate Enabled(s: State, op: Op) {
    match op
    case Ticker(t) => TickEnabled(s, t)
    case Writer(w) => WriterEnabled(s, w)
    case Reader(r) => ReaderEnabled(s, r)
    case Sending(d) => SendEnabled(s, d)
    case OnWire(o) => WireEnabled(s, o)
    case Closer(c) => CloseEnabled(s, c)
  }

  function Apply(s: State, op: Op): State
    requires Enabled(s, op)
  {
    match op
    case Ticker(t) => TickStep(s, t)
    case Writer(w) => WriterStep(s, w)
    case Reader(r) => ReaderStep(s, r)
    case Sending(d) => SendStep(s, d)
    case OnWire(o) => WireStep(s, o)
    case Closer(c) => CloseStep(s, c)
  }

  /** The state after taking `ops` one after the other, if each is enabled when its turn comes. */
  function After(s: State, ops: seq<Op>): Option<State> {
    if ops == [] then Some(s)
    else
      var before := After(s, ops[..|ops| - 1]);
      var op := ops[|ops| - 1];
      if before.Some? && Enabled(before.value, op) then Some(Apply(before.value, op)) else None
  }
}
