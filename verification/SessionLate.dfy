/** Exactly when a telemetry frame can follow the end frame of a shutdown whose flush ended on its counter test. */
module SessionLate {
  import opened Common
  import opened Framing
  import opened Session
  import opened SessionProofs

  /** The counter test the closer is about to make will pass. */
  predicate TestPasses(s: State) {
    s.closer.CloseLoaded? && s.closer.w >= s.sh.queued
  }

  /** A telemetry frame stands somewhere behind an end frame. */
  ghost predicate TelemetryAfterEnd(log: seq<Frame>) {
    exists i, j :: 0 <= i < j < |log| && log[i].kind.End? && IsTelemetry(log[j])
  }

  /** Some continuation puts a telemetry frame behind the end frame. */
  ghost predicate CanFollow(s: State) {
    exists more :: After(s, more).Some? && TelemetryAfterEnd(After(s, more).value.peer.log)
  }

  /** The reader can still get as far as subscribing. */
  predicate MayGreet(s: State) {
    || s.reader.ReaderGreeting?
    || s.reader.ReaderReplying?
    || (s.reader.ReaderReady? && !s.sh.greeted && (ByReader in s.sh.direct ==> !s.sh.direct[ByReader].fatal))
  }

  /**
   * An encodable enqueue is under way that can pass the gate, and session, connection and queue would let it
   * through.
   */
  predicate MayFollow(s: State) {
    && !Quiet(s.tick) && Encodes(s.tick.f) && s.cfg.cap > 0
    && !s.sh.quit && !s.sh.broken
    && (s.sh.subscribed || MayGreet(s))
  }

  // ---- two more facts about every run ----------------------------------------------------------------------

  /** Where the handshake has got to, and why the writer stops. */
  ghost predicate Handshake(s: State) {
    && (s.sh.lock.Held? && s.sh.lock.stage.Cleared? ==> s.sh.lock.who.TheHello?)
    && (s.sh.lock.Held? && s.sh.lock.who.TheHello? && s.sh.lock.stage.Writing? ==> s.sh.subscribed)
    && (s.writer == WriterStopped(None) ==> s.sh.quit)
  }

  lemma HandshakeTick(s: State, op: TickOp)
    requires Handshake(s) && TickEnabled(s, op)
    ensures Handshake(TickStep(s, op))
  {
  }

  lemma HandshakeWriter(s: State, op: WriterOp)
    requires Handshake(s) && WriterEnabled(s, op)
    ensures Handshake(WriterStep(s, op))
  {
  }

  lemma HandshakeReader(s: State, op: ReaderOp)
    requires Handshake(s) && ReaderEnabled(s, op)
    ensures Handshake(ReaderStep(s, op))
  {
  }

  lemma HandshakeSend(s: State, op: SendOp)
    requires Handshake(s) && SendEnabled(s, op)
    ensures Handshake(SendStep(s, op))
  {
  }

  lemma HandshakeWire(s: State, op: WireOp)
    requires Handshake(s) && WireEnabled(s, op)
    ensures Handshake(WireStep(s, op))
  {
  }

  lemma HandshakeClose(s: State, op: CloseOp)
    requires Handshake(s) && CloseEnabled(s, op)
    ensures Handshake(CloseStep(s, op))
  {
  }

  /** What is known of every reachable state. */
  ghost predicate Known(s: State) {
    Inv(s) && Handshake(s)
  }

  lemma KnownStep(s: State, op: Op)
    requires Known(s) && Enabled(s, op)
    ensures Known(Apply(s, op)) && Apply(s, op).cfg == s.cfg
  {
    InvStep(s, op);
    match op
    case Ticker(t) => HandshakeTick(s, t);
    case Writer(w) => HandshakeWriter(s, w);
    case Reader(r) => HandshakeReader(s, r);
    case Sending(d) => HandshakeSend(s, d);
    case OnWire(o) => HandshakeWire(s, o);
    case Closer(c) => HandshakeClose(s, c);
  }

  lemma {:induction false} KnownOfEveryRun(s: State, ops: seq<Op>)
    requires Known(s)
    ensures After(s, ops).Some? ==> Known(After(s, ops).value)
  {
    if ops != [] {
      var front, op := ops[..|ops| - 1], ops[|ops| - 1];
      KnownOfEveryRun(s, front);
      if After(s, front).Some? && Enabled(After(s, front).value, op) {
        KnownStep(After(s, front).value, op);
      }
    }
  }

  // ---- when nothing can follow -----------------------------------------------------------------------------

  ghost predicate NoEnd(log: seq<Frame>) {
    forall f :: f in log ==> !f.kind.End?
  }

  /**
   * The session or the connection is over, and the end frame is not far enough on its way to be written all the
   * same.
   */
  ghost predicate Barred(s: State) {
    && (s.sh.quit || s.sh.broken) && NoEnd(s.peer.log)
    && (s.sh.lock.Held? && s.sh.lock.f.kind.End? ==>
        s.sh.lock.stage.Entered? || (s.sh.broken && s.sh.lock.stage == Writing(0)))
  }

  /** Nothing that encodes has been accepted since the flush, and nothing will be. */
  ghost predicate Dry(s: State) {
    && !s.sh.attached && s.flush.Some? && s.flush.value.byCounter && s.flush.value.accepted <= |s.sh.accepted|
    && Encodable(s.sh.accepted) == Encodable(s.sh.accepted[..s.flush.value.accepted])
    && (|| Quiet(s.tick)
        || !Encodes(s.tick.f)
        || s.cfg.cap == 0
        || (s.tick.TickLoaded? && !s.sh.subscribed && !MayGreet(s)))
  }

  lemma BarredStep(s: State, op: Op)
    requires Known(s) && Barred(s) && Enabled(s, op)
    ensures Barred(Apply(s, op))
  {
    match op
    case Ticker(t) => BarredTick(s, t);
    case Writer(w) => BarredWriter(s, w);
    case Reader(r) => BarredReader(s, r);
    case Sending(d) => BarredSend(s, d);
    case OnWire(o) => BarredWire(s, o);
    case Closer(c) => BarredClose(s, c);
  }

  lemma BarredTick(s: State, op: TickOp)
    requires Barred(s) && TickEnabled(s, op)
    ensures Barred(TickStep(s, op))
  {
  }

  lemma BarredClose(s: State, op: CloseOp)
    requires Barred(s) && CloseEnabled(s, op)
    ensures Barred(CloseStep(s, op))
  {
  }

  lemma BarredWriter(s: State, op: WriterOp)
    requires Pipeline(s) && Barred(s) && WriterEnabled(s, op)
    ensures Barred(WriterStep(s, op))
  {
    assert s.writer.WriterWants? ==> s.writer.f in Pending(s.writer);
  }

  lemma BarredReader(s: State, op: ReaderOp)
    requires Shape(s) && Handshake(s) && Barred(s) && ReaderEnabled(s, op)
    ensures Barred(ReaderStep(s, op))
  {
  }

  lemma BarredSend(s: State, op: SendOp)
    requires Shape(s) && Barred(s) && SendEnabled(s, op)
    ensures Barred(SendStep(s, op))
  {
  }

  lemma BarredWire(s: State, op: WireOp)
    requires Shape(s) && Barred(s) && WireEnabled(s, op)
    ensures Barred(WireStep(s, op))
  {
  }

  lemma DryStep(s: State, op: Op)
    requires Known(s) && Dry(s) && Enabled(s, op)
    ensures Dry(Apply(s, op))
  {
    match op
    case Ticker(t) => DryTick(s, t);
    case Writer(w) => DryWriter(s, w);
    case Reader(r) => DryReader(s, r);
    case Sending(d) => DrySend(s, d);
    case OnWire(o) => DryWire(s, o);
    case Closer(c) => DryClose(s, c);
  }

  lemma DryWriter(s: State, op: WriterOp)
    requires Dry(s) && WriterEnabled(s, op)
    ensures Dry(WriterStep(s, op))
  {
  }

  lemma DryClose(s: State, op: CloseOp)
    requires Flushing(s) && Dry(s) && CloseEnabled(s, op)
    ensures Dry(CloseStep(s, op))
  {
  }

  lemma DryTick(s: State, op: TickOp)
    requires Gated(s) && Dry(s) && TickEnabled(s, op)
    ensures Dry(TickStep(s, op))
  {
    if op.Offer? && |s.sh.queue| < s.cfg.cap {
      var n, f := s.flush.value.accepted, s.tick.f;
      assert (s.sh.accepted + [f])[..n] == s.sh.accepted[..n];
      FilterSnoc(s.sh.accepted, f, Encodes);
    }
  }

  lemma DryReader(s: State, op: ReaderOp)
    requires Shape(s) && Dry(s) && ReaderEnabled(s, op)
    ensures Dry(ReaderStep(s, op))
  {
  }

  /** What no send and no write touches, and neither lets the reader greet that could not before. */
  ghost predicate NoNearer(s: State, t: State) {
    && t.cfg == s.cfg && t.tick == s.tick && t.flush == s.flush
    && t.sh.attached == s.sh.attached && t.sh.accepted == s.sh.accepted && t.sh.subscribed == s.sh.subscribed
    && (MayGreet(t) ==> MayGreet(s))
  }

  lemma DryKept(s: State, t: State)
    requires Dry(s) && NoNearer(s, t)
    ensures Dry(t)
  {
  }

  lemma SendNoNearer(s: State, op: SendOp)
    requires Shape(s) && SendEnabled(s, op)
    ensures NoNearer(s, SendStep(s, op))
  {
  }

  lemma WireNoNearer(s: State, op: WireOp)
    requires Shape(s) && WireEnabled(s, op)
    ensures NoNearer(s, WireStep(s, op))
  {
  }

  lemma DrySend(s: State, op: SendOp)
    requires Shape(s) && Dry(s) && SendEnabled(s, op)
    ensures Dry(SendStep(s, op))
  {
    SendNoNearer(s, op);
    DryKept(s, SendStep(s, op));
  }

  lemma DryWire(s: State, op: WireOp)
    requires Shape(s) && Dry(s) && WireEnabled(s, op)
    ensures Dry(WireStep(s, op))
  {
    WireNoNearer(s, op);
    DryKept(s, WireStep(s, op));
  }

  lemma {:induction false} StaysShut(s: State, more: seq<Op>)
    requires Known(s) && (Barred(s) || Dry(s))
    ensures After(s, more).Some? ==> var e := After(s, more).value; Known(e) && (Barred(e) || Dry(e))
  {
    if more != [] {
      var front, op := more[..|more| - 1], more[|more| - 1];
      StaysShut(s, front);
      var before := After(s, front);
      if before.Some? && Enabled(before.value, op) {
        KnownStep(before.value, op);
        if Barred(before.value) {
          BarredStep(before.value, op);
        } else {
          DryStep(before.value, op);
        }
      }
    }
  }

  lemma ShutMeansNone(s: State)
    requires Known(s) && (Barred(s) || Dry(s))
    ensures !TelemetryAfterEnd(s.peer.log)
  {
    forall i, j | 0 <= i < j < |s.peer.log| && s.peer.log[i].kind.End? ensures !IsTelemetry(s.peer.log[j]) {
      assert s.peer.log[i] in s.peer.log;
      if Dry(s) {
        assert Delivered(s, i);
        DryTail(s, i);
        if IsTelemetry(s.peer.log[j]) {
          assert s.peer.log[i..][j - i] == s.peer.log[j];
          FilterKeeps(s.peer.log[i..], IsTelemetry, s.peer.log[j]);
        }
      }
    }
  }

  lemma DryTail(s: State, i: nat)
    requires Ordered(s) && Dry(s) && i < |s.peer.log| && Delivered(s, i)
    ensures Telemetry(s.peer.log[i..]) == []
  {
    var k := Settled(s);
    FilterSplit(s.sh.accepted, k, Encodes);
    FilterSplit(s.peer.log, i, IsTelemetry);
    NoRoom(Telemetry(s.peer.log[..i]), Telemetry(s.peer.log[i..]), Encodable(s.sh.accepted),
           Encodable(s.sh.accepted[k..]));
  }

  lemma NoRoom<T>(before: seq<T>, after: seq<T>, all: seq<T>, rest: seq<T>)
    requires all <= before && before + after + rest == all
    ensures after == []
  {
    assert |before + after + rest| == |all|;
  }

  /** At a passing test: everything accepted is written, the writer is idle or gone, and no end frame is on its way. */
  lemma AtTheTest(s: State)
    requires Known(s) && TestPasses(s)
    ensures s.sh.queue == [] && (s.writer.WriterIdle? || s.writer == WriterStopped(None)) && !s.tick.TickCounted?
              && !s.tick.TickFull?
    ensures NoEnd(s.peer.log) && (s.sh.lock.Held? ==> !s.sh.lock.f.kind.End?)
    ensures Admitted(s.tick) ==> s.sh.subscribed
  {
  }

  lemma OnlyIf(s: State)
    requires Known(s) && TestPasses(s) && !MayFollow(s)
    ensures !CanFollow(CloseStep(s, TestCounters))
  {
    var passed := CloseStep(s, TestCounters);
    AtTheTest(s);
    assert Apply(s, Closer(TestCounters)) == passed;
    KnownStep(s, Closer(TestCounters));
    assert s.sh.accepted[..|s.sh.accepted|] == s.sh.accepted;
    assert Barred(passed) || Dry(passed);
    forall more | After(passed, more).Some? ensures !TelemetryAfterEnd(After(passed, more).value.peer.log) {
      StaysShut(passed, more);
      ShutMeansNone(After(passed, more).value);
    }
  }

  // ---- how the frame follows -------------------------------------------------------------------------------

  /** The flush is over, the end frame is still to be sent, and the enqueue under way can still get through. */
  ghost predicate Poised(s: State) {
    && Known(s) && s.closer.CloseFlushed?
    && !s.sh.quit && !s.sh.broken && s.cfg.cap > 0
    && s.sh.queue == [] && s.writer.WriterIdle?
    && (s.tick.TickLoaded? || s.tick.TickGated? || s.tick.TickOpen?) && Encodes(s.tick.f)
    && (s.sh.subscribed || MayGreet(s))
  }

  /** `t` is reached from `s` by these steps. */
  ghost predicate Leads(s: State, ops: seq<Op>, t: State) {
    After(s, ops) == Some(t)
  }

  /** One more step of a continuation. */
  lemma Onward(s: State, ops: seq<Op>, t: State, op: Op) returns (next: seq<Op>, u: State)
    requires Leads(s, ops, t) && Known(t) && Enabled(t, op)
    ensures u == Apply(t, op) && Leads(s, next, u) && Known(u)
  {
    next, u := ops + [op], Apply(t, op);
    assert next[..|ops|] == ops;
    KnownStep(t, op);
  }

  /** All the bytes of the frame being written go out. */
  lemma FillWire(s: State, ops: seq<Op>, t: State) returns (next: seq<Op>, u: State)
    requires Leads(s, ops, t) && Known(t) && InWrite(t) && !t.sh.broken
    ensures Leads(s, next, u) && Known(u) && InWrite(u) && u.sh.lock.stage.sent == WireLength(u.sh.lock.f)
    ensures u == t.(sh := t.sh.(lock := u.sh.lock), peer := u.peer) && u.sh.lock == t.sh.lock.(stage := u.sh.lock.stage)
    ensures u.peer.log == t.peer.log
  {
    next, u := ops, t;
    if t.sh.lock.stage.sent < WireLength(t.sh.lock.f) {
      next, u := Onward(s, ops, t, OnWire(WriteSome(WireLength(t.sh.lock.f))));
    }
  }

  /** Whoever is writing finishes, and the frame is on the wire. */
  lemma WriteOut(s: State, ops: seq<Op>, t: State) returns (next: seq<Op>, u: State, p: Peer)
    requires Leads(s, ops, t) && Known(t) && InWrite(t) && !t.sh.broken
    ensures Leads(s, next, u) && Known(u) && p.log == t.peer.log + [t.sh.lock.f] && u == Finished(t.(peer := p), true)
  {
    next, u := FillWire(s, ops, t);
    p := u.peer.(log := u.peer.log + [u.sh.lock.f], torn := None);
    SameFinish(t, u, p);
    next, u := Onward(s, next, u, OnWire(WriteOk));
  }

  /** How many bytes were written makes no difference once the write is over. */
  lemma SameFinish(t: State, u: State, p: Peer)
    requires InWrite(t) && InWrite(u)
    requires u == t.(sh := t.sh.(lock := u.sh.lock), peer := u.peer)
               && u.sh.lock == t.sh.lock.(stage := u.sh.lock.stage)
    ensures Finished(u.(peer := p), true) == Finished(t.(peer := p), true)
  {
  }

  /** The hello reply under way is sent, and the session subscribed. */
  lemma HelloOut(s: State, ops: seq<Op>, t: State) returns (next: seq<Op>, u: State)
    requires Leads(s, ops, t) && Poised(t) && t.sh.lock.Held? && t.sh.lock.who.TheHello?
    ensures Leads(s, next, u) && Poised(u) && u.sh.lock.Free? && u.sh.subscribed && u.tick == t.tick
  {
    next, u := ops, t;
    if u.sh.lock.stage.Entered? {
      next, u := Onward(s, next, u, Reader(HelloCheckQuit));
    }
    if u.sh.lock.stage.Cleared? {
      next, u := Onward(s, next, u, Reader(HelloSubscribe));
    }
    var p;
    next, u, p := WriteOut(s, next, u);
  }

  /** The direct send under way is over. */
  lemma SendOut(s: State, ops: seq<Op>, t: State) returns (next: seq<Op>, u: State)
    requires Leads(s, ops, t) && Poised(t) && t.sh.lock.Held? && t.sh.lock.who.TheSender?
    ensures Leads(s, next, u) && Poised(u) && u.sh.lock.Free? && u.tick == t.tick
    ensures t.sh.lock.who.s !in u.sh.direct && (t.sh.subscribed ==> u.sh.subscribed)
  {
    next, u := ops, t;
    if u.sh.lock.stage.Entered? {
      next, u := Onward(s, next, u, Sending(SendCheckQuit));
    }
    var p;
    next, u, p := WriteOut(s, next, u);
  }

  lemma LockFreed(s: State, ops: seq<Op>, t: State) returns (next: seq<Op>, u: State)
    requires Leads(s, ops, t) && Poised(t)
    ensures Leads(s, next, u) && Poised(u) && u.sh.lock.Free? && u.tick == t.tick
  {
    next, u := ops, t;
    if t.sh.lock.Held? {
      match t.sh.lock.who
      case TheHello => next, u := HelloOut(s, ops, t);
      case TheSender(_) => next, u := SendOut(s, ops, t);
    }
  }

  /** A reader that can still greet does so, once a reply it is sending is out of the way. */
  lemma Subscribed(s: State, ops: seq<Op>, t: State) returns (next: seq<Op>, u: State)
    requires Leads(s, ops, t) && Poised(t) && t.sh.lock.Free?
    ensures Leads(s, next, u) && Poised(u) && u.sh.lock.Free? && u.sh.subscribed && u.tick == t.tick
  {
    next, u := ops, t;
    if t.sh.subscribed {
      return;
    }
    if ByReader in u.sh.direct {
      next, u := Onward(s, next, u, Sending(SendLock(ByReader)));
      next, u := SendOut(s, next, u);
    }
    if !u.sh.subscribed {
      if u.reader.ReaderReady? {
        next, u := Onward(s, next, u, Reader(Greet(HELLO)));
      }
      next, u := Onward(s, next, u, Reader(HelloLock));
      next, u := HelloOut(s, next, u);
    }
  }

  /** The enqueue passes the gate and finds the session open. */
  lemma PastTheGate(s: State, ops: seq<Op>, t: State) returns (next: seq<Op>, u: State)
    requires Leads(s, ops, t) && Poised(t) && t.sh.lock.Free? && t.sh.subscribed
    ensures Leads(s, next, u) && Poised(u) && u.sh.lock.Free? && u.tick == TickOpen(t.tick.f)
  {
    next, u := ops, t;
    if u.tick.TickLoaded? {
      next, u := Onward(s, next, u, Ticker(Gate));
    }
    if u.tick.TickGated? {
      next, u := Onward(s, next, u, Ticker(CheckQuit));
    }
  }

  /** The end frame goes out. */
  lemma EndOut(s: State, ops: seq<Op>, t: State) returns (next: seq<Op>, u: State)
    requires Leads(s, ops, t) && Poised(t) && t.sh.lock.Free? && t.tick.TickOpen?
    ensures Leads(s, next, u) && Known(u) && u.peer.log == t.peer.log + [END]
    ensures u.tick == t.tick && u.writer.WriterIdle? && u.sh.queue == [] && u.sh.lock.Free? && !u.sh.broken
              && u.cfg == t.cfg
  {
    var p;
    next, u := Onward(s, ops, t, Closer(SendEnd(END)));
    next, u := Onward(s, next, u, Sending(SendLock(ByEnder)));
    next, u := Onward(s, next, u, Sending(SendCheckQuit));
    next, u, p := WriteOut(s, next, u);
  }

  /** The frame of the enqueue under way goes out. */
  lemma FrameOut(s: State, ops: seq<Op>, t: State) returns (next: seq<Op>, u: State)
    requires Leads(s, ops, t) && Known(t) && t.tick.TickOpen? && Encodes(t.tick.f) && t.writer.WriterIdle?
    requires t.sh.queue == [] && t.sh.lock.Free? && !t.sh.broken && t.cfg.cap > 0
    ensures Leads(s, next, u) && u.peer.log == t.peer.log + [t.tick.f]
  {
    var p;
    next, u := Onward(s, ops, t, Ticker(Count));
    next, u := Onward(s, next, u, Ticker(Offer));
    next, u := Onward(s, next, u, Writer(Take));
    next, u := Onward(s, next, u, Writer(Encode));
    next, u := Onward(s, next, u, Writer(WriterLock));
    next, u, p := WriteOut(s, next, u);
  }

  /** The enqueue under way gets past the gate, whatever was in its way. */
  lemma Opened(s: State) returns (more: seq<Op>, t: State)
    requires Poised(s)
    ensures Leads(s, more, t) && Poised(t) && t.sh.lock.Free? && t.tick == TickOpen(s.tick.f)
  {
    assert Leads(s, [], s);
    more, t := LockFreed(s, [], s);
    more, t := Subscribed(s, more, t);
    more, t := PastTheGate(s, more, t);
  }

  /** A continuation that ends with the end frame and then the frame of the enqueue under way. */
  lemma Followed(s: State) returns (more: seq<Op>, t: State)
    requires Poised(s)
    ensures Leads(s, more, t) && |t.peer.log| >= 2
    ensures t.peer.log[|t.peer.log| - 2] == END && t.peer.log[|t.peer.log| - 1] == s.tick.f
  {
    more, t := Opened(s);
    more, t := EndOut(s, more, t);
    more, t := FrameOut(s, more, t);
  }

  lemma PoisedAtTheTest(s: State)
    requires Known(s) && TestPasses(s) && MayFollow(s)
    ensures Poised(CloseStep(s, TestCounters))
  {
    AtTheTest(s);
    assert Apply(s, Closer(TestCounters)) == CloseStep(s, TestCounters);
    KnownStep(s, Closer(TestCounters));
  }

  lemma EndThenTelemetry(s: State, more: seq<Op>, t: State)
    requires Leads(s, more, t) && |t.peer.log| >= 2
    requires t.peer.log[|t.peer.log| - 2].kind.End? && IsTelemetry(t.peer.log[|t.peer.log| - 1])
    ensures CanFollow(s)
  {
    assert TelemetryAfterEnd(t.peer.log);
  }

  lemma If(s: State)
    requires Known(s) && TestPasses(s) && MayFollow(s)
    ensures CanFollow(CloseStep(s, TestCounters))
  {
    PoisedAtTheTest(s);
    TickFrameIsTelemetry(CloseStep(s, TestCounters));
    var more, t := Followed(CloseStep(s, TestCounters));
    EndThenTelemetry(CloseStep(s, TestCounters), more, t);
  }

  lemma TickFrameIsTelemetry(s: State)
    requires Poised(s)
    ensures IsTelemetry(s.tick.f)
  {
  }

  // ---- the theorem -----------------------------------------------------------------------------------------

  /**
   * When the flush passes its counter test, a telemetry frame can still end up behind the end frame if and only if an
   * encodable one is being enqueued just then that the gate lets through or may yet let through, session and connection
   * are open, and the queue has room for anything at all.
   */
  lemma LateFrameIff(cfg: Config, ops: seq<Op>, s: State)
    requires After(Start(cfg), ops) == Some(s) && TestPasses(s)
    ensures CanFollow(CloseStep(s, TestCounters)) <==> MayFollow(s)
  {
    KnownOfEveryRun(Start(cfg), ops);
    if MayFollow(s) {
      If(s);
    } else {
      OnlyIf(s);
    }
  }
}
