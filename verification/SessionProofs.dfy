/** What every interleaving of a stream session keeps, and what its shutdown guarantees. */
module SessionProofs {
  import opened Common
  import opened Framing
  import opened Session

  // ---- who holds what --------------------------------------------------------------------------------------

  ghost predicate LockShape(s: State) {
    && (s.sh.lock.Held? ==> Encodes(s.sh.lock.f)
                            && (s.sh.lock.stage.Writing? ==> s.sh.lock.stage.sent <= WireLength(s.sh.lock.f)))
    && (s.writer.WriterWrites? <==> s.sh.lock.Held? && s.sh.lock.who.TheWriter?)
    && (s.writer.WriterWrites? ==> s.sh.lock.f == s.writer.f && s.sh.lock.stage.Writing?)
    && (s.writer.WriterWants? ==> Encodes(s.writer.f))
    && (s.reader.ReaderReplying? <==> s.sh.lock.Held? && s.sh.lock.who.TheHello?)
    && (s.reader.ReaderReplying? ==> s.sh.lock.f == s.reader.f)
    && (s.reader.ReaderGreeting? || s.reader.ReaderReplying? ==> s.reader.f.kind.Hello? && Encodes(s.reader.f))
    && (s.sh.lock.Held? && s.sh.lock.who.TheSender? ==>
          s.sh.lock.who.s in s.sh.direct && s.sh.direct[s.sh.lock.who.s].f == s.sh.lock.f)
    && (s.reader.ReaderGreeting? || s.reader.ReaderReplying? ==> ByReader !in s.sh.direct)
    && (ByEnder in s.sh.direct ==> s.closer.CloseSending? || s.closer.CloseDone?)
  }

  ghost predicate DirectShape(direct: map<Sender, Send>) {
    forall k :: k in direct ==> Encodes(direct[k].f) && direct[k].f.kind == if k.ByEnder? then Kind.End else Control
  }

  /** The program counters, the write lock and the direct sends agree with one another. */
  ghost predicate Shape(s: State) {
    LockShape(s) && DirectShape(s.sh.direct)
  }

  lemma ShapeTick(s: State, op: TickOp)
    requires Shape(s) && TickEnabled(s, op)
    ensures Shape(TickStep(s, op))
  {
  }

  lemma ShapeWriter(s: State, op: WriterOp)
    requires Shape(s) && WriterEnabled(s, op)
    ensures Shape(WriterStep(s, op))
  {
  }

  lemma ShapeReader(s: State, op: ReaderOp)
    requires Shape(s) && ReaderEnabled(s, op)
    ensures Shape(ReaderStep(s, op))
  {
  }

  lemma ShapeSend(s: State, op: SendOp)
    requires Shape(s) && SendEnabled(s, op)
    ensures Shape(SendStep(s, op))
  {
  }

  lemma ShapeWire(s: State, op: WireOp)
    requires Shape(s) && WireEnabled(s, op)
    ensures Shape(WireStep(s, op))
  {
  }

  lemma ShapeClose(s: State, op: CloseOp)
    requires Shape(s) && CloseEnabled(s, op)
    ensures Shape(CloseStep(s, op))
  {
  }

  // ---- conservation ----------------------------------------------------------------------------------------

  /** 1 while the writer holds a frame it has not counted as written; for good when the connection failed under it. */
  function WriterHolds(w: WriterPc): nat {
    if w.WriterIdle? || w == WriterStopped(None) then 0 else 1
  }

  /** 1 while an enqueue is between its count and its outcome. */
  function EnqueueInProgress(t: TickPc): nat {
    if t.TickCounted? || t.TickFull? then 1 else 0
  }

  ghost predicate Conserved(s: State) {
    && s.sh.queued == s.sh.written + |s.sh.queue| + WriterHolds(s.writer) + EnqueueInProgress(s.tick)
    && s.sh.queued == |s.sh.accepted| + EnqueueInProgress(s.tick)
    && |s.sh.queue| <= s.cfg.cap
  }

  lemma ConservedTick(s: State, op: TickOp)
    requires Shape(s) && Conserved(s) && TickEnabled(s, op)
    ensures Conserved(TickStep(s, op))
  {
    if op.Offer? {
      var f := s.tick.f;
      assert |s.sh.queue + [f]| == |s.sh.queue| + 1 && |s.sh.accepted + [f]| == |s.sh.accepted| + 1;
    }
  }

  lemma ConservedWriter(s: State, op: WriterOp)
    requires Shape(s) && Conserved(s) && WriterEnabled(s, op)
    ensures Conserved(WriterStep(s, op))
  {
  }

  lemma ConservedReader(s: State, op: ReaderOp)
    requires Conserved(s) && ReaderEnabled(s, op)
    ensures Conserved(ReaderStep(s, op))
  {
  }

  lemma ConservedSend(s: State, op: SendOp)
    requires Conserved(s) && SendEnabled(s, op)
    ensures Conserved(SendStep(s, op))
  {
  }

  lemma ConservedWire(s: State, op: WireOp)
    requires Shape(s) && Conserved(s) && WireEnabled(s, op)
    ensures Conserved(WireStep(s, op))
  {
  }

  lemma ConservedClose(s: State, op: CloseOp)
    requires Shape(s) && Conserved(s) && CloseEnabled(s, op)
    ensures Conserved(CloseStep(s, op))
  {
  }

  // ---- order -----------------------------------------------------------------------------------------------

  /** The frame the writer took from the queue and has not put on the wire, if there is one. */
  function Pending(w: WriterPc): (r: seq<Frame>)
    ensures |r| <= 1
  {
    match w
    case WriterTook(f) => [f]
    case WriterWants(f) => [f]
    case WriterWrites(f) => [f]
    case WriterFailed(f) => [f]
    case WriterDetached(f) => [f]
    case WriterStopped(lost) => if lost.Some? then [lost.value] else []
    case _ => []
  }

  function Telemetry(fs: seq<Frame>): seq<Frame> {
    Filter(fs, IsTelemetry)
  }

  function Encodable(fs: seq<Frame>): seq<Frame> {
    Filter(fs, Encodes)
  }

  ghost predicate Pipeline(s: State) {
    && (forall f :: f in s.sh.queue ==> IsTelemetry(f))
    && (forall f :: f in Pending(s.writer) ==> IsTelemetry(f))
    && (s.tick.TickLoaded? || s.tick.TickGated? || s.tick.TickOpen? || s.tick.TickCounted? || s.tick.TickFull?
        ==> IsTelemetry(s.tick.f))
  }

  /** How many accepted frames the writer has finished with. */
  function Settled(s: State): int {
    |s.sh.accepted| - |Pending(s.writer)| - |s.sh.queue|
  }

  /**
   * The accepted frames are, in order: those settled, the writer's, the queue's; the wire has the encodable
   * settled ones.
   */
  ghost predicate Ordered(s: State) {
    var k := Settled(s);
    && k >= 0
    && s.sh.accepted[k..] == Pending(s.writer) + s.sh.queue
    && Telemetry(s.peer.log) == Encodable(s.sh.accepted[..k])
  }

  lemma PipelineTick(s: State, op: TickOp)
    requires Pipeline(s) && TickEnabled(s, op)
    ensures Pipeline(TickStep(s, op))
  {
  }

  lemma PipelineWriter(s: State, op: WriterOp)
    requires Pipeline(s) && WriterEnabled(s, op)
    ensures Pipeline(WriterStep(s, op))
  {
    if op.Take? {
      assert s.sh.queue[0] in s.sh.queue;
      assert forall f :: f in s.sh.queue[1..] ==> f in s.sh.queue;
    }
  }

  lemma PipelineWire(s: State, op: WireOp)
    requires Shape(s) && Pipeline(s) && WireEnabled(s, op)
    ensures Pipeline(WireStep(s, op))
  {
    if op.WriteFail? && s.sh.lock.who.TheWriter? {
      assert s.writer.f in Pending(s.writer);
    }
  }

  lemma OrderedTick(s: State, op: TickOp)
    requires Ordered(s) && TickEnabled(s, op)
    ensures Ordered(TickStep(s, op))
  {
    if op.Offer? && |s.sh.queue| < s.cfg.cap {
      var k, f := Settled(s), s.tick.f;
      assert (s.sh.accepted + [f])[k..] == s.sh.accepted[k..] + [f];
      assert (s.sh.accepted + [f])[..k] == s.sh.accepted[..k];
    }
  }

  /** Settling the frame the writer holds moves the boundary past it. */
  lemma SettleNext(accepted: seq<Frame>, k: nat, f: Frame, queue: seq<Frame>)
    requires k <= |accepted| && accepted[k..] == [f] + queue
    ensures k < |accepted| && accepted[k + 1..] == queue
    ensures Encodable(accepted[..k + 1]) ==
              if Encodes(f) then Encodable(accepted[..k]) + [f] else Encodable(accepted[..k])
  {
    assert accepted[k] == accepted[k..][0] == f;
    assert accepted[k + 1..] == accepted[k..][1..];
    assert accepted[..k + 1] == accepted[..k] + [f];
    FilterSnoc(accepted[..k], f, Encodes);
  }

  /** The order speaks only of these four. */
  lemma OrderedSame(s: State, s': State)
    requires Ordered(s) && s'.sh.accepted == s.sh.accepted && s'.sh.queue == s.sh.queue
    requires s'.peer.log == s.peer.log && Pending(s'.writer) == Pending(s.writer)
    ensures Ordered(s')
  {
  }

  /** A frame that does not encode is settled without reaching the wire. */
  lemma OrderedSkipped(s: State, s': State, f: Frame)
    requires Ordered(s) && Pending(s.writer) == [f] && !Encodes(f)
    requires s'.sh.accepted == s.sh.accepted && s'.sh.queue == s.sh.queue
    requires s'.peer.log == s.peer.log && Pending(s'.writer) == []
    ensures Ordered(s')
  {
    SettleNext(s.sh.accepted, Settled(s), f, s.sh.queue);
    assert [] + s.sh.queue == s.sh.queue;
  }

  lemma OrderedWriter(s: State, op: WriterOp)
    requires Ordered(s) && WriterEnabled(s, op)
    ensures Ordered(WriterStep(s, op))
  {
    match op
    case Take => assert s.sh.queue == [s.sh.queue[0]] + s.sh.queue[1..];
    case Encode =>
      if !Encodes(s.writer.f) {
        OrderedSkipped(s, WriterStep(s, op), s.writer.f);
      } else {
        OrderedSame(s, WriterStep(s, op));
      }
    case _ => OrderedSame(s, WriterStep(s, op));
  }

  /** The writer's frame, once written, is settled and on the wire. */
  lemma OrderedWritten(s: State, s': State, f: Frame)
    requires Ordered(s) && Pending(s.writer) == [f] && Encodes(f) && IsTelemetry(f)
    requires s'.sh.accepted == s.sh.accepted && s'.sh.queue == s.sh.queue
    requires s'.peer.log == s.peer.log + [f] && Pending(s'.writer) == []
    ensures Ordered(s')
  {
    SettleNext(s.sh.accepted, Settled(s), f, s.sh.queue);
    FilterSnoc(s.peer.log, f, IsTelemetry);
    assert [] + s.sh.queue == s.sh.queue;
  }

  /** Another frame on the wire does not disturb the telemetry. */
  lemma OrderedOther(s: State, s': State, f: Frame)
    requires Ordered(s) && !IsTelemetry(f)
    requires s'.sh.accepted == s.sh.accepted && s'.sh.queue == s.sh.queue
    requires s'.peer.log == s.peer.log + [f] && Pending(s'.writer) == Pending(s.writer)
    ensures Ordered(s')
  {
    FilterSnoc(s.peer.log, f, IsTelemetry);
  }

  lemma OrderedWire(s: State, op: WireOp)
    requires Shape(s) && Pipeline(s) && Ordered(s) && WireEnabled(s, op)
    ensures Ordered(WireStep(s, op))
  {
    match op
    case WriteOk =>
      if s.sh.lock.who.TheWriter? {
        assert s.writer.f in Pending(s.writer);
        OrderedWritten(s, WireStep(s, op), s.sh.lock.f);
      } else {
        OrderedOther(s, WireStep(s, op), s.sh.lock.f);
      }
    case _ => OrderedSame(s, WireStep(s, op));
  }

  // ---- the hello gate --------------------------------------------------------------------------------------

  ghost predicate Greeted(log: seq<Frame>) {
    exists j :: 0 <= j < |log| && log[j].kind.Hello?
  }

  /** Every telemetry frame on the wire comes after a hello reply. */
  ghost predicate HelloFirst(log: seq<Frame>) {
    forall i :: 0 <= i < |log| && IsTelemetry(log[i]) ==> Greeted(log[..i])
  }

  predicate Admitted(t: TickPc) {
    t.TickGated? || t.TickOpen? || t.TickCounted? || t.TickFull?
  }

  ghost predicate Gated(s: State) {
    && (Admitted(s.tick) || s.sh.queue != [] || WriterHolds(s.writer) > 0
        ==> s.sh.subscribed)
    && (s.cfg.failureKills && s.sh.subscribed && !Greeted(s.peer.log) ==>
          s.sh.broken || (s.sh.lock.Held? && s.sh.lock.who.TheHello? && s.sh.lock.stage.Writing?))
    && (s.cfg.failureKills ==> HelloFirst(s.peer.log))
    && (s.cfg.failureKills && s.peer.torn.Some? && IsTelemetry(s.peer.torn.value.f) ==> Greeted(s.peer.log))
  }

  lemma GatedTick(s: State, op: TickOp)
    requires Gated(s) && TickEnabled(s, op)
    ensures Gated(TickStep(s, op))
  {
  }

  lemma GatedWriter(s: State, op: WriterOp)
    requires Gated(s) && WriterEnabled(s, op)
    ensures Gated(WriterStep(s, op))
  {
  }

  lemma GatedReader(s: State, op: ReaderOp)
    requires Shape(s) && Gated(s) && ReaderEnabled(s, op)
    ensures Gated(ReaderStep(s, op))
  {
  }

  lemma GatedSend(s: State, op: SendOp)
    requires Shape(s) && Gated(s) && SendEnabled(s, op)
    ensures Gated(SendStep(s, op))
  {
  }

  lemma GreetedGrows(log: seq<Frame>, f: Frame)
    ensures Greeted(log) || f.kind.Hello? ==> Greeted(log + [f])
    ensures HelloFirst(log) && (IsTelemetry(f) ==> Greeted(log)) ==> HelloFirst(log + [f])
  {
    var next := log + [f];
    if Greeted(log) {
      var j :| 0 <= j < |log| && log[j].kind.Hello?;
      assert next[j].kind.Hello?;
    } else if f.kind.Hello? {
      assert next[|log|].kind.Hello?;
    }
    assert forall i :: 0 <= i <= |log| ==> next[..i] == log[..i];
    assert log[..|log|] == log;
  }

  lemma GatedWire(s: State, op: WireOp)
    requires Shape(s) && Pipeline(s) && TornIsHeld(s) && Gated(s) && WireEnabled(s, op)
    ensures Gated(WireStep(s, op))
  {
    if op.WriteOk? {
      GreetedGrows(s.peer.log, s.sh.lock.f);
    }
  }

  lemma GatedClose(s: State, op: CloseOp)
    requires Gated(s) && CloseEnabled(s, op)
    ensures Gated(CloseStep(s, op))
  {
  }

  // ---- whole frames on the wire ----------------------------------------------------------------------------

  function Bodies(fs: seq<Frame>): (r: seq<Bytes>)
    requires forall f :: f in fs ==> Encodes(f)
    ensures |r| == |fs| && forall b :: b in r ==> Framable(b)
  {
    if fs == [] then []
    else
      var last := fs[|fs| - 1];
      assert last in fs && Encodes(last);
      Bodies(fs[..|fs| - 1]) + [last.body.value]
  }

  function Tail(torn: Option<Part>): Bytes
    requires torn.Some? ==> Encodes(torn.value.f) && torn.value.sent <= WireLength(torn.value.f)
  {
    if torn.Some? then Wire(torn.value.f)[..torn.value.sent] else []
  }

  /** The wire is the logged frames, whole, then the first bytes of at most one more. */
  ghost predicate WholeFrames(p: Peer) {
    && (forall f :: f in p.log ==> Encodes(f))
    && (p.torn.Some? ==> Encodes(p.torn.value.f) && 0 < p.torn.value.sent <= WireLength(p.torn.value.f))
    && p.wire == EncodeAll(Bodies(p.log)) + Tail(p.torn)
  }

  /** While the connection lives, the unfinished frame is the lock holder's. */
  ghost predicate TornIsHeld(s: State) {
    s.cfg.failureKills ==>
      && (InWrite(s) && s.sh.lock.stage.sent > 0 ==> s.peer.torn == Some(Part(s.sh.lock.f, s.sh.lock.stage.sent)))
      && (!s.sh.broken && s.peer.torn.Some? ==> InWrite(s) && s.sh.lock.stage.sent > 0)
  }

  lemma TornTick(s: State, op: TickOp)
    requires TornIsHeld(s) && TickEnabled(s, op)
    ensures TornIsHeld(TickStep(s, op))
  {
  }

  lemma TornWriter(s: State, op: WriterOp)
    requires TornIsHeld(s) && WriterEnabled(s, op)
    ensures TornIsHeld(WriterStep(s, op))
  {
  }

  lemma TornReader(s: State, op: ReaderOp)
    requires TornIsHeld(s) && ReaderEnabled(s, op)
    ensures TornIsHeld(ReaderStep(s, op))
  {
  }

  lemma TornSend(s: State, op: SendOp)
    requires TornIsHeld(s) && SendEnabled(s, op)
    ensures TornIsHeld(SendStep(s, op))
  {
  }

  lemma TornWire(s: State, op: WireOp)
    requires TornIsHeld(s) && WireEnabled(s, op)
    ensures TornIsHeld(WireStep(s, op))
  {
  }

  lemma TornClose(s: State, op: CloseOp)
    requires TornIsHeld(s) && CloseEnabled(s, op)
    ensures TornIsHeld(CloseStep(s, op))
  {
  }

  /** More bytes of the frame being written. */
  lemma WholeGrows(p: Peer, f: Frame, sent: nat, upTo: nat)
    requires WholeFrames(p) && Encodes(f) && sent < upTo <= WireLength(f)
    requires if sent > 0 then p.torn == Some(Part(f, sent)) else p.torn == None
    ensures WholeFrames(p.(wire := p.wire + Wire(f)[sent..upTo], torn := Some(Part(f, upTo))))
  {
    var base, w := EncodeAll(Bodies(p.log)), Wire(f);
    assert w[..upTo] == w[..sent] + w[sent..upTo];
    ConcatAssociates(base, w[..sent], w[sent..upTo]);
  }

  /** The last byte of a frame makes it one of the whole ones. */
  lemma WholeDone(p: Peer, f: Frame)
    requires WholeFrames(p) && Encodes(f) && p.torn == Some(Part(f, WireLength(f)))
    ensures WholeFrames(p.(log := p.log + [f], torn := None))
  {
    var log := p.log + [f];
    assert log[..|p.log|] == p.log;
    assert Bodies(log) == Bodies(p.log) + [f.body.value];
    assert Bodies(log)[..|p.log|] == Bodies(p.log);
    assert Wire(f)[..WireLength(f)] == Wire(f);
    ConcatEmpty(EncodeAll(Bodies(log)), []);
  }

  lemma WholeWire(s: State, op: WireOp)
    requires s.cfg.failureKills && TornIsHeld(s) && WholeFrames(s.peer) && WireEnabled(s, op)
    ensures WholeFrames(WireStep(s, op).peer)
  {
    match op
    case WriteSome(upTo) => WholeGrows(s.peer, s.sh.lock.f, s.sh.lock.stage.sent, upTo);
    case WriteOk => WholeDone(s.peer, s.sh.lock.f);
    case _ =>
  }

  /** What the peer makes of the wire: every logged frame, in order, and no byte that is not a frame's. */
  lemma PeerReadsLog(p: Peer)
    requires WholeFrames(p)
    ensures var got := ReadAll(p.wire);
            || (got == Stream(Bodies(p.log), Tail(p.torn)))
            || (p.torn.Some? && p.torn.value.sent == WireLength(p.torn.value.f)
                && got == Stream(Bodies(p.log) + [p.torn.value.f.body.value], []))
  {
    var base := Bodies(p.log);
    ReadAllEncodeAll(base, Tail(p.torn));
    ConcatEmpty(base, []);
    if p.torn.Some? {
      var f, sent := p.torn.value.f, p.torn.value.sent;
      if sent < WireLength(f) {
        TornFrameReadsNothing(f.body.value, sent);
      } else {
        ReadOneEncoded(f.body.value, []);
        ConcatEmpty(Wire(f), []);
        assert Wire(f)[..sent] == Wire(f);
        assert ReadAll(Wire(f)) == Stream([f.body.value] + ReadAll([]).bodies, []);
      }
    }
  }

  // ---- the shutdown flush ----------------------------------------------------------------------------------

  /** 1 while the tick goroutine is past the server's session pointer and may still have a frame accepted. */
  function Late(t: TickPc): nat {
    if Quiet(t) then 0 else 1
  }

  /** Frames accepted before the flush ended are on the wire before position `i`. */
  ghost predicate Delivered(s: State, i: nat)
    requires s.flush.Some? && s.flush.value.accepted <= |s.sh.accepted| && i <= |s.peer.log|
  {
    Encodable(s.sh.accepted[..s.flush.value.accepted]) <= Telemetry(s.peer.log[..i])
  }

  ghost predicate Flushing(s: State) {
    && (!s.closer.CloseIdle? ==> !s.sh.attached)
    && (s.flush.None? <==>
          s.closer.CloseIdle? || s.closer.ClosePolling? || s.closer.CloseLoaded? || s.closer.CloseWaiting?)
    && (s.closer.CloseLoaded? ==> s.closer.w <= s.sh.written)
    && (s.flush.None? ==> forall f :: f in s.peer.log ==> !f.kind.End?)
    && (s.flush.Some? ==> FlushKept(s))
  }

  ghost predicate FlushKept(s: State)
    requires s.flush.Some?
  {
    var fl := s.flush.value;
    && fl.accepted <= |s.sh.accepted|
    && (fl.byCounter ==>
          && Delivered(s, |s.peer.log|)
          && |s.sh.accepted| + Late(s.tick) <= fl.accepted + 1
          && (fl.quiet ==> Late(s.tick) == 0 && |s.sh.accepted| == fl.accepted)
          && forall i :: 0 <= i < |s.peer.log| && s.peer.log[i].kind.End? ==> Delivered(s, i))
  }

  lemma FlushSame(s: State, s': State)
    requires s.flush.Some? ==> FlushKept(s)
    requires s'.flush == s.flush && s'.tick == s.tick && s'.sh.accepted == s.sh.accepted && s'.peer.log == s.peer.log
    ensures s'.flush.Some? ==> FlushKept(s')
  {
  }

  lemma FlushingTick(s: State, op: TickOp)
    requires Flushing(s) && TickEnabled(s, op)
    ensures Flushing(TickStep(s, op))
  {
    if op.Offer? && |s.sh.queue| < s.cfg.cap && s.flush.Some? {
      var n := s.flush.value.accepted;
      assert (s.sh.accepted + [s.tick.f])[..n] == s.sh.accepted[..n];
    }
  }

  lemma FlushingWriter(s: State, op: WriterOp)
    requires Flushing(s) && WriterEnabled(s, op)
    ensures Flushing(WriterStep(s, op))
  {
    FlushSame(s, WriterStep(s, op));
  }

  lemma FlushingReader(s: State, op: ReaderOp)
    requires Flushing(s) && ReaderEnabled(s, op)
    ensures Flushing(ReaderStep(s, op))
  {
    FlushSame(s, ReaderStep(s, op));
  }

  lemma FlushingSend(s: State, op: SendOp)
    requires Flushing(s) && SendEnabled(s, op)
    ensures Flushing(SendStep(s, op))
  {
    FlushSame(s, SendStep(s, op));
  }

  /** A longer log delivers no less, at every position. */
  lemma LogGrows(s: State, s': State, f: Frame)
    requires s.flush.Some? && FlushKept(s)
    requires s'.flush == s.flush && s'.tick == s.tick && s'.sh.accepted == s.sh.accepted
    requires s'.peer.log == s.peer.log + [f]
    ensures FlushKept(s')
  {
    var log := s.peer.log;
    if s.flush.value.byCounter {
      DeliveredByAll(s, s', f);
      forall i | 0 <= i < |s'.peer.log| && s'.peer.log[i].kind.End? ensures Delivered(s', i) {
        if i < |log| {
          assert s'.peer.log[i] == log[i] && s'.peer.log[..i] == log[..i];
        } else {
          assert s'.peer.log[..i] == log == log[..|log|];
        }
      }
    }
  }

  lemma DeliveredByAll(s: State, s': State, f: Frame)
    requires s.flush.Some? && s.flush.value.accepted <= |s.sh.accepted| && Delivered(s, |s.peer.log|)
    requires s'.flush == s.flush && s'.sh.accepted == s.sh.accepted && s'.peer.log == s.peer.log + [f]
    ensures Delivered(s', |s'.peer.log|)
  {
    var log := s.peer.log;
    assert log[..|log|] == log && s'.peer.log[..|s'.peer.log|] == log + [f];
    FilterSnoc(log, f, IsTelemetry);
  }

  /** Before the flush ends there is no end frame on its way to be logged. */
  lemma NoEndYet(s: State)
    requires Shape(s) && Pipeline(s) && Flushing(s) && s.flush.None? && WireEnabled(s, WriteOk)
    ensures !s.sh.lock.f.kind.End?
  {
    if s.sh.lock.who.TheWriter? {
      assert s.writer.f in Pending(s.writer);
    }
  }

  lemma FlushingWire(s: State, op: WireOp)
    requires Shape(s) && Pipeline(s) && Flushing(s) && WireEnabled(s, op)
    ensures Flushing(WireStep(s, op))
  {
    if op.WriteOk? {
      if s.flush.Some? {
        LogGrows(s, WireStep(s, op), s.sh.lock.f);
      } else {
        NoEndYet(s);
      }
    } else {
      FlushSame(s, WireStep(s, op));
    }
  }

  /** The counter test passes only when nothing accepted is still on its way. */
  lemma CounterTest(s: State)
    requires Conserved(s) && Ordered(s) && s.closer.CloseLoaded? && s.closer.w <= s.sh.written
    requires s.closer.w >= s.sh.queued
    ensures Telemetry(s.peer.log) == Encodable(s.sh.accepted)
    ensures EnqueueInProgress(s.tick) == 0
  {
    assert s.sh.accepted[..|s.sh.accepted|] == s.sh.accepted;
  }

  lemma FlushingClose(s: State, op: CloseOp)
    requires Shape(s) && Conserved(s) && Ordered(s) && Flushing(s) && CloseEnabled(s, op)
    ensures Flushing(CloseStep(s, op))
  {
    if op.TestCounters? && s.closer.w >= s.sh.queued {
      CounterTest(s);
      assert s.sh.accepted[..|s.sh.accepted|] == s.sh.accepted;
      assert s.peer.log[..|s.peer.log|] == s.peer.log;
    }
  }

  // ---- every run -------------------------------------------------------------------------------------------

  /** What every reachable state satisfies of the frames on their way, */
  ghost predicate Moving(s: State) {
    Shape(s) && Conserved(s) && Pipeline(s) && Ordered(s)
  }

  /** and of what the peer is promised. */
  ghost predicate Promised(s: State) {
    && Gated(s) && Flushing(s) && TornIsHeld(s)
    && (s.cfg.failureKills ==> WholeFrames(s.peer))
  }

  ghost predicate Inv(s: State) {
    Moving(s) && Promised(s)
  }

  /** A step that leaves the frames alone. */
  ghost predicate SameFrames(s: State, s': State) {
    && s'.sh.queue == s.sh.queue && s'.sh.accepted == s.sh.accepted && s'.peer.log == s.peer.log
    && s'.writer == s.writer && s'.tick == s.tick
  }

  lemma StaysInLine(s: State, s': State)
    requires Pipeline(s) && Ordered(s) && SameFrames(s, s')
    ensures Pipeline(s') && Ordered(s')
  {
    OrderedSame(s, s');
  }

  lemma ReaderIsAside(s: State, op: ReaderOp)
    requires ReaderEnabled(s, op)
    ensures SameFrames(s, ReaderStep(s, op))
  {
  }

  lemma SendIsAside(s: State, op: SendOp)
    requires SendEnabled(s, op)
    ensures SameFrames(s, SendStep(s, op))
  {
  }

  lemma CloseIsAside(s: State, op: CloseOp)
    requires CloseEnabled(s, op)
    ensures SameFrames(s, CloseStep(s, op))
  {
  }

  lemma MovingTick(s: State, op: TickOp)
    requires Moving(s) && TickEnabled(s, op)
    ensures Moving(TickStep(s, op))
  {
    ShapeTick(s, op);
    ConservedTick(s, op);
    PipelineTick(s, op);
    OrderedTick(s, op);
  }

  lemma PromisedTick(s: State, op: TickOp)
    requires Inv(s) && TickEnabled(s, op)
    ensures Promised(TickStep(s, op))
  {
    GatedTick(s, op);
    FlushingTick(s, op);
    TornTick(s, op);
  }

  lemma MovingWriter(s: State, op: WriterOp)
    requires Moving(s) && WriterEnabled(s, op)
    ensures Moving(WriterStep(s, op))
  {
    ShapeWriter(s, op);
    ConservedWriter(s, op);
    PipelineWriter(s, op);
    OrderedWriter(s, op);
  }

  lemma PromisedWriter(s: State, op: WriterOp)
    requires Inv(s) && WriterEnabled(s, op)
    ensures Promised(WriterStep(s, op))
  {
    GatedWriter(s, op);
    FlushingWriter(s, op);
    TornWriter(s, op);
  }

  lemma MovingReader(s: State, op: ReaderOp)
    requires Moving(s) && ReaderEnabled(s, op)
    ensures Moving(ReaderStep(s, op))
  {
    ShapeReader(s, op);
    ConservedReader(s, op);
    ReaderIsAside(s, op);
    StaysInLine(s, ReaderStep(s, op));
  }

  lemma PromisedReader(s: State, op: ReaderOp)
    requires Inv(s) && ReaderEnabled(s, op)
    ensures Promised(ReaderStep(s, op))
  {
    GatedReader(s, op);
    FlushingReader(s, op);
    TornReader(s, op);
  }

  lemma MovingSend(s: State, op: SendOp)
    requires Moving(s) && SendEnabled(s, op)
    ensures Moving(SendStep(s, op))
  {
    ShapeSend(s, op);
    ConservedSend(s, op);
    SendIsAside(s, op);
    StaysInLine(s, SendStep(s, op));
  }

  lemma PromisedSend(s: State, op: SendOp)
    requires Inv(s) && SendEnabled(s, op)
    ensures Promised(SendStep(s, op))
  {
    GatedSend(s, op);
    FlushingSend(s, op);
    TornSend(s, op);
  }

  lemma MovingWire(s: State, op: WireOp)
    requires Moving(s) && WireEnabled(s, op)
    ensures Moving(WireStep(s, op))
  {
    ShapeWire(s, op);
    ConservedWire(s, op);
    PipelineWire(s, op);
    OrderedWire(s, op);
  }

  lemma PromisedWire(s: State, op: WireOp)
    requires Inv(s) && WireEnabled(s, op)
    ensures Promised(WireStep(s, op))
  {
    GatedWire(s, op);
    FlushingWire(s, op);
    TornWire(s, op);
    if s.cfg.failureKills {
      WholeWire(s, op);
    }
  }

  lemma MovingClose(s: State, op: CloseOp)
    requires Moving(s) && CloseEnabled(s, op)
    ensures Moving(CloseStep(s, op))
  {
    ShapeClose(s, op);
    ConservedClose(s, op);
    CloseIsAside(s, op);
    StaysInLine(s, CloseStep(s, op));
  }

  lemma PromisedClose(s: State, op: CloseOp)
    requires Inv(s) && CloseEnabled(s, op)
    ensures Promised(CloseStep(s, op))
  {
    GatedClose(s, op);
    FlushingClose(s, op);
    TornClose(s, op);
  }

  lemma InvTick(s: State, op: TickOp)
    requires Inv(s) && TickEnabled(s, op)
    ensures Inv(TickStep(s, op)) && TickStep(s, op).cfg == s.cfg
  {
    MovingTick(s, op);
    PromisedTick(s, op);
  }

  lemma InvWriter(s: State, op: WriterOp)
    requires Inv(s) && WriterEnabled(s, op)
    ensures Inv(WriterStep(s, op)) && WriterStep(s, op).cfg == s.cfg
  {
    MovingWriter(s, op);
    PromisedWriter(s, op);
  }

  lemma InvReader(s: State, op: ReaderOp)
    requires Inv(s) && ReaderEnabled(s, op)
    ensures Inv(ReaderStep(s, op)) && ReaderStep(s, op).cfg == s.cfg
  {
    MovingReader(s, op);
    PromisedReader(s, op);
  }

  lemma InvSend(s: State, op: SendOp)
    requires Inv(s) && SendEnabled(s, op)
    ensures Inv(SendStep(s, op)) && SendStep(s, op).cfg == s.cfg
  {
    MovingSend(s, op);
    PromisedSend(s, op);
  }

  lemma InvWire(s: State, op: WireOp)
    requires Inv(s) && WireEnabled(s, op)
    ensures Inv(WireStep(s, op)) && WireStep(s, op).cfg == s.cfg
  {
    MovingWire(s, op);
    PromisedWire(s, op);
  }

  lemma InvClose(s: State, op: CloseOp)
    requires Inv(s) && CloseEnabled(s, op)
    ensures Inv(CloseStep(s, op)) && CloseStep(s, op).cfg == s.cfg
  {
    MovingClose(s, op);
    PromisedClose(s, op);
  }

  lemma InvStep(s: State, op: Op)
    requires Inv(s) && Enabled(s, op)
    ensures Inv(Apply(s, op)) && Apply(s, op).cfg == s.cfg
  {
    match op
    case Ticker(t) => InvTick(s, t);
    case Writer(w) => InvWriter(s, w);
    case Reader(r) => InvReader(s, r);
    case Sending(d) => InvSend(s, d);
    case OnWire(o) => InvWire(s, o);
    case Closer(c) => InvClose(s, c);
  }

  lemma InvStart(cfg: Config)
    ensures Inv(Start(cfg))
  {
  }

  /** Every run keeps the invariant, and the configuration it started with. */
  lemma {:induction false} EveryRun(cfg: Config, ops: seq<Op>)
    ensures var end := After(Start(cfg), ops); end.Some? ==> Inv(end.value) && end.value.cfg == cfg
  {
    if ops == [] {
      InvStart(cfg);
    } else {
      var front, op := ops[..|ops| - 1], ops[|ops| - 1];
      EveryRun(cfg, front);
      var before := After(Start(cfg), front);
      if before.Some? && Enabled(before.value, op) {
        InvStep(before.value, op);
      }
    }
  }

  // ---- the guarantees --------------------------------------------------------------------------------------

  /**
   * Every accepted frame is written, queued, or in the writer's hands; `queued` counts them and the enqueue
   * under way.
   */
  lemma CountersConserve(cfg: Config, ops: seq<Op>, s: State)
    requires After(Start(cfg), ops) == Some(s)
    ensures s.sh.queued == s.sh.written + |s.sh.queue| + WriterHolds(s.writer) + EnqueueInProgress(s.tick)
    ensures s.sh.queued == |s.sh.accepted| + EnqueueInProgress(s.tick)
    ensures |s.sh.queue| <= cfg.cap
  {
    EveryRun(cfg, ops);
  }

  /** The telemetry on the wire is a prefix of what was accepted and encodes: nothing reordered, nothing skipped. */
  lemma TelemetryInOrder(cfg: Config, ops: seq<Op>, s: State)
    requires After(Start(cfg), ops) == Some(s)
    ensures Telemetry(s.peer.log) <= Encodable(s.sh.accepted)
  {
    EveryRun(cfg, ops);
    OrderedIsPrefix(s);
  }

  lemma OrderedIsPrefix(s: State)
    requires Ordered(s)
    ensures Telemetry(s.peer.log) <= Encodable(s.sh.accepted)
  {
    EncodablePrefix(s.sh.accepted, Settled(s));
  }

  lemma EncodablePrefix(accepted: seq<Frame>, k: nat)
    requires k <= |accepted|
    ensures Encodable(accepted[..k]) <= Encodable(accepted)
  {
    FilterConcat(accepted[..k], accepted[k..], Encodes);
    assert accepted[..k] + accepted[k..] == accepted;
  }

  /**
   * When the shutdown flush ended on its counter test, everything accepted by then precedes the end frame, and at
   * most one telemetry frame follows it; if no enqueue was under way then, none does, and nothing is missing.
   */
  lemma ShutdownDelivers(cfg: Config, ops: seq<Op>, s: State, i: nat)
    requires After(Start(cfg), ops) == Some(s)
    requires s.flush.Some? && s.flush.value.byCounter
    requires i < |s.peer.log| && s.peer.log[i].kind.End?
    ensures s.flush.value.accepted <= |s.sh.accepted|
    ensures Encodable(s.sh.accepted[..s.flush.value.accepted]) <= Telemetry(s.peer.log[..i])
    ensures |Telemetry(s.peer.log[i..])| <= 1
    ensures s.flush.value.quiet ==>
              Telemetry(s.peer.log[..i]) == Encodable(s.sh.accepted) && Telemetry(s.peer.log[i..]) == []
  {
    EveryRun(cfg, ops);
    TelemetryInOrder(cfg, ops, s);
    assert Delivered(s, i);
    EndSplitsTelemetry(s.sh.accepted, s.peer.log, s.flush.value.accepted, i);
  }

  /** If the log up to `i` has what was accepted first, the rest of the log has at most what was accepted since. */
  lemma EndSplitsTelemetry(accepted: seq<Frame>, log: seq<Frame>, n: nat, i: nat)
    requires n <= |accepted| <= n + 1 && i <= |log|
    requires Telemetry(log) <= Encodable(accepted) && Encodable(accepted[..n]) <= Telemetry(log[..i])
    ensures |Telemetry(log[i..])| <= 1
    ensures n == |accepted| ==> Telemetry(log[..i]) == Encodable(accepted) && Telemetry(log[i..]) == []
  {
    FilterSplit(log, i, IsTelemetry);
    FilterSplit(accepted, n, Encodes);
    AtMostTheLate(Telemetry(log[..i]), Telemetry(log[i..]), Encodable(accepted[..n]), Encodable(accepted[n..]));
  }

  lemma AtMostTheLate<T>(before: seq<T>, after: seq<T>, early: seq<T>, late: seq<T>)
    requires early <= before && before + after <= early + late
    ensures |after| <= |late|
    ensures late == [] ==> after == [] && before == early + late
  {
  }

  /** Where a failed write kills the connection, no byte of telemetry reaches the peer before a whole hello reply. */
  lemma HelloComesFirst(cfg: Config, ops: seq<Op>, s: State)
    requires After(Start(cfg), ops) == Some(s) && cfg.failureKills
    ensures HelloFirst(s.peer.log)
    ensures s.peer.torn.Some? && IsTelemetry(s.peer.torn.value.f) ==> Greeted(s.peer.log)
  {
    EveryRun(cfg, ops);
  }

  /**
   * Where a failed write kills the connection, a peer reading the wire gets the logged frames, whole and in order,
   * and at most one more that was cut off by the failure; while it lives and nobody writes, exactly the log.
   */
  lemma WireIsWholeFrames(cfg: Config, ops: seq<Op>, s: State)
    requires After(Start(cfg), ops) == Some(s) && cfg.failureKills
    ensures forall f :: f in s.peer.log ==> Encodes(f)
    ensures Bodies(s.peer.log) <= ReadAll(s.peer.wire).bodies
    ensures |ReadAll(s.peer.wire).bodies| <= |s.peer.log| + 1
    ensures !s.sh.broken && s.sh.lock.Free? ==> ReadAll(s.peer.wire) == Stream(Bodies(s.peer.log), [])
  {
    EveryRun(cfg, ops);
    PeerReadsLog(s.peer);
  }

  // ---- where the guarantees stop ---------------------------------------------------------------------------

  lemma Extend(cfg: Config, ops: seq<Op>, op: Op) returns (next: seq<Op>)
    requires After(Start(cfg), ops).Some? && Enabled(After(Start(cfg), ops).value, op)
    ensures After(Start(cfg), next) == Some(Apply(After(Start(cfg), ops).value, op))
  {
    next := ops + [op];
    assert next[..|ops|] == ops;
  }

  const HELLO := Frame(Kind.Hello, Some([0]))
  const POSE := Frame(Pose, Some([1]))
  const END := Frame(Kind.End, Some([2]))

  /** The reply to a hello, up to its write. */
  lemma Subscribing(cfg: Config) returns (ops: seq<Op>)
    ensures After(Start(cfg), ops) ==
              Some(var s := Start(cfg);
                   s.(reader := ReaderReplying(HELLO),
                      sh := s.sh.(greeted := true, subscribed := true, lock := Held(TheHello, HELLO, Writing(0)))))
  {
    ops := [];
    ops := Extend(cfg, ops, Reader(Greet(HELLO)));
    ops := Extend(cfg, ops, Reader(HelloLock));
    ops := Extend(cfg, ops, Reader(HelloCheckQuit));
    ops := Extend(cfg, ops, Reader(HelloSubscribe));
  }

  /** A client is greeted, and the tick goroutine is about to count a pose. */
  lemma AboutToCount(cfg: Config) returns (ops: seq<Op>, s: State)
    ensures After(Start(cfg), ops) == Some(s)
    ensures s.peer.log == [HELLO] && s == Start(cfg).(reader := ReaderReady, tick := TickOpen(POSE), peer := s.peer,
                                                     sh := Start(cfg).sh.(greeted := true, subscribed := true))
  {
    ops := Subscribing(cfg);
    ops := Extend(cfg, ops, OnWire(WriteSome(5)));
    ops := Extend(cfg, ops, OnWire(WriteOk));
    ops := Extend(cfg, ops, Ticker(Begin(POSE)));
    ops := Extend(cfg, ops, Ticker(Gate));
    ops := Extend(cfg, ops, Ticker(CheckQuit));
    s := After(Start(cfg), ops).value;
  }

  /** The flush can pass while the tick goroutine is about to count a frame, and the end frame goes out. */
  lemma EndsEarly(cfg: Config) returns (ops: seq<Op>, s: State)
    ensures After(Start(cfg), ops) == Some(s) && s.cfg == cfg
    ensures s.tick == TickOpen(POSE) && s.writer == WriterIdle && s.sh.queue == [] && s.sh.lock == Free && !s.sh.broken
    ensures s.flush == Some(Flush(true, false, 0)) && s.peer.log == [HELLO, END]
  {
    ops, s := AboutToCount(cfg);
    ops := Extend(cfg, ops, Closer(BeginClose));
    ops := Extend(cfg, ops, Closer(LoadWritten));
    ops := Extend(cfg, ops, Closer(TestCounters));
    ops := Extend(cfg, ops, Closer(SendEnd(END)));
    ops := Extend(cfg, ops, Sending(SendLock(ByEnder)));
    ops := Extend(cfg, ops, Sending(SendCheckQuit));
    ops := Extend(cfg, ops, OnWire(WriteSome(5)));
    ops := Extend(cfg, ops, OnWire(WriteOk));
    s := After(Start(cfg), ops).value;
  }

  /** A tick goroutine still inside `enqueue` when the flush passes puts a pose on the wire after the end frame. */
  lemma LateFrame(cfg: Config) returns (ops: seq<Op>, s: State)
    requires cfg.cap > 0
    ensures After(Start(cfg), ops) == Some(s)
    ensures s.flush.Some? && s.flush.value.byCounter && !s.flush.value.quiet
    ensures s.peer.log == [HELLO, END, POSE]
  {
    ops, s := EndsEarly(cfg);
    ops := Extend(cfg, ops, Ticker(Count));
    ops := Extend(cfg, ops, Ticker(Offer));
    ops := Extend(cfg, ops, Writer(Take));
    ops := Extend(cfg, ops, Writer(Encode));
    ops := Extend(cfg, ops, Writer(WriterLock));
    ops := Extend(cfg, ops, OnWire(WriteSome(5)));
    ops := Extend(cfg, ops, OnWire(WriteOk));
    s := After(Start(cfg), ops).value;
  }

  /** Where a failed write leaves the connection usable, a pose can be the first frame the peer gets. */
  lemma PoseBeforeHello(cfg: Config) returns (ops: seq<Op>, s: State)
    requires cfg.cap > 0 && !cfg.failureKills
    ensures After(Start(cfg), ops) == Some(s)
    ensures s.peer.log == [POSE]
  {
    ops := Subscribing(cfg);
    ops := Extend(cfg, ops, OnWire(WriteFail));
    ops := Extend(cfg, ops, Ticker(Begin(POSE)));
    ops := Extend(cfg, ops, Ticker(Gate));
    ops := Extend(cfg, ops, Ticker(CheckQuit));
    ops := Extend(cfg, ops, Ticker(Count));
    ops := Extend(cfg, ops, Ticker(Offer));
    ops := Extend(cfg, ops, Writer(Take));
    ops := Extend(cfg, ops, Writer(Encode));
    ops := Extend(cfg, ops, Writer(WriterLock));
    ops := Extend(cfg, ops, OnWire(WriteSome(5)));
    ops := Extend(cfg, ops, OnWire(WriteOk));
    s := After(Start(cfg), ops).value;
  }

  // ---- a session from end to end ---------------------------------------------------------------------------

  const RESULT := Frame(Control, Some([3]))

  /** The state of a session whose reader is ready and in which nothing is under way. */
  ghost predicate AtEase(s: State, cfg: Config, log: seq<Frame>) {
    && s.cfg == cfg && s.reader == ReaderReady && s.tick == TickIdle && s.writer == WriterIdle && s.closer == CloseIdle
    && s.sh.attached && !s.sh.quit && s.sh.greeted && s.sh.subscribed && !s.sh.broken
    && s.sh.queue == [] && s.sh.queued == s.sh.written && s.sh.lock == Free && s.sh.direct == map[] && s.peer.log == log
  }

  lemma PoseDelivered(cfg: Config) returns (ops: seq<Op>, s: State)
    requires cfg.cap > 0
    ensures After(Start(cfg), ops) == Some(s) && AtEase(s, cfg, [HELLO, POSE])
  {
    ops, s := AboutToCount(cfg);
    ops := Extend(cfg, ops, Ticker(Count));
    ops := Extend(cfg, ops, Ticker(Offer));
    ops := Extend(cfg, ops, Writer(Take));
    ops := Extend(cfg, ops, Writer(Encode));
    ops := Extend(cfg, ops, Writer(WriterLock));
    ops := Extend(cfg, ops, OnWire(WriteSome(5)));
    ops := Extend(cfg, ops, OnWire(WriteOk));
    ops := Extend(cfg, ops, Writer(CountWritten));
    s := After(Start(cfg), ops).value;
  }

  lemma ResultDelivered(cfg: Config) returns (ops: seq<Op>, s: State)
    requires cfg.cap > 0
    ensures After(Start(cfg), ops) == Some(s) && AtEase(s, cfg, [HELLO, POSE, RESULT])
  {
    ops, s := PoseDelivered(cfg);
    ops := Extend(cfg, ops, Sending(MgmtResult(0, RESULT)));
    ops := Extend(cfg, ops, Sending(SendLock(ByMgmt(0))));
    ops := Extend(cfg, ops, Sending(SendCheckQuit));
    ops := Extend(cfg, ops, OnWire(WriteSome(5)));
    ops := Extend(cfg, ops, OnWire(WriteOk));
    s := After(Start(cfg), ops).value;
    assert map[ByMgmt(0) := Send(RESULT, false)] - {ByMgmt(0)} == map[];
  }

  /**
   * The session can do its whole work: a client is greeted, gets a pose and the answer to a command, and when the
   * session closes the flush passes and the end frame is the last thing it gets.
   */
  lemma WholeSession(cfg: Config) returns (ops: seq<Op>, s: State)
    requires cfg.cap > 0
    ensures After(Start(cfg), ops) == Some(s) && s.closer == CloseDone && s.sh.quit
    ensures s.peer.log == [HELLO, POSE, RESULT, END] && s.flush.Some? && s.flush.value.byCounter && s.flush.value.quiet
  {
    ops, s := ResultDelivered(cfg);
    ops := Extend(cfg, ops, Closer(BeginClose));
    ops := Extend(cfg, ops, Closer(LoadWritten));
    ops := Extend(cfg, ops, Closer(TestCounters));
    ops := Extend(cfg, ops, Closer(SendEnd(END)));
    ops := Extend(cfg, ops, Sending(SendLock(ByEnder)));
    ops := Extend(cfg, ops, Sending(SendCheckQuit));
    ops := Extend(cfg, ops, OnWire(WriteSome(5)));
    ops := Extend(cfg, ops, OnWire(WriteOk));
    ops := Extend(cfg, ops, Closer(Shutdown));
    s := After(Start(cfg), ops).value;
  }
}
