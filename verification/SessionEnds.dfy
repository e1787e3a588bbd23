/** How a stream session comes to its end, and what no step can undo. */
module SessionEnds {
  import opened Common
  import opened Framing
  import opened Session
  import opened SessionProofs

  // ---- whoever finds it over marks it ----------------------------------------------------------------------

  /**
   * A goroutine that has given up has taken the session off the server, and then closed it; nobody closes it but one of
   * these, and on a pipe the reader never does.
   */
  ghost predicate Marked(s: State) {
    && (s.writer.WriterDetached? ==> !s.sh.attached)
    && (s.writer.WriterStopped? ==> s.sh.quit && (s.writer.lost.Some? ==> !s.sh.attached))
    && (s.reader.ReaderDetached? ==> !s.sh.attached)
    && (s.reader.ReaderDone? ==> !s.sh.attached && s.sh.quit)
    && (!s.closer.CloseIdle? ==> !s.sh.attached)
    && (s.closer.CloseDone? ==> s.sh.quit)
    && (s.sh.quit ==> s.closer.CloseDone? || s.reader.ReaderDone? || (s.writer.WriterStopped? && s.writer.lost.Some?))
    && (s.cfg.stdio ==> !s.reader.ReaderDetached? && !s.reader.ReaderDone?)
    && (ByReader in s.sh.direct ==> s.reader.ReaderReady?)
  }

  lemma MarkedTick(s: State, op: TickOp)
    requires Shape(s) && Marked(s) && TickEnabled(s, op)
    ensures Marked(TickStep(s, op))
    ensures s.sh.quit ==> TickStep(s, op).sh.quit
    ensures !s.sh.attached ==> !TickStep(s, op).sh.attached
  {
  }

  lemma MarkedWriter(s: State, op: WriterOp)
    requires Shape(s) && Marked(s) && WriterEnabled(s, op)
    ensures Marked(WriterStep(s, op))
    ensures s.sh.quit ==> WriterStep(s, op).sh.quit
    ensures !s.sh.attached ==> !WriterStep(s, op).sh.attached
  {
  }

  lemma MarkedReader(s: State, op: ReaderOp)
    requires Shape(s) && Marked(s) && ReaderEnabled(s, op)
    ensures Marked(ReaderStep(s, op))
    ensures s.sh.quit ==> ReaderStep(s, op).sh.quit
    ensures !s.sh.attached ==> !ReaderStep(s, op).sh.attached
  {
  }

  lemma MarkedSend(s: State, op: SendOp)
    requires Shape(s) && Marked(s) && SendEnabled(s, op)
    ensures Marked(SendStep(s, op))
    ensures s.sh.quit ==> SendStep(s, op).sh.quit
    ensures !s.sh.attached ==> !SendStep(s, op).sh.attached
  {
  }

  lemma MarkedWire(s: State, op: WireOp)
    requires Shape(s) && Marked(s) && WireEnabled(s, op)
    ensures Marked(WireStep(s, op))
    ensures s.sh.quit ==> WireStep(s, op).sh.quit
    ensures !s.sh.attached ==> !WireStep(s, op).sh.attached
  {
  }

  lemma MarkedClose(s: State, op: CloseOp)
    requires Shape(s) && Marked(s) && CloseEnabled(s, op)
    ensures Marked(CloseStep(s, op))
    ensures s.sh.quit ==> CloseStep(s, op).sh.quit
    ensures !s.sh.attached ==> !CloseStep(s, op).sh.attached
  {
  }

  lemma MarkedStep(s: State, op: Op)
    requires Shape(s) && Marked(s) && Enabled(s, op)
    ensures Marked(Apply(s, op))
    ensures s.sh.quit ==> Apply(s, op).sh.quit
    ensures !s.sh.attached ==> !Apply(s, op).sh.attached
  {
    match op
    case Ticker(t) => MarkedTick(s, t);
    case Writer(w) => MarkedWriter(s, w);
    case Reader(r) => MarkedReader(s, r);
    case Sending(d) => MarkedSend(s, d);
    case OnWire(o) => MarkedWire(s, o);
    case Closer(c) => MarkedClose(s, c);
  }

  lemma {:induction false} MarkedThroughout(s: State, more: seq<Op>)
    requires Inv(s) && Marked(s)
    ensures After(s, more).Some? ==> Inv(After(s, more).value) && Marked(After(s, more).value)
  {
    if more != [] {
      var front, op := more[..|more| - 1], more[|more| - 1];
      MarkedThroughout(s, front);
      var before := After(s, front);
      if before.Some? && Enabled(before.value, op) {
        InvStep(before.value, op);
        MarkedStep(before.value, op);
      }
    }
  }

  /** In every interleaving, a goroutine is done with the session only when everybody else can see that it is over. */
  lemma EndsAreMarked(cfg: Config, ops: seq<Op>)
    ensures After(Start(cfg), ops).Some? ==> Marked(After(Start(cfg), ops).value)
  {
    InvStart(cfg);
    MarkedThroughout(Start(cfg), ops);
  }

  // ---- after the session is closed -------------------------------------------------------------------------

  predicate IsDirect(f: Frame) {
    !IsTelemetry(f)
  }

  /** Closed, and nobody is past the check of it: no enqueue, no reply and no answer. */
  ghost predicate Sealed(s: State) {
    && s.sh.quit && !s.tick.TickOpen? && !s.tick.TickCounted?
    && (s.sh.lock.Held? && !s.sh.lock.who.TheWriter? ==> s.sh.lock.stage.Entered?)
  }

  /** Nothing more was accepted, and nothing but telemetry written. */
  ghost predicate NothingNew(s: State, e: State) {
    e.sh.accepted == s.sh.accepted && Filter(e.peer.log, IsDirect) == Filter(s.peer.log, IsDirect)
  }

  lemma SealedWire(s: State, op: WireOp)
    requires Shape(s) && Pipeline(s) && Sealed(s) && WireEnabled(s, op)
    ensures Sealed(WireStep(s, op)) && NothingNew(s, WireStep(s, op))
  {
    if op.WriteOk? {
      assert s.writer.f in Pending(s.writer);
      FilterSnoc(s.peer.log, s.sh.lock.f, IsDirect);
    }
  }

  lemma SealedTick(s: State, op: TickOp)
    requires Shape(s) && Sealed(s) && TickEnabled(s, op)
    ensures Sealed(TickStep(s, op)) && NothingNew(s, TickStep(s, op))
  {
  }

  lemma SealedWriter(s: State, op: WriterOp)
    requires Shape(s) && Sealed(s) && WriterEnabled(s, op)
    ensures Sealed(WriterStep(s, op)) && NothingNew(s, WriterStep(s, op))
  {
  }

  lemma SealedReader(s: State, op: ReaderOp)
    requires Shape(s) && Sealed(s) && ReaderEnabled(s, op)
    ensures Sealed(ReaderStep(s, op)) && NothingNew(s, ReaderStep(s, op))
  {
  }

  lemma SealedSend(s: State, op: SendOp)
    requires Shape(s) && Sealed(s) && SendEnabled(s, op)
    ensures Sealed(SendStep(s, op)) && NothingNew(s, SendStep(s, op))
  {
  }

  lemma SealedClose(s: State, op: CloseOp)
    requires Shape(s) && Sealed(s) && CloseEnabled(s, op)
    ensures Sealed(CloseStep(s, op)) && NothingNew(s, CloseStep(s, op))
  {
  }

  lemma SealedStep(s: State, op: Op)
    requires Inv(s) && Sealed(s) && Enabled(s, op)
    ensures Sealed(Apply(s, op)) && NothingNew(s, Apply(s, op))
  {
    match op
    case Ticker(t) => SealedTick(s, t);
    case Writer(w) => SealedWriter(s, w);
    case Reader(r) => SealedReader(s, r);
    case Sending(d) => SealedSend(s, d);
    case OnWire(o) => SealedWire(s, o);
    case Closer(c) => SealedClose(s, c);
  }

  /**
   * Once a session is closed and nobody is past the check of it, nothing more is ever accepted, and no reply, answer or
   * end frame is written, whatever the goroutines go on to do.
   */
  lemma {:induction false} ClosedForGood(s: State, more: seq<Op>)
    requires Inv(s) && Sealed(s)
    ensures After(s, more).Some? ==>
              var e := After(s, more).value; Inv(e) && Sealed(e) && NothingNew(s, e)
  {
    if more != [] {
      var front, op := more[..|more| - 1], more[|more| - 1];
      ClosedForGood(s, front);
      var before := After(s, front);
      if before.Some? && Enabled(before.value, op) {
        InvStep(before.value, op);
        SealedStep(before.value, op);
      }
    }
  }

  // ---- a fatal refusal -------------------------------------------------------------------------------------

  /** The reader is sending a fatal refusal, or is at its end. */
  ghost predicate Doomed(s: State) {
    || (ByReader in s.sh.direct && s.sh.direct[ByReader].fatal)
    || s.reader.ReaderEnded? || s.reader.ReaderDetached? || s.reader.ReaderDone?
  }

  lemma RefusalDooms(s: State, f: Frame)
    requires ReaderEnabled(s, Reply(f, true))
    ensures Doomed(ReaderStep(s, Reply(f, true)))
  {
  }

  lemma DoomedTick(s: State, op: TickOp)
    requires Shape(s) && Doomed(s) && TickEnabled(s, op)
    ensures Doomed(TickStep(s, op)) && TickStep(s, op).sh.greeted == s.sh.greeted
    ensures TickStep(s, op).sh.subscribed == s.sh.subscribed
  {
  }

  lemma DoomedWriter(s: State, op: WriterOp)
    requires Shape(s) && Doomed(s) && WriterEnabled(s, op)
    ensures Doomed(WriterStep(s, op)) && WriterStep(s, op).sh.greeted == s.sh.greeted
    ensures WriterStep(s, op).sh.subscribed == s.sh.subscribed
  {
  }

  lemma DoomedReader(s: State, op: ReaderOp)
    requires Shape(s) && Doomed(s) && ReaderEnabled(s, op)
    ensures Doomed(ReaderStep(s, op)) && ReaderStep(s, op).sh.greeted == s.sh.greeted
    ensures ReaderStep(s, op).sh.subscribed == s.sh.subscribed
  {
  }

  lemma DoomedSend(s: State, op: SendOp)
    requires Shape(s) && Doomed(s) && SendEnabled(s, op)
    ensures Doomed(SendStep(s, op)) && SendStep(s, op).sh.greeted == s.sh.greeted
    ensures SendStep(s, op).sh.subscribed == s.sh.subscribed
  {
  }

  lemma DoomedWire(s: State, op: WireOp)
    requires Shape(s) && Doomed(s) && WireEnabled(s, op)
    ensures Doomed(WireStep(s, op)) && WireStep(s, op).sh.greeted == s.sh.greeted
    ensures WireStep(s, op).sh.subscribed == s.sh.subscribed
  {
  }

  lemma DoomedClose(s: State, op: CloseOp)
    requires Shape(s) && Doomed(s) && CloseEnabled(s, op)
    ensures Doomed(CloseStep(s, op)) && CloseStep(s, op).sh.greeted == s.sh.greeted
    ensures CloseStep(s, op).sh.subscribed == s.sh.subscribed
  {
  }

  lemma DoomedStep(s: State, op: Op)
    requires Shape(s) && Doomed(s) && Enabled(s, op)
    ensures Doomed(Apply(s, op)) && Apply(s, op).sh.greeted == s.sh.greeted
    ensures Apply(s, op).sh.subscribed == s.sh.subscribed
  {
    match op
    case Ticker(t) => DoomedTick(s, t);
    case Writer(w) => DoomedWriter(s, w);
    case Reader(r) => DoomedReader(s, r);
    case Sending(d) => DoomedSend(s, d);
    case OnWire(o) => DoomedWire(s, o);
    case Closer(c) => DoomedClose(s, c);
  }

  /** A doomed reader only ever ends. */
  lemma {:induction false} RefusalIsFinal(s: State, more: seq<Op>)
    requires Inv(s) && Doomed(s)
    ensures After(s, more).Some? ==>
              var e := After(s, more).value;
              Inv(e) && Doomed(e) && e.sh.greeted == s.sh.greeted && e.sh.subscribed == s.sh.subscribed
  {
    if more != [] {
      var front, op := more[..|more| - 1], more[|more| - 1];
      RefusalIsFinal(s, front);
      var before := After(s, front);
      if before.Some? && Enabled(before.value, op) {
        InvStep(before.value, op);
        DoomedStep(before.value, op);
      }
    }
  }

  /** From a fatal refusal on the reader only ever ends: no client is greeted or subscribed any more. */
  lemma FatalRefusal(s: State, f: Frame, more: seq<Op>)
    requires Inv(s) && ReaderEnabled(s, Reply(f, true))
    ensures var refused := ReaderStep(s, Reply(f, true));
            After(refused, more).Some? ==>
              var e := After(refused, more).value;
              Doomed(e) && e.sh.greeted == s.sh.greeted && e.sh.subscribed == s.sh.subscribed
  {
    RefusalDooms(s, f);
    InvReader(s, Reply(f, true));
    RefusalIsFinal(ReaderStep(s, Reply(f, true)), more);
  }

  // ---- one greeting ----------------------------------------------------------------------------------------

  predicate IsHello(f: Frame) {
    f.kind.Hello?
  }

  /** Hello replies written, and the one under way. */
  function Replies(log: seq<Frame>, reader: ReaderPc): nat {
    |Filter(log, IsHello)| + if reader.ReaderGreeting? || reader.ReaderReplying? then 1 else 0
  }

  ghost predicate GreetedOnce(s: State) {
    Replies(s.peer.log, s.reader) <= if s.sh.greeted then 1 else 0
  }

  /** A frame that is not a hello reply adds none. */
  lemma OtherWritten(log: seq<Frame>, f: Frame)
    ensures |Filter(log + [f], IsHello)| == |Filter(log, IsHello)| + if IsHello(f) then 1 else 0
  {
    FilterSnoc(log, f, IsHello);
  }

  /** The writer's frames are telemetry, and a direct sender's are answers or the end. */
  lemma OnlyTheReaderGreets(s: State)
    requires Shape(s) && Pipeline(s) && s.sh.lock.Held?
    ensures IsHello(s.sh.lock.f) <==> s.sh.lock.who.TheHello?
    ensures s.sh.lock.who.TheHello? <==> s.reader.ReaderReplying?
  {
    assert s.sh.lock.who.TheWriter? ==> s.writer.f in Pending(s.writer);
  }

  /** Where the reader stands after a write that ended. */
  lemma ReaderAfterWrite(s: State, ok: bool)
    requires Shape(s) && InWrite(s)
    ensures var r := Finished(s, ok).reader;
            && (r.ReaderGreeting? || r.ReaderReplying? ==> r == s.reader && !s.sh.lock.who.TheHello?)
            && Finished(s, ok).sh.greeted == s.sh.greeted && Finished(s, ok).peer == s.peer
  {
  }

  /** A reply under way becomes one that is written, and a reader that goes on with one was not the writer. */
  lemma ReplyWritten(log: seq<Frame>, f: Frame, was: ReaderPc, reader: ReaderPc)
    requires IsHello(f) <==> was.ReaderReplying?
    requires reader.ReaderGreeting? || reader.ReaderReplying? ==> reader == was && !IsHello(f)
    ensures Replies(log + [f], reader) <= Replies(log, was)
  {
    OtherWritten(log, f);
  }

  lemma GreetedOnceWriteOk(s: State)
    requires Shape(s) && Pipeline(s) && GreetedOnce(s) && WireEnabled(s, WriteOk)
    ensures GreetedOnce(WireStep(s, WriteOk))
  {
    var t := s.(peer := s.peer.(log := s.peer.log + [s.sh.lock.f], torn := None));
    OnlyTheReaderGreets(s);
    ReaderAfterOk(s, t);
    ReplyWritten(s.peer.log, s.sh.lock.f, s.reader, Finished(t, true).reader);
  }

  lemma ReaderAfterOk(s: State, t: State)
    requires Shape(s) && InWrite(s) && InWrite(t) && t == s.(peer := t.peer)
    ensures var r := Finished(t, true).reader;
            && (r.ReaderGreeting? || r.ReaderReplying? ==> r == s.reader && !s.sh.lock.who.TheHello?)
            && Finished(t, true).sh.greeted == s.sh.greeted && Finished(t, true).peer == t.peer
  {
  }

  lemma GreetedOnceWire(s: State, op: WireOp)
    requires Shape(s) && Pipeline(s) && GreetedOnce(s) && WireEnabled(s, op)
    ensures GreetedOnce(WireStep(s, op))
  {
    match op
    case WriteOk => GreetedOnceWriteOk(s);
    case WriteFail => ReaderAfterWrite(s, false);
    case _ =>
  }

  lemma GreetedOnceTick(s: State, op: TickOp)
    requires Shape(s) && GreetedOnce(s) && TickEnabled(s, op)
    ensures GreetedOnce(TickStep(s, op))
  {
  }

  lemma GreetedOnceWriter(s: State, op: WriterOp)
    requires Shape(s) && GreetedOnce(s) && WriterEnabled(s, op)
    ensures GreetedOnce(WriterStep(s, op))
  {
  }

  lemma GreetedOnceReader(s: State, op: ReaderOp)
    requires Shape(s) && GreetedOnce(s) && ReaderEnabled(s, op)
    ensures GreetedOnce(ReaderStep(s, op))
  {
  }

  lemma GreetedOnceSend(s: State, op: SendOp)
    requires Shape(s) && GreetedOnce(s) && SendEnabled(s, op)
    ensures GreetedOnce(SendStep(s, op))
  {
  }

  lemma GreetedOnceClose(s: State, op: CloseOp)
    requires Shape(s) && GreetedOnce(s) && CloseEnabled(s, op)
    ensures GreetedOnce(CloseStep(s, op))
  {
  }

  lemma GreetedOnceStep(s: State, op: Op)
    requires Inv(s) && GreetedOnce(s) && Enabled(s, op)
    ensures GreetedOnce(Apply(s, op))
  {
    match op
    case Ticker(t) => GreetedOnceTick(s, t);
    case Writer(w) => GreetedOnceWriter(s, w);
    case Reader(r) => GreetedOnceReader(s, r);
    case Sending(d) => GreetedOnceSend(s, d);
    case OnWire(o) => GreetedOnceWire(s, o);
    case Closer(c) => GreetedOnceClose(s, c);
  }

  lemma {:induction false} OnceThroughout(s: State, more: seq<Op>)
    requires Inv(s) && GreetedOnce(s)
    ensures After(s, more).Some? ==> Inv(After(s, more).value) && GreetedOnce(After(s, more).value)
  {
    if more != [] {
      var front, op := more[..|more| - 1], more[|more| - 1];
      OnceThroughout(s, front);
      var before := After(s, front);
      if before.Some? && Enabled(before.value, op) {
        InvStep(before.value, op);
        GreetedOnceStep(before.value, op);
      }
    }
  }

  /** In every interleaving the peer gets at most one hello reply, and none unless it has greeted. */
  lemma OneGreeting(cfg: Config, ops: seq<Op>)
    ensures After(Start(cfg), ops).Some? ==>
              var s := After(Start(cfg), ops).value; |Filter(s.peer.log, IsHello)| <= if s.sh.greeted then 1 else 0
  {
    InvStart(cfg);
    OnceThroughout(Start(cfg), ops);
  }
}
