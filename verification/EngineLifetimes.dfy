/** What a bounded behavior gets to do over a whole run of the engine. */
module EngineLifetimes {
  import opened Common
  import opened Behaviors
  import opened Arbitration
  import opened TickEngine

  // ---- who is asked on a tick ------------------------------------------------------------------------------

  /** A run of the engine, given up on at its last tick or not. */
  ghost predicate RunOf(v: Vocabulary, size: nat, c: Course, gaveUp: bool) {
    Ran(v, size, c.inputs, |c.log|, gaveUp, c.edges, c.firstTick, c.log)
  }

  /** Tick `i` of a run composed its pose from `live`, which is what draining the inbox left unexpired. */
  ghost predicate ComposedFrom(v: Vocabulary, size: nat, c: Course, gaveUp: bool, i: nat, live: seq<Behavior>)
    requires i < |c.log| <= |c.inputs| && |c.edges| == |c.log| + 1 && c.log[i].TickPose?
  {
    exists drained ::
      && TickVia(v, size, c.edges[i], c.inputs[i], gaveUp && i == |c.log| - 1, c.log[i].pose, c.edges[i + 1], drained)
      && live == Unexpired(drained, c.inputs[i].now)
  }

  lemma {:induction false} EveryTickComposed(v: Vocabulary, size: nat, c: Course, gaveUp: bool, i: nat)
    requires RunOf(v, size, c, gaveUp) && i < |c.log|
    ensures c.log[i].TickPose? && exists live :: ComposedFrom(v, size, c, gaveUp, i, live)
  {
    assert c == Course(c.inputs, c.edges, c.firstTick, c.log);
    assert TickedOver(v, size, c, |c.log|, gaveUp, i);
    var drained :| TickVia(v, size, c.edges[i], c.inputs[i], gaveUp && i == |c.log| - 1, c.log[i].pose, c.edges[i + 1],
                           drained);
    assert ComposedFrom(v, size, c, gaveUp, i, Unexpired(drained, c.inputs[i].now));
  }

  /** The behavior is asked for its offer on tick `i`. */
  ghost predicate AskedOn(v: Vocabulary, size: nat, c: Course, gaveUp: bool, i: nat, b: Behavior) {
    && i < |c.log| <= |c.inputs| && |c.edges| == |c.log| + 1 && c.log[i].TickPose?
    && exists live :: ComposedFrom(v, size, c, gaveUp, i, live) && b in live
  }

  // ---- when a behavior joins -------------------------------------------------------------------------------

  /** No request brings this behavior's time of admission with it. */
  ghost predicate Unstamped(ops: seq<LiveOp>, b: Behavior) {
    forall op :: op in ops && op.AdmitOp? && op.b.admittedAt.Some? ==> op.b.admittedAt != b.admittedAt
  }

  lemma {:induction false} OpStepJoins(v: Vocabulary, live: seq<Behavior>, op: LiveOp, clock: real,
                                       after: seq<Behavior>, b: Behavior)
    requires OpStep(v, live, op, clock, after) && Unstamped([op], b) && b in after && b !in live
    ensures b.admittedAt == Some(clock)
  {
    match op
    case AdmitOp(r) =>
      assert op in [op];
      var admitted :| Newcomer(v, live, r, clock, admitted) && after == WithNewcomer(live, admitted);
      assert b == admitted;
    case EvictOp(name) =>
  }

  /** Whoever was not live before some operations joined at the time of their clock. */
  lemma {:induction false} OpsRunJoins(v: Vocabulary, live: seq<Behavior>, ops: seq<LiveOp>, clock: real,
                                       after: seq<Behavior>, b: Behavior)
    requires OpsRun(v, live, ops, clock, after) && Unstamped(ops, b) && b in after && b !in live
    ensures b.admittedAt == Some(clock)
  {
    if ops != [] {
      var n := |ops| - 1;
      var mid :| OpsRun(v, live, ops[..n], clock, mid) && OpStep(v, mid, ops[n], clock, after);
      if b in mid {
        OpsRunJoins(v, live, ops[..n], clock, mid, b);
      } else {
        OpStepJoins(v, mid, ops[n], clock, after, b);
      }
    }
  }

  /** What a tick is asked to do to the live set: through the inbox, and from the seam. */
  function TickOps(size: nat, before: Edge, input: TickInput): seq<LiveOp> {
    OpsOf(DrainedOn(before, input, size).taken) + input.seam
  }

  /** Each of `n` ticks reads the clock before it admits, and that is before the next one begins, at least `p` later. */
  ghost predicate Paced(inputs: seq<TickInput>, n: nat, p: real) {
    && n <= |inputs|
    && (forall i :: 0 <= i < n ==> inputs[i].now <= inputs[i].clock)
    && (forall i, j :: 0 <= i && j == i + 1 && j < n ==>
          inputs[i].clock <= inputs[j].now && inputs[j].now - inputs[i].now >= p)
  }

  /**
   * A behavior bounded by `d` in a run whose ticks begin at least `p` apart: if it is live when the run starts it was
   * admitted before, and nobody asks for it again under its old time of admission.
   */
  ghost predicate BoundedIn(v: Vocabulary, size: nat, c: Course, gaveUp: bool, b: Behavior, d: real, p: real) {
    && RunOf(v, size, c, gaveUp) && Paced(c.inputs, |c.log|, p) && p > 0.0 && d > 0.0
    && b.lifetime.durationS == Some(d) && b.admittedAt.Some?
    && (b in c.edges[0].live && c.log != [] ==> b.admittedAt.value <= c.inputs[0].now)
    && forall i :: 0 <= i < |c.log| ==> Unstamped(TickOps(size, c.edges[i], c.inputs[i]), b)
  }

  lemma {:induction false} TickJoins(v: Vocabulary, size: nat, before: Edge, input: TickInput, gaveUp: bool, pose: Pose,
                                     after: Edge, drained: seq<Behavior>, b: Behavior)
    requires TickVia(v, size, before, input, gaveUp, pose, after, drained) && Unstamped(TickOps(size, before, input), b)
    ensures b in Unexpired(drained, input.now) ==>
              AliveAt(input.now)(b) && (b in before.live || b.admittedAt == Some(input.clock))
    ensures b in after.live && b !in Unexpired(drained, input.now) ==> b.admittedAt == Some(input.clock)
  {
    var sent, ops := OpsOf(DrainedOn(before, input, size).taken), TickOps(size, before, input);
    assert forall op :: op in sent || op in input.seam ==> op in ops;
    if b in drained && b !in before.live {
      OpsRunJoins(v, before.live, sent, input.clock, drained, b);
    }
    if b in after.live && b !in Unexpired(drained, input.now) {
      OpsRunJoins(v, Unexpired(drained, input.now), if gaveUp || !after.seam then [] else input.seam, input.clock,
                  after.live, b);
    }
  }

  /**
   * Whoever a tick asks was live before it or joined during it; whoever is live after it and was not asked
   * joined during it.
   */
  lemma {:induction false} JoinedDuring(v: Vocabulary, size: nat, c: Course, gaveUp: bool, i: nat, live: seq<Behavior>,
                                        b: Behavior)
    requires i < |c.log| <= |c.inputs| && |c.edges| == |c.log| + 1 && c.log[i].TickPose?
    requires ComposedFrom(v, size, c, gaveUp, i, live) && Unstamped(TickOps(size, c.edges[i], c.inputs[i]), b)
    ensures b in live ==>
              AliveAt(c.inputs[i].now)(b) && (b in c.edges[i].live || b.admittedAt == Some(c.inputs[i].clock))
    ensures b in c.edges[i + 1].live && b !in live ==> b.admittedAt == Some(c.inputs[i].clock)
  {
    var drained :| TickVia(v, size, c.edges[i], c.inputs[i], gaveUp && i == |c.log| - 1, c.log[i].pose, c.edges[i + 1],
                           drained)
                   && live == Unexpired(drained, c.inputs[i].now);
    TickJoins(v, size, c.edges[i], c.inputs[i], gaveUp && i == |c.log| - 1, c.log[i].pose, c.edges[i + 1], drained, b);
  }

  /** Whatever is live at an edge was admitted before the tick that follows. */
  lemma {:induction false} AdmittedBefore(v: Vocabulary, size: nat, c: Course, gaveUp: bool, b: Behavior, d: real,
                                          p: real, i: nat)
    requires BoundedIn(v, size, c, gaveUp, b, d, p) && i < |c.log| && b in c.edges[i].live
    ensures b.admittedAt.value <= c.inputs[i].now
  {
    if i > 0 {
      var k := i - 1;
      EveryTickComposed(v, size, c, gaveUp, k);
      var live :| ComposedFrom(v, size, c, gaveUp, k, live);
      JoinedDuring(v, size, c, gaveUp, k, live, b);
      if b in c.edges[k].live {
        AdmittedBefore(v, size, c, gaveUp, b, d, p, k);
      }
      PacedStep(c.inputs, |c.log|, p, k);
    }
  }

  lemma PacedStep(inputs: seq<TickInput>, n: nat, p: real, k: nat)
    requires Paced(inputs, n, p) && k + 1 < n
    ensures inputs[k].now <= inputs[k].clock <= inputs[k + 1].now && inputs[k + 1].now - inputs[k].now >= p
  {
    var j := k + 1;
    assert inputs[j].now - inputs[k].now >= p;
  }

  /** A behavior is asked only once it is admitted, and while it is alive. */
  lemma {:induction false} AskedAfterAdmission(v: Vocabulary, size: nat, c: Course, gaveUp: bool, b: Behavior, d: real,
                                               p: real, i: nat, live: seq<Behavior>)
    requires BoundedIn(v, size, c, gaveUp, b, d, p) && i < |c.log| && c.log[i].TickPose?
    requires ComposedFrom(v, size, c, gaveUp, i, live) && b in live
    ensures b.admittedAt.value <= c.inputs[i].clock && c.inputs[i].now < b.admittedAt.value + d
  {
    JoinedDuring(v, size, c, gaveUp, i, live, b);
    if b in c.edges[i].live {
      AdmittedBefore(v, size, c, gaveUp, b, d, p, i);
    }
  }

  // ---- how often it is asked -------------------------------------------------------------------------------

  function Ceil(x: real): int {
    if x.Floor as real == x then x.Floor else x.Floor + 1
  }

  lemma {:induction false} PacedReach(inputs: seq<TickInput>, n: nat, p: real, i: nat, j: nat)
    requires Paced(inputs, n, p) && i <= j < n
    ensures inputs[j].now - inputs[i].now >= (j - i) as real * p
    decreases j - i
  {
    if i < j {
      var k := j - 1;
      PacedReach(inputs, n, p, i, k);
      PacedStep(inputs, n, p, k);
      assert (j - i) as real * p == (k - i) as real * p + p;
    }
  }

  lemma CeilReaches(x: real, n: int)
    requires n >= Ceil(x)
    ensures n as real >= x
  {
    assert n as real >= Ceil(x) as real;
  }

  lemma TimesKeepsOrder(n: int, q: real, p: real)
    requires p > 0.0 && n as real >= q
    ensures n as real * p >= q * p
  {
  }

  lemma CeilCovers(d: real, p: real, n: int)
    requires p > 0.0 && d > 0.0 && n >= Ceil(d / p)
    ensures n as real * p >= d
  {
    CeilReaches(d / p, n);
    TimesKeepsOrder(n, d / p, p);
  }

  lemma CeilIsPositive(d: real, p: real)
    requires p > 0.0 && d > 0.0
    ensures Ceil(d / p) >= 1
  {
    assert d / p > 0.0;
  }

  /** Ticks that follow an admission reach the end of a bounded lifetime within ceil(d / p) of them. */
  lemma ClockRunsOut(inputs: seq<TickInput>, n: nat, p: real, d: real, t: real, a: nat, i: nat)
    requires Paced(inputs, n, p) && p > 0.0 && d > 0.0 && a + Ceil(d / p) < i < n && t <= inputs[a].clock
    ensures inputs[i].now >= t + d
  {
    CeilIsPositive(d, p);
    PacedStep(inputs, n, p, a);
    PacedReach(inputs, n, p, a + 1, i);
    CeilCovers(d, p, i - (a + 1));
  }

  /** More than ceil(d / p) ticks after one it was asked on, its time is up. */
  lemma {:induction false} TimeIsUp(v: Vocabulary, size: nat, c: Course, gaveUp: bool, b: Behavior, d: real, p: real,
                                    a: nat, i: nat)
    requires BoundedIn(v, size, c, gaveUp, b, d, p) && AskedOn(v, size, c, gaveUp, a, b)
    requires a + Ceil(d / p) < i < |c.log|
    ensures c.inputs[i].now >= b.admittedAt.value + d
  {
    var live :| ComposedFrom(v, size, c, gaveUp, a, live) && b in live;
    AskedAfterAdmission(v, size, c, gaveUp, b, d, p, a, live);
    ClockRunsOut(c.inputs, |c.log|, p, d, b.admittedAt.value, a, i);
  }

  /** No channel is this behavior's: whoever answers to its id, if anybody does, is another one. */
  ghost predicate OwnsNothing(v: Vocabulary, live: seq<Behavior>, b: Behavior) {
    forall contribs, ownership, ch ::
      RightlyOwned(v, live, contribs, ownership) && ch in ChannelNames(v) && ownership[ch] == b.id
        && b.id != UNOWNED ==>
        exists x :: x in live && x != b && x.id == b.id
  }

  lemma AbsentOwnsNothing(v: Vocabulary, live: seq<Behavior>, b: Behavior)
    requires b !in live
    ensures OwnsNothing(v, live, b)
  {
    forall contribs, ownership, ch |
      RightlyOwned(v, live, contribs, ownership) && ch in ChannelNames(v) && ownership[ch] == b.id && b.id != UNOWNED
      ensures exists x :: x in live && x != b && x.id == b.id
    {
      assert Owns(ch, live, Some(contribs), ownership[ch]);
    }
  }

  /**
   * From then on it is over: the behavior is not among those the pose is composed from, it owns no channel, and the
   * tick leaves it off the live set.
   */
  lemma {:induction false} ThenItIsOver(v: Vocabulary, size: nat, c: Course, gaveUp: bool, b: Behavior, d: real,
                                        p: real, a: nat, i: nat, live: seq<Behavior>)
    requires BoundedIn(v, size, c, gaveUp, b, d, p) && AskedOn(v, size, c, gaveUp, a, b)
    requires a + Ceil(d / p) < i < |c.log| && c.log[i].TickPose? && ComposedFrom(v, size, c, gaveUp, i, live)
    ensures b !in live && OwnsNothing(v, live, b) && b !in c.edges[i + 1].live
  {
    TimeIsUp(v, size, c, gaveUp, b, d, p, a, i);
    if b in live {
      AskedAfterAdmission(v, size, c, gaveUp, b, d, p, i, live);
    }
    AbsentOwnsNothing(v, live, b);
    if b in c.edges[i + 1].live {
      JoinedDuring(v, size, c, gaveUp, i, live, b);
    }
  }

  /** On how many of the first `n` ticks of a run a behavior is asked. */
  ghost function AskedCount(v: Vocabulary, size: nat, c: Course, gaveUp: bool, b: Behavior, n: nat): nat {
    if n == 0 then 0
    else AskedCount(v, size, c, gaveUp, b, n - 1) + if AskedOn(v, size, c, gaveUp, n - 1, b) then 1 else 0
  }

  /** All the ticks it is asked on lie within ceil(d / p) of the first of them, `a`. */
  lemma {:induction false} AskedWithin(v: Vocabulary, size: nat, c: Course, gaveUp: bool, b: Behavior, d: real, p: real,
                                       n: nat)
    returns (a: nat)
    requires BoundedIn(v, size, c, gaveUp, b, d, p) && n <= |c.log| && AskedCount(v, size, c, gaveUp, b, n) > 0
    ensures a < n && AskedOn(v, size, c, gaveUp, a, b)
    ensures AskedCount(v, size, c, gaveUp, b, n) <= n - a && AskedCount(v, size, c, gaveUp, b, n) <= Ceil(d / p) + 1
  {
    CeilIsPositive(d, p);
    var last := n - 1;
    if AskedCount(v, size, c, gaveUp, b, last) == 0 {
      return last;
    }
    a := AskedWithin(v, size, c, gaveUp, b, d, p, last);
    if AskedOn(v, size, c, gaveUp, last, b) && last > a + Ceil(d / p) {
      var live :| ComposedFrom(v, size, c, gaveUp, last, live) && b in live;
      ThenItIsOver(v, size, c, gaveUp, b, d, p, a, last, live);
      assert false;
    }
  }

  /** Over a whole run, a behavior bounded by `d` is asked on at most ceil(d / p) + 1 ticks. */
  lemma {:induction false} BoundedContribution(v: Vocabulary, size: nat, c: Course, gaveUp: bool, b: Behavior, d: real,
                                               p: real)
    requires BoundedIn(v, size, c, gaveUp, b, d, p)
    ensures AskedCount(v, size, c, gaveUp, b, |c.log|) <= Ceil(d / p) + 1
  {
    CeilIsPositive(d, p);
    if AskedCount(v, size, c, gaveUp, b, |c.log|) > 0 {
      var _ := AskedWithin(v, size, c, gaveUp, b, d, p, |c.log|);
    }
  }

  /** Once its time is up a behavior is not live when the pose is composed, and no channel answers to its id. */
  lemma {:induction false} ExpiredOwnsNothing(v: Vocabulary, drained: seq<Behavior>, b: Behavior, now: real,
                                              contribs: Contributions, ownership: map<string, string>, ch: string)
    requires Roster(v, drained) && b in drained && !AliveAt(now)(b)
    requires RightlyOwned(v, Unexpired(drained, now), contribs, ownership) && ch in ChannelNames(v)
    ensures b !in Unexpired(drained, now) && ownership[ch] != b.id
  {
    assert Owns(ch, Unexpired(drained, now), Some(contribs), ownership[ch]);
  }

  // ---- how long it stays -----------------------------------------------------------------------------------

  /** An operation that leaves this behavior alone: no eviction under either of its names, no admission against it. */
  ghost predicate Spares(v: Vocabulary, op: LiveOp, b: Behavior) {
    match op
    case EvictOp(name) => name == "" || (name != b.id && name != b.name)
    case AdmitOp(r) =>
      r.class_.Stopping? && b.class_.Stoppable? && Bound(v, r).Some? ==>
        forall ch :: ch in b.channels ==> ch !in Bound(v, r).value.channels
  }

  ghost predicate AllSpare(v: Vocabulary, ops: seq<LiveOp>, b: Behavior) {
    forall op :: op in ops ==> Spares(v, op, b)
  }

  lemma {:induction false} SparedByOne(v: Vocabulary, live: seq<Behavior>, op: LiveOp, clock: real,
                                       after: seq<Behavior>, b: Behavior)
    requires OpStep(v, live, op, clock, after) && Spares(v, op, b) && b in live && ValidVocabulary(v)
    ensures b in after
  {
    match op
    case AdmitOp(r) =>
      if Refusing(v, live, r).None? {
        var admitted :| Newcomer(v, live, r, clock, admitted) && after == WithNewcomer(live, admitted);
        BoundIsWell(v, r);
        FilterKeeps(live, Undisplaced(admitted), b);
      }
    case EvictOp(name) =>
      if name != "" {
        FilterKeeps(live, NotNamed(name), b);
      }
  }

  lemma {:induction false} SparedByAll(v: Vocabulary, live: seq<Behavior>, ops: seq<LiveOp>, clock: real,
                                       after: seq<Behavior>, b: Behavior)
    requires OpsRun(v, live, ops, clock, after) && AllSpare(v, ops, b) && b in live && ValidVocabulary(v)
    ensures b in after
  {
    if ops != [] {
      var n := |ops| - 1;
      var mid :| OpsRun(v, live, ops[..n], clock, mid) && OpStep(v, mid, ops[n], clock, after);
      SparedByAll(v, live, ops[..n], clock, mid, b);
      SparedByOne(v, mid, ops[n], clock, after, b);
    }
  }

  /** The clock that ticks begin by never goes back. */
  ghost predicate ClockRuns(inputs: seq<TickInput>, n: nat) {
    n <= |inputs| && forall i, j :: 0 <= i <= j < n ==> inputs[i].now <= inputs[j].now
  }

  /** Nothing a run is asked to do on ticks `a` to `i` is against this behavior. */
  ghost predicate LeftAlone(v: Vocabulary, size: nat, c: Course, b: Behavior, a: nat, i: nat)
    requires i < |c.inputs| && i < |c.edges|
  {
    forall k :: a <= k <= i ==> AllSpare(v, TickOps(size, c.edges[k], c.inputs[k]), b)
  }

  /** One tick: a behavior that is left alone is asked exactly when its time is not up, and then it stays. */
  lemma {:induction false} TickAsks(v: Vocabulary, size: nat, before: Edge, input: TickInput, gaveUp: bool, pose: Pose,
                                    after: Edge, drained: seq<Behavior>, b: Behavior)
    requires TickVia(v, size, before, input, gaveUp, pose, after, drained) && ValidVocabulary(v)
    requires AllSpare(v, TickOps(size, before, input), b) && b in before.live && b.admittedAt.Some?
    ensures b in Unexpired(drained, input.now) <==> InTime(b, input.now)
    ensures InTime(b, input.now) ==> b in after.live
  {
    var sent, ops := OpsOf(DrainedOn(before, input, size).taken), TickOps(size, before, input);
    assert forall op :: op in sent || op in input.seam ==> op in ops;
    SparedByAll(v, before.live, sent, input.clock, drained, b);
    UnexpiredExactly(drained, input.now);
    if InTime(b, input.now) {
      SparedByAll(v, Unexpired(drained, input.now), if gaveUp || !after.seam then [] else input.seam, input.clock,
                  after.live, b);
    }
  }

  lemma {:induction false} CourseAsks(v: Vocabulary, size: nat, c: Course, gaveUp: bool, b: Behavior, i: nat)
    requires RunOf(v, size, c, gaveUp) && ValidVocabulary(v) && i < |c.log|
    requires b in c.edges[i].live && b.admittedAt.Some? && LeftAlone(v, size, c, b, i, i)
    ensures AskedOn(v, size, c, gaveUp, i, b) <==> InTime(b, c.inputs[i].now)
    ensures InTime(b, c.inputs[i].now) ==> b in c.edges[i + 1].live
  {
    var last := gaveUp && i == |c.log| - 1;
    EveryTickComposed(v, size, c, gaveUp, i);
    forall live | ComposedFrom(v, size, c, gaveUp, i, live)
      ensures b in live <==> InTime(b, c.inputs[i].now)
      ensures InTime(b, c.inputs[i].now) ==> b in c.edges[i + 1].live
    {
      var drained :| TickVia(v, size, c.edges[i], c.inputs[i], last, c.log[i].pose, c.edges[i + 1], drained)
                     && live == Unexpired(drained, c.inputs[i].now);
      TickAsks(v, size, c.edges[i], c.inputs[i], last, c.log[i].pose, c.edges[i + 1], drained, b);
    }
  }

  /**
   * From any edge on, a live behavior that nobody evicts or displaces is asked for its offer on exactly those ticks
   * that begin before its time is up: on every tick if it has no bound.
   */
  lemma {:induction false} AskedExactlyInTime(v: Vocabulary, size: nat, c: Course, gaveUp: bool, b: Behavior, a: nat,
                                              i: nat)
    requires RunOf(v, size, c, gaveUp) && ValidVocabulary(v) && ClockRuns(c.inputs, |c.log|) && a <= i < |c.log|
    requires b in c.edges[a].live && b.admittedAt.Some? && LeftAlone(v, size, c, b, a, i)
    ensures AskedOn(v, size, c, gaveUp, i, b) <==> InTime(b, c.inputs[i].now)
  {
    if InTime(b, c.inputs[i].now) {
      LeftAloneTill(v, size, c, b, a, i, i);
      StaysTill(v, size, c, gaveUp, b, a, i);
      CourseAsks(v, size, c, gaveUp, b, i);
    }
    if AskedOn(v, size, c, gaveUp, i, b) {
      AskedInTime(v, size, c, gaveUp, b, i);
    }
  }

  lemma {:induction false} AskedInTime(v: Vocabulary, size: nat, c: Course, gaveUp: bool, b: Behavior, i: nat)
    requires AskedOn(v, size, c, gaveUp, i, b)
    ensures InTime(b, c.inputs[i].now)
  {
    var live :| ComposedFrom(v, size, c, gaveUp, i, live) && b in live;
    var drained :| live == Unexpired(drained, c.inputs[i].now);
    UnexpiredExactly(drained, c.inputs[i].now);
  }

  lemma InTimeBefore(inputs: seq<TickInput>, n: nat, b: Behavior, k: nat, i: nat)
    requires ClockRuns(inputs, n) && k <= i < n && InTime(b, inputs[i].now)
    ensures InTime(b, inputs[k].now)
  {
  }

  lemma LeftAloneTill(v: Vocabulary, size: nat, c: Course, b: Behavior, a: nat, k: nat, i: nat)
    requires i < |c.inputs| && i < |c.edges| && LeftAlone(v, size, c, b, a, i) && a <= k <= i
    ensures LeftAlone(v, size, c, b, a, k) && LeftAlone(v, size, c, b, k, k)
  {
  }

  lemma {:induction false} StaysTill(v: Vocabulary, size: nat, c: Course, gaveUp: bool, b: Behavior, a: nat, i: nat)
    requires RunOf(v, size, c, gaveUp) && ValidVocabulary(v) && ClockRuns(c.inputs, |c.log|) && a <= i < |c.log|
    requires b in c.edges[a].live && b.admittedAt.Some? && LeftAlone(v, size, c, b, a, i)
    requires InTime(b, c.inputs[i].now)
    ensures b in c.edges[i].live
    decreases i - a
  {
    if a < i {
      var k := i - 1;
      InTimeBefore(c.inputs, |c.log|, b, k, i);
      LeftAloneTill(v, size, c, b, a, k, i);
      StaysTill(v, size, c, gaveUp, b, a, k);
      CourseAsks(v, size, c, gaveUp, b, k);
    }
  }

  // ---- the base layer --------------------------------------------------------------------------------------

  /** Nobody asks for the eviction of this behavior. */
  ghost predicate NeverEvicted(size: nat, c: Course, b: Behavior)
    requires |c.log| <= |c.inputs| && |c.log| < |c.edges|
  {
    forall k, op :: 0 <= k < |c.log| && op in TickOps(size, c.edges[k], c.inputs[k]) && op.EvictOp? ==>
      op.name == "" || (op.name != b.id && op.name != b.name)
  }

  /**
   * The base layer runs under the whole of a run: whatever is admitted, it is asked on every tick, unless somebody
   * evicts it by name.
   */
  lemma {:induction false} BaseLayerLasts(v: Vocabulary, cfg: Config, before: Edge, start: real, c: Course,
                                          gaveUp: bool)
    returns (base: Behavior)
    requires RunOf(v, cfg.inboxSize, c, gaveUp) && ValidVocabulary(v) && ClockRuns(c.inputs, |c.log|)
    requires cfg.baseLayer && Seeded(v, cfg, before, start, c.edges[0])
    ensures base in c.edges[0].live && base.action == cfg.baseAction && base.admittedAt == Some(start)
    ensures base.class_.Passive?
    ensures NeverEvicted(cfg.inboxSize, c, base) ==>
              forall i :: 0 <= i < |c.log| ==> AskedOn(v, cfg.inboxSize, c, gaveUp, i, base)
  {
    var made := BaseBehavior(cfg.baseAction, start);
    base :| Newcomer(v, before.live, made, start, base) && c.edges[0].live == before.live + [base];
    BoundIsWell(v, made);
    if NeverEvicted(cfg.inboxSize, c, base) {
      forall i | 0 <= i < |c.log| ensures AskedOn(v, cfg.inboxSize, c, gaveUp, i, base) {
        AskedExactlyInTime(v, cfg.inboxSize, c, gaveUp, base, 0, i);
      }
    }
  }

  /** And, being passive, it owns a channel only where nobody who is not passive offers anything. */
  lemma PassiveYields(channel: string, live: seq<Behavior>, contribs: Contributions, base: Behavior, other: Behavior)
    requires DistinctIds(live) && base in live && base.id != UNOWNED && base.class_.Passive?
    requires other in live && Offers(other, channel, contribs)
    requires other.class_.Stoppable? || other.class_.Stopping? || other.class_.Unstoppable?
    ensures !Owns(channel, live, Some(contribs), base.id)
  {
    var i :| 0 <= i < |live| && live[i] == base;
    var j :| 0 <= j < |live| && live[j] == other;
    OwnsExactly(channel, live, contribs, i);
  }
}
