/** The tick engine: the live set in a compacted array, admission and eviction, composing a pose, and the run loop. */
module TickEngine {
  import opened Common
  import opened Text
  import opened Behaviors
  import opened Arbitration

  // ---- the live set as a value -----------------------------------------------------------------------------

  /** Ids are non-empty and pairwise distinct, and every behavior was bound. */
  ghost predicate Roster(v: Vocabulary, live: seq<Behavior>) {
    && DistinctIds(live)
    && forall b :: b in live ==> b.id != UNOWNED && WellBound(v, b)
  }

  lemma {:induction false} FilterKeepsRoster(v: Vocabulary, live: seq<Behavior>, keep: Behavior -> bool)
    requires Roster(v, live)
    ensures Roster(v, Filter(live, keep))
  {
    if live != [] {
      var front, last := live[..|live| - 1], live[|live| - 1];
      assert forall b :: b in front ==> b in live;
      FilterKeepsRoster(v, front, keep);
      forall b | b in Filter(front, keep) ensures b.id != last.id {
        assert b in front;
      }
    }
  }

  lemma AppendKeepsRoster(v: Vocabulary, live: seq<Behavior>, b: Behavior)
    requires Roster(v, live) && WellBound(v, b) && b.id != UNOWNED && (forall x :: x in live ==> x.id != b.id)
    ensures Roster(v, live + [b])
  {
  }

  function Ids(live: seq<Behavior>): (r: set<string>)
    ensures |r| <= |live|
    ensures forall b :: b in live ==> b.id in r
    ensures forall id :: id in r ==> exists b :: b in live && b.id == id
  {
    if live == [] then {}
    else
      assert live == live[..|live| - 1] + [live[|live| - 1]];
      Ids(live[..|live| - 1]) + {live[|live| - 1].id}
  }

  // ---- the array -------------------------------------------------------------------------------------------

  method Put(a: array<Behavior>, k: nat, b: Behavior)
    requires k < a.Length
    modifies a
    ensures a[..k + 1] == old(a[..k]) + [b]
    ensures forall j :: 0 <= j < a.Length && j != k ==> a[j] == old(a[j])
  {
    a[k] := b;
  }

  method CompactArray(a: array<Behavior>, count: nat, keep: Behavior -> bool) returns (kept: nat)
    requires count <= a.Length
    modifies a
    ensures kept <= count && a[..kept] == Filter(old(a[..count]), keep)
  {
    ghost var was, out: seq<Behavior> := a[..count], [];
    kept := 0;
    for i := 0 to count
      invariant kept <= i && a[..kept] == out && out == Filter(was[..i], keep)
      invariant forall j :: i <= j < count ==> a[j] == was[j]
    {
      var b := a[i];
      FilterStep(was, i, keep);
      if !keep(b) {
        continue;
      }
      Put(a, kept, b);
      out := out + [b];
      kept := kept + 1;
    }
    assert was[..count] == was;
  }

  method Grown(a: array<Behavior>) returns (r: array<Behavior>)
    ensures fresh(r) && r.Length > a.Length && r[..a.Length] == a[..]
  {
    r := new Behavior[2 * a.Length + 1];
    for i := 0 to a.Length
      invariant r[..i] == a[..i]
    {
      r[i] := a[i];
    }
  }

  // ---- ids -------------------------------------------------------------------------------------------------

  function Minted(name: string, n: nat): string {
    name + "-" + Decimal(n)
  }

  lemma MintedInjective(name: string, m: nat, n: nat)
    requires Minted(name, m) == Minted(name, n)
    ensures m == n
  {
    var prefix := name + "-";
    assert Decimal(m) == Minted(name, m)[|prefix|..] == Minted(name, n)[|prefix|..] == Decimal(n);
    DecimalInjective(m, n);
  }

  lemma MintedIsNew(name: string, n: nat, tried: set<string>)
    requires forall x :: x in tried ==> exists k: nat :: k < n && x == Minted(name, k)
    ensures Minted(name, n) !in tried
  {
    if Minted(name, n) in tried {
      var k: nat :| k < n && Minted(name, n) == Minted(name, k);
      MintedInjective(name, k, n);
    }
  }

  lemma {:induction false} SubsetSize(a: set<string>, b: set<string>)
    requires a <= b
    ensures |a| <= |b|
  {
    if a != {} {
      var x :| x in a;
      SubsetSize(a - {x}, b - {x});
    }
  }

  // ---- what happens to the live set ------------------------------------------------------------------------

  /** The two changes anybody can ask for, from a tick seam or through the inbox. */
  datatype LiveOp = AdmitOp(b: Behavior) | EvictOp(name: string)

  datatype Command = Do(op: LiveOp) | SetSeam(installed: bool)

  datatype Refusal = Refused | DuplicateId

  /** Why an admission is refused, if it is. */
  ghost function Refusing(v: Vocabulary, live: seq<Behavior>, b: Behavior): Option<Refusal> {
    if Bound(v, b).None? then Some(Refused)
    else if b.id != "" && exists x :: x in live && x.id == b.id then Some(DuplicateId)
    else None
  }

  /** `admitted` is `b` bound, with an id nobody has and a time of admission. */
  ghost predicate Newcomer(v: Vocabulary, live: seq<Behavior>, b: Behavior, clock: real, admitted: Behavior) {
    && Bound(v, b).Some?
    && admitted == Bound(v, b).value.(id := admitted.id,
                                      admittedAt := Some(if b.admittedAt.Some? then b.admittedAt.value else clock))
    && (b.id != "" ==> admitted.id == b.id)
    && admitted.id != UNOWNED && (forall x :: x in live ==> x.id != admitted.id)
  }

  /** A newcomer is what was asked for, admitted when the request says, or now. */
  predicate IsTheRequest(b: Behavior, clock: real, admitted: Behavior) {
    && admitted.class_ == b.class_ && admitted.lifetime == b.lifetime && admitted.action == b.action
    && admitted.contribute == b.contribute && admitted.name == (if b.name != "" then b.name else b.action)
    && (b.id != "" ==> admitted.id == b.id) && (b.channels != [] ==> admitted.channels == b.channels)
    && admitted.admittedAt == if b.admittedAt.Some? then b.admittedAt else Some(clock)
  }

  lemma NewcomerIsTheRequest(v: Vocabulary, live: seq<Behavior>, b: Behavior, clock: real, admitted: Behavior)
    requires ValidVocabulary(v) && Newcomer(v, live, b, clock, admitted)
    ensures IsTheRequest(b, clock, admitted)
  {
    BoundIsWell(v, b);
  }

  /** The live set an admission leaves: whoever the newcomer displaces is gone, and it stands last. */
  function WithNewcomer(live: seq<Behavior>, admitted: Behavior): seq<Behavior> {
    Filter(live, Undisplaced(admitted)) + [admitted]
  }

  /**
   * A newcomer leaves this behavior where it is: it is not stopping, or the other not stoppable, or they share
   * nothing.
   */
  predicate StaysBeside(b: Behavior, admitted: Behavior) {
    admitted.class_.Stopping? && b.class_.Stoppable? ==> forall ch :: ch in b.channels ==> ch !in admitted.channels
  }

  /** An admission leaves exactly the newcomer, and whoever stays beside it. */
  lemma WithNewcomerExactly(live: seq<Behavior>, admitted: Behavior)
    ensures forall b :: b in WithNewcomer(live, admitted) <==> b == admitted || (b in live && StaysBeside(b, admitted))
  {
    forall b | b in live ensures StaysBeside(b, admitted) <==> Undisplaced(admitted)(b) {
    }
    forall b | b in live && StaysBeside(b, admitted) ensures b in Filter(live, Undisplaced(admitted)) {
      FilterKeeps(live, Undisplaced(admitted), b);
    }
  }

  predicate Matches(b: Behavior, name: string) {
    b.id == name || b.name == name
  }

  function NotNamed(name: string): Behavior -> bool {
    (b: Behavior) => !Matches(b, name)
  }

  function AliveAt(now: real): Behavior -> bool {
    (b: Behavior) => !b.lifetime.IsExpired(b.Local(now))
  }

  function WithoutName(live: seq<Behavior>, name: string): seq<Behavior> {
    if name == "" then live else Filter(live, NotNamed(name))
  }

  lemma WithoutNameExactly(live: seq<Behavior>, name: string)
    ensures forall b :: b in WithoutName(live, name) <==> b in live && (name == "" || (b.id != name && b.name != name))
  {
    if name != "" {
      forall b | b in live && b.id != name && b.name != name ensures b in Filter(live, NotNamed(name)) {
        FilterKeeps(live, NotNamed(name), b);
      }
    }
  }

  function Unexpired(live: seq<Behavior>, now: real): seq<Behavior> {
    Filter(live, AliveAt(now))
  }

  /** Its time is not up: it has no bound, or was admitted less than that long ago. */
  predicate InTime(b: Behavior, now: real) {
    b.lifetime.durationS.Some? ==>
      now - (if b.admittedAt.Some? then b.admittedAt.value else 0.0) < b.lifetime.durationS.value
  }

  /** What expiry leaves: exactly those whose time is not up, in the same order. */
  lemma UnexpiredExactly(live: seq<Behavior>, now: real)
    ensures forall b :: b in Unexpired(live, now) <==> b in live && InTime(b, now)
    ensures Subsequence(Unexpired(live, now), live)
  {
    SubsequenceSelf(live);
    FilterIsSubsequence(live, live, AliveAt(now));
    forall b | b in live && InTime(b, now) ensures b in Unexpired(live, now) {
      FilterKeeps(live, AliveAt(now), b);
    }
  }

  ghost predicate OpStep(v: Vocabulary, live: seq<Behavior>, op: LiveOp, clock: real, after: seq<Behavior>) {
    match op
    case AdmitOp(b) =>
      if Refusing(v, live, b).Some? then after == live
      else exists admitted :: Newcomer(v, live, b, clock, admitted) && after == WithNewcomer(live, admitted)
    case EvictOp(name) => after == WithoutName(live, name)
  }

  /** The operations, one after the other. */
  ghost predicate OpsRun(v: Vocabulary, live: seq<Behavior>, ops: seq<LiveOp>, clock: real, after: seq<Behavior>) {
    if ops == [] then after == live
    else
      var n := |ops| - 1;
      exists mid :: OpsRun(v, live, ops[..n], clock, mid) && OpStep(v, mid, ops[n], clock, after)
  }

  /** The live-set operations among some commands, and whether a seam is installed after them. */
  function OpsOf(cmds: seq<Command>): seq<LiveOp> {
    if cmds == [] then []
    else
      var front, last := cmds[..|cmds| - 1], cmds[|cmds| - 1];
      if last.Do? then OpsOf(front) + [last.op] else OpsOf(front)
  }

  function SeamAfter(seam: bool, cmds: seq<Command>): bool {
    if cmds == [] then seam
    else if cmds[|cmds| - 1].SetSeam? then cmds[|cmds| - 1].installed
    else SeamAfter(seam, cmds[..|cmds| - 1])
  }

  /** The commands, one after the other: what they leave live, and whether a seam is installed. */
  ghost predicate CommandsRun(v: Vocabulary, live: seq<Behavior>, seam: bool, cmds: seq<Command>, clock: real,
                              after: seq<Behavior>, seamAfter: bool) {
    OpsRun(v, live, OpsOf(cmds), clock, after) && seamAfter == SeamAfter(seam, cmds)
  }

  ghost predicate CommandStep(v: Vocabulary, live: seq<Behavior>, seam: bool, cmd: Command, clock: real,
                              after: seq<Behavior>, seamAfter: bool) {
    match cmd
    case Do(op) => OpStep(v, live, op, clock, after) && seamAfter == seam
    case SetSeam(installed) => after == live && seamAfter == installed
  }

  lemma CommandsRunSnoc(v: Vocabulary, live: seq<Behavior>, seam: bool, cmds: seq<Command>, clock: real,
                        mid: seq<Behavior>, seamMid: bool, cmd: Command, after: seq<Behavior>, seamAfter: bool)
    requires CommandsRun(v, live, seam, cmds, clock, mid, seamMid)
    requires CommandStep(v, mid, seamMid, cmd, clock, after, seamAfter)
    ensures CommandsRun(v, live, seam, cmds + [cmd], clock, after, seamAfter)
  {
    assert (cmds + [cmd])[..|cmds|] == cmds;
    if cmd.Do? {
      OpsRunSnoc(v, live, OpsOf(cmds), clock, mid, cmd.op, after);
    }
  }

  lemma OpsRunSnoc(v: Vocabulary, live: seq<Behavior>, ops: seq<LiveOp>, clock: real, mid: seq<Behavior>, op: LiveOp,
                   after: seq<Behavior>)
    requires OpsRun(v, live, ops, clock, mid) && OpStep(v, mid, op, clock, after)
    ensures OpsRun(v, live, ops + [op], clock, after)
  {
    var more := ops + [op];
    assert more[..|more| - 1] == ops;
    assert OpsRun(v, live, more[..|more| - 1], clock, mid) && OpStep(v, mid, more[|more| - 1], clock, after);
  }

  lemma OpsRunNext(v: Vocabulary, live: seq<Behavior>, ops: seq<LiveOp>, n: nat, clock: real, mid: seq<Behavior>,
                   after: seq<Behavior>)
    requires n < |ops| && OpsRun(v, live, ops[..n], clock, mid) && OpStep(v, mid, ops[n], clock, after)
    ensures OpsRun(v, live, ops[..n + 1], clock, after)
  {
    TakeNextOf(ops, n);
    OpsRunSnoc(v, live, ops[..n], clock, mid, ops[n], after);
  }

  // ---- a tick ----------------------------------------------------------------------------------------------

  /**
   * Everything a tick meets from outside: the clock at its start and when it admits, the commands other goroutines sent
   * since the last tick and just before each receive of its drain, what each sensor-driven behavior returned, whether
   * the sink took the pose, and what an installed seam did.
   */
  datatype TickInput = TickInput(now: real, clock: real, sends: seq<Command>, late: seq<seq<Command>>,
                                 sensed: map<string, Contribution>, writeOk: bool, seam: seq<LiveOp>)

  /** What the sink was handed. */
  datatype Sent = TickPose(tick: nat, pose: Pose) | SettlePose(pose: Pose)

  function SensedBy(sensed: map<string, Contribution>, id: string): Contribution {
    if id in sensed then sensed[id] else map[]
  }

  /** Every live behavior was asked once. */
  ghost predicate Asked(v: Vocabulary, live: seq<Behavior>, now: real, sensed: map<string, Contribution>,
                        contribs: Contributions) {
    && (forall id :: id in contribs ==> exists b :: b in live && b.id == id)
    && (forall b :: b in live ==> WellBound(v, b) && b.id in contribs
                                  && contribs[b.id] == Offered(v, b, now, SensedBy(sensed, b.id)))
  }

  ghost predicate RightlyOwned(v: Vocabulary, live: seq<Behavior>, contribs: Contributions,
                               ownership: map<string, string>) {
    forall ch :: ch in ChannelNames(v) ==> ch in ownership && Owns(ch, live, Some(contribs), ownership[ch])
  }

  /** The pose this live set makes: every channel shows its rightful owner's offer, or its neutral. */
  ghost predicate PoseOf(v: Vocabulary, live: seq<Behavior>, now: real, sensed: map<string, Contribution>, pose: Pose) {
    && Complete(v, pose)
    && exists contribs, ownership ::
         && Asked(v, live, now, sensed, contribs)
         && RightlyOwned(v, live, contribs, ownership)
         && forall i :: 0 <= i < |v.channels| ==> pose[v.channels[i].name] == Shown(ownership, contribs, v.channels[i])
  }

  datatype Config = Config(maxErrors: nat, settle: bool, inboxSize: nat, baseLayer: bool, baseAction: string)

  /** The engine between two ticks. */
  datatype Edge = Edge(live: seq<Behavior>, seam: bool, inbox: seq<Command>)

  /** A bounded queue takes the first commands and loses the rest. */
  function Taken(inbox: seq<Command>, sends: seq<Command>, size: nat): seq<Command> {
    var all := inbox + sends;
    if |all| <= size then all else all[..size]
  }

  lemma TakenNext(inbox: seq<Command>, sends: seq<Command>, i: nat, size: nat)
    requires i < |sends|
    ensures var taken := Taken(inbox, sends[..i], size);
            Taken(inbox, sends[..i + 1], size) == if |taken| < size then taken + [sends[i]] else taken
  {
    assert inbox + sends[..i + 1] == inbox + sends[..i] + [sends[i]];
  }

  /** How far a drain has got: the commands it took, those that still wait, and whether it goes on. */
  datatype Drain = Drain(taken: seq<Command>, left: seq<Command>, more: bool) {

    /** One more receive, met by whatever was sent just before it; one that finds nothing ends the drain. */
    function Next(sent: seq<Command>, size: nat): Drain {
      var waiting := Taken(left, sent, size);
      if !more then this
      else if waiting == [] then Drain(taken, [], false)
      else Drain(taken + [waiting[0]], waiting[1..], true)
    }
  }

  function LateAt(late: seq<seq<Command>>, i: nat): seq<Command> {
    if i < |late| then late[i] else []
  }

  /** `n` receives. */
  function Drained(inbox: seq<Command>, late: seq<seq<Command>>, size: nat, n: nat): Drain {
    if n == 0 then Drain([], inbox, true) else Drained(inbox, late, size, n - 1).Next(LateAt(late, n - 1), size)
  }

  ghost predicate DrainsTo(inbox: seq<Command>, late: seq<seq<Command>>, size: nat, n: nat, d: Drain) {
    d == Drained(inbox, late, size, n)
  }

  lemma {:induction false} DrainEnds(inbox: seq<Command>, late: seq<seq<Command>>, size: nat, d: Drain, m: nat, n: nat)
    requires m <= n && DrainsTo(inbox, late, size, m, d) && !d.more
    ensures DrainsTo(inbox, late, size, n, d)
  {
    if m < n {
      DrainEnds(inbox, late, size, d, m, n - 1);
    }
  }

  /** One more receive is the last one, or it is not. */
  lemma DrainsOn(inbox: seq<Command>, late: seq<seq<Command>>, size: nat, n: nat, d: Drain)
    requires n < size && DrainsTo(inbox, late, size, n, d)
    ensures var next := d.Next(LateAt(late, n), size);
            DrainsTo(inbox, late, size, if next.more then n + 1 else size, next)
  {
    var next := d.Next(LateAt(late, n), size);
    if !next.more {
      DrainEnds(inbox, late, size, next, n + 1, size);
    }
  }

  /** After `n` receives the drain stands at `d`, and what was taken has been applied. */
  ghost predicate DrainedTo(v: Vocabulary, size: nat, was: seq<Behavior>, installed: bool, pending: seq<Command>,
                            late: seq<seq<Command>>, clock: real, n: nat, d: Drain, live: seq<Behavior>, seam: bool,
                            inbox: seq<Command>) {
    DrainsTo(pending, late, size, n, d) && d.left == inbox && CommandsRun(v, was, installed, d.taken, clock, live, seam)
  }

  lemma NothingDrained(v: Vocabulary, size: nat, live: seq<Behavior>, seam: bool, inbox: seq<Command>,
                       late: seq<seq<Command>>, clock: real)
    ensures DrainedTo(v, size, live, seam, inbox, late, clock, 0, Drain([], inbox, true), live, seam, inbox)
  {
    assert CommandsRun(v, live, seam, [], clock, live, seam);
  }

  /** Everything sent just before the first `n` receives. */
  function Arrived(late: seq<seq<Command>>, n: nat): seq<Command> {
    if n == 0 then [] else Arrived(late, n - 1) + LateAt(late, n - 1)
  }

  lemma {:induction false} SubsequenceConcat(a: seq<Command>, b: seq<Command>, more: seq<Command>, k: nat)
    requires Subsequence(a, b) && k <= |more|
    ensures Subsequence(a + more[..k], b + more)
  {
    if more == [] {
      assert a + more[..k] == a && b + more == b;
    } else {
      var n := |more| - 1;
      SubsequenceConcat(a, b, more[..n], if k <= n then k else n);
      assert b + more[..n] + [more[n]] == b + more;
      if k <= n {
        assert more[..n][..k] == more[..k];
        SubsequenceSnoc(a + more[..k], b + more[..n], more[n]);
      } else {
        assert more[..n][..n] == more[..n] && a + more[..n] + [more[n]] == a + more[..k];
        SubsequenceSnoc(a + more[..n], b + more[..n], more[n]);
      }
    }
  }

  /** First in, first out: `n` receives took and left the inbox and then what was kept of the later commands. */
  ghost predicate Fifo(d: Drain, inbox: seq<Command>, kept: seq<Command>, size: nat, n: nat) {
    && d.taken + d.left == inbox + kept && |d.taken| <= n && |d.left| <= size
    && if d.more then |d.taken| == n else d.left == []
  }

  lemma FifoNext(d: Drain, inbox: seq<Command>, kept: seq<Command>, sent: seq<Command>, size: nat, n: nat)
    returns (k: nat)
    requires Fifo(d, inbox, kept, size, n)
    ensures k <= |sent| && Fifo(d.Next(sent, size), inbox, kept + sent[..k], size, n + 1)
  {
    k := if !d.more then 0 else if |d.left| + |sent| <= size then |sent| else size - |d.left|;
    if d.more {
      assert Taken(d.left, sent, size) == d.left + sent[..k];
      TakeOne(d.taken, d.left, inbox, kept, sent[..k]);
    } else {
      assert kept + sent[..0] == kept;
    }
  }

  lemma TakeOne(taken: seq<Command>, left: seq<Command>, inbox: seq<Command>, kept: seq<Command>, sent: seq<Command>)
    requires taken + left == inbox + kept
    ensures left + sent != [] ==> taken + [(left + sent)[0]] + (left + sent)[1..] == inbox + (kept + sent)
    ensures left + sent == [] ==> taken + [] == inbox + (kept + sent)
  {
    assert taken + (left + sent) == (taken + left) + sent == inbox + (kept + sent);
    if left + sent != [] {
      assert left + sent == [(left + sent)[0]] + (left + sent)[1..];
    }
  }

  /** A drain is first in, first out, and what it kept of the later commands is some of them, in their order. */
  lemma {:induction false} DrainIsFifo(inbox: seq<Command>, late: seq<seq<Command>>, size: nat, n: nat)
    returns (kept: seq<Command>)
    requires |inbox| <= size
    ensures Fifo(Drained(inbox, late, size, n), inbox, kept, size, n) && Subsequence(kept, Arrived(late, n))
  {
    if n == 0 {
      kept := [];
      assert inbox + kept == inbox;
    } else {
      kept := DrainIsFifo(inbox, late, size, n - 1);
      var sent := LateAt(late, n - 1);
      var k := FifoNext(Drained(inbox, late, size, n - 1), inbox, kept, sent, size, n - 1);
      SubsequenceConcat(kept, Arrived(late, n - 1), sent, k);
      kept := kept + sent[..k];
    }
  }

  /** What waits when a tick's drain begins is applied in it, whoever keeps sending; if nobody does, nothing is left. */
  lemma NothingWaitsLong(inbox: seq<Command>, late: seq<seq<Command>>, size: nat)
    requires |inbox| <= size
    ensures var d := Drained(inbox, late, size, size);
            inbox <= d.taken && (late == [] ==> d.taken == inbox && d.left == [])
  {
    var d := Drained(inbox, late, size, size);
    var kept := DrainIsFifo(inbox, late, size, size);
    assert (d.taken + d.left)[..|inbox|] == inbox;
    assert d.taken[..|inbox|] == inbox;
    if late == [] {
      NoneArrived(late, size);
      assert kept == [];
      assert |d.taken| + |d.left| == |inbox|;
    }
  }

  lemma {:induction false} NoneArrived(late: seq<seq<Command>>, n: nat)
    requires late == []
    ensures Arrived(late, n) == []
  {
    if n > 0 {
      NoneArrived(late, n - 1);
    }
  }

  /** What a tick's drain does to the inbox. */
  function DrainedOn(before: Edge, input: TickInput, size: nat): Drain {
    Drained(Taken(before.inbox, input.sends, size), input.late, size, size)
  }

  /**
   * One tick, from edge to edge: drain, expire, compose, write, and, unless the run gives up on the write, the
   * seam.
   */
  ghost predicate TickRuns(v: Vocabulary, size: nat, before: Edge, input: TickInput, gaveUp: bool, pose: Pose,
                           after: Edge) {
    exists drained :: TickVia(v, size, before, input, gaveUp, pose, after, drained)
  }

  /** The tick, by way of what was live once the inbox was drained. */
  ghost predicate TickVia(v: Vocabulary, size: nat, before: Edge, input: TickInput, gaveUp: bool, pose: Pose,
                          after: Edge, drained: seq<Behavior>) {
    && CommandsRun(v, before.live, before.seam, DrainedOn(before, input, size).taken, input.clock, drained, after.seam)
    && PoseOf(v, Unexpired(drained, input.now), input.now, input.sensed, pose)
    && OpsRun(v, Unexpired(drained, input.now), if gaveUp || !after.seam then [] else input.seam, input.clock,
              after.live)
    && after.inbox == DrainedOn(before, input, size).left
  }

  lemma TickRunsBy(v: Vocabulary, size: nat, before: Edge, input: TickInput, gaveUp: bool, pose: Pose, after: Edge,
                   drained: seq<Behavior>)
    requires CommandsRun(v, before.live, before.seam, DrainedOn(before, input, size).taken, input.clock, drained,
                         after.seam)
    requires PoseOf(v, Unexpired(drained, input.now), input.now, input.sensed, pose)
    requires OpsRun(v, Unexpired(drained, input.now), if gaveUp || !after.seam then [] else input.seam, input.clock,
                    after.live)
    requires after.inbox == DrainedOn(before, input, size).left
    ensures TickRuns(v, size, before, input, gaveUp, pose, after)
  {
    assert TickVia(v, size, before, input, gaveUp, pose, after, drained);
  }

  /** The last `maxErrors` of the first `n` writes all failed. */
  ghost predicate GivesUp(inputs: seq<TickInput>, maxErrors: nat, n: nat) {
    maxErrors <= n <= |inputs| && forall i :: n - maxErrors <= i < n ==> !inputs[i].writeOk
  }

  /** Writes that have failed in a row just before position `n`. */
  function FailuresBefore(inputs: seq<TickInput>, n: nat): nat
    requires n <= |inputs|
  {
    if n == 0 || inputs[n - 1].writeOk then 0 else FailuresBefore(inputs, n - 1) + 1
  }

  lemma {:induction false} FailuresMean(inputs: seq<TickInput>, n: nat)
    requires n <= |inputs|
    ensures var r := FailuresBefore(inputs, n);
            r <= n && (forall i :: n - r <= i < n ==> !inputs[i].writeOk) && (r < n ==> inputs[n - r - 1].writeOk)
  {
    if n > 0 && !inputs[n - 1].writeOk {
      FailuresMean(inputs, n - 1);
    }
  }

  lemma GivesUpIffFailures(inputs: seq<TickInput>, maxErrors: nat, n: nat)
    requires n <= |inputs|
    ensures GivesUp(inputs, maxErrors, n) <==> FailuresBefore(inputs, n) >= maxErrors
  {
    FailuresMean(inputs, n);
  }

  ghost predicate NoneGaveUp(inputs: seq<TickInput>, maxErrors: nat, n: nat) {
    forall k :: 0 <= k <= n ==> !GivesUp(inputs, maxErrors, k)
  }

  /** The run is `n` ticks long: it gives up exactly at the first tick where the last `maxErrors` writes all failed. */
  ghost predicate StopsAt(inputs: seq<TickInput>, maxErrors: nat, n: nat, gaveUp: bool) {
    && (gaveUp ==> GivesUp(inputs, maxErrors, n) && n > 0 && NoneGaveUp(inputs, maxErrors, n - 1))
    && (!gaveUp ==> n == |inputs| && NoneGaveUp(inputs, maxErrors, n))
  }

  /** The sink never failed often enough in a row before position `n` or just before it. */
  ghost predicate HeldOut(inputs: seq<TickInput>, maxErrors: nat, n: nat)
    requires n <= |inputs|
  {
    forall k :: 0 <= k <= n ==> FailuresBefore(inputs, k) < maxErrors
  }

  /** A run that held out so far stops exactly where the next write makes too many failures in a row. */
  lemma HeldOutStops(inputs: seq<TickInput>, maxErrors: nat, n: nat)
    requires n <= |inputs| && HeldOut(inputs, maxErrors, n)
    ensures n == |inputs| ==> StopsAt(inputs, maxErrors, n, false)
    ensures n < |inputs| && FailuresBefore(inputs, n + 1) >= maxErrors ==> StopsAt(inputs, maxErrors, n + 1, true)
  {
    forall k | 0 <= k <= n ensures !GivesUp(inputs, maxErrors, k) {
      GivesUpIffFailures(inputs, maxErrors, k);
    }
    if n < |inputs| {
      GivesUpIffFailures(inputs, maxErrors, n + 1);
    }
  }

  /** One more write either makes too many failures in a row, and the run stops, or the run holds out. */
  lemma HeldOutNext(inputs: seq<TickInput>, maxErrors: nat, n: nat)
    requires n < |inputs| && HeldOut(inputs, maxErrors, n)
    ensures FailuresBefore(inputs, n + 1) == if inputs[n].writeOk then 0 else FailuresBefore(inputs, n) + 1
    ensures if FailuresBefore(inputs, n + 1) >= maxErrors then StopsAt(inputs, maxErrors, n + 1, true)
            else HeldOut(inputs, maxErrors, n + 1)
  {
    HeldOutStops(inputs, maxErrors, n);
  }

  /** A run: what it met, the engine at its edges, its first tick's number, and what it handed the sink. */
  datatype Course = Course(inputs: seq<TickInput>, edges: seq<Edge>, firstTick: nat, log: seq<Sent>)

  /** Tick `i` of `n` led from one edge to the next and handed the sink one pose under its own number. */
  ghost predicate TickedOver(v: Vocabulary, size: nat, c: Course, n: nat, lastGaveUp: bool, i: nat)
    requires i < |c.inputs| && i + 1 < |c.edges| && i < |c.log|
  {
    && c.log[i].TickPose? && c.log[i].tick == c.firstTick + i
    && TickRuns(v, size, c.edges[i], c.inputs[i], lastGaveUp && i == n - 1, c.log[i].pose, c.edges[i + 1])
  }

  /** Ticks `0..n` of a run, tied edge to edge, each handing the sink one pose under its own number. */
  ghost predicate Ran(v: Vocabulary, size: nat, inputs: seq<TickInput>, n: nat, lastGaveUp: bool, edges: seq<Edge>,
                      firstTick: nat, log: seq<Sent>) {
    && n <= |inputs| && |edges| == n + 1 && |log| == n
    && var c := Course(inputs, edges, firstTick, log);
       forall i :: 0 <= i < n ==> TickedOver(v, size, c, n, lastGaveUp, i)
  }

  lemma RanNext(v: Vocabulary, size: nat, inputs: seq<TickInput>, n: nat, edges: seq<Edge>, firstTick: nat,
                log: seq<Sent>, gaveUp: bool, tick: nat, pose: Pose, before: Edge, after: Edge)
    requires Ran(v, size, inputs, n, false, edges, firstTick, log) && n < |inputs| && edges[n] == before
    requires tick == firstTick + n && TickRuns(v, size, before, inputs[n], gaveUp, pose, after)
    ensures Ran(v, size, inputs, n + 1, gaveUp, edges + [after], firstTick, log + [TickPose(tick, pose)])
  {
    var c, more := Course(inputs, edges, firstTick, log),
        Course(inputs, edges + [after], firstTick, log + [TickPose(tick, pose)]);
    var m := n + 1;
    forall i | 0 <= i < n ensures TickedOver(v, size, more, m, gaveUp, i) {
      assert TickedOver(v, size, c, n, false, i);
    }
  }

  /** Every pose a run hands the sink is complete, and they are numbered tick by tick. */
  lemma RanPosesComplete(v: Vocabulary, size: nat, inputs: seq<TickInput>, n: nat, lastGaveUp: bool, edges: seq<Edge>,
                         firstTick: nat, log: seq<Sent>)
    requires Ran(v, size, inputs, n, lastGaveUp, edges, firstTick, log)
    ensures forall i :: 0 <= i < n ==> log[i].TickPose? && log[i].tick == firstTick + i && Complete(v, log[i].pose)
  {
    forall i | 0 <= i < n ensures log[i].TickPose? && log[i].tick == firstTick + i && Complete(v, log[i].pose) {
      assert TickedOver(v, size, Course(inputs, edges, firstTick, log), n, lastGaveUp, i);
    }
  }

  datatype RunError = SeedRefused | SinkFailed

  /** The behavior the base layer seeds. */
  function BaseBehavior(action: string, now: real): Behavior {
    Behavior("", "", Passive, [], Lifetime(None, true), action, Some(now), map[], false)
  }

  /** What seeding leaves: the base layer, if there is one, last on the live set, and the rest as it was. */
  ghost predicate Seeded(v: Vocabulary, cfg: Config, before: Edge, start: real, after: Edge) {
    && after.seam == before.seam && after.inbox == before.inbox
    && if !cfg.baseLayer then after.live == before.live
       else exists base :: Newcomer(v, before.live, BaseBehavior(cfg.baseAction, start), start, base)
                           && after.live == before.live + [base]
  }

  class Engine {
    const voc: Vocabulary
    const cfg: Config
    var active: array<Behavior>
    var count: nat
    var seq_: nat
    var inbox: seq<Command>
    var seam: bool
    var ticks: nat
    var sinkFailures: nat
    var lastPose: Pose
    var lastOwnership: map<string, string>
    ghost var roll: seq<Behavior> // everyone ever admitted, in order
    ghost var sent: seq<Sent>     // everything the sink was handed, in order

    ghost predicate Valid()
      reads `active, `count, `roll, `inbox, active
    {
      && ValidVocabulary(voc) && cfg.maxErrors > 0 && cfg.inboxSize > 0
      && count <= active.Length
      && Roster(voc, active[..count])
      && Subsequence(active[..count], roll)
      && |inbox| <= cfg.inboxSize
    }

    /** The live behaviors, oldest first. */
    function Live(): seq<Behavior>
      requires count <= active.Length
      reads `active, `count, active
    {
      active[..count]
    }

    constructor (voc: Vocabulary, cfg: Config)
      requires ValidVocabulary(voc) && cfg.maxErrors > 0 && cfg.inboxSize > 0
      ensures Valid() && Live() == [] && fresh(active) && this.voc == voc && this.cfg == cfg
      ensures sent == [] && ticks == 0 && sinkFailures == 0 && lastPose == Neutral(voc)
    {
      this.voc, this.cfg := voc, cfg;
      active := new Behavior[0];
      count, seq_, inbox, seam, ticks, sinkFailures := 0, 0, [], false, 0, 0;
      lastPose := Neutral(voc);
      lastOwnership := map i | 0 <= i < |voc.channels| :: voc.channels[i].name := UNOWNED;
      roll, sent := [], [];
    }

    /** Drops what `keep` rejects, in place, keeping the order: the loop every removal runs. */
    method Compact(keep: Behavior -> bool) returns (removed: nat)
      requires Valid()
      modifies `count, active
      ensures Valid() && active == old(active)
      ensures Live() == Filter(old(Live()), keep)
      ensures removed == |old(Live())| - |Live()|
    {
      ghost var was := Live();
      var kept := CompactArray(active, count, keep);
      removed := count - kept;
      count := kept;
      FilterKeepsRoster(voc, was, keep);
      FilterIsSubsequence(was, roll, keep);
    }

    /** Grows the array when it is full. */
    method MakeRoom()
      requires Valid()
      modifies `active
      ensures Valid() && (active == old(active) || fresh(active)) && count < active.Length
      ensures Live() == old(Live())
    {
      if count == active.Length {
        active := Grown(active);
      }
      assert active[..count] == old(Live());
    }

    /** Appends one behavior as the most recent. */
    method Append(b: Behavior)
      requires Valid() && WellBound(voc, b) && b.id != UNOWNED && (forall x :: x in Live() ==> x.id != b.id)
      modifies `active, `count, `roll, active
      ensures Valid() && (active == old(active) || fresh(active))
      ensures Live() == old(Live()) + [b] && roll == old(roll) + [b]
    {
      ghost var was, rolled := Live(), roll;
      AppendKeepsRoster(voc, was, b);
      SubsequenceSnoc(was, rolled, b);
      MakeRoom();
      Put(active, count, b);
      count, roll := count + 1, roll + [b];
      assert active[..count] == was + [b];
    }

    method IdIsActive(id: string) returns (found: bool)
      requires count <= active.Length
      ensures found <==> exists b :: b in Live() && b.id == id
    {
      for i := 0 to count
        invariant forall j :: 0 <= j < i ==> active[j].id != id
      {
        if active[i].id == id {
          assert active[i] in Live();
          return true;
        }
      }
      return false;
    }

    /** Mints an id no live behavior has; the counter moves at most once more than there are live behaviors. */
    method NextId(name: string) returns (id: string)
      requires count <= active.Length
      modifies `seq_
      ensures id != UNOWNED && (forall b :: b in Live() ==> b.id != id)
      ensures old(seq_) < seq_ <= old(seq_) + count + 1
      ensures id == Minted(name, seq_)
    {
      ghost var tried: set<string> := {};
      ghost var ids := Ids(Live());
      while true
        invariant active[..count] == old(active[..count])
        invariant seq_ == old(seq_) + |tried|
        invariant tried <= ids
        invariant forall x :: x in tried ==> exists k: nat :: k <= seq_ && x == Minted(name, k)
        decreases |ids| - |tried|
      {
        seq_ := seq_ + 1;
        id := Minted(name, seq_);
        SubsetSize(tried, ids);
        var taken := IdIsActive(id);
        if !taken {
          return;
        }
        MintedIsNew(name, seq_, tried);
        tried := tried + {id};
        SubsetSize(tried, ids);
      }
    }

    // ---- admission and eviction ----------------------------------------------------------------------------

    /** Binds a behavior, gives it an id and a time of admission, or refuses it. */
    method Resolve(b: Behavior, clock: real) returns (r: Result<Behavior, Refusal>)
      requires Valid()
      modifies `seq_
      ensures Valid() && Live() == old(Live())
      ensures r.Err? <==> Refusing(voc, Live(), b).Some?
      ensures r.Err? ==> r.error == Refusing(voc, Live(), b).value
      ensures r.Ok? ==> Newcomer(voc, Live(), b, clock, r.value)
    {
      var bound := Bind(voc, b);
      if bound.None? {
        return Err(Refused);
      }
      BoundIsWell(voc, b);
      var admitted := bound.value;
      if admitted.id == "" {
        var id := NextId(admitted.name);
        admitted := admitted.(id := id);
      } else {
        var taken := IdIsActive(admitted.id);
        if taken {
          return Err(DuplicateId);
        }
      }
      if admitted.admittedAt.None? {
        admitted := admitted.(admittedAt := Some(clock));
      }
      return Ok(admitted);
    }

    /** Applies the contention outcome of a newcomer and appends it as the most recent. */
    method Place(admitted: Behavior) returns (r: AdmitResult)
      requires Valid() && WellBound(voc, admitted) && admitted.id != UNOWNED
      requires forall x :: x in Live() ==> x.id != admitted.id
      modifies `active, `count, `roll, active
      ensures Valid() && (active == old(active) || fresh(active))
      ensures Live() == WithNewcomer(old(Live()), admitted) && roll == old(roll) + [admitted]
      ensures forall x :: x in old(Live()) ==> (x.id in r.evicted <==> Displaced(admitted, x))
      ensures !admitted.class_.Passive? ==>
                forall ch :: ch in r.blocked <==> Waits(ChannelNames(voc), admitted, old(Live()), ch)
    {
      ghost var was := Live();
      r := Admit(ChannelNames(voc), admitted, active[..count]);
      var evicted := r.evicted;
      var keep := (x: Behavior) => x.id !in evicted;
      FilterAgrees(was, keep, Undisplaced(admitted));
      if evicted != {} {
        var _ := Compact(keep);
      } else {
        FilterAll(was, keep);
      }
      Append(admitted);
    }

    /** Puts a behavior onto the live set, or refuses it and changes nothing. */
    method AdmitBehavior(b: Behavior, clock: real) returns (r: Result<AdmitResult, Refusal>)
      requires Valid()
      modifies `active, `count, `seq_, `roll, active
      ensures Valid() && (active == old(active) || fresh(active))
      ensures OpStep(voc, old(Live()), AdmitOp(b), clock, Live())
      ensures r.Err? <==> Refusing(voc, old(Live()), b).Some?
      ensures r.Err? ==> r.error == Refusing(voc, old(Live()), b).value && Live() == old(Live()) && roll == old(roll)
      ensures r.Ok? ==>
                && Live() != [] && roll == old(roll) + [Live()[|Live()| - 1]]
                && var admitted := Live()[|Live()| - 1];
                   && Newcomer(voc, old(Live()), b, clock, admitted) && IsTheRequest(b, clock, admitted)
                   && Live() == WithNewcomer(old(Live()), admitted)
                   && (forall x :: x in Live() <==> x == admitted || (x in old(Live()) && StaysBeside(x, admitted)))
                   && (!admitted.class_.Passive? ==>
                         forall ch :: ch in r.value.blocked <==> Waits(ChannelNames(voc), admitted, old(Live()), ch))
    {
      var resolved := Resolve(b, clock);
      if resolved.Err? {
        return Err(resolved.error);
      }
      BoundIsWell(voc, b);
      NewcomerIsTheRequest(voc, Live(), b, clock, resolved.value);
      WithNewcomerExactly(Live(), resolved.value);
      var result := Place(resolved.value);
      return Ok(result);
    }

    /** Stops every live behavior with this id or library name, and says how many. */
    method Evict(name: string) returns (removed: nat)
      requires Valid()
      modifies `count, active
      ensures Valid() && active == old(active)
      ensures Live() == WithoutName(old(Live()), name)
      ensures forall b :: b in Live() <==> b in old(Live()) && (name == "" || (b.id != name && b.name != name))
      ensures removed == |old(Live())| - |Live()|
    {
      WithoutNameExactly(Live(), name);
      if name == "" {
        return 0;
      }
      removed := Compact(NotNamed(name));
    }

    // ---- the inbox -----------------------------------------------------------------------------------------

    /** Never blocks: a full inbox loses the command. */
    method Send(cmd: Command) returns (accepted: bool)
      requires Valid()
      modifies `inbox
      ensures Valid()
      ensures accepted <==> |old(inbox)| < cfg.inboxSize
      ensures inbox == if accepted then old(inbox) + [cmd] else old(inbox)
    {
      accepted := |inbox| < cfg.inboxSize;
      if accepted {
        inbox := inbox + [cmd];
      }
    }

    /** One change to the live set. */
    method Perform(op: LiveOp, clock: real)
      requires Valid()
      modifies `active, `count, `seq_, `roll, active
      ensures Valid() && (active == old(active) || fresh(active))
      ensures old(roll) <= roll
      ensures OpStep(voc, old(Live()), op, clock, Live())
    {
      match op
      case AdmitOp(b) => var _ := AdmitBehavior(b, clock);
      case EvictOp(name) => var _ := Evict(name);
    }

    method ApplyCommand(cmd: Command, clock: real)
      requires Valid()
      modifies `active, `count, `seq_, `roll, `seam, active
      ensures Valid() && (active == old(active) || fresh(active))
      ensures old(roll) <= roll
      ensures CommandStep(voc, old(Live()), old(seam), cmd, clock, Live(), seam)
    {
      match cmd
      case Do(op) => Perform(op, clock);
      case SetSeam(installed) => seam := installed;
    }

    /** Puts commands in the inbox, one after the other. */
    method Receive(sends: seq<Command>)
      requires Valid()
      modifies `inbox
      ensures Valid() && Live() == old(Live())
      ensures inbox == Taken(old(inbox), sends, cfg.inboxSize)
    {
      for i := 0 to |sends|
        invariant Valid() && Live() == old(Live())
        invariant inbox == Taken(old(inbox), sends[..i], cfg.inboxSize)
      {
        TakenNext(old(inbox), sends, i, cfg.inboxSize);
        var _ := Send(sends[i]);
      }
      assert sends[..|sends|] == sends;
    }

    /** A drain of `pending` has come to its `n`th receive, and what it took has been applied. */
    ghost predicate Draining(rolled: seq<Behavior>, was: seq<Behavior>, installed: bool, pending: seq<Command>,
                             late: seq<seq<Command>>, clock: real, n: nat, d: Drain)
      reads `active, `count, `roll, `seam, `inbox, active
    {
      && Valid() && rolled <= roll
      && DrainedTo(voc, cfg.inboxSize, was, installed, pending, late, clock, n, d, Live(), seam, inbox)
    }

    /** One receive of a drain, after `n` others that got as far as `d`. */
    method TakeNext(clock: real, late: seq<seq<Command>>, n: nat, ghost rolled: seq<Behavior>,
                    ghost was: seq<Behavior>, ghost installed: bool, ghost pending: seq<Command>, ghost d: Drain)
      returns (more: bool, ghost next: Drain)
      requires n < cfg.inboxSize && d.more && Draining(rolled, was, installed, pending, late, clock, n, d)
      modifies `active, `count, `seq_, `roll, `seam, `inbox, active
      ensures active == old(active) || fresh(active)
      ensures next.more == more
      ensures Draining(rolled, was, installed, pending, late, clock, if more then n + 1 else cfg.inboxSize, next)
    {
      next := d.Next(LateAt(late, n), cfg.inboxSize);
      DrainsOn(pending, late, cfg.inboxSize, n, d);
      Receive(LateAt(late, n));
      if inbox == [] {
        return false, next;
      }
      ghost var mid, seamMid, rolledMid := Live(), seam, roll;
      var cmd := inbox[0];
      inbox := inbox[1..];
      ApplyCommand(cmd, clock);
      CommandsRunSnoc(voc, was, installed, d.taken, clock, mid, seamMid, cmd, Live(), seam);
      PrefixOfPrefix(rolled, rolledMid, roll);
      more := true;
    }

    /** The draining loop: at most as many receives as the inbox holds. */
    method DrainAll(clock: real, late: seq<seq<Command>>, ghost rolled: seq<Behavior>, ghost was: seq<Behavior>,
                    ghost installed: bool, ghost pending: seq<Command>)
      returns (ghost d: Drain)
      requires Draining(rolled, was, installed, pending, late, clock, 0, Drain([], pending, true))
      modifies `active, `count, `seq_, `roll, `seam, `inbox, active
      ensures active == old(active) || fresh(active)
      ensures Draining(rolled, was, installed, pending, late, clock, cfg.inboxSize, d)
    {
      d := Drain([], pending, true);
      for i := 0 to cfg.inboxSize
        invariant (active == old(active) || fresh(active)) && d.more
        invariant Draining(rolled, was, installed, pending, late, clock, i, d)
      {
        var more;
        more, d := TakeNext(clock, late, i, rolled, was, installed, pending, d);
        if !more {
          return;
        }
      }
    }

    /** Applies the pending commands, at most as many as the inbox holds, while `late` keeps arriving. */
    method DrainInbox(clock: real, late: seq<seq<Command>>) returns (ghost d: Drain)
      requires Valid()
      modifies `active, `count, `seq_, `roll, `seam, `inbox, active
      ensures Valid() && (active == old(active) || fresh(active))
      ensures old(roll) <= roll
      ensures DrainedTo(voc, cfg.inboxSize, old(Live()), old(seam), old(inbox), late, clock, cfg.inboxSize, d, Live(),
                        seam, inbox)
    {
      NothingDrained(voc, cfg.inboxSize, Live(), seam, inbox, late, clock);
      d := DrainAll(clock, late, roll, Live(), seam, inbox);
    }

    // ---- a tick --------------------------------------------------------------------------------------------

    /** Drops what has expired, asks every live behavior once, arbitrates and composes. */
    method ComposeTick(now: real, sensed: map<string, Contribution>)
      returns (pose: Pose, ownership: map<string, string>, dropped: set<string>)
      requires Valid()
      modifies `count, active
      ensures Valid() && active == old(active)
      ensures Live() == Unexpired(old(Live()), now)
      ensures forall b :: b in Live() <==> b in old(Live()) && InTime(b, now)
      ensures PoseOf(voc, Live(), now, sensed, pose)
      ensures forall ch :: ch in dropped ==>
                ch in ownership && exists b :: b in Live() && b.id == ownership[ch] && b.contribute
    {
      UnexpiredExactly(Live(), now);
      var _ := Compact(AliveAt(now));
      var contribs := Ask(voc, active[..count], now, sensed);
      ownership := Arbitrate(ChannelNames(voc), active[..count], Some(contribs));
      pose, dropped := Compose(voc, ownership, contribs);
      assert RightlyOwned(voc, Live(), contribs, ownership);
      OnlySensorsMisfit(voc, Live(), now, sensed, contribs, ownership, dropped);
    }

    /** Streams one pose; `maxErrors` failures in a row end the run, and any success starts the count again. */
    method Write(pose: Pose, ok: bool) returns (gaveUp: bool)
      requires Valid()
      modifies `sinkFailures, `sent
      ensures Valid() && Live() == old(Live())
      ensures sent == old(sent) + [TickPose(ticks, pose)]
      ensures sinkFailures == if ok then 0 else old(sinkFailures) + 1
      ensures gaveUp <==> !ok && sinkFailures >= cfg.maxErrors
    {
      sent := sent + [TickPose(ticks, pose)];
      if ok {
        sinkFailures := 0;
        return false;
      }
      sinkFailures := sinkFailures + 1;
      return sinkFailures >= cfg.maxErrors;
    }

    method InvokeSeam(ops: seq<LiveOp>, clock: real)
      requires Valid()
      modifies `active, `count, `seq_, `roll, active
      ensures Valid() && (active == old(active) || fresh(active))
      ensures old(roll) <= roll
      ensures OpsRun(voc, old(Live()), if seam then ops else [], clock, Live())
    {
      if !seam {
        return;
      }
      ghost var was := Live();
      for i := 0 to |ops|
        invariant Valid() && (active == old(active) || fresh(active))
        invariant old(roll) <= roll
        invariant OpsRun(voc, was, ops[..i], clock, Live())
      {
        ghost var mid := Live();
        Perform(ops[i], clock);
        OpsRunNext(voc, was, ops, i, clock, mid, Live());
      }
      assert ops[..|ops|] == ops;
    }

    function AtEdge(): Edge
      requires count <= active.Length
      reads `active, `count, `seam, `inbox, active
    {
      Edge(Live(), seam, inbox)
    }

    /** What was sent since the last tick, and while this one drains it. */
    method TakeSent(input: TickInput) returns (ghost d: Drain)
      requires Valid()
      modifies `active, `count, `seq_, `roll, `seam, `inbox, active
      ensures Valid() && (active == old(active) || fresh(active))
      ensures old(roll) <= roll
      ensures d == DrainedOn(old(AtEdge()), input, cfg.inboxSize) && inbox == d.left
      ensures CommandsRun(voc, old(Live()), old(seam), d.taken, input.clock, Live(), seam)
    {
      Receive(input.sends);
      d := DrainInbox(input.clock, input.late);
    }

    /** The first half of a tick: take what was sent, drain it, and compose. */
    method Observe(input: TickInput) returns (pose: Pose, ownership: map<string, string>, ghost drained: seq<Behavior>)
      requires Valid()
      modifies `active, `count, `seq_, `roll, `seam, `inbox, `ticks, active
      ensures Valid() && (active == old(active) || fresh(active))
      ensures old(roll) <= roll
      ensures ticks == old(ticks) + 1
      ensures CommandsRun(voc, old(Live()), old(seam), DrainedOn(old(AtEdge()), input, cfg.inboxSize).taken,
                          input.clock, drained, seam)
      ensures Live() == Unexpired(drained, input.now) && inbox == DrainedOn(old(AtEdge()), input, cfg.inboxSize).left
      ensures PoseOf(voc, Live(), input.now, input.sensed, pose)
    {
      ticks := ticks + 1;
      ghost var d := TakeSent(input);
      drained := Live();
      var dropped;
      pose, ownership, dropped := ComposeTick(input.now, input.sensed);
    }

    /** The second half of a tick: stream the pose, and unless the run gives up, call the seam. */
    method Deliver(input: TickInput, pose: Pose, ownership: map<string, string>) returns (gaveUp: bool)
      requires Valid()
      modifies `active, `count, `seq_, `roll, `sinkFailures, `sent, `lastPose, `lastOwnership, active
      ensures Valid() && (active == old(active) || fresh(active))
      ensures old(roll) <= roll
      ensures sent == old(sent) + [TickPose(ticks, pose)]
      ensures sinkFailures == if input.writeOk then 0 else old(sinkFailures) + 1
      ensures gaveUp <==> !input.writeOk && sinkFailures >= cfg.maxErrors
      ensures OpsRun(voc, old(Live()), if gaveUp || !seam then [] else input.seam, input.clock, Live())
      ensures !gaveUp ==> lastPose == pose
    {
      gaveUp := Write(pose, input.writeOk);
      if !gaveUp {
        lastPose, lastOwnership := pose, ownership;
        InvokeSeam(input.seam, input.clock);
      }
    }

    method Tick(input: TickInput) returns (pose: Pose, gaveUp: bool)
      requires Valid()
      modifies this, active
      ensures Valid() && (active == old(active) || fresh(active))
      ensures old(roll) <= roll
      ensures ticks == old(ticks) + 1 && sent == old(sent) + [TickPose(ticks, pose)]
      ensures TickRuns(voc, cfg.inboxSize, old(AtEdge()), input, gaveUp, pose, AtEdge())
      ensures sinkFailures == if input.writeOk then 0 else old(sinkFailures) + 1
      ensures gaveUp <==> !input.writeOk && sinkFailures >= cfg.maxErrors
      ensures !gaveUp ==> lastPose == pose
    {
      ghost var before := AtEdge();
      var ownership;
      ghost var drained;
      pose, ownership, drained := Observe(input);
      gaveUp := Deliver(input, pose, ownership);
      TickRunsBy(voc, cfg.inboxSize, before, input, gaveUp, pose, AtEdge(), drained);
    }

    // ---- a run ---------------------------------------------------------------------------------------------

    /** Admits the configured base action as a passive, looping behavior, or refuses to run at all. */
    method SeedBaseLayer(clock: real) returns (ok: bool)
      requires Valid()
      modifies `active, `count, `seq_, `roll, active
      ensures Valid() && (active == old(active) || fresh(active))
      ensures old(roll) <= roll
      ensures ok <==> !cfg.baseLayer || Bound(voc, BaseBehavior(cfg.baseAction, clock)).Some?
      ensures if ok then Seeded(voc, cfg, old(AtEdge()), clock, AtEdge()) else Live() == old(Live())
    {
      if !cfg.baseLayer {
        return true;
      }
      var base := BaseBehavior(cfg.baseAction, clock);
      var bound := Bind(voc, base);
      if bound.None? {
        return false;
      }
      BoundIsWell(voc, base);
      var id := NextId(bound.value.name);
      Append(bound.value.(id := id));
      return true;
    }

    method Settle()
      requires Valid()
      modifies `sent
      ensures Valid() && AtEdge() == old(AtEdge())
      ensures sent == old(sent) + if cfg.settle then [SettlePose(Neutral(voc))] else []
    {
      if cfg.settle {
        sent := sent + [SettlePose(Neutral(voc))];
      }
    }

    /** One more tick of a run. */
    method TickOn(inputs: seq<TickInput>, n: nat, ghost edges: seq<Edge>, ghost log: seq<Sent>, ghost firstTick: nat,
                  ghost was: seq<Sent>)
      returns (gaveUp: bool, ghost edges': seq<Edge>, ghost log': seq<Sent>)
      requires Valid() && n < |inputs| && firstTick + n == ticks + 1
      requires Ran(voc, cfg.inboxSize, inputs, n, false, edges, firstTick, log) && edges[n] == AtEdge()
      requires sent == was + log
      modifies this, active
      ensures Valid() && (active == old(active) || fresh(active))
      ensures old(roll) <= roll
      ensures ticks == old(ticks) + 1 && |log'| == n + 1 && log == log'[..n] && sent == was + log'
      ensures Ran(voc, cfg.inboxSize, inputs, n + 1, gaveUp, edges', firstTick, log')
      ensures edges'[0] == edges[0] && edges'[n + 1] == AtEdge()
      ensures sinkFailures == if inputs[n].writeOk then 0 else old(sinkFailures) + 1
      ensures gaveUp <==> !inputs[n].writeOk && sinkFailures >= cfg.maxErrors
    {
      ghost var before := AtEdge();
      var pose;
      pose, gaveUp := Tick(inputs[n]);
      ghost var after := AtEdge();
      RanNext(voc, cfg.inboxSize, inputs, n, edges, firstTick, log, gaveUp, ticks, pose, before, after);
      edges', log' := edges + [after], log + [TickPose(ticks, pose)];
      ConcatAssociates(was, log, [TickPose(ticks, pose)]);
    }

    /** The tick loop; `log` is what it handed the sink, and `edges` the engine between ticks. */
    method Loop(inputs: seq<TickInput>) returns (gaveUp: bool, ghost edges: seq<Edge>, ghost log: seq<Sent>)
      requires Valid() && sinkFailures == 0
      modifies this, active
      ensures Valid() && (active == old(active) || fresh(active))
      ensures old(roll) <= roll
      ensures ticks == old(ticks) + |log| && sent == old(sent) + log
      ensures Ran(voc, cfg.inboxSize, inputs, |log|, gaveUp, edges, old(ticks) + 1, log)
      ensures edges[0] == old(AtEdge()) && edges[|log|] == AtEdge()
      ensures StopsAt(inputs, cfg.maxErrors, |log|, gaveUp)
    {
      gaveUp, edges, log := false, [AtEdge()], [];
      for i := 0 to |inputs|
        invariant Valid() && (active == old(active) || fresh(active))
        invariant old(roll) <= roll
        invariant !gaveUp && |log| == i && ticks == old(ticks) + i && sent == old(sent) + log
        invariant Ran(voc, cfg.inboxSize, inputs, i, false, edges, old(ticks) + 1, log)
        invariant edges[0] == old(AtEdge()) && edges[i] == AtEdge()
        invariant sinkFailures == FailuresBefore(inputs, i)
        invariant HeldOut(inputs, cfg.maxErrors, i)
      {
        HeldOutNext(inputs, cfg.maxErrors, i);
        gaveUp, edges, log := TickOn(inputs, i, edges, log, old(ticks) + 1, old(sent));
        if gaveUp {
          return;
        }
      }
      HeldOutStops(inputs, cfg.maxErrors, |inputs|);
    }

    /** A run once the base layer is in place: the tick loop, and then the neutral pose. */
    method LoopAndSettle(inputs: seq<TickInput>) returns (gaveUp: bool, ghost edges: seq<Edge>, ghost log: seq<Sent>)
      requires Valid() && sinkFailures == 0
      modifies this, active
      ensures Valid()
      ensures old(roll) <= roll
      ensures ticks == old(ticks) + |log|
      ensures sent == old(sent) + log + (if cfg.settle then [SettlePose(Neutral(voc))] else [])
      ensures Ran(voc, cfg.inboxSize, inputs, |log|, gaveUp, edges, old(ticks) + 1, log)
      ensures edges[0] == old(AtEdge()) && edges[|log|] == AtEdge()
      ensures StopsAt(inputs, cfg.maxErrors, |log|, gaveUp)
    {
      gaveUp, edges, log := Loop(inputs);
      Settle();
    }

    /** Seeds the base layer, ticks until the inputs run out or the sink has failed too often in a row, then settles. */
    method Run(start: real, inputs: seq<TickInput>)
      returns (err: Option<RunError>, ghost edges: seq<Edge>, ghost log: seq<Sent>)
      requires Valid() && sinkFailures == 0
      modifies this, active
      ensures Valid()
      ensures err == Some(SeedRefused) <==> cfg.baseLayer && Bound(voc, BaseBehavior(cfg.baseAction, start)).None?
      ensures old(roll) <= roll
      ensures err == Some(SeedRefused) ==> sent == old(sent) && ticks == old(ticks)
      ensures err != Some(SeedRefused) ==>
                && edges != [] && Seeded(voc, cfg, old(AtEdge()), start, edges[0])
                && ticks == old(ticks) + |log|
                && sent == old(sent) + log + (if cfg.settle then [SettlePose(Neutral(voc))] else [])
                && Ran(voc, cfg.inboxSize, inputs, |log|, err.Some?, edges, old(ticks) + 1, log)
                && StopsAt(inputs, cfg.maxErrors, |log|, err.Some?)
                && edges[|log|] == AtEdge()
    {
      edges, log := [], [];
      var seeded := SeedBaseLayer(start);
      if !seeded {
        return Some(SeedRefused), edges, log;
      }
      var gaveUp;
      gaveUp, edges, log := LoopAndSettle(inputs);
      err := if gaveUp then Some(SinkFailed) else None;
    }
  }

  method Ask(v: Vocabulary, live: seq<Behavior>, now: real, sensed: map<string, Contribution>)
    returns (contribs: Contributions)
    requires DistinctIds(live) && forall b :: b in live ==> WellBound(v, b)
    ensures Asked(v, live, now, sensed, contribs)
  {
    contribs := map[];
    for i := 0 to |live|
      invariant OfLive(live, contribs) && OffersOf(v, live, i, now, sensed, contribs)
    {
      var b := live[i];
      assert b in live;
      var offer := Offered(v, b, now, SensedBy(sensed, b.id));
      StillOfLive(live, i, contribs, offer);
      OneMoreOffer(v, live, i, now, sensed, contribs, offer);
      contribs := contribs[b.id := offer];
    }
  }

  /** Only live behaviors offer anything. */
  ghost predicate OfLive(live: seq<Behavior>, contribs: Contributions) {
    forall id :: id in contribs ==> exists b :: b in live && b.id == id
  }

  /** What the first `n` live behaviors offer. */
  ghost predicate OffersOf(v: Vocabulary, live: seq<Behavior>, n: nat, now: real, sensed: map<string, Contribution>,
                           contribs: Contributions)
    requires n <= |live| && forall b :: b in live ==> WellBound(v, b)
  {
    forall j :: 0 <= j < n ==>
      live[j].id in contribs && contribs[live[j].id] == Offered(v, live[j], now, SensedBy(sensed, live[j].id))
  }

  lemma StillOfLive(live: seq<Behavior>, n: nat, contribs: Contributions, offer: Contribution)
    requires n < |live| && OfLive(live, contribs)
    ensures OfLive(live, contribs[live[n].id := offer])
  {
    assert live[n] in live;
  }

  lemma OneMoreOffer(v: Vocabulary, live: seq<Behavior>, n: nat, now: real, sensed: map<string, Contribution>,
                     contribs: Contributions, offer: Contribution)
    requires n < |live| && DistinctIds(live) && forall b :: b in live ==> WellBound(v, b)
    requires OffersOf(v, live, n, now, sensed, contribs)
    requires offer == Offered(v, live[n], now, SensedBy(sensed, live[n].id))
    ensures OffersOf(v, live, n + 1, now, sensed, contribs[live[n].id := offer])
  {
  }

  /** A trajectory-driven owner always has the right width, so only a sensor-driven one is ever dropped for it. */
  lemma {:induction false} OnlySensorsMisfit(v: Vocabulary, live: seq<Behavior>, now: real,
                                             sensed: map<string, Contribution>, contribs: Contributions,
                                             ownership: map<string, string>, dropped: set<string>)
    requires ValidVocabulary(v) && Roster(v, live) && Asked(v, live, now, sensed, contribs)
    requires forall i :: 0 <= i < |v.channels| ==>
               (v.channels[i].name in dropped <==> Misfits(ownership, contribs, v.channels[i]))
    requires forall ch :: ch in dropped ==> ch in ChannelNames(v)
    ensures forall ch :: ch in dropped ==>
              ch in ownership && exists b :: b in live && b.id == ownership[ch] && b.contribute
  {
    forall ch | ch in dropped
      ensures ch in ownership && exists b :: b in live && b.id == ownership[ch] && b.contribute
    {
      var i :| 0 <= i < |v.channels| && v.channels[i].name == ch;
      assert Misfits(ownership, contribs, v.channels[i]);
      var b :| b in live && b.id == ownership[ch];
      if !b.contribute {
        assert HasArity(v, ch, v.channels[i].arity);
        TrajectoryHasArity(v, b, now, SensedBy(sensed, b.id), ch, v.channels[i].arity);
        assert false;
      }
    }
  }
}
