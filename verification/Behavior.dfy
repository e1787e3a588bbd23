/** Behaviors, the vocabulary they are bound against, and what a bound behavior offers at one instant. */
module Behaviors {
  import opened Common
  import opened Trajectories

  /** How a behavior contends for channels; `Other` is a class name nobody declared. */
  datatype StopClass = Passive | Stoppable | Stopping | Unstoppable | Other(name: string) {

    /** An unrecognized class ranks with passive. */
    function Priority(): nat {
      match this
      case Stoppable => 1
      case Stopping => 2
      case Unstoppable => 3
      case _ => 0
    }
  }

  datatype Lifetime = Lifetime(durationS: Option<real>, loops: bool) {

    predicate IsExpired(tLocal: real) {
      durationS.Some? && tLocal >= durationS.value
    }
  }

  /** One behavior's values at one instant; a claimed channel that is absent is an abstention. */
  type Contribution = map<string, seq<real>>

  type Pose = map<string, seq<real>>

  datatype Behavior = Behavior(
    name: string,
    id: string,
    class_: StopClass,
    channels: seq<string>,
    lifetime: Lifetime,
    action: string,
    admittedAt: Option<real>,
    trajectories: map<string, Trajectory>,
    contribute: bool          // a sensor-driven callback replaces the trajectories
  ) {

    predicate Claims(channel: string) {
      channel in channels
    }

    function Local(now: real): real {
      now - if admittedAt.Some? then admittedAt.value else 0.0
    }
  }

  datatype Channel = Channel(name: string, arity: nat, neutral: seq<real>)

  datatype Action = Action(name: string, claims: seq<string>, loops: bool, trajectories: map<string, Trajectory>)

  datatype Vocabulary = Vocabulary(channels: seq<Channel>, actions: seq<Action>, ease: real -> real)

  predicate NoRepeats(names: seq<string>) {
    forall i, j :: 0 <= i < j < |names| ==> names[i] != names[j]
  }

  function ChannelNames(v: Vocabulary): (r: seq<string>)
    ensures |r| == |v.channels| && forall i :: 0 <= i < |r| ==> r[i] == v.channels[i].name
  {
    seq(|v.channels|, i requires 0 <= i < |v.channels| => v.channels[i].name)
  }

  /** The arity a channel was declared with. */
  ghost predicate HasArity(v: Vocabulary, channel: string, arity: nat) {
    exists i :: 0 <= i < |v.channels| && v.channels[i].name == channel && v.channels[i].arity == arity
  }

  /** What loading an adaptor config guarantees of one action. */
  ghost predicate ValidAction(v: Vocabulary, a: Action) {
    && a.name != ""
    && a.claims != [] && NoRepeats(a.claims)
    && (forall ch :: ch in a.claims ==> ch in ChannelNames(v) && ch in a.trajectories)
    && (forall ch :: ch in a.trajectories ==>
          Compiled(a.trajectories[ch]) && a.trajectories[ch].loops == a.loops
            && HasArity(v, ch, a.trajectories[ch].arity))
  }

  /** What loading an adaptor config guarantees. */
  ghost predicate ValidVocabulary(v: Vocabulary) {
    && NoRepeats(ChannelNames(v))
    && (forall i :: 0 <= i < |v.channels| ==>
          v.channels[i].name != "" && |v.channels[i].neutral| == v.channels[i].arity)
    && (forall i :: 0 <= i < |v.actions| ==> ValidAction(v, v.actions[i]))
  }

  /** Channel names are unique, so a channel has one arity. */
  lemma ArityIsUnique(v: Vocabulary, channel: string, m: nat, n: nat)
    requires ValidVocabulary(v) && HasArity(v, channel, m) && HasArity(v, channel, n)
    ensures m == n
  {
    var i :| 0 <= i < |v.channels| && v.channels[i].name == channel && v.channels[i].arity == m;
    var j :| 0 <= j < |v.channels| && v.channels[j].name == channel && v.channels[j].arity == n;
    assert ChannelNames(v)[i] == ChannelNames(v)[j];
  }

  function FindAction(v: Vocabulary, name: string, from: nat := 0): (r: Option<Action>)
    requires from <= |v.actions|
    ensures r.Some? ==> r.value in v.actions && r.value.name == name
    ensures r.None? ==> forall i :: from <= i < |v.actions| ==> v.actions[i].name != name
    decreases |v.actions| - from
  {
    if from == |v.actions| then None
    else if v.actions[from].name == name then Some(v.actions[from])
    else FindAction(v, name, from + 1)
  }

  function ActionLoops(v: Vocabulary, name: string): bool {
    var a := FindAction(v, name);
    a.Some? && a.value.loops
  }

  // ---- binding ---------------------------------------------------------------------------------------------

  /** A one-shot needs a positive duration; only a looping behavior may go without one. */
  predicate CanEnd(l: Lifetime) {
    if l.durationS.Some? then l.durationS.value > 0.0 else l.loops
  }

  /** Binding against a vocabulary, or `None` when the behavior is refused. */
  function Bound(v: Vocabulary, b: Behavior): Option<Behavior> {
    if b.class_.Other? then None
    else if b.action == "" then
      if !b.contribute || b.name == "" || b.channels == [] then None else Finish(v, b, None)
    else
      var action := FindAction(v, b.action);
      if action.None? then None
      else
        var named := if b.name == "" then b.(name := b.action) else b;
        Finish(v, if named.channels == [] then named.(channels := action.value.claims) else named, action)
  }

  function Finish(v: Vocabulary, b: Behavior, action: Option<Action>): Option<Behavior> {
    if !(forall ch :: ch in b.channels ==> ch in ChannelNames(v)) || !NoRepeats(b.channels)
      || !CanEnd(b.lifetime) then None
    else if action.None? then Some(b)
    else
      var available := action.value.trajectories;
      Some(b.(trajectories := map ch | ch in available && ch in b.channels :: available[ch]))
  }

  /** What the engine may rely on about every live behavior. */
  ghost predicate WellBound(v: Vocabulary, b: Behavior) {
    && !b.class_.Other? && b.name != "" && b.channels != [] && NoRepeats(b.channels)
    && (forall ch :: ch in b.channels ==> ch in ChannelNames(v))
    && CanEnd(b.lifetime)
    && (!b.contribute ==> forall ch :: ch in b.trajectories ==>
          Compiled(b.trajectories[ch]) && HasArity(v, ch, b.trajectories[ch].arity))
  }

  lemma BoundIsWell(v: Vocabulary, b: Behavior)
    requires ValidVocabulary(v) && Bound(v, b).Some?
    ensures WellBound(v, Bound(v, b).value)
    ensures var r := Bound(v, b).value;
            r.id == b.id && r.class_ == b.class_ && r.lifetime == b.lifetime && r.admittedAt == b.admittedAt
            && r.action == b.action && r.contribute == b.contribute
            && (b.name != "" ==> r.name == b.name) && (b.name == "" ==> r.name == b.action)
            && (b.channels != [] ==> r.channels == b.channels)
  {
    if b.action != "" {
      var action := FindAction(v, b.action).value;
      var i :| 0 <= i < |v.actions| && v.actions[i] == action;
      assert ValidAction(v, action);
    }
  }

  ghost predicate Declares(v: Vocabulary, name: string) {
    exists i :: 0 <= i < |v.actions| && v.actions[i].name == name
  }

  ghost predicate Declared(v: Vocabulary, channel: string) {
    exists i :: 0 <= i < |v.channels| && v.channels[i].name == channel
  }

  /** A one-shot asks for a positive duration; a looping behavior may go without. */
  predicate HasEnd(l: Lifetime) {
    match l.durationS
    case Some(d) => d > 0.0
    case None => l.loops
  }

  /**
   * Binding accepts exactly a behavior of a known class, with a lifetime that ends or loops, on declared channels each
   * named once, that runs a declared action, or names itself and its channels and brings a callback.
   */
  lemma BindsExactly(v: Vocabulary, b: Behavior)
    requires ValidVocabulary(v)
    ensures Bound(v, b).Some? <==>
              && !b.class_.Other? && HasEnd(b.lifetime)
              && (forall ch :: ch in b.channels ==> Declared(v, ch)) && NoRepeats(b.channels)
              && (if b.action != "" then Declares(v, b.action) else b.contribute && b.name != "" && b.channels != [])
  {
    ChannelsDeclared(v, b.channels);
    if b.action != "" && FindAction(v, b.action).Some? {
      var action := FindAction(v, b.action).value;
      var i :| 0 <= i < |v.actions| && v.actions[i] == action;
      assert ValidAction(v, action);
    }
  }

  lemma ChannelsDeclared(v: Vocabulary, channels: seq<string>)
    ensures (forall ch :: ch in channels ==> Declared(v, ch)) <==> forall ch :: ch in channels ==> ch in ChannelNames(v)
  {
    var names := ChannelNames(v);
    forall ch ensures Declared(v, ch) <==> ch in names {
      if Declared(v, ch) {
        var i :| 0 <= i < |v.channels| && v.channels[i].name == ch;
        assert names[i] == ch;
      }
      if ch in names {
        var i :| 0 <= i < |names| && names[i] == ch;
        assert v.channels[i].name == ch;
      }
    }
  }

  /** What binding attaches: an action's trajectories, each on its channel, where the behavior claims it. */
  ghost predicate Attached(a: Action, b: Behavior) {
    forall ch :: (ch in b.trajectories <==> ch in a.trajectories && ch in b.channels)
                 && (ch in b.trajectories ==> b.trajectories[ch] == a.trajectories[ch])
  }

  /** A bound behavior claims what it asked for, or all its action claims, and carries that action's trajectories. */
  lemma BindsTheAction(v: Vocabulary, b: Behavior)
    requires ValidVocabulary(v) && Bound(v, b).Some? && b.action != ""
    ensures var r := Bound(v, b).value;
            exists a :: a in v.actions && a.name == b.action && Attached(a, r)
              && r.channels == if b.channels == [] then a.claims else b.channels
  {
    assert Attached(FindAction(v, b.action).value, Bound(v, b).value);
  }

  /** Defaults the channels to the action's claims, refuses an undeclared or repeated one, attaches the trajectories. */
  method BindChannels(v: Vocabulary, b: Behavior, action: Option<Action>) returns (r: Option<Behavior>)
    requires CanEnd(b.lifetime)
    ensures r == if b.channels == [] && action.None? then None
                 else Finish(v, if b.channels == [] then b.(channels := action.value.claims) else b, action)
  {
    var claimed := b;
    if |b.channels| == 0 {
      if action.None? {
        return None;
      }
      claimed := b.(channels := action.value.claims);
    }
    var declared := ChannelNames(v);
    var seen: set<string> := {};
    for i := 0 to |claimed.channels|
      invariant seen == set j | 0 <= j < i :: claimed.channels[j]
      invariant forall j :: 0 <= j < i ==> claimed.channels[j] in declared
      invariant forall j, k :: 0 <= j < k < i ==> claimed.channels[j] != claimed.channels[k]
    {
      var ch := claimed.channels[i];
      if ch !in declared {
        return None;
      }
      if ch in seen {
        return None;
      }
      seen := seen + {ch};
    }
    if action.None? {
      return Some(claimed);
    }
    var available := action.value.trajectories;
    return Some(claimed.(trajectories := map ch | ch in available && ch in claimed.channels :: available[ch]));
  }

  method Bind(v: Vocabulary, b: Behavior) returns (r: Option<Behavior>)
    ensures r == Bound(v, b)
  {
    if b.class_.Other? {
      return None;
    }
    var named := b;
    var action: Option<Action> := None;
    if b.action == "" {
      if !b.contribute || b.name == "" {
        return None;
      }
    } else {
      action := FindAction(v, b.action);
      if action.None? {
        return None;
      }
      if b.name == "" {
        named := b.(name := b.action);
      }
    }
    if !CanEnd(b.lifetime) {
      return None;
    }
    r := BindChannels(v, named, action);
  }

  // ---- contributing ----------------------------------------------------------------------------------------

  /** What a behavior offers: its trajectories sampled, or what its callback returned, on claimed channels only. */
  function Offered(v: Vocabulary, b: Behavior, now: real, sensed: Contribution): (r: Contribution)
    requires WellBound(v, b)
    ensures forall ch :: ch in r ==> ch in b.channels
  {
    if b.contribute then map ch | ch in sensed && ch in b.channels :: sensed[ch]
    else map ch | ch in b.trajectories && ch in b.channels :: At(b.trajectories[ch], v.ease, b.Local(now))
  }

  /** A trajectory always has the width its channel was declared with. */
  lemma TrajectoryHasArity(v: Vocabulary, b: Behavior, now: real, sensed: Contribution, ch: string, arity: nat)
    requires ValidVocabulary(v) && WellBound(v, b) && !b.contribute
    requires ch in Offered(v, b, now, sensed) && HasArity(v, ch, arity)
    ensures |Offered(v, b, now, sensed)[ch]| == arity
  {
    SampleArity(b.trajectories[ch], v.ease, b.Local(now));
    ArityIsUnique(v, ch, arity, b.trajectories[ch].arity);
  }

  /** A behavior's clock starts when it is admitted: at a keyframe's time after that, it offers the keyframe. */
  lemma OffersItsKeyframes(v: Vocabulary, b: Behavior, now: real, sensed: Contribution, ch: string, i: nat)
    requires WellBound(v, b) && !b.contribute && b.admittedAt.Some?
    requires ch in b.channels && ch in b.trajectories
    requires b.trajectories[ch].shape.Frames? && i < |b.trajectories[ch].shape.frames|
    requires var frames := b.trajectories[ch].shape.frames;
             && (i + 1 < |frames| ==> frames[i].t < frames[i + 1].t)
             && (b.trajectories[ch].loops && b.trajectories[ch].duration > 0.0 ==>
                   frames[i].t < b.trajectories[ch].duration)
             && now == b.admittedAt.value + frames[i].t
    ensures ch in Offered(v, b, now, sensed)
    ensures Offered(v, b, now, sensed)[ch] == b.trajectories[ch].shape.frames[i].value
  {
    KeyframeIsHit(b.trajectories[ch], v.ease, i);
  }

  /** And what it offers depends on nothing but the time since then. */
  lemma OffersByAge(v: Vocabulary, b: Behavior, now: real, sensed: Contribution, shift: real)
    requires WellBound(v, b) && b.admittedAt.Some?
    ensures Offered(v, b.(admittedAt := Some(b.admittedAt.value + shift)), now + shift, sensed)
              == Offered(v, b, now, sensed)
  {
    assert b.(admittedAt := Some(b.admittedAt.value + shift)).Local(now + shift) == b.Local(now);
  }

  /** Only claimed channels are offered: those the callback returned, or those that carry a trajectory. */
  lemma OffersOnlyClaims(v: Vocabulary, b: Behavior, now: real, sensed: Contribution, ch: string)
    requires WellBound(v, b)
    ensures ch in Offered(v, b, now, sensed) <==>
              ch in b.channels && if b.contribute then ch in sensed else ch in b.trajectories
    ensures b.contribute && ch in Offered(v, b, now, sensed) ==> Offered(v, b, now, sensed)[ch] == sensed[ch]
  {
  }
}
