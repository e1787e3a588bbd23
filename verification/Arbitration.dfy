/** The contention core: who owns a channel this tick, what an admission removes, and the pose that results. */
module Arbitration {
  import opened Common
  import opened Behaviors

  const UNOWNED := ""

  type Contributions = map<string, Contribution>

  /** `b` competes for `channel`: it claims it and, when contributions are given, did not abstain on it. */
  predicate Eligible(b: Behavior, channel: string, contribs: Option<Contributions>) {
    b.Claims(channel) && (contribs.Some? ==> b.id in contribs.value && channel in contribs.value[b.id])
  }

  /** Position `i` beats every other eligible behavior: a higher class, or the same class and admitted later. */
  ghost predicate Greatest(channel: string, behaviors: seq<Behavior>, contribs: Option<Contributions>, i: nat) {
    && i < |behaviors| && Eligible(behaviors[i], channel, contribs)
    && forall j :: 0 <= j < |behaviors| && Eligible(behaviors[j], channel, contribs) ==>
         behaviors[j].class_.Priority() < behaviors[i].class_.Priority()
         || (behaviors[j].class_.Priority() == behaviors[i].class_.Priority() && j <= i)
  }

  /** The right owner of a channel. */
  ghost predicate Owns(channel: string, behaviors: seq<Behavior>, contribs: Option<Contributions>, owner: string) {
    if exists j :: 0 <= j < |behaviors| && Eligible(behaviors[j], channel, contribs) then
      exists i: nat :: Greatest(channel, behaviors, contribs, i) && owner == behaviors[i].id
    else owner == UNOWNED
  }

  /** There is one right answer. */
  lemma OwnerIsUnique(channel: string, behaviors: seq<Behavior>, contribs: Option<Contributions>, a: string, b: string)
    requires Owns(channel, behaviors, contribs, a) && Owns(channel, behaviors, contribs, b)
    ensures a == b
  {
    if exists j :: 0 <= j < |behaviors| && Eligible(behaviors[j], channel, contribs) {
      var i: nat :| Greatest(channel, behaviors, contribs, i) && a == behaviors[i].id;
      var k: nat :| Greatest(channel, behaviors, contribs, k) && b == behaviors[k].id;
      assert i == k;
    }
  }

  // ---- who owns a channel, class by class ------------------------------------------------------------------

  /** The classes in contention order; a class nobody declared contends like a passive one. */
  predicate Outranks(a: StopClass, b: StopClass) {
    match a
    case Unstoppable => !b.Unstoppable?
    case Stopping => !b.Unstoppable? && !b.Stopping?
    case Stoppable => b.Passive? || b.Other?
    case _ => false
  }

  /** The behavior claims the channel and offers something there. */
  predicate Offers(b: Behavior, channel: string, contribs: Contributions) {
    channel in b.channels && b.id in contribs && channel in contribs[b.id]
  }

  lemma RanksByPriority(a: StopClass, b: StopClass)
    ensures Outranks(a, b) <==> a.Priority() > b.Priority()
  {
  }

  /**
   * Position `i` wins a channel: it offers something there, nobody of a higher class does, and nobody of its own rank
   * who was admitted later.
   */
  ghost predicate Wins(channel: string, behaviors: seq<Behavior>, contribs: Contributions, i: nat) {
    && i < |behaviors| && Offers(behaviors[i], channel, contribs)
    && forall j :: 0 <= j < |behaviors| && Offers(behaviors[j], channel, contribs) ==>
         && !Outranks(behaviors[j].class_, behaviors[i].class_)
         && (j > i ==> Outranks(behaviors[i].class_, behaviors[j].class_))
  }

  lemma WinsGreatest(channel: string, behaviors: seq<Behavior>, contribs: Contributions, i: nat)
    ensures Wins(channel, behaviors, contribs, i) <==> Greatest(channel, behaviors, Some(contribs), i)
  {
    if i < |behaviors| {
      forall j | 0 <= j < |behaviors|
        ensures Eligible(behaviors[j], channel, Some(contribs)) <==> Offers(behaviors[j], channel, contribs)
        ensures Outranks(behaviors[j].class_, behaviors[i].class_) <==>
                  behaviors[j].class_.Priority() > behaviors[i].class_.Priority()
        ensures Outranks(behaviors[i].class_, behaviors[j].class_) <==>
                  behaviors[i].class_.Priority() > behaviors[j].class_.Priority()
      {
        RanksByPriority(behaviors[j].class_, behaviors[i].class_);
        RanksByPriority(behaviors[i].class_, behaviors[j].class_);
      }
    }
  }

  /** A behavior owns a channel exactly when it wins it. */
  lemma OwnsExactly(channel: string, behaviors: seq<Behavior>, contribs: Contributions, i: nat)
    requires DistinctIds(behaviors) && i < |behaviors| && behaviors[i].id != UNOWNED
    ensures Owns(channel, behaviors, Some(contribs), behaviors[i].id) <==> Wins(channel, behaviors, contribs, i)
  {
    WinsGreatest(channel, behaviors, contribs, i);
    forall k: nat | Greatest(channel, behaviors, Some(contribs), k) && behaviors[k].id == behaviors[i].id
      ensures k == i
    {
    }
  }

  /** And a channel is nobody's exactly when nobody offers anything there; otherwise somebody wins it. */
  lemma NobodyOwnsExactly(channel: string, behaviors: seq<Behavior>, contribs: Contributions, owner: string)
    requires Owns(channel, behaviors, Some(contribs), owner)
    requires forall i :: 0 <= i < |behaviors| ==> behaviors[i].id != UNOWNED
    ensures owner == UNOWNED <==> forall i :: 0 <= i < |behaviors| ==> !Offers(behaviors[i], channel, contribs)
    ensures owner != UNOWNED ==>
              exists i: nat :: Wins(channel, behaviors, contribs, i) && owner == behaviors[i].id
  {
    forall j | 0 <= j < |behaviors|
      ensures Eligible(behaviors[j], channel, Some(contribs)) <==> Offers(behaviors[j], channel, contribs)
    {
    }
    if exists j :: 0 <= j < |behaviors| && Eligible(behaviors[j], channel, Some(contribs)) {
      var i: nat :| Greatest(channel, behaviors, Some(contribs), i) && owner == behaviors[i].id;
      WinsGreatest(channel, behaviors, contribs, i);
    }
  }

  method Arbitrate(channels: seq<string>, behaviors: seq<Behavior>, contribs: Option<Contributions>)
    returns (owners: map<string, string>)
    ensures forall ch :: ch in owners <==> ch in channels
    ensures forall ch :: ch in channels ==> Owns(ch, behaviors, contribs, owners[ch])
  {
    owners := map[];
    for c := 0 to |channels|
      invariant forall ch :: ch in owners <==> ch in channels[..c]
      invariant forall ch :: ch in channels[..c] ==> Owns(ch, behaviors, contribs, owners[ch])
    {
      var channel := channels[c];
      var owner := OwnerOf(channel, behaviors, contribs);
      owners := owners[channel := owner];
      assert channels[..c + 1] == channels[..c] + [channel];
    }
    assert channels[..|channels|] == channels;
  }

  /** The inner loop: `>=` hands a tie to the later, more recently admitted, behavior. */
  method OwnerOf(channel: string, behaviors: seq<Behavior>, contribs: Option<Contributions>) returns (owner: string)
    ensures Owns(channel, behaviors, contribs, owner)
  {
    var bestIndex := -1;
    for i := 0 to |behaviors|
      invariant -1 <= bestIndex < i
      invariant bestIndex < 0 ==> forall j :: 0 <= j < i ==> !Eligible(behaviors[j], channel, contribs)
      invariant bestIndex >= 0 ==> Greatest(channel, behaviors[..i], contribs, bestIndex)
    {
      var b := behaviors[i];
      var longer := behaviors[..i + 1];
      assert longer == behaviors[..i] + [b];
      if !b.Claims(channel) {
        assert !Eligible(b, channel, contribs);
        continue;
      }
      if contribs.Some? {
        if b.id !in contribs.value || channel !in contribs.value[b.id] {
          assert !Eligible(b, channel, contribs);
          continue;
        }
      }
      if bestIndex < 0 || b.class_.Priority() >= behaviors[bestIndex].class_.Priority() {
        bestIndex := i;
      }
    }
    assert behaviors[..|behaviors|] == behaviors;
    owner := if bestIndex >= 0 then behaviors[bestIndex].id else UNOWNED;
  }

  // ---- admission -------------------------------------------------------------------------------------------

  datatype AdmitResult = AdmitResult(evicted: set<string>, blocked: set<string>)

  predicate SharesChannel(a: Behavior, b: Behavior) {
    exists ch :: ch in a.channels && b.Claims(ch)
  }

  /** The behaviors an admission removes. */
  predicate Displaced(newcomer: Behavior, b: Behavior) {
    newcomer.class_.Stopping? && b.class_.Stoppable? && SharesChannel(b, newcomer)
  }

  /** Whom an admission leaves alone. */
  function Undisplaced(newcomer: Behavior): Behavior -> bool {
    (b: Behavior) => !Displaced(newcomer, b)
  }

  predicate DistinctIds(behaviors: seq<Behavior>) {
    forall i, j :: 0 <= i < j < |behaviors| ==> behaviors[i].id != behaviors[j].id
  }

  /** The live set an admission leaves, newcomer last. */
  function Prospective(newcomer: Behavior, behaviors: seq<Behavior>): seq<Behavior> {
    Filter(behaviors, Undisplaced(newcomer)) + [newcomer]
  }

  ghost predicate Outranked(newcomer: Behavior, behaviors: seq<Behavior>, channel: string) {
    exists b :: b in behaviors && !Displaced(newcomer, b) && b.Claims(channel)
                && b.class_.Priority() > newcomer.class_.Priority()
  }

  /** The newcomer's channels that someone of a higher class keeps from it, or that nobody declared. */
  ghost predicate Waits(channels: seq<string>, newcomer: Behavior, behaviors: seq<Behavior>, channel: string) {
    channel in newcomer.channels && (channel !in channels || Outranked(newcomer, behaviors, channel))
  }

  /** With the newcomer last, it owns a claimed channel exactly when nobody there outranks it. */
  lemma LastOwns(channel: string, others: seq<Behavior>, newcomer: Behavior, contribs: Option<Contributions>,
                 owner: string)
    requires newcomer.id != UNOWNED && (forall b :: b in others ==> b.id != newcomer.id)
    requires Owns(channel, others + [newcomer], contribs, owner) && Eligible(newcomer, channel, contribs)
    ensures owner == newcomer.id <==>
            forall b :: b in others && Eligible(b, channel, contribs) ==>
              b.class_.Priority() <= newcomer.class_.Priority()
  {
    var all, n := others + [newcomer], |others|;
    assert all[n] == newcomer;
    var i: nat :| Greatest(channel, all, contribs, i) && owner == all[i].id;
    if i == n {
      forall b | b in others && Eligible(b, channel, contribs)
        ensures b.class_.Priority() <= newcomer.class_.Priority()
      {
        var j :| 0 <= j < n && others[j] == b;
        assert all[j] == b;
      }
    } else {
      assert all[i] == others[i] && all[i] in others;
    }
  }

  /** What an admission evicts, by id, and which of its channels the newcomer has to wait for. */
  method Admit(channels: seq<string>, newcomer: Behavior, behaviors: seq<Behavior>) returns (r: AdmitResult)
    requires newcomer.id != UNOWNED && (forall b :: b in behaviors ==> b.id != newcomer.id) && DistinctIds(behaviors)
    ensures forall b :: b in behaviors ==> (b.id in r.evicted <==> Displaced(newcomer, b))
    ensures forall id :: id in r.evicted ==> exists b :: b in behaviors && b.id == id
    ensures newcomer.class_.Passive? ==> r.blocked == {}
    ensures !newcomer.class_.Passive? ==> forall ch :: ch in r.blocked <==> Waits(channels, newcomer, behaviors, ch)
  {
    if newcomer.class_.Passive? {
      return AdmitResult({}, {});
    }
    var evicted: set<string> := {};
    if newcomer.class_.Stopping? {
      for i := 0 to |behaviors|
        invariant forall j :: 0 <= j < i && Displaced(newcomer, behaviors[j]) ==> behaviors[j].id in evicted
        invariant forall id :: id in evicted ==>
                    exists j :: 0 <= j < i && Displaced(newcomer, behaviors[j]) && behaviors[j].id == id
      {
        var b := behaviors[i];
        if b.class_.Stoppable? && SharesChannel(b, newcomer) {
          evicted := evicted + {b.id};
        }
      }
    }
    EvictedAreDisplaced(newcomer, behaviors, evicted);
    var prospective := Remaining(newcomer, behaviors, evicted);
    prospective := prospective + [newcomer];
    var owners := Arbitrate(channels, prospective, None);
    var blocked: set<string> := {};
    for c := 0 to |newcomer.channels|
      invariant forall ch :: ch in blocked <==> ch in newcomer.channels[..c] && Waits(channels, newcomer, behaviors, ch)
    {
      var channel := newcomer.channels[c];
      assert channel in newcomer.channels && newcomer.channels[..c + 1] == newcomer.channels[..c] + [channel];
      BlockedMeansWaits(channels, newcomer, behaviors, channel, owners);
      if channel !in owners || owners[channel] != newcomer.id {
        blocked := blocked + {channel};
      }
    }
    assert newcomer.channels[..|newcomer.channels|] == newcomer.channels;
    r := AdmitResult(evicted, blocked);
  }

  method Remaining(newcomer: Behavior, behaviors: seq<Behavior>, evicted: set<string>) returns (r: seq<Behavior>)
    requires forall b :: b in behaviors ==> (b.id in evicted <==> Displaced(newcomer, b))
    ensures r == Filter(behaviors, Undisplaced(newcomer))
  {
    r := [];
    for i := 0 to |behaviors|
      invariant r == Filter(behaviors[..i], Undisplaced(newcomer))
    {
      assert behaviors[i] in behaviors && behaviors[..i + 1] == behaviors[..i] + [behaviors[i]];
      FilterSnoc(behaviors[..i], behaviors[i], Undisplaced(newcomer));
      if behaviors[i].id !in evicted {
        r := r + [behaviors[i]];
      }
    }
    assert behaviors[..|behaviors|] == behaviors;
  }

  lemma EvictedAreDisplaced(newcomer: Behavior, behaviors: seq<Behavior>, evicted: set<string>)
    requires DistinctIds(behaviors)
    requires forall j :: 0 <= j < |behaviors| && Displaced(newcomer, behaviors[j]) ==> behaviors[j].id in evicted
    requires forall id :: id in evicted ==>
               exists j :: 0 <= j < |behaviors| && Displaced(newcomer, behaviors[j]) && behaviors[j].id == id
    ensures forall b :: b in behaviors ==> (b.id in evicted <==> Displaced(newcomer, b))
    ensures forall id :: id in evicted ==> exists b :: b in behaviors && b.id == id
  {
    forall b | b in behaviors ensures b.id in evicted <==> Displaced(newcomer, b) {
      var i :| 0 <= i < |behaviors| && behaviors[i] == b;
      if b.id in evicted {
        var j :| 0 <= j < |behaviors| && Displaced(newcomer, behaviors[j]) && behaviors[j].id == b.id;
        assert i == j;
      }
    }
    forall id | id in evicted ensures exists b :: b in behaviors && b.id == id {
      var j :| 0 <= j < |behaviors| && Displaced(newcomer, behaviors[j]) && behaviors[j].id == id;
      assert behaviors[j] in behaviors;
    }
  }

  lemma BlockedMeansWaits(channels: seq<string>, newcomer: Behavior, behaviors: seq<Behavior>, channel: string,
                          owners: map<string, string>)
    requires newcomer.id != UNOWNED && (forall b :: b in behaviors ==> b.id != newcomer.id)
    requires forall ch :: ch in owners <==> ch in channels
    requires forall ch :: ch in channels ==> Owns(ch, Prospective(newcomer, behaviors), None, owners[ch])
    requires channel in newcomer.channels
    ensures (channel !in owners || owners[channel] != newcomer.id) <==> Waits(channels, newcomer, behaviors, channel)
  {
    if channel in channels {
      var keep := Undisplaced(newcomer);
      var others := Filter(behaviors, keep);
      assert Prospective(newcomer, behaviors) == others + [newcomer];
      LastOwns(channel, others, newcomer, None, owners[channel]);
      forall b | b in behaviors && keep(b) ensures b in others {
        FilterKeeps(behaviors, keep, b);
      }
    }
  }

  /**
   * The forecast is sound: a non-passive newcomer owns every claimed channel it does not have to wait for, on every
   * tick it contributes there, whoever else abstains and whoever else has left, until somebody newer is admitted.
   */
  lemma ForecastIsSound(channels: seq<string>, newcomer: Behavior, behaviors: seq<Behavior>, channel: string,
                        later: seq<Behavior>, contribs: Contributions, owner: string)
    requires newcomer.id != UNOWNED && (forall b :: b in behaviors ==> b.id != newcomer.id)
    requires channel in newcomer.channels && !Waits(channels, newcomer, behaviors, channel)
    requires forall b :: b in later ==> b in behaviors && !Displaced(newcomer, b)
    requires Eligible(newcomer, channel, Some(contribs))
    requires Owns(channel, later + [newcomer], Some(contribs), owner)
    ensures owner == newcomer.id
  {
    LastOwns(channel, later, newcomer, Some(contribs), owner);
  }

  // ---- composition -----------------------------------------------------------------------------------------

  function Neutral(v: Vocabulary): Pose
    requires ValidVocabulary(v)
  {
    map i | 0 <= i < |v.channels| :: v.channels[i].name := v.channels[i].neutral
  }

  /** Exactly the declared channels, each at its declared arity. */
  ghost predicate Complete(v: Vocabulary, pose: Pose) {
    && (forall ch :: ch in pose <==> ch in ChannelNames(v))
    && (forall i :: 0 <= i < |v.channels| ==>
          v.channels[i].name in pose && |pose[v.channels[i].name]| == v.channels[i].arity)
  }

  /** What a channel's owner offers it, if anything. */
  function Driving(ownership: map<string, string>, contribs: Contributions, channel: string): Option<seq<real>> {
    if channel in ownership && ownership[channel] != UNOWNED && ownership[channel] in contribs
       && channel in contribs[ownership[channel]] then Some(contribs[ownership[channel]][channel])
    else None
  }

  /** The owner's offer has the wrong width. */
  predicate Misfits(ownership: map<string, string>, contribs: Contributions, ch: Channel) {
    var offer := Driving(ownership, contribs, ch.name);
    offer.Some? && |offer.value| != ch.arity
  }

  /** What a channel shows: its owner's offer when that has the right width, and its neutral otherwise. */
  function Shown(ownership: map<string, string>, contribs: Contributions, ch: Channel): seq<real> {
    var offer := Driving(ownership, contribs, ch.name);
    if offer.Some? && |offer.value| == ch.arity then offer.value else ch.neutral
  }

  lemma NeutralShows(v: Vocabulary)
    requires ValidVocabulary(v)
    ensures forall ch :: ch in Neutral(v) <==> ch in ChannelNames(v)
    ensures forall i :: 0 <= i < |v.channels| ==>
              v.channels[i].name in Neutral(v) && Neutral(v)[v.channels[i].name] == v.channels[i].neutral
    ensures Complete(v, Neutral(v))
  {
    var names := ChannelNames(v);
    forall ch ensures ch in Neutral(v) <==> ch in names {
      if ch in names {
        var i :| 0 <= i < |names| && names[i] == ch;
        assert v.channels[i].name == ch;
      }
    }
  }

  method Compose(v: Vocabulary, ownership: map<string, string>, contribs: Contributions)
    returns (pose: Pose, dropped: set<string>)
    requires ValidVocabulary(v)
    ensures Complete(v, pose)
    ensures forall i :: 0 <= i < |v.channels| ==> pose[v.channels[i].name] == Shown(ownership, contribs, v.channels[i])
    ensures forall i :: 0 <= i < |v.channels| ==> (v.channels[i].name in dropped <==>
                                                   Misfits(ownership, contribs, v.channels[i]))
    ensures forall ch :: ch in dropped ==> ch in ChannelNames(v)
  {
    NeutralShows(v);
    pose, dropped := Overlay(v.channels, ChannelNames(v), Neutral(v), ownership, contribs);
  }

  /** The composing loop, over channels whose names are `names`, starting from every channel's neutral. */
  method Overlay(channels: seq<Channel>, names: seq<string>, neutral: Pose, ownership: map<string, string>,
                 contribs: Contributions)
    returns (pose: Pose, dropped: set<string>)
    requires |names| == |channels| && NoRepeats(names) && forall i :: 0 <= i < |names| ==> names[i] == channels[i].name
    requires forall i :: 0 <= i < |names| ==> names[i] in neutral && neutral[names[i]] == channels[i].neutral
    ensures pose.Keys == neutral.Keys
    ensures forall i :: 0 <= i < |channels| ==> channels[i].name in pose
    ensures forall i :: 0 <= i < |channels| ==> pose[channels[i].name] == Shown(ownership, contribs, channels[i])
    ensures forall i :: 0 <= i < |channels| ==>
              (channels[i].name in dropped <==> Misfits(ownership, contribs, channels[i]))
    ensures forall ch :: ch in dropped ==> ch in names
  {
    pose := neutral;
    dropped := {};
    for c := 0 to |channels|
      invariant pose.Keys == neutral.Keys
      invariant forall ch :: ch in dropped ==> ch in names[..c]
      invariant forall i :: 0 <= i < c ==> pose[names[i]] == Shown(ownership, contribs, channels[i])
      invariant forall i :: c <= i < |names| ==> pose[names[i]] == channels[i].neutral
      invariant forall i :: 0 <= i < c ==> (names[i] in dropped <==> Misfits(ownership, contribs, channels[i]))
    {
      var ch := channels[c];
      assert names[..c + 1] == names[..c] + [ch.name];
      var offer := Driving(ownership, contribs, ch.name);
      if offer.Some? {
        if |offer.value| != ch.arity {
          dropped := dropped + {ch.name};
        } else {
          pose := pose[ch.name := offer.value];
        }
      }
      assert names[c] in dropped <==> Misfits(ownership, contribs, ch);
    }
  }
}
