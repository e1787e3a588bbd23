/** What a composed pose shows, read off the live behaviors and what they offer. */
module EnginePoses {
  import opened Common
  import opened Behaviors
  import opened Arbitration
  import opened TickEngine

  /** What a live behavior offers on a channel at an instant, if anything. */
  function OfferOn(v: Vocabulary, b: Behavior, now: real, sensed: map<string, Contribution>, channel: string):
    Option<seq<real>>
    requires WellBound(v, b)
  {
    var offer := Offered(v, b, now, SensedBy(sensed, b.id));
    if channel in offer then Some(offer[channel]) else None
  }

  /** A sensor-driven behavior offers just what its callback returned on the channels it claims; others ignore it. */
  lemma SensorsOffer(v: Vocabulary, b: Behavior, now: real, sensed: map<string, Contribution>, channel: string)
    requires WellBound(v, b)
    ensures b.contribute ==>
              OfferOn(v, b, now, sensed, channel) ==
              if channel in b.channels && b.id in sensed && channel in sensed[b.id] then Some(sensed[b.id][channel])
              else None
    ensures !b.contribute ==> OfferOn(v, b, now, sensed, channel) == OfferOn(v, b, now, map[], channel)
  {
  }

  /** Position `i` of the live set has the pose: it offers, and whoever else offers ranks lower, or came earlier. */
  ghost predicate Prevails(v: Vocabulary, live: seq<Behavior>, now: real, sensed: map<string, Contribution>,
                           channel: string, i: nat)
    requires Roster(v, live)
  {
    && i < |live| && OfferOn(v, live[i], now, sensed, channel).Some?
    && forall j :: 0 <= j < |live| && OfferOn(v, live[j], now, sensed, channel).Some? ==>
         !Outranks(live[j].class_, live[i].class_) && (j > i ==> Outranks(live[i].class_, live[j].class_))
  }

  lemma OffersAgree(v: Vocabulary, live: seq<Behavior>, now: real, sensed: map<string, Contribution>,
                    contribs: Contributions, channel: string, j: nat)
    requires Roster(v, live) && Asked(v, live, now, sensed, contribs) && j < |live|
    ensures Offers(live[j], channel, contribs) <==> OfferOn(v, live[j], now, sensed, channel).Some?
    ensures Offers(live[j], channel, contribs) ==>
              OfferOn(v, live[j], now, sensed, channel) == Some(contribs[live[j].id][channel])
  {
    assert live[j] in live;
  }

  lemma PrevailsWins(v: Vocabulary, live: seq<Behavior>, now: real, sensed: map<string, Contribution>,
                     contribs: Contributions, channel: string, i: nat)
    requires Roster(v, live) && Asked(v, live, now, sensed, contribs)
    ensures Prevails(v, live, now, sensed, channel, i) <==> Wins(channel, live, contribs, i)
  {
    forall j | 0 <= j < |live|
      ensures Offers(live[j], channel, contribs) <==> OfferOn(v, live[j], now, sensed, channel).Some?
    {
      OffersAgree(v, live, now, sensed, contribs, channel, j);
    }
  }

  /** What a channel shows when it is owned rightly: the prevailing offer if it fits, and otherwise its neutral. */
  ghost predicate ShowsRightly(v: Vocabulary, live: seq<Behavior>, now: real, sensed: map<string, Contribution>,
                               ch: Channel, shown: seq<real>)
    requires Roster(v, live)
  {
    if forall j :: 0 <= j < |live| ==> OfferOn(v, live[j], now, sensed, ch.name).None? then shown == ch.neutral
    else exists i: nat ::
           && Prevails(v, live, now, sensed, ch.name, i)
           && var offer := OfferOn(v, live[i], now, sensed, ch.name).value;
              shown == if |offer| == ch.arity then offer else ch.neutral
  }

  lemma PrevailingShows(v: Vocabulary, live: seq<Behavior>, now: real, sensed: map<string, Contribution>, ch: Channel,
                        i: nat, offer: seq<real>)
    requires Roster(v, live) && Prevails(v, live, now, sensed, ch.name, i)
    requires OfferOn(v, live[i], now, sensed, ch.name) == Some(offer)
    ensures ShowsRightly(v, live, now, sensed, ch, if |offer| == ch.arity then offer else ch.neutral)
  {
  }

  lemma OwnedShows(ownership: map<string, string>, contribs: Contributions, ch: Channel)
    requires ch.name in ownership
    ensures ownership[ch.name] == UNOWNED ==> Shown(ownership, contribs, ch) == ch.neutral
    ensures ownership[ch.name] != UNOWNED && ownership[ch.name] in contribs && ch.name in contribs[ownership[ch.name]]
            ==> var offer := contribs[ownership[ch.name]][ch.name];
                Shown(ownership, contribs, ch) == if |offer| == ch.arity then offer else ch.neutral
  {
  }

  lemma NobodyShows(v: Vocabulary, live: seq<Behavior>, now: real, sensed: map<string, Contribution>,
                    contribs: Contributions, ch: Channel)
    requires Roster(v, live) && Asked(v, live, now, sensed, contribs)
    requires forall i :: 0 <= i < |live| ==> !Offers(live[i], ch.name, contribs)
    ensures ShowsRightly(v, live, now, sensed, ch, ch.neutral)
  {
    forall j | 0 <= j < |live| ensures OfferOn(v, live[j], now, sensed, ch.name).None? {
      OffersAgree(v, live, now, sensed, contribs, ch.name, j);
    }
  }

  lemma OwnerShows(v: Vocabulary, live: seq<Behavior>, now: real, sensed: map<string, Contribution>,
                   contribs: Contributions, ownership: map<string, string>, ch: Channel)
    requires Roster(v, live) && Asked(v, live, now, sensed, contribs)
    requires ch.name in ownership && Owns(ch.name, live, Some(contribs), ownership[ch.name])
    ensures ShowsRightly(v, live, now, sensed, ch, Shown(ownership, contribs, ch))
  {
    var owner := ownership[ch.name];
    OwnedShows(ownership, contribs, ch);
    NamedLive(v, live);
    NobodyOwnsExactly(ch.name, live, contribs, owner);
    if owner == UNOWNED {
      NobodyShows(v, live, now, sensed, contribs, ch);
    } else {
      var i: nat :| Wins(ch.name, live, contribs, i) && owner == live[i].id;
      PrevailsWins(v, live, now, sensed, contribs, ch.name, i);
      OffersAgree(v, live, now, sensed, contribs, ch.name, i);
      PrevailingShows(v, live, now, sensed, ch, i, contribs[owner][ch.name]);
    }
  }

  lemma NamedLive(v: Vocabulary, live: seq<Behavior>)
    requires Roster(v, live)
    ensures forall j :: 0 <= j < |live| ==> live[j].id != UNOWNED
  {
    forall j | 0 <= j < |live| ensures live[j].id != UNOWNED {
      assert live[j] in live;
    }
  }

  /**
   * Every channel of a pose shows what the behavior that prevails there offers, or its neutral if that has the wrong
   * width, or if nobody offers anything; and at most one behavior prevails.
   */
  lemma PoseShowsWinners(v: Vocabulary, live: seq<Behavior>, now: real, sensed: map<string, Contribution>, pose: Pose,
                         k: nat)
    requires ValidVocabulary(v) && Roster(v, live) && PoseOf(v, live, now, sensed, pose) && k < |v.channels|
    ensures v.channels[k].name in pose
    ensures ShowsRightly(v, live, now, sensed, v.channels[k], pose[v.channels[k].name])
    ensures forall i: nat, j: nat ::
              (Prevails(v, live, now, sensed, v.channels[k].name, i)
               && Prevails(v, live, now, sensed, v.channels[k].name, j)) ==> i == j
  {
    var contribs, ownership :|
      && Asked(v, live, now, sensed, contribs) && RightlyOwned(v, live, contribs, ownership)
      && forall i :: 0 <= i < |v.channels| ==> pose[v.channels[i].name] == Shown(ownership, contribs, v.channels[i]);
    assert ChannelNames(v)[k] == v.channels[k].name;
    OwnerShows(v, live, now, sensed, contribs, ownership, v.channels[k]);
  }
}
