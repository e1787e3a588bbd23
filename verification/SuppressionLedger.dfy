/**
 * What a rule's suppression ledger publishes and what its streak logs, over a whole run: both are given by the
 * history alone, they tell the same story line by line, and no suppressed tick is lost from the summaries.
 */
module SuppressionLedger {
  import opened Common
  import opened Text
  import opened RuleTypes
  import opened Streaks
  import opened RuleStates
  import opened RuleHistory

  /** A refusal always names a reason. */
  predicate Named(ticks: seq<Input>) {
    forall i :: 0 <= i < |ticks| && ticks[i].refused.Some? ==> ticks[i].refused.value != ""
  }

  // ---- reading the open episode off the history ------------------------------------------------------------

  /** The reasons of the unbroken run of suppressed ticks that ends the history. */
  function Episode(h: seq<Record>): seq<string> {
    if h == [] || !h[|h| - 1].outcome.Gated? then [] else Episode(h[..|h| - 1]) + [h[|h| - 1].outcome.reason]
  }

  /** Each reason once, in the order first seen. */
  function Distinct(reasons: seq<string>): (r: seq<string>)
    ensures forall x :: x in r <==> x in reasons
    ensures forall i, j :: 0 <= i < j < |r| ==> r[i] != r[j]
  {
    if reasons == [] then []
    else
      var seen, last := Distinct(reasons[..|reasons| - 1]), reasons[|reasons| - 1];
      assert reasons == reasons[..|reasons| - 1] + [last];
      if last in seen then seen else seen + [last]
  }

  function Summary(episode: seq<string>): seq<Event> {
    if episode == [] then []
    else [Suppress(Join(Distinct(episode), ",") + " suppressed " + Decimal(|episode|) + " ticks", Some(|episode|))]
  }

  /** What one more tick publishes after an episode: a transition, a summary, a fire, or nothing. */
  function Published(episode: seq<string>, outcome: Outcome, detail: string): seq<Event> {
    match outcome
    case Unmatched => Summary(episode)
    case Gated(reason) => if episode != [] && episode[|episode| - 1] == reason then [] else [Suppress(reason, None)]
    case Shot => Summary(episode) + [Event.Fire(detail)]
  }

  function PublishedOver(rule: Rule, ticks: seq<Input>): seq<Event> {
    if ticks == [] then []
    else
      var front := ticks[..|ticks| - 1];
      var last := History(rule, ticks)[|ticks| - 1];
      PublishedOver(rule, front) + Published(Episode(History(rule, front)), last.outcome, ticks[|ticks| - 1].detail)
  }

  /** The ledger an episode leaves. */
  function LedgerOf(episode: seq<string>, events: seq<Event>): Ledger {
    Ledger(if episode == [] then "" else episode[|episode| - 1], |episode|, Distinct(episode), events)
  }

  function NextEpisode(episode: seq<string>, outcome: Outcome): seq<string> {
    if outcome.Gated? then episode + [outcome.reason] else []
  }

  /** The two parts of a tick that reach the ledger. */
  lemma {:induction false} LedgerTicked(rule: Rule, core: Core, tick: Input)
    ensures var (next, outcome) := Ticked(rule, core, tick);
            next.ledger == match outcome
              case Unmatched => core.ledger.Released()
              case Gated(reason) => core.ledger.Suppressed(reason)
              case Shot => core.ledger.Released().(events := core.ledger.Released().events + [Event.Fire(tick.detail)])
    ensures Ticked(rule, core, tick).1 == Gated("") ==> tick.refused == Some("")
  {
  }

  lemma {:induction false} LedgerStep(episode: seq<string>, events: seq<Event>, outcome: Outcome, detail: string)
    requires "" !in episode && outcome != Gated("")
    ensures var was := LedgerOf(episode, events);
            LedgerOf(NextEpisode(episode, outcome), events + Published(episode, outcome, detail)) ==
              match outcome
              case Unmatched => was.Released()
              case Gated(reason) => was.Suppressed(reason)
              case Shot => was.Released().(events := was.Released().events + [Event.Fire(detail)])
  {
    assert episode != [] ==> episode[|episode| - 1] in episode;
    match outcome
    case Unmatched =>
    case Gated(reason) => assert (episode + [reason])[..|episode|] == episode;
    case Shot => ConcatAssociates(events, Summary(episode), [Event.Fire(detail)]);
  }

  lemma {:induction false} LedgerNext(rule: Rule, core: Core, episode: seq<string>, events: seq<Event>, tick: Input)
    requires core.ledger == LedgerOf(episode, events)
    requires "" !in episode && (tick.refused.Some? ==> tick.refused.value != "")
    ensures var (next, outcome) := Ticked(rule, core, tick);
            next.ledger == LedgerOf(NextEpisode(episode, outcome), events + Published(episode, outcome, tick.detail))
    ensures "" !in NextEpisode(episode, Ticked(rule, core, tick).1)
  {
    LedgerTicked(rule, core, tick);
    LedgerStep(episode, events, Ticked(rule, core, tick).1, tick.detail);
  }

  /**
   * The ledger, and everything published, is what the history says: one event per transition, one summary per
   * episode.
   */
  lemma {:induction false} LedgerStandsForHistory(rule: Rule, ticks: seq<Input>)
    requires Named(ticks)
    ensures "" !in Episode(History(rule, ticks))
    ensures Run(rule, ticks).ledger == LedgerOf(Episode(History(rule, ticks)), PublishedOver(rule, ticks))
  {
    if ticks != [] {
      var front, tick := ticks[..|ticks| - 1], ticks[|ticks| - 1];
      LedgerStandsForHistory(rule, front);
      LedgerNext(rule, Run(rule, front), Episode(History(rule, front)), PublishedOver(rule, front), tick);
      assert History(rule, ticks)[..|front|] == History(rule, front);
    }
  }

  // ---- the ledger and the streak in lockstep ---------------------------------------------------------------

  /** An event and a log line that say the same thing. */
  predicate SameStory(e: Event, l: Line) {
    match e
    case Suppress(reason, None) => l == Drop(reason, "")
    case Suppress(text, Some(n)) => l.Drop? && l.detail == SuppressedDetail(n) && text == l.reason + " " + l.detail
    case Fire(detail) => l == Stage(detail)
  }

  ghost predicate Lockstep(core: Core) {
    && (core.streak.open <==> core.ledger.reason != "")
    && core.streak.reason == core.ledger.reason
    && core.streak.reasons == core.ledger.reasons
    && core.streak.ticks == core.ledger.ticks
    && (core.ledger.reason == "" ==> core.ledger.reasons == [] && core.ledger.ticks == 0)
    && |core.ledger.events| == |core.streak.lines|
    && forall i :: 0 <= i < |core.ledger.events| ==> SameStory(core.ledger.events[i], core.streak.lines[i])
  }

  lemma {:induction false} SummarySays(reasons: string, n: nat)
    ensures reasons + " suppressed " + Decimal(n) + " ticks" == reasons + " " + SuppressedDetail(n)
  {
    assert " suppressed " == " " + "suppressed ";
    ConcatAssociates(reasons, " ", "suppressed ");
    ConcatAssociates(reasons + " ", "suppressed ", Decimal(n));
    ConcatAssociates(reasons + " ", "suppressed " + Decimal(n), " ticks");
  }

  lemma {:induction false} LockstepReleased(core: Core)
    requires Lockstep(core)
    ensures Lockstep(core.Released())
  {
    SummarySays(Join(core.ledger.reasons, ","), core.ledger.ticks);
  }

  lemma {:induction false} LockstepNext(rule: Rule, core: Core, tick: Input)
    requires Lockstep(core) && (tick.refused.Some? ==> tick.refused.value != "")
    ensures Lockstep(Ticked(rule, core, tick).0)
  {
    LockstepReleased(core.(timing := core.timing.Stepped(rule, tick.matched, tick.now)));
  }

  /** After any run the ledger and the streak agree on the episode, and each event has its log line, in order. */
  lemma {:induction false} LedgerAndStreakAgree(rule: Rule, ticks: seq<Input>)
    requires Named(ticks)
    ensures Lockstep(Run(rule, ticks))
  {
    if ticks != [] {
      LedgerAndStreakAgree(rule, ticks[..|ticks| - 1]);
      LockstepNext(rule, Run(rule, ticks[..|ticks| - 1]), ticks[|ticks| - 1]);
    }
  }

  // ---- accounting ------------------------------------------------------------------------------------------

  function SummaryTicks(events: seq<Event>): nat {
    if events == [] then 0
    else
      var last := events[|events| - 1];
      SummaryTicks(events[..|events| - 1]) + if last.Suppress? && last.ticks.Some? then last.ticks.value else 0
  }

  function Fires(events: seq<Event>): nat {
    if events == [] then 0 else Fires(events[..|events| - 1]) + if events[|events| - 1].Fire? then 1 else 0
  }

  function MatchedTicks(ticks: seq<Input>): nat {
    if ticks == [] then 0 else MatchedTicks(ticks[..|ticks| - 1]) + if ticks[|ticks| - 1].matched then 1 else 0
  }

  function GatedTicks(h: seq<Record>): nat {
    if h == [] then 0 else GatedTicks(h[..|h| - 1]) + if h[|h| - 1].outcome.Gated? then 1 else 0
  }

  lemma {:induction false} SumsOne(events: seq<Event>, e: Event)
    ensures SummaryTicks(events + [e]) == SummaryTicks(events) +
              if e.Suppress? && e.ticks.Some? then e.ticks.value else 0
    ensures Fires(events + [e]) == Fires(events) + if e.Fire? then 1 else 0
  {
    assert (events + [e])[..|events|] == events;
  }

  lemma {:induction false} SumsNext(rule: Rule, core: Core, tick: Input)
    requires Lockstep(core) && (tick.refused.Some? ==> tick.refused.value != "")
    ensures var (next, outcome) := Ticked(rule, core, tick);
            && SummaryTicks(next.ledger.events) + next.ledger.ticks ==
               SummaryTicks(core.ledger.events) + core.ledger.ticks + (if outcome.Gated? then 1 else 0)
            && Fires(next.ledger.events) == Fires(core.ledger.events) + (if outcome.Shot? then 1 else 0)
            && (outcome.Unmatched? <==> !tick.matched)
  {
    var (next, outcome) := Ticked(rule, core, tick);
    var events := core.ledger.events;
    match outcome
    case Gated(reason) => SumsOne(events, Suppress(reason, None));
    case _ =>
      var closed := core.ledger.Released().events;
      if core.ledger.reason != "" {
        SumsOne(events, closed[|events|]);
      }
      SumsOne(closed, Event.Fire(tick.detail));
  }

  /**
   * Every matched tick fired or was suppressed; the summaries and the open episode account for every suppressed
   * one.
   */
  lemma {:induction false} EveryTickAccounted(rule: Rule, ticks: seq<Input>)
    requires Named(ticks)
    ensures var ledger, suppressed := Run(rule, ticks).ledger, GatedTicks(History(rule, ticks));
            && MatchedTicks(ticks) == Fires(ledger.events) + suppressed
            && SummaryTicks(ledger.events) + ledger.ticks == suppressed
  {
    if ticks != [] {
      var front, tick := ticks[..|ticks| - 1], ticks[|ticks| - 1];
      EveryTickAccounted(rule, front);
      LedgerAndStreakAgree(rule, front);
      SumsNext(rule, Run(rule, front), tick);
      assert History(rule, ticks)[..|front|] == History(rule, front);
    }
  }
}
