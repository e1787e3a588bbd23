/**
 * Rule evaluation on the tick: every rule's turn, and the state in which a whole tick leaves the engine and the
 * registry.
 */
module Evaluators {
  import opened Common
  import opened Text
  import opened RuleTypes
  import opened RuleStates
  import opened RuleHistory
  import opened Behaviors
  import opened Arbitration
  import opened TickEngine
  import opened Registries
  import opened Admissions

  // ---- one rule's turn -------------------------------------------------------------------------------------

  /** What a react rule asks for when it fires. */
  function RuleRequest(v: Vocabulary, rule: Rule): Request {
    Request("", rule.run, rule.durationS, ActionLoops(v, rule.run), None)
  }

  function FireDetail(rule: Rule): string {
    match rule.kind
    case React => "fired kind=react" + (if rule.run != "" then " run=" + rule.run else "")
    case Inhibit =>
      "fired kind=inhibit" + (if rule.disable != [] then " disable=[" + Join(rule.disable, " ") + "]" else "")
  }

  /** What a fire says tells the rule's kind, and what it runs or disables. */
  lemma FireDetailTells(a: Rule, b: Rule)
    requires FireDetail(a) == FireDetail(b)
    requires forall n :: n in a.disable + b.disable ==> ' ' !in n
    ensures a.kind == b.kind
    ensures a.kind.React? ==> a.run == b.run
    ensures a.kind.Inhibit? ==> a.disable == b.disable
  {
    KindTells(a);
    KindTells(b);
    if a.kind.React? && b.kind.React? {
      RunTells(a);
      RunTells(b);
    }
    if a.kind.Inhibit? && b.kind.Inhibit? {
      DisableTells(a);
      DisableTells(b);
    }
  }

  lemma KindTells(rule: Rule)
    ensures |FireDetail(rule)| > 11 && FireDetail(rule)[11] == if rule.kind.React? then 'r' else 'i'
  {
  }

  lemma RunTells(rule: Rule)
    requires rule.kind.React?
    ensures FireDetail(rule)[|"fired kind=react"|..] == if rule.run == "" then "" else " run=" + rule.run
    ensures rule.run == "" <==> |FireDetail(rule)| == |"fired kind=react"|
    ensures rule.run != "" ==> FireDetail(rule)[|"fired kind=react run="|..] == rule.run
  {
  }

  lemma DisableTells(rule: Rule)
    requires rule.kind.Inhibit? && forall n :: n in rule.disable ==> ' ' !in n
    ensures rule.disable == [] <==> |FireDetail(rule)| == |"fired kind=inhibit"|
    ensures rule.disable != [] ==>
              var d := FireDetail(rule);
              |d| > |"fired kind=inhibit disable=["| && Split(d[|"fired kind=inhibit disable=["|..|d| - 1], ' ') ==
                rule.disable
  {
    if rule.disable != [] {
      SplitJoins(rule.disable, ' ');
      Between("fired kind=inhibit", " disable=[", Join(rule.disable, " "), "]");
    }
  }

  lemma Between(a: string, b: string, middle: string, end: string)
    ensures (a + (b + middle + end))[|a + b|..|a + (b + middle + end)| - |end|] == middle
  {
  }

  /** Why an armed and unblocked react rule is kept from firing, if it is. */
  ghost function WhyNot(v: Vocabulary, live: seq<Behavior>, id: string, rule: Rule): Option<string> {
    if rule.run in LiveNames(live) then Some(ALREADY_ACTIVE)
    else if TurnedAway(v, live, id, RuleRequest(v, rule)) then Some(INVALID)
    else None
  }

  /** A react rule's turn: what it met, and that it admitted its behavior exactly when it fired. */
  ghost predicate ReactTurn(v: Vocabulary, prefix: string, words: set<string>, rule: Rule, core: Core, tick: Input,
                            before: Moment, after: Moment) {
    && tick.blocked == BlockedBy(words, rule.run, rule.run)
    && tick.refused == WhyNot(v, before.live, RequestId(prefix, rule.run, before.minted + 1), rule)
    && tick.detail == FireDetail(rule)
    && before.minted <= after.minted <= before.minted + 1
    && if Ticked(rule, core, tick).1.Shot?
       then Joined(before.live, RuleRequest(v, rule), after.live)
         && after.ours == before.ours + {after.live[|before.live|]}
       else after.live == before.live && after.ours == before.ours
  }

  /** An inhibit rule's turn: nothing holds it back but its own timing, and firing evicts what it disables. */
  ghost predicate InhibitTurn(rule: Rule, core: Core, tick: Input, before: Moment, after: Moment) {
    && !tick.blocked && tick.refused.None? && tick.detail == FireDetail(rule)
    && after == if Ticked(rule, core, tick).1.Shot? then WithoutNames(before, rule.disable) else before
  }

  function WithoutNames(m: Moment, names: seq<string>): Moment {
    if names == [] then m else WithoutOneName(WithoutNames(m, names[..|names| - 1]), names[|names| - 1])
  }

  lemma {:induction false} WithoutNamesIsTidy(m: Moment, names: seq<string>)
    requires Tidy(m)
    ensures Tidy(WithoutNames(m, names)) && (forall b :: b in WithoutNames(m, names).live ==> b in m.live)
  {
    if names != [] {
      WithoutNamesIsTidy(m, names[..|names| - 1]);
      NarrowedIsTidy(WithoutNames(m, names[..|names| - 1]), NotNamed(names[|names| - 1]));
    }
  }

  /** Whether an armed react rule gets its behavior admitted, or why not. */
  method Attempt(state: RuleState, engine: Engine, registry: Registry, prefix: string, rule: Rule, now: real,
                 clock: real, byRules: set<string>, active: set<string>, ghost before: Moment)
    returns (reason: string, ghost tick: Input, ghost after: Moment)
    requires engine.Valid() && registry.Valid() && active == LiveNames(engine.Live())
    requires before.live == engine.Live() && before.minted == registry.seq_
    modifies engine`active, engine`count, engine`seq_, engine`roll, engine.active, registry`seq_
    ensures engine.Valid() && registry.Valid() && (engine.active == old(engine.active) || fresh(engine.active))
    ensures old(engine.roll) <= engine.roll
    ensures after.live == engine.Live() && after.minted == registry.seq_
    ensures tick.now == now && tick.matched
    ensures ReactTurn(engine.voc, prefix, registry.inhibited + byRules, rule, state.Value(), tick, before, after)
    ensures Decide(rule, state.Value().timing.Stepped(rule, true, now), tick) ==
              if reason == FIRED then Shot else Gated(reason)
  {
    ghost var words := registry.inhibited + byRules;
    tick := Input(now, true, BlockedBy(words, rule.run, rule.run),
                  WhyNot(engine.voc, engine.Live(), RequestId(prefix, rule.run, registry.seq_ + 1), rule),
                    FireDetail(rule));
    after := before;
    if registry.Blocks(byRules, rule.run, rule.run) {
      return INHIBITED, tick, after;
    }
    reason := state.FireReason(rule, now);
    if reason != FIRED {
      return;
    }
    if rule.run in active {
      return ALREADY_ACTIVE, tick, after;
    }
    var outcome := AdmitRequest(engine, registry, prefix, RuleRequest(engine.voc, rule), byRules, clock);
    after := Moment(engine.Live(), registry.seq_, before.ours);
    if outcome.NotAdmitted? {
      return outcome.reason, tick, after;
    }
    after := after.(ours := before.ours + {engine.Live()[|before.live|]});
  }

  /** A rule that is stepped first and then decides had the turn of the rule it was before. */
  lemma SteppedTurn(v: Vocabulary, prefix: string, words: set<string>, rule: Rule, core: Core, stepped: Core,
                    tick: Input, reason: string, before: Moment, after: Moment)
    requires tick.matched && stepped == core.(timing := core.timing.Stepped(rule, true, tick.now))
    requires ReactTurn(v, prefix, words, rule, stepped, tick, before, after)
    requires Decide(rule, stepped.timing.Stepped(rule, true, tick.now), tick) ==
               if reason == FIRED then Shot else Gated(reason)
    ensures ReactTurn(v, prefix, words, rule, core, tick, before, after)
    ensures Ticked(rule, core, tick).0 ==
              if reason == FIRED then stepped.Fired(rule, tick.now, FireDetail(rule)) else stepped.Suppressed(reason)
    ensures Ticked(rule, core, tick).1.Shot? <==> reason == FIRED
  {
    assert stepped.timing.Stepped(rule, true, tick.now) == stepped.timing;
    assert Ticked(rule, stepped, tick).1 == Ticked(rule, core, tick).1;
  }

  /** An unmatched tick admits nothing. */
  lemma UnmatchedTurn(v: Vocabulary, prefix: string, words: set<string>, rule: Rule, core: Core, tick: Input,
                      before: Moment)
    requires !tick.matched && tick.blocked == BlockedBy(words, rule.run, rule.run) && tick.detail == FireDetail(rule)
    requires tick.refused == WhyNot(v, before.live, RequestId(prefix, rule.run, before.minted + 1), rule)
    ensures ReactTurn(v, prefix, words, rule, core, tick, before, before)
    ensures Ticked(rule, core, tick).0 == core.(timing := core.timing.Stepped(rule, false, tick.now)).Released()
    ensures !Ticked(rule, core, tick).1.Shot?
  {
  }

  /** Records a matched tick: one more suppressed tick, or a fire that closes the open episode. */
  method Conclude(state: RuleState, rule: Rule, reason: string, now: real)
    modifies state, state.streak
    ensures state.Value() == if reason == FIRED then old(state.Value()).Fired(rule, now, FireDetail(rule))
                             else old(state.Value()).Suppressed(reason)
  {
    if reason != FIRED {
      state.Suppress(reason);
      return;
    }
    state.Release();
    state.MarkFired(rule, now);
    state.EmitFire(FireDetail(rule));
  }

  /** The turn of a rule whose predicate holds, once its arming has been stepped from `core`. */
  method FireMatched(state: RuleState, engine: Engine, registry: Registry, prefix: string, rule: Rule, now: real,
                     clock: real, byRules: set<string>, active: set<string>, ghost before: Moment, ghost core: Core)
    returns (fired: bool, ghost tick: Input, ghost after: Moment)
    requires engine.Valid() && registry.Valid() && active == LiveNames(engine.Live())
    requires before.live == engine.Live() && before.minted == registry.seq_
    requires state.Value() == core.(timing := core.timing.Stepped(rule, true, now))
    modifies state, state.streak, engine`active, engine`count, engine`seq_, engine`roll, engine.active, registry`seq_
    ensures engine.Valid() && registry.Valid() && (engine.active == old(engine.active) || fresh(engine.active))
    ensures old(engine.roll) <= engine.roll
    ensures after.live == engine.Live() && after.minted == registry.seq_
    ensures tick.now == now && tick.matched
    ensures ReactTurn(engine.voc, prefix, registry.inhibited + byRules, rule, core, tick, before, after)
    ensures state.Value() == Ticked(rule, core, tick).0
    ensures fired <==> Ticked(rule, core, tick).1.Shot?
  {
    var reason;
    reason, tick, after := Attempt(state, engine, registry, prefix, rule, now, clock, byRules, active, before);
    SteppedTurn(engine.voc, prefix, registry.inhibited + byRules, rule, core, state.Value(), tick, reason, before,
                after);
    fired := reason == FIRED;
    Conclude(state, rule, reason, now);
  }

  method FireReact(state: RuleState, engine: Engine, registry: Registry, prefix: string, rule: Rule, matched: bool,
                   now: real, clock: real, byRules: set<string>, active: set<string>, ghost before: Moment)
    returns (fired: bool, ghost tick: Input, ghost after: Moment)
    requires engine.Valid() && registry.Valid() && active == LiveNames(engine.Live())
    requires before.live == engine.Live() && before.minted == registry.seq_
    modifies state, state.streak, engine`active, engine`count, engine`seq_, engine`roll, engine.active, registry`seq_
    ensures engine.Valid() && registry.Valid() && (engine.active == old(engine.active) || fresh(engine.active))
    ensures old(engine.roll) <= engine.roll
    ensures after.live == engine.Live() && after.minted == registry.seq_
    ensures tick.now == now && tick.matched == matched
    ensures ReactTurn(engine.voc, prefix, registry.inhibited + byRules, rule, old(state.Value()), tick, before, after)
    ensures state.Value() == Ticked(rule, old(state.Value()), tick).0
    ensures fired <==> Ticked(rule, old(state.Value()), tick).1.Shot?
  {
    ghost var core := state.Value();
    state.StepArming(rule, matched, now);
    if !matched {
      tick := Input(now, false, BlockedBy(registry.inhibited + byRules, rule.run, rule.run),
                    WhyNot(engine.voc, engine.Live(), RequestId(prefix, rule.run, registry.seq_ + 1), rule),
                      FireDetail(rule));
      UnmatchedTurn(engine.voc, prefix, registry.inhibited + byRules, rule, core, tick, before);
      state.Release();
      return false, tick, before;
    }
    fired, tick, after := FireMatched(state, engine, registry, prefix, rule, now, clock, byRules, active, before, core);
  }

  method EvictNames(engine: Engine, names: seq<string>, ghost before: Moment)
    requires engine.Valid() && before.live == engine.Live()
    modifies engine`count, engine.active
    ensures engine.Valid() && engine.active == old(engine.active)
    ensures engine.Live() == WithoutNames(before, names).live
  {
    for i := 0 to |names|
      invariant engine.Valid() && engine.active == old(engine.active)
      invariant engine.Live() == WithoutNames(before, names[..i]).live
    {
      assert names[..i + 1][..i] == names[..i];
      var _ := engine.Evict(names[i]);
    }
    assert names[..|names|] == names;
  }

  method FireInhibit(state: RuleState, engine: Engine, rule: Rule, matched: bool, now: real, ghost before: Moment)
    returns (ghost tick: Input, ghost after: Moment)
    requires engine.Valid() && before.live == engine.Live()
    modifies state, state.streak, engine`count, engine.active
    ensures engine.Valid() && engine.active == old(engine.active)
    ensures after.live == engine.Live() && after.minted == before.minted
    ensures tick.now == now && tick.matched == matched
    ensures InhibitTurn(rule, old(state.Value()), tick, before, after)
    ensures state.Value() == Ticked(rule, old(state.Value()), tick).0
  {
    tick := Input(now, matched, false, None, FireDetail(rule));
    after := before;
    state.StepArming(rule, matched, now);
    if !matched {
      state.Release();
      return;
    }
    var reason := state.FireReason(rule, now);
    if reason != FIRED {
      state.Suppress(reason);
      return;
    }
    state.Release();
    EvictNames(engine, rule.disable, before);
    after := WithoutNames(before, rule.disable);
    MintedStays(before, rule.disable);
    state.MarkFired(rule, now);
    state.EmitFire(FireDetail(rule));
  }

  lemma {:induction false} MintedStays(m: Moment, names: seq<string>)
    ensures WithoutNames(m, names).minted == m.minted
  {
    if names != [] {
      MintedStays(m, names[..|names| - 1]);
    }
  }

  // ---- all the rules ---------------------------------------------------------------------------------------

  /** What a tick tells the rules: the clock, and the ids of the rules whose predicate holds. */
  datatype Sight = Sight(now: real, clock: real, matched: set<string>)

  /** The words disabled by the inhibit rules that match. */
  function DisabledBy(rules: seq<Rule>, matched: set<string>): (r: set<string>)
    ensures forall i, w :: 0 <= i < |rules| && rules[i].id in matched && w in rules[i].disable ==> w in r
    ensures forall w :: w in r ==> exists i :: 0 <= i < |rules| && rules[i].id in matched && w in rules[i].disable
  {
    if rules == [] then {}
    else
      var n := |rules| - 1;
      DisabledBy(rules[..n], matched) + if rules[n].id in matched then set w | w in rules[n].disable else {}
  }

  /** The state of every rule, and what the tick keeps track of, between two turns. */
  datatype Scene = Scene(cores: map<string, Core>, at: Moment)

  ghost predicate ReactStep(v: Vocabulary, prefix: string, words: set<string>, rule: Rule, sight: Sight, tick: Input,
                            before: Scene, after: Scene) {
    && rule.id in before.cores
    && tick.now == sight.now && tick.matched == (rule.id in sight.matched)
    && ReactTurn(v, prefix, words, rule, before.cores[rule.id], tick, before.at, after.at)
    && after.cores == before.cores[rule.id := Ticked(rule, before.cores[rule.id], tick).0]
  }

  ghost predicate InhibitStep(rule: Rule, sight: Sight, tick: Input, before: Scene, after: Scene) {
    && rule.id in before.cores
    && tick.now == sight.now && tick.matched == (rule.id in sight.matched)
    && InhibitTurn(rule, before.cores[rule.id], tick, before.at, after.at)
    && after.cores == before.cores[rule.id := Ticked(rule, before.cores[rule.id], tick).0]
  }

  /** Turn after turn. */
  ghost predicate ReactTurns(v: Vocabulary, prefix: string, words: set<string>, rules: seq<Rule>, sight: Sight,
                             ticks: seq<Input>, scenes: seq<Scene>) {
    && |ticks| == |rules| && |scenes| == |rules| + 1
    && forall i :: 0 <= i < |rules| ==> ReactStep(v, prefix, words, rules[i], sight, ticks[i], scenes[i], scenes[i + 1])
  }

  ghost predicate InhibitTurns(rules: seq<Rule>, sight: Sight, ticks: seq<Input>, scenes: seq<Scene>) {
    && |ticks| == |rules| && |scenes| == |rules| + 1
    && forall i :: 0 <= i < |rules| ==> InhibitStep(rules[i], sight, ticks[i], scenes[i], scenes[i + 1])
  }

  lemma ReactTurnsNext(v: Vocabulary, prefix: string, words: set<string>, rules: seq<Rule>, n: nat, sight: Sight,
                       ticks: seq<Input>, scenes: seq<Scene>, tick: Input, after: Scene)
    requires n < |rules| && ReactTurns(v, prefix, words, rules[..n], sight, ticks, scenes)
    requires ReactStep(v, prefix, words, rules[n], sight, tick, scenes[n], after)
    ensures ReactTurns(v, prefix, words, rules[..n + 1], sight, ticks + [tick], scenes + [after])
  {
  }

  lemma InhibitTurnsNext(rules: seq<Rule>, n: nat, sight: Sight, ticks: seq<Input>, scenes: seq<Scene>, tick: Input,
                         after: Scene)
    requires n < |rules| && InhibitTurns(rules[..n], sight, ticks, scenes)
    requires InhibitStep(rules[n], sight, tick, scenes[n], after)
    ensures InhibitTurns(rules[..n + 1], sight, ticks + [tick], scenes + [after])
  {
  }

  /**
   * What the turn of one react rule keeps: tidiness, the older behaviors, and room for nothing but what the
   * rules run.
   */
  ghost predicate RulesJoined(was: seq<Behavior>, live: seq<Behavior>) {
    && was <= live
    && forall j :: |was| <= j < |live| ==> Limited(live[j]) && live[j].name !in LiveNames(live[..j])
  }

  lemma ReactTurnKeeps(v: Vocabulary, prefix: string, words: set<string>, rule: Rule, core: Core, tick: Input,
                       was: seq<Behavior>, before: Moment, after: Moment)
    requires ReactTurn(v, prefix, words, rule, core, tick, before, after) && Finite(RuleRequest(v, rule))
    requires Tidy(before) && RulesJoined(was, before.live)
    ensures Tidy(after) && RulesJoined(was, after.live)
    ensures LiveNames(after.live) == LiveNames(before.live) +
              if Ticked(rule, core, tick).1.Shot? then {rule.run} else {}
  {
    if Ticked(rule, core, tick).1.Shot? {
      JoinedIsTidy(before, RuleRequest(v, rule), after.live, after.minted);
      JoinedIsLive(before.live, RuleRequest(v, rule), after.live);
      forall j | |was| <= j < |after.live|
        ensures Limited(after.live[j]) && after.live[j].name !in LiveNames(after.live[..j])
      {
        if j < |before.live| {
          assert after.live[j] == before.live[j] && after.live[..j] == before.live[..j];
        } else {
          assert after.live[..j] == before.live;
        }
      }
    }
  }

  // ---- where a tick leaves things --------------------------------------------------------------------------

  /** The stages of the rules' part of a tick. */
  datatype Story = Story(
    applied: Moment,
    inhibitTicks: seq<Input>, inhibitScenes: seq<Scene>,
    reactTicks: seq<Input>, reactScenes: seq<Scene>
  )

  /** The queue is drained, then every inhibit rule has its turn, then every react rule. */
  ghost predicate RulesRan(v: Vocabulary, prefix: string, words: set<string>, inhibit: seq<Rule>, react: seq<Rule>,
                           sight: Sight, queue: seq<Pending>, before: Scene, story: Story, after: Scene) {
    && PendingRun(v, prefix, words, before.at, queue, story.applied)
    && InhibitTurns(inhibit, sight, story.inhibitTicks, story.inhibitScenes)
    && story.inhibitScenes[0] == Scene(before.cores, story.applied)
    && ReactTurns(v, prefix, words, react, sight, story.reactTicks, story.reactScenes)
    && story.reactScenes[0] == story.inhibitScenes[|inhibit|]
    && story.reactScenes[|react|] == after
  }

  /** What runs under a blocked word is evicted, and the standing goals that are missing are admitted again. */
  ghost predicate Upheld(v: Vocabulary, prefix: string, words: set<string>, goals: seq<Goal>, before: Moment,
                         after: Moment) {
    var enforced := Enforced(before, words, goals);
    && after.ours == enforced.ours
    && AddedFor(enforced.live, after.live, goals, words)
    && AllSettled(v, after.live, prefix, goals, words, before.minted, after.minted)
  }

  /** What the enforcement of these words leaves. */
  function Enforced(m: Moment, words: set<string>, goals: seq<Goal>): Moment {
    Narrowed(m, NotAmong(Cascade(words, goals) * LiveNames(m.live)))
  }

  /** Nothing runs under a blocked word, and no goal whose action is blocked runs under its name. */
  ghost predicate Clean(live: seq<Behavior>, goals: seq<Goal>, words: set<string>) {
    && (forall b :: b in live ==> b.name !in words)
    && (forall g :: g in goals && g.action in words ==> g.name !in LiveNames(live))
  }

  /** Every behavior now live was live before the tick, or will end, or stands for a goal that is not blocked. */
  ghost predicate Accounted(was: seq<Behavior>, live: seq<Behavior>, goals: seq<Goal>, words: set<string>) {
    forall b :: b in live ==> b in was || Limited(b) || OfGoal(b, goals, words)
  }

  ghost predicate OnlyGoalsAdded(was: seq<Behavior>, live: seq<Behavior>, goals: seq<Goal>, words: set<string>) {
    forall b :: b in live ==> b in was || OfGoal(b, goals, words)
  }

  lemma EnforcedIsClean(m: Moment, words: set<string>, goals: seq<Goal>)
    ensures Clean(Enforced(m, words, goals).live, goals, words)
  {
    var banned, live := Cascade(words, goals), Enforced(m, words, goals).live;
    forall b | b in live ensures b.name !in banned {
      assert b in m.live && NotAmong(banned * LiveNames(m.live))(b);
    }
    forall g | g in goals && g.action in words ensures g.name !in LiveNames(live) {
      assert g.name in banned;
    }
  }

  lemma SustainedIsClean(was: seq<Behavior>, live: seq<Behavior>, goals: seq<Goal>, words: set<string>)
    requires Clean(was, goals, words) && AddedFor(was, live, goals, words) && ProperGoals(goals)
    ensures Clean(live, goals, words)
    ensures OnlyGoalsAdded(was, live, goals, words)
  {
    forall b | b in live
      ensures b.name !in words && (b in was || OfGoal(b, goals, words))
      ensures forall g :: g in goals && g.action in words ==> g.name != b.name
    {
      var j :| 0 <= j < |live| && live[j] == b;
      if j < |was| {
        assert was[j] == b;
      } else {
        var i :| 0 <= i < |goals| && Serves(b, goals[i]) && !BlockedBy(words, b.name, goals[i].action);
        assert goals[i] in goals;
      }
    }
  }

  lemma TidyGrows(m: Moment, live: seq<Behavior>, minted: nat)
    requires Tidy(m) && m.live <= live
    ensures Tidy(Moment(live, minted, m.ours))
  {
    forall b | b in m.live ensures b in live {
      var i :| 0 <= i < |m.live| && m.live[i] == b;
      assert live[i] == b;
    }
  }

  lemma RulesAccounted(before: seq<Behavior>, applied: seq<Behavior>, was: seq<Behavior>, live: seq<Behavior>)
    requires OnlyLimitedAdded(before, applied) && (forall b :: b in was ==> b in applied) && RulesJoined(was, live)
    ensures OnlyLimitedAdded(before, live)
  {
    forall b | b in live ensures b in before || Limited(b) {
      var j :| 0 <= j < |live| && live[j] == b;
      if j < |was| {
        assert was[j] == b;
      }
    }
  }

  lemma AccountedFor(was: seq<Behavior>, ran: seq<Behavior>, live: seq<Behavior>, goals: seq<Goal>, words: set<string>)
    requires OnlyLimitedAdded(was, ran) && OnlyGoalsAdded(ran, live, goals, words)
    ensures Accounted(was, live, goals, words)
  {
  }

  lemma UpheldKeeps(v: Vocabulary, prefix: string, words: set<string>, goals: seq<Goal>, before: Moment, after: Moment)
    requires Upheld(v, prefix, words, goals, before, after) && ProperGoals(goals) && Tidy(before)
    ensures Clean(after.live, goals, words) && Tidy(after)
    ensures OnlyGoalsAdded(before.live, after.live, goals, words)
  {
    var enforced := Enforced(before, words, goals);
    EnforcedIsClean(before, words, goals);
    SustainedIsClean(enforced.live, after.live, goals, words);
    NarrowedIsTidy(before, NotAmong(Cascade(words, goals) * LiveNames(before.live)));
    TidyGrows(enforced, after.live, after.minted);
  }

  /** Whatever enforcement leaves alone is still live. */
  ghost predicate Spared(was: seq<Behavior>, live: seq<Behavior>, goals: seq<Goal>, words: set<string>) {
    forall b :: b in was && Untouched(was, goals, words, b) ==> b in live
  }

  /** Eviction under this name does not touch it. */
  predicate Escapes(b: Behavior, name: string) {
    name == "" || (name != b.name && name != b.id)
  }

  lemma {:induction false} WithoutNamesExactly(m: Moment, names: seq<string>, b: Behavior)
    ensures b in WithoutNames(m, names).live <==> b in m.live && forall n :: n in names ==> Escapes(b, n)
  {
    if names != [] {
      var front, last := names[..|names| - 1], names[|names| - 1];
      assert names == front + [last];
      WithoutNamesExactly(m, front, b);
      WithoutNameExactly(WithoutNames(m, front).live, last);
      assert WithoutNames(m, names).live == WithoutName(WithoutNames(m, front).live, last);
      assert b in WithoutNames(m, names).live <==> b in WithoutNames(m, front).live && Escapes(b, last);
      assert (forall n :: n in names ==> Escapes(b, n)) <==>
             (forall n :: n in front ==> Escapes(b, n)) && Escapes(b, last);
    }
  }

  lemma UpheldSpares(v: Vocabulary, prefix: string, words: set<string>, goals: seq<Goal>, before: Moment,
                     after: Moment)
    requires Upheld(v, prefix, words, goals, before, after)
    ensures Spared(before.live, after.live, goals, words)
  {
    var enforced := Enforced(before, words, goals).live;
    EnforcesExactly(before.live, goals, words);
    forall b | b in enforced ensures b in after.live {
      var i :| 0 <= i < |enforced| && enforced[i] == b;
      assert after.live[i] == b;
    }
  }

  /** The first `n` react rules have had their turns, which led from `before` to `here`. */
  ghost predicate ReactRun(v: Vocabulary, prefix: string, words: set<string>, rules: seq<Rule>, n: nat, sight: Sight,
                           before: Scene, ticks: seq<Input>, scenes: seq<Scene>, here: Scene) {
    && n <= |rules| && ReactTurns(v, prefix, words, rules[..n], sight, ticks, scenes)
    && scenes[0] == before && scenes[n] == here
    && Tidy(here.at) && RulesJoined(before.at.live, here.at.live)
  }

  lemma ReactRunNext(v: Vocabulary, prefix: string, words: set<string>, rules: seq<Rule>, n: nat, sight: Sight,
                     before: Scene, ticks: seq<Input>, scenes: seq<Scene>, here: Scene, tick: Input, after: Scene)
    requires n < |rules| && ReactRun(v, prefix, words, rules, n, sight, before, ticks, scenes, here)
    requires ReactStep(v, prefix, words, rules[n], sight, tick, here, after) && Finite(RuleRequest(v, rules[n]))
    ensures ReactRun(v, prefix, words, rules, n + 1, sight, before, ticks + [tick], scenes + [after], after)
    ensures LiveNames(after.at.live) ==
              LiveNames(here.at.live) +
              if Ticked(rules[n], here.cores[rules[n].id], tick).1.Shot? then {rules[n].run} else {}
  {
    ReactTurnKeeps(v, prefix, words, rules[n], here.cores[rules[n].id], tick, before.at.live, here.at, after.at);
    ReactTurnsNext(v, prefix, words, rules, n, sight, ticks, scenes, tick, after);
  }

  /** Enforces the inhibitions and sustains the goals. */
  method UpholdGoals(engine: Engine, registry: Registry, prefix: string, byRules: set<string>, clock: real,
                     ghost before: Moment)
    returns (ghost after: Moment)
    requires engine.Valid() && registry.Valid()
    requires before.live == engine.Live() && before.minted == registry.seq_ && Tidy(before)
    modifies engine`active, engine`count, engine`seq_, engine`roll, engine.active, registry`seq_
    ensures engine.Valid() && registry.Valid() && (engine.active == old(engine.active) || fresh(engine.active))
    ensures old(engine.roll) <= engine.roll
    ensures after.live == engine.Live() && after.minted == registry.seq_ && Tidy(after)
    ensures Upheld(engine.voc, prefix, registry.inhibited + byRules, registry.Standing(), before, after)
    ensures Clean(engine.Live(), registry.Standing(), registry.inhibited + byRules)
    ensures OnlyGoalsAdded(before.live, engine.Live(), registry.Standing(), registry.inhibited + byRules)
  {
    ghost var words, goals := registry.inhibited + byRules, registry.Standing();
    ghost var enforced := Enforced(before, words, goals);
    Enforce(engine, registry, byRules);
    assert engine.Live() == enforced.live;
    Sustain(engine, registry, prefix, byRules, clock);
    after := Moment(engine.Live(), registry.seq_, enforced.ours);
    UpheldKeeps(engine.voc, prefix, words, goals, before, after);
  }

  /** Everything the states are made of is among the cells. */
  ghost predicate KeptIn(states: map<string, RuleState>, cells: set<object>) {
    forall id :: id in states ==> states[id] in cells && states[id].streak in cells
  }

  ghost predicate NothingShared(states: map<string, RuleState>) {
    forall a, b :: a in states && b in states && a != b ==>
      states[a] != states[b] && states[a].streak != states[b].streak
  }

  ghost function ValuesOf(states: map<string, RuleState>, cells: set<object>): (r: map<string, Core>)
    requires KeptIn(states, cells)
    reads cells
    ensures r.Keys == states.Keys && forall id :: id in states ==> r[id] == states[id].Value()
  {
    map id | id in states :: states[id].Value()
  }

  lemma OneChanged(was: map<string, Core>, now: map<string, Core>, id: string)
    requires id in was && now.Keys == was.Keys && forall other :: other in was && other != id ==>
               now[other] == was[other]
    ensures now == was[id := now[id]]
  {
  }

  class Evaluator {
    const react: seq<Rule>
    const inhibit: seq<Rule>
    const states: map<string, RuleState>
    const registry: Registry
    const engine: Engine
    const prefix: string
    ghost const cells: set<object> // what the states are made of

    /** One state per rule, and no sharing; a react rule never asks for an endless admission. */
    ghost predicate Wired() {
      && DistinctRules(react + inhibit)
      && (forall i :: 0 <= i < |react| ==> react[i].id in states && Finite(RuleRequest(engine.voc, react[i])))
      && (forall i :: 0 <= i < |inhibit| ==> inhibit[i].id in states)
      && NothingShared(states)
      && KeptIn(states, cells) && engine !in cells && registry !in cells
    }

    /** Two rules share no cell. */
    lemma Apart(id: string)
      requires Wired() && id in states
      ensures forall other :: other in states && other != id ==>
                && states[other] != states[id] && states[other].streak != states[id].streak
                && states[other] in cells && states[other].streak in cells
    {
    }

    /** If every other state is as it was, the values are those of before with this rule's renewed. */
    lemma OneRenewed(was: map<string, Core>, id: string)
      requires Wired() && id in states && was.Keys == states.Keys
      requires forall other :: other in states && other != id ==> states[other].Value() == was[other]
      ensures Values() == was[id := states[id].Value()]
    {
      OneChanged(was, Values(), id);
    }

    constructor (react: seq<Rule>, inhibit: seq<Rule>, states: map<string, RuleState>, registry: Registry,
                 engine: Engine, prefix: string, ghost cells: set<object>)
      ensures this.react == react && this.inhibit == inhibit && this.states == states
      ensures this.registry == registry && this.engine == engine && this.prefix == prefix && this.cells == cells
    {
      this.react, this.inhibit, this.states := react, inhibit, states;
      this.registry, this.engine, this.prefix := registry, engine, prefix;
      this.cells := cells;
    }

    ghost function Values(): map<string, Core>
      requires Wired()
      reads cells
    {
      ValuesOf(states, cells)
    }

    ghost predicate Valid()
      reads registry, engine, engine.active
    {
      Wired() && registry.Valid() && engine.Valid() && engine.active !in cells
    }

    /** Where the rules and the engine stand. */
    ghost function Now(ours: set<Behavior>): Scene
      requires Wired() && engine.count <= engine.active.Length
      reads cells, registry`seq_, engine, engine.active
    {
      Scene(Values(), Moment(engine.Live(), registry.seq_, ours))
    }

    method ReactOne(rule: Rule, sight: Sight, byRules: set<string>, active: set<string>, ghost before: Scene)
      returns (fired: bool, ghost tick: Input, ghost after: Scene)
      requires Valid() && rule.id in states && active == LiveNames(engine.Live()) && before == Now(before.at.ours)
      modifies states[rule.id], states[rule.id].streak
      modifies engine`active, engine`count, engine`seq_, engine`roll, engine.active, registry`seq_
      ensures Valid() && (engine.active == old(engine.active) || fresh(engine.active))
      ensures old(engine.roll) <= engine.roll
      ensures ReactStep(engine.voc, prefix, registry.inhibited + byRules, rule, sight, tick, before, after)
      ensures after == Now(after.at.ours)
      ensures fired <==> Ticked(rule, before.cores[rule.id], tick).1.Shot?
    {
      ghost var at;
      fired, tick, at := ReactAt(rule, sight, byRules, active, before);
      OneRenewed(before.cores, rule.id);
      after := Scene(Values(), at);
    }

    /** The rule's own turn, which leaves every other rule's state as it was. */
    method ReactAt(rule: Rule, sight: Sight, byRules: set<string>, active: set<string>, ghost before: Scene)
      returns (fired: bool, ghost tick: Input, ghost at: Moment)
      requires Valid() && rule.id in states && active == LiveNames(engine.Live()) && before == Now(before.at.ours)
      modifies states[rule.id], states[rule.id].streak
      modifies engine`active, engine`count, engine`seq_, engine`roll, engine.active, registry`seq_
      ensures Valid() && (engine.active == old(engine.active) || fresh(engine.active))
      ensures old(engine.roll) <= engine.roll
      ensures at.live == engine.Live() && at.minted == registry.seq_
      ensures tick.now == sight.now && tick.matched == (rule.id in sight.matched)
      ensures ReactTurn(engine.voc, prefix, registry.inhibited + byRules, rule, before.cores[rule.id], tick, before.at,
                        at)
      ensures states[rule.id].Value() == Ticked(rule, before.cores[rule.id], tick).0
      ensures fired <==> Ticked(rule, before.cores[rule.id], tick).1.Shot?
      ensures forall id :: id in states && id != rule.id ==> states[id].Value() == before.cores[id]
    {
      Apart(rule.id);
      fired, tick, at := FireReact(states[rule.id], engine, registry, prefix, rule, rule.id in sight.matched, sight.now,
                                   sight.clock, byRules, active, before.at);
    }

    method ReactNth(n: nat, sight: Sight, byRules: set<string>, active: set<string>, ghost before: Scene,
                    ghost ticks: seq<Input>, ghost scenes: seq<Scene>, ghost here: Scene)
      returns (fired: bool, ghost tick: Input, ghost after: Scene)
      requires Valid() && n < |react| && active == LiveNames(engine.Live()) && here == Now(here.at.ours)
      requires ReactRun(engine.voc, prefix, registry.inhibited + byRules, react, n, sight, before, ticks, scenes, here)
      modifies cells, engine`active, engine`count, engine`seq_, engine`roll, engine.active, registry`seq_
      ensures Valid() && (engine.active == old(engine.active) || fresh(engine.active))
      ensures old(engine.roll) <= engine.roll
      ensures after == Now(after.at.ours)
      ensures ReactRun(engine.voc, prefix, registry.inhibited + byRules, react, n + 1, sight, before,
                       ticks + [tick], scenes + [after], after)
      ensures LiveNames(engine.Live()) == active + if fired then {react[n].run} else {}
    {
      fired, tick, after := ReactOne(react[n], sight, byRules, active, here);
      ReactRunNext(engine.voc, prefix, registry.inhibited + byRules, react, n, sight, before, ticks, scenes, here, tick,
                   after);
    }

    /** The names live before the rules ran are kept in `active`, which follows every admission. */
    method RunReact(sight: Sight, byRules: set<string>, ghost before: Scene)
      returns (ghost ticks: seq<Input>, ghost scenes: seq<Scene>, ghost here: Scene)
      requires Valid() && before == Now(before.at.ours) && Tidy(before.at)
      modifies cells, engine`active, engine`count, engine`seq_, engine`roll, engine.active, registry`seq_
      ensures Valid() && (engine.active == old(engine.active) || fresh(engine.active))
      ensures old(engine.roll) <= engine.roll
      ensures here == Now(here.at.ours)
      ensures ReactRun(engine.voc, prefix, registry.inhibited + byRules, react, |react|, sight, before, ticks, scenes,
                       here)
    {
      ticks, scenes, here := [], [before], before;
      var active := LiveNames(engine.active[..engine.count]);
      for i := 0 to |react|
        invariant Valid() && (engine.active == old(engine.active) || fresh(engine.active))
        invariant old(engine.roll) <= engine.roll
        invariant here == Now(here.at.ours) && active == LiveNames(engine.Live())
        invariant ReactRun(engine.voc, prefix, registry.inhibited + byRules, react, i, sight, before, ticks, scenes,
                           here)
      {
        ghost var tick, after := *, *;
        var fired;
        fired, tick, after := ReactNth(i, sight, byRules, active, before, ticks, scenes, here);
        ticks, scenes, here := ticks + [tick], scenes + [after], after;
        if fired {
          active := active + {react[i].run};
        }
      }
    }

    method InhibitOne(rule: Rule, sight: Sight, ghost before: Scene) returns (ghost tick: Input, ghost after: Scene)
      requires Valid() && rule.id in states && before == Now(before.at.ours) && Tidy(before.at)
      modifies states[rule.id], states[rule.id].streak, engine`count, engine.active
      ensures Valid() && engine.active == old(engine.active)
      ensures InhibitStep(rule, sight, tick, before, after)
      ensures after == Now(after.at.ours)
    {
      ghost var at;
      tick, at := InhibitAt(rule, sight, before);
      OneRenewed(before.cores, rule.id);
      after := Scene(Values(), at);
    }

    /** The rule's own turn, which leaves every other rule's state as it was. */
    method InhibitAt(rule: Rule, sight: Sight, ghost before: Scene) returns (ghost tick: Input, ghost at: Moment)
      requires Valid() && rule.id in states && before == Now(before.at.ours)
      modifies states[rule.id], states[rule.id].streak, engine`count, engine.active
      ensures Valid() && engine.active == old(engine.active)
      ensures at.live == engine.Live() && at.minted == before.at.minted
      ensures tick.now == sight.now && tick.matched == (rule.id in sight.matched)
      ensures InhibitTurn(rule, before.cores[rule.id], tick, before.at, at)
      ensures states[rule.id].Value() == Ticked(rule, before.cores[rule.id], tick).0
      ensures forall id :: id in states && id != rule.id ==> states[id].Value() == before.cores[id]
    {
      Apart(rule.id);
      tick, at := FireInhibit(states[rule.id], engine, rule, rule.id in sight.matched, sight.now, before.at);
    }

    method RunInhibit(sight: Sight, ghost before: Scene) returns (ghost ticks: seq<Input>, ghost scenes: seq<Scene>)
      requires Valid() && before == Now(before.at.ours) && Tidy(before.at)
      modifies cells, engine`count, engine.active
      ensures Valid() && engine.active == old(engine.active)
      ensures InhibitTurns(inhibit, sight, ticks, scenes)
      ensures scenes[0] == before && scenes[|inhibit|] == Now(scenes[|inhibit|].at.ours)
      ensures Tidy(scenes[|inhibit|].at) && (forall b :: b in engine.Live() ==> b in before.at.live)
    {
      ticks, scenes := [], [before];
      for i := 0 to |inhibit|
        invariant Valid() && engine.active == old(engine.active)
        invariant InhibitTurns(inhibit[..i], sight, ticks, scenes)
        invariant scenes[0] == before && scenes[i] == Now(scenes[i].at.ours)
        invariant Tidy(scenes[i].at) && (forall b :: b in engine.Live() ==> b in before.at.live)
      {
        ghost var mid, tick, after := scenes[i], *, *;
        tick, after := InhibitOne(inhibit[i], sight, mid);
        WithoutNamesIsTidy(mid.at, inhibit[i].disable);
        InhibitTurnsNext(inhibit, i, sight, ticks, scenes, tick, after);
        ticks, scenes := ticks + [tick], scenes + [after];
      }
      assert inhibit[..|inhibit|] == inhibit;
    }

    /** The words blocked by the inhibit rules that match this tick, whatever their cooldown. */
    method CurrentInhibited(matched: set<string>) returns (blocked: set<string>)
      ensures blocked == DisabledBy(inhibit, matched)
    {
      blocked := {};
      for i := 0 to |inhibit|
        invariant blocked == DisabledBy(inhibit[..i], matched)
      {
        assert inhibit[..i + 1][..i] == inhibit[..i];
        if inhibit[i].id in matched {
          blocked := blocked + set w | w in inhibit[i].disable;
        }
      }
      assert inhibit[..|inhibit|] == inhibit;
    }

    method DrainQueue(sight: Sight, byRules: set<string>, ghost before: Moment) returns (ghost after: Moment)
      requires Valid() && before.live == engine.Live() && before.minted == registry.seq_ && Tidy(before)
      modifies engine`active, engine`count, engine`seq_, engine`roll, engine.active, registry`seq_, registry`queue
      ensures Valid() && (engine.active == old(engine.active) || fresh(engine.active))
      ensures old(engine.roll) <= engine.roll
      ensures unchanged(cells)
      ensures registry.queue == []
      ensures after.live == engine.Live() && after.minted == registry.seq_ && Tidy(after)
      ensures PendingRun(engine.voc, prefix, registry.inhibited + byRules, before, old(registry.queue), after)
      ensures OnlyLimitedAdded(before.live, after.live)
    {
      after := Apply(engine, registry, prefix, byRules, sight.clock, before);
    }

    /** The first half of a tick: the queue, the inhibit rules, the react rules. */
    method RunRules(sight: Sight, byRules: set<string>, ghost before: Scene)
      returns (ghost story: Story, ghost after: Scene)
      requires Valid() && before == Now(before.at.ours) && Tidy(before.at)
      modifies cells, engine`active, engine`count, engine`seq_, engine`roll, engine.active, registry`seq_,
               registry`queue
      ensures Valid() && (engine.active == old(engine.active) || fresh(engine.active))
      ensures old(engine.roll) <= engine.roll
      ensures registry.queue == [] && after == Now(after.at.ours) && Tidy(after.at)
      ensures RulesRan(engine.voc, prefix, registry.inhibited + byRules, inhibit, react, sight, old(registry.queue),
                       before, story, after)
      ensures OnlyLimitedAdded(before.at.live, after.at.live)
    {
      ghost var applied := DrainQueue(sight, byRules, before.at);
      ghost var inhibitTicks, inhibitScenes := RunInhibit(sight, Scene(before.cores, applied));
      ghost var was := engine.Live();
      ghost var reactTicks, reactScenes;
      reactTicks, reactScenes, after := RunReact(sight, byRules, inhibitScenes[|inhibit|]);
      assert react[..|react|] == react;
      story := Story(applied, inhibitTicks, inhibitScenes, reactTicks, reactScenes);
      RulesAccounted(before.at.live, applied.live, was, after.at.live);
    }

    /** The second half: enforce the inhibitions, sustain the goals. */
    method Uphold(sight: Sight, byRules: set<string>, ghost before: Moment) returns (ghost after: Moment)
      requires Valid() && before.live == engine.Live() && before.minted == registry.seq_ && Tidy(before)
      modifies engine`active, engine`count, engine`seq_, engine`roll, engine.active, registry`seq_
      ensures Valid() && (engine.active == old(engine.active) || fresh(engine.active))
      ensures old(engine.roll) <= engine.roll
      ensures unchanged(cells)
      ensures after.live == engine.Live() && after.minted == registry.seq_ && Tidy(after)
      ensures Upheld(engine.voc, prefix, registry.inhibited + byRules, registry.Standing(), before, after)
      ensures Clean(engine.Live(), registry.Standing(), registry.inhibited + byRules)
      ensures OnlyGoalsAdded(before.live, engine.Live(), registry.Standing(), registry.inhibited + byRules)
    {
      after := UpholdGoals(engine, registry, prefix, byRules, sight.clock, before);
    }

    /** A tick under the words that rules block. */
    method TickUnder(sight: Sight, byRules: set<string>, ghost before: Scene)
      returns (ghost story: Story, ghost ran: Scene, ghost after: Moment)
      requires Valid() && before == Now(before.at.ours) && Tidy(before.at)
      modifies cells, engine`active, engine`count, engine`seq_, engine`roll, engine.active, registry`seq_,
               registry`queue
      ensures Valid() && (engine.active == old(engine.active) || fresh(engine.active))
      ensures old(engine.roll) <= engine.roll
      ensures registry.queue == []
      ensures Scene(ran.cores, after) == Now(after.ours) && Tidy(after)
      ensures RulesRan(engine.voc, prefix, registry.inhibited + byRules, inhibit, react, sight, old(registry.queue),
                       before, story, ran)
      ensures Upheld(engine.voc, prefix, registry.inhibited + byRules, registry.Standing(), ran.at, after)
      ensures Clean(engine.Live(), registry.Standing(), registry.inhibited + byRules)
      ensures OnlyLimitedAdded(before.at.live, ran.at.live)
      ensures OnlyGoalsAdded(ran.at.live, engine.Live(), registry.Standing(), registry.inhibited + byRules)
    {
      story, ran := RunRules(sight, byRules, before);
      after := Uphold(sight, byRules, ran.at);
    }

    /** Queue, inhibit rules, react rules, enforcement, standing goals: one tick, and where it leaves the engine. */
    method Tick(sight: Sight, ghost before: Scene) returns (ghost story: Story, ghost ran: Scene, ghost after: Moment)
      requires Valid() && before == Now(before.at.ours) && Tidy(before.at)
      modifies cells, engine`active, engine`count, engine`seq_, engine`roll, engine.active, registry`seq_,
               registry`queue
      ensures Valid() && (engine.active == old(engine.active) || fresh(engine.active))
      ensures old(engine.roll) <= engine.roll
      ensures registry.queue == []
      ensures Scene(ran.cores, after) == Now(after.ours) && Tidy(after)
      ensures RulesRan(engine.voc, prefix, Banned(sight.matched), inhibit, react, sight, old(registry.queue), before,
                       story, ran)
      ensures Upheld(engine.voc, prefix, Banned(sight.matched), registry.Standing(), ran.at, after)
      ensures Clean(engine.Live(), registry.Standing(), Banned(sight.matched))
      ensures Accounted(old(engine.Live()), engine.Live(), registry.Standing(), Banned(sight.matched))
      ensures Spared(ran.at.live, engine.Live(), registry.Standing(), Banned(sight.matched))
    {
      var byRules := CurrentInhibited(sight.matched);
      story, ran, after := TickUnder(sight, byRules, before);
      UpheldSpares(engine.voc, prefix, registry.inhibited + byRules, registry.Standing(), ran.at, after);
      AccountedFor(before.at.live, ran.at.live, after.live, registry.Standing(), registry.inhibited + byRules);
    }

    /** The words blocked on a tick on which these rules match. */
    function Banned(matched: set<string>): set<string>
      reads registry`inhibited
    {
      registry.inhibited + DisabledBy(inhibit, matched)
    }
  }

  /** The looping rule without a bound that makes a rules config unusable. */
  predicate Endless(v: Vocabulary, rule: Rule) {
    ActionLoops(v, rule.run) && rule.durationS.None?
  }

  /** What some states are made of. */
  ghost function CellsOf(states: map<string, RuleState>): (r: set<object>)
    ensures KeptIn(states, r)
    ensures forall o :: o in r ==> exists id :: id in states && (o == states[id] || o == states[id].streak)
  {
    (set id | id in states :: states[id]) + (set id | id in states :: states[id].streak)
  }

  /** One new state per rule, in its initial value. */
  method NewStates(rules: seq<Rule>) returns (states: map<string, RuleState>)
    ensures forall id :: id in states <==> exists i :: 0 <= i < |rules| && rules[i].id == id
    ensures forall id :: id in states ==> fresh(states[id]) && fresh(states[id].streak) && states[id].Value() == INITIAL
    ensures NothingShared(states) && fresh(CellsOf(states))
  {
    states := map[];
    for i := 0 to |rules|
      invariant forall id :: id in states <==> exists j :: 0 <= j < i && rules[j].id == id
      invariant forall id :: id in states ==>
                  fresh(states[id]) && fresh(states[id].streak) && states[id].Value() == INITIAL
      invariant NothingShared(states)
    {
      var state := new RuleState();
      states := states[rules[i].id := state];
    }
  }

  method AnyEndless(v: Vocabulary, rules: seq<Rule>) returns (r: bool)
    ensures r <==> exists i :: 0 <= i < |rules| && Endless(v, rules[i])
    ensures !r ==> forall i :: 0 <= i < |rules| ==> Finite(RuleRequest(v, rules[i]))
  {
    for i := 0 to |rules|
      invariant forall j :: 0 <= j < i ==> !Endless(v, rules[j])
    {
      if Endless(v, rules[i]) {
        return true;
      }
    }
    return false;
  }

  lemma AllHaveStates(react: seq<Rule>, inhibit: seq<Rule>, ids: set<string>)
    requires forall id :: id in ids <==> exists i :: 0 <= i < |react + inhibit| && (react + inhibit)[i].id == id
    ensures forall i :: 0 <= i < |react| ==> react[i].id in ids
    ensures forall i :: 0 <= i < |inhibit| ==> inhibit[i].id in ids
  {
    var rules: seq<Rule> := react + inhibit;
    assert forall i :: 0 <= i < |react| ==> rules[i] == react[i];
    assert forall i :: 0 <= i < |inhibit| ==> rules[|react| + i] == inhibit[i];
  }

  /** The action a name stands for: the first declared under it. */
  ghost predicate RunsAs(v: Vocabulary, name: string, a: Action) {
    exists i :: 0 <= i < |v.actions| && v.actions[i] == a && a.name == name && IsFirst(v, name, i)
  }

  ghost predicate IsFirst(v: Vocabulary, name: string, i: nat)
    requires i <= |v.actions|
  {
    forall j :: 0 <= j < i ==> v.actions[j].name != name
  }

  lemma {:induction false} FindsFirst(v: Vocabulary, name: string, from: nat)
    requires from <= |v.actions| && IsFirst(v, name, from)
    ensures FindAction(v, name, from).Some? ==> RunsAs(v, name, FindAction(v, name, from).value)
    decreases |v.actions| - from
  {
    if from < |v.actions| {
      if v.actions[from].name != name {
        assert IsFirst(v, name, from + 1);
        FindsFirst(v, name, from + 1);
      }
    }
  }

  lemma EndlessExactly(v: Vocabulary, react: seq<Rule>)
    ensures (exists i :: 0 <= i < |react| && Endless(v, react[i])) <==>
            exists i, a :: 0 <= i < |react| && react[i].durationS.None? && RunsAs(v, react[i].run, a) && a.loops
  {
    forall i | 0 <= i < |react|
      ensures Endless(v, react[i]) <==> react[i].durationS.None? && exists a :: RunsAs(v, react[i].run, a) && a.loops
    {
      LoopsExactly(v, react[i].run);
    }
    if exists i :: 0 <= i < |react| && Endless(v, react[i]) {
      var i :| 0 <= i < |react| && Endless(v, react[i]);
      var a :| RunsAs(v, react[i].run, a) && a.loops;
    }
    if exists i, a :: 0 <= i < |react| && react[i].durationS.None? && RunsAs(v, react[i].run, a) && a.loops {
      var i, a :| 0 <= i < |react| && react[i].durationS.None? && RunsAs(v, react[i].run, a) && a.loops;
      assert Endless(v, react[i]);
    }
  }

  lemma LoopsExactly(v: Vocabulary, name: string)
    ensures ActionLoops(v, name) <==> exists a :: RunsAs(v, name, a) && a.loops
  {
    assert IsFirst(v, name, 0);
    FindsFirst(v, name, 0);
    forall a | RunsAs(v, name, a) ensures FindAction(v, name) == Some(a) {
      var i :| 0 <= i < |v.actions| && v.actions[i] == a && a.name == name && IsFirst(v, name, i);
      var b := FindAction(v, name).value;
      var j :| 0 <= j < |v.actions| && v.actions[j] == b && b.name == name && IsFirst(v, name, j);
      assert i == j;
    }
  }

  /** Builds an evaluator, or refuses a react rule whose admission could never end. */
  method New(react: seq<Rule>, inhibit: seq<Rule>, registry: Registry, engine: Engine, prefix: string)
    returns (r: Option<Evaluator>)
    requires registry.Valid() && engine.Valid() && DistinctRules(react + inhibit)
    ensures r.None? <==> exists i :: 0 <= i < |react| && Endless(engine.voc, react[i])
    ensures r.None? <==>
            exists i, a :: 0 <= i < |react| && react[i].durationS.None? && RunsAs(engine.voc, react[i].run, a)
              && a.loops
    ensures r.Some? ==>
              && fresh(r.value) && r.value.Valid()
              && r.value.react == react && r.value.inhibit == inhibit
              && r.value.registry == registry && r.value.engine == engine && r.value.prefix == prefix
              && fresh(r.value.cells)
              && forall id :: id in r.value.states ==>
                   && fresh(r.value.states[id]) && fresh(r.value.states[id].streak)
                      && r.value.states[id].Value() == INITIAL
  {
    EndlessExactly(engine.voc, react);
    var endless := AnyEndless(engine.voc, react);
    if endless {
      return None;
    }
    var states := NewStates(react + inhibit);
    var e := Assemble(react, inhibit, states, registry, engine, prefix);
    return Some(e);
  }

  method Assemble(react: seq<Rule>, inhibit: seq<Rule>, states: map<string, RuleState>, registry: Registry,
                  engine: Engine, prefix: string)
    returns (e: Evaluator)
    requires DistinctRules(react + inhibit) && forall i :: 0 <= i < |react| ==>
               Finite(RuleRequest(engine.voc, react[i]))
    requires forall id :: id in states <==> exists i :: 0 <= i < |react + inhibit| && (react + inhibit)[i].id == id
    requires NothingShared(states) && engine !in CellsOf(states) && registry !in CellsOf(states)
    ensures fresh(e) && e.Wired() && e.cells == CellsOf(states) && e.states == states
    ensures e.react == react && e.inhibit == inhibit && e.registry == registry && e.engine == engine
              && e.prefix == prefix
  {
    AllHaveStates(react, inhibit, states.Keys);
    e := new Evaluator(react, inhibit, states, registry, engine, prefix, CellsOf(states));
  }
}
