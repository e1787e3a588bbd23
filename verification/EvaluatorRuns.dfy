/** The evaluator over many ticks: every rule's state is what its own history says, whatever else goes on around it. */
module EvaluatorRuns {
  import opened Common
  import opened RuleTypes
  import opened RuleStates
  import opened RuleHistory
  import opened SuppressionLedger
  import opened Behaviors
  import opened Arbitration
  import opened TickEngine
  import opened Registries
  import opened Admissions
  import opened Evaluators

  // ---- a rule has one turn per tick ------------------------------------------------------------------------

  /** A turn of either kind, seen from the states of the rules. */
  ghost predicate Turn(rule: Rule, tick: Input, before: Scene, after: Scene) {
    && rule.id in before.cores
    && after.cores == before.cores[rule.id := Ticked(rule, before.cores[rule.id], tick).0]
  }

  ghost predicate Turns(rules: seq<Rule>, ticks: seq<Input>, scenes: seq<Scene>) {
    && |ticks| == |rules| && |scenes| == |rules| + 1
    && forall i :: 0 <= i < |rules| ==> Turn(rules[i], ticks[i], scenes[i], scenes[i + 1])
  }

  /** What a rule is told on a tick. */
  ghost predicate Tells(sight: Sight, rule: Rule, tick: Input) {
    tick.now == sight.now && tick.matched == (rule.id in sight.matched)
  }

  /** A state nobody's turn touches stays as it was. */
  lemma {:induction false} Untouched(rules: seq<Rule>, ticks: seq<Input>, scenes: seq<Scene>, id: string, m: nat,
                                     n: nat)
    requires Turns(rules, ticks, scenes) && m <= n <= |rules| && id in scenes[m].cores
    requires forall i :: m <= i < n ==> rules[i].id != id
    ensures id in scenes[n].cores && scenes[n].cores[id] == scenes[m].cores[id]
    decreases n - m
  {
    if m < n {
      Untouched(rules, ticks, scenes, id, m, n - 1);
      assert Turn(rules[n - 1], ticks[n - 1], scenes[n - 1], scenes[n]);
    }
  }

  /** With distinct ids, each rule's state is stepped exactly once. */
  lemma OneTurnEach(rules: seq<Rule>, ticks: seq<Input>, scenes: seq<Scene>, k: nat)
    requires Turns(rules, ticks, scenes) && DistinctRules(rules) && k < |rules| && rules[k].id in scenes[0].cores
    ensures rules[k].id in scenes[|rules|].cores
    ensures scenes[|rules|].cores[rules[k].id] == Ticked(rules[k], scenes[0].cores[rules[k].id], ticks[k]).0
  {
    Untouched(rules, ticks, scenes, rules[k].id, 0, k);
    assert Turn(rules[k], ticks[k], scenes[k], scenes[k + 1]);
    Untouched(rules, ticks, scenes, rules[k].id, k + 1, |rules|);
  }

  // ---- a run of ticks --------------------------------------------------------------------------------------

  /** One tick of a run: the queue and the rules, from `before` to `after`, and then the goals, up to `upheld`. */
  datatype Ticking = Ticking(words: set<string>, sight: Sight, queue: seq<Pending>, before: Scene, story: Story,
                             after: Scene, goals: seq<Goal>, upheld: Moment)

  /** Ticks of one evaluator, in order; between them the engine may change in any way, the rules' states in none. */
  ghost predicate Ticks(v: Vocabulary, prefix: string, inhibit: seq<Rule>, react: seq<Rule>, run: seq<Ticking>) {
    && DistinctRules(react + inhibit)
    && (forall k :: 0 <= k < |run| ==>
          RulesRan(v, prefix, run[k].words, inhibit, react, run[k].sight, run[k].queue, run[k].before, run[k].story,
                   run[k].after))
    && (forall k :: 0 < k < |run| ==> run[k].before.cores == run[k - 1].after.cores)
  }

  lemma StepsAreTurns(v: Vocabulary, prefix: string, inhibit: seq<Rule>, react: seq<Rule>, t: Ticking)
    requires RulesRan(v, prefix, t.words, inhibit, react, t.sight, t.queue, t.before, t.story, t.after)
    ensures Turns(inhibit, t.story.inhibitTicks, t.story.inhibitScenes)
    ensures Turns(react, t.story.reactTicks, t.story.reactScenes)
    ensures forall i :: 0 <= i < |inhibit| ==> Tells(t.sight, inhibit[i], t.story.inhibitTicks[i])
    ensures forall i :: 0 <= i < |react| ==> Tells(t.sight, react[i], t.story.reactTicks[i])
  {
    var s := t.story;
    forall i | 0 <= i < |inhibit|
      ensures Turn(inhibit[i], s.inhibitTicks[i], s.inhibitScenes[i], s.inhibitScenes[i + 1])
      ensures Tells(t.sight, inhibit[i], s.inhibitTicks[i])
    {
      assert InhibitStep(inhibit[i], t.sight, s.inhibitTicks[i], s.inhibitScenes[i], s.inhibitScenes[i + 1]);
    }
    forall i | 0 <= i < |react|
      ensures Turn(react[i], s.reactTicks[i], s.reactScenes[i], s.reactScenes[i + 1])
      ensures Tells(t.sight, react[i], s.reactTicks[i])
    {
      assert ReactStep(v, prefix, t.words, react[i], t.sight, s.reactTicks[i], s.reactScenes[i], s.reactScenes[i + 1]);
    }
  }

  lemma InhibitRulesTurn(v: Vocabulary, prefix: string, inhibit: seq<Rule>, react: seq<Rule>, t: Ticking, k: nat)
    requires DistinctRules(react + inhibit) && k < |inhibit| && inhibit[k].id in t.before.cores
    requires RulesRan(v, prefix, t.words, inhibit, react, t.sight, t.queue, t.before, t.story, t.after)
    ensures var tick := t.story.inhibitTicks[k];
            && Tells(t.sight, inhibit[k], tick)
            && inhibit[k].id in t.after.cores
            && t.after.cores[inhibit[k].id] == Ticked(inhibit[k], t.before.cores[inhibit[k].id], tick).0
  {
    StepsAreTurns(v, prefix, inhibit, react, t);
    var all := react + inhibit;
    assert forall i :: 0 <= i < |inhibit| ==> all[|react| + i] == inhibit[i];
    assert forall i :: 0 <= i < |react| ==> all[i] == react[i];
    OneTurnEach(inhibit, t.story.inhibitTicks, t.story.inhibitScenes, k);
    Untouched(react, t.story.reactTicks, t.story.reactScenes, inhibit[k].id, 0, |react|);
  }

  lemma ReactRulesTurn(v: Vocabulary, prefix: string, inhibit: seq<Rule>, react: seq<Rule>, t: Ticking, k: nat)
    requires DistinctRules(react + inhibit) && k < |react| && react[k].id in t.before.cores
    requires RulesRan(v, prefix, t.words, inhibit, react, t.sight, t.queue, t.before, t.story, t.after)
    ensures var tick := t.story.reactTicks[k];
            && Tells(t.sight, react[k], tick)
            && react[k].id in t.after.cores
            && t.after.cores[react[k].id] == Ticked(react[k], t.before.cores[react[k].id], tick).0
  {
    StepsAreTurns(v, prefix, inhibit, react, t);
    var all := react + inhibit;
    assert forall i :: 0 <= i < |inhibit| ==> all[|react| + i] == inhibit[i];
    assert forall i :: 0 <= i < |react| ==> all[i] == react[i];
    Untouched(inhibit, t.story.inhibitTicks, t.story.inhibitScenes, react[k].id, 0, |inhibit|);
    OneTurnEach(react, t.story.reactTicks, t.story.reactScenes, k);
  }

  /** Where a rule stands among its kind. */
  ghost function Position(rules: seq<Rule>, rule: Rule): (k: nat)
    requires rule in rules
    ensures k < |rules| && rules[k] == rule
  {
    var k :| 0 <= k < |rules| && rules[k] == rule;
    k
  }

  /** A tick's story has one turn for every rule. */
  ghost predicate AllHeard(inhibit: seq<Rule>, react: seq<Rule>, run: seq<Ticking>) {
    forall k :: 0 <= k < |run| ==> |run[k].story.reactTicks| == |react| && |run[k].story.inhibitTicks| == |inhibit|
  }

  /** What a rule met on its turn. */
  ghost function Met(inhibit: seq<Rule>, react: seq<Rule>, rule: Rule, t: Ticking): Input
    requires rule in react + inhibit && |t.story.reactTicks| == |react| && |t.story.inhibitTicks| == |inhibit|
  {
    if rule in react then t.story.reactTicks[Position(react, rule)] else t.story.inhibitTicks[Position(inhibit, rule)]
  }

  /** What a rule met on each tick of a run. */
  ghost function Heard(inhibit: seq<Rule>, react: seq<Rule>, rule: Rule, run: seq<Ticking>): (h: seq<Input>)
    requires rule in react + inhibit && AllHeard(inhibit, react, run)
    ensures |h| == |run| && forall k :: 0 <= k < |h| ==> h[k] == Met(inhibit, react, rule, run[k])
  {
    seq(|run|, k requires 0 <= k < |run| => Met(inhibit, react, rule, run[k]))
  }

  /** The rule fired on this tick. */
  ghost predicate FiredIn(inhibit: seq<Rule>, react: seq<Rule>, rule: Rule, t: Ticking)
    requires rule in react + inhibit && |t.story.reactTicks| == |react| && |t.story.inhibitTicks| == |inhibit|
    requires rule.id in t.before.cores
  {
    Ticked(rule, t.before.cores[rule.id], Met(inhibit, react, rule, t)).1.Shot?
  }

  lemma StoriesAreWhole(v: Vocabulary, prefix: string, inhibit: seq<Rule>, react: seq<Rule>, run: seq<Ticking>)
    requires Ticks(v, prefix, inhibit, react, run)
    ensures AllHeard(inhibit, react, run)
  {
    forall k | 0 <= k < |run| ensures |run[k].story.reactTicks| == |react| && |run[k].story.inhibitTicks| == |inhibit| {
      var t := run[k];
      assert RulesRan(v, prefix, t.words, inhibit, react, t.sight, t.queue, t.before, t.story, t.after);
    }
  }

  /** Whichever kind it is, a rule is stepped once, by what it met. */
  lemma RuleTurn(v: Vocabulary, prefix: string, inhibit: seq<Rule>, react: seq<Rule>, rule: Rule, t: Ticking)
    requires DistinctRules(react + inhibit) && rule in react + inhibit && rule.id in t.before.cores
    requires RulesRan(v, prefix, t.words, inhibit, react, t.sight, t.queue, t.before, t.story, t.after)
    ensures Tells(t.sight, rule, Met(inhibit, react, rule, t))
    ensures rule.id in t.after.cores && t.after.cores[rule.id] ==
              Ticked(rule, t.before.cores[rule.id], Met(inhibit, react, rule, t)).0
  {
    if rule in react {
      ReactRulesTurn(v, prefix, inhibit, react, t, Position(react, rule));
    } else {
      InhibitRulesTurn(v, prefix, inhibit, react, t, Position(inhibit, rule));
    }
  }

  /** A refusal always has a name. */
  lemma RefusalsAreNamed(v: Vocabulary, prefix: string, inhibit: seq<Rule>, react: seq<Rule>, rule: Rule, t: Ticking)
    requires rule in react + inhibit
    requires RulesRan(v, prefix, t.words, inhibit, react, t.sight, t.queue, t.before, t.story, t.after)
    ensures var met := Met(inhibit, react, rule, t); met.refused.Some? ==> met.refused.value != ""
  {
    var s := t.story;
    if rule in react {
      var k := Position(react, rule);
      assert ReactStep(v, prefix, t.words, react[k], t.sight, s.reactTicks[k], s.reactScenes[k], s.reactScenes[k + 1]);
    } else {
      var k := Position(inhibit, rule);
      assert InhibitStep(inhibit[k], t.sight, s.inhibitTicks[k], s.inhibitScenes[k], s.inhibitScenes[k + 1]);
    }
  }

  /** What a react rule admits: its action, under that name, for as long as the rule says. */
  predicate RunsTheRule(rule: Rule, b: Behavior) {
    && b.name == rule.run && b.action == rule.run && b.class_.Stoppable? && b.admittedAt.Some?
    && (rule.durationS.Some? ==> b.lifetime.durationS == rule.durationS)
  }

  /**
   * What an inhibit rule's turn leaves live: everything if it does not fire, and otherwise what answers to none of the
   * names it disables.
   */
  lemma InhibitEvicts(v: Vocabulary, prefix: string, inhibit: seq<Rule>, react: seq<Rule>, rule: Rule, t: Ticking,
                      b: Behavior)
    requires DistinctRules(react + inhibit) && rule in inhibit && rule !in react && rule.id in t.before.cores
    requires RulesRan(v, prefix, t.words, inhibit, react, t.sight, t.queue, t.before, t.story, t.after)
    ensures var k := Position(inhibit, rule);
            var was, live := t.story.inhibitScenes[k].at.live, t.story.inhibitScenes[k + 1].at.live;
            b in live <==> b in was && (FiredIn(inhibit, react, rule, t) ==>
                                          forall n :: n in rule.disable ==> Escapes(b, n))
  {
    var k, s := Position(inhibit, rule), t.story;
    StepsAreTurns(v, prefix, inhibit, react, t);
    var all, n := react + inhibit, |react| + k;
    assert all[n] == rule;
    forall i | 0 <= i < k ensures inhibit[i].id != rule.id {
      assert all[|react| + i] == inhibit[i] && all[|react| + i].id != all[n].id;
    }
    Untouched(inhibit, s.inhibitTicks, s.inhibitScenes, rule.id, 0, k);
    assert InhibitStep(rule, t.sight, s.inhibitTicks[k], s.inhibitScenes[k], s.inhibitScenes[k + 1]);
    WithoutNamesExactly(s.inhibitScenes[k].at, rule.disable, b);
  }

  /** A react rule fires on a tick exactly when its turn admits a behavior, and then one under its action's name. */
  lemma FiringAdmits(v: Vocabulary, prefix: string, inhibit: seq<Rule>, react: seq<Rule>, rule: Rule, t: Ticking)
    requires DistinctRules(react + inhibit) && rule in react && rule.id in t.before.cores
    requires RulesRan(v, prefix, t.words, inhibit, react, t.sight, t.queue, t.before, t.story, t.after)
    ensures var k := Position(react, rule);
            var was, live := t.story.reactScenes[k].at.live, t.story.reactScenes[k + 1].at.live;
            && (FiredIn(inhibit, react, rule, t) <==> live != was)
            && (FiredIn(inhibit, react, rule, t) ==>
                  && Joined(was, RuleRequest(v, rule), live)
                  && live == was + [live[|was|]] && RunsTheRule(rule, live[|was|]))
  {
    var k, s := Position(react, rule), t.story;
    StepsAreTurns(v, prefix, inhibit, react, t);
    ReactRulesTurn(v, prefix, inhibit, react, t, k);
    StateAtItsTurn(inhibit, react, t, k);
    assert ReactStep(v, prefix, t.words, react[k], t.sight, s.reactTicks[k], s.reactScenes[k], s.reactScenes[k + 1]);
  }

  /** A react rule comes to its turn in the state it had when the tick began. */
  lemma StateAtItsTurn(inhibit: seq<Rule>, react: seq<Rule>, t: Ticking, k: nat)
    requires DistinctRules(react + inhibit) && k < |react| && react[k].id in t.before.cores
    requires Turns(inhibit, t.story.inhibitTicks, t.story.inhibitScenes)
               && Turns(react, t.story.reactTicks, t.story.reactScenes)
    requires t.story.inhibitScenes[0].cores == t.before.cores
               && t.story.reactScenes[0] == t.story.inhibitScenes[|inhibit|]
    ensures react[k].id in t.story.reactScenes[k].cores
              && t.story.reactScenes[k].cores[react[k].id] == t.before.cores[react[k].id]
  {
    var all := react + inhibit;
    assert forall i :: 0 <= i < |inhibit| ==> all[|react| + i] == inhibit[i];
    assert forall i :: 0 <= i < |react| ==> all[i] == react[i];
    Untouched(inhibit, t.story.inhibitTicks, t.story.inhibitScenes, react[k].id, 0, |inhibit|);
    Untouched(react, t.story.reactTicks, t.story.reactScenes, react[k].id, 0, k);
  }

  /** A run of one evaluator in which a rule starts fresh. */
  ghost predicate FreshRun(v: Vocabulary, prefix: string, inhibit: seq<Rule>, react: seq<Rule>, rule: Rule,
                           run: seq<Ticking>) {
    && Ticks(v, prefix, inhibit, react, run) && AllHeard(inhibit, react, run) && rule in react + inhibit
    && (run != [] ==> rule.id in run[0].before.cores && run[0].before.cores[rule.id] == INITIAL)
  }

  /** After every tick of a run, a rule's state is the one that what it met so far makes, whatever else goes on. */
  lemma {:induction false} RuleFollowsHistory(v: Vocabulary, prefix: string, inhibit: seq<Rule>, react: seq<Rule>,
                                              rule: Rule, run: seq<Ticking>, k: nat)
    requires FreshRun(v, prefix, inhibit, react, rule, run) && k < |run|
    ensures var h := Heard(inhibit, react, rule, run);
            && rule.id in run[k].before.cores && run[k].before.cores[rule.id] == Run(rule, h[..k])
            && rule.id in run[k].after.cores && run[k].after.cores[rule.id] == Run(rule, h[..k + 1])
            && Tells(run[k].sight, rule, h[k])
  {
    var h := Heard(inhibit, react, rule, run);
    if k > 0 {
      RuleFollowsHistory(v, prefix, inhibit, react, rule, run, k - 1);
    }
    RuleTurn(v, prefix, inhibit, react, rule, run[k]);
    assert h[..k + 1][..k] == h[..k];
  }

  /** So it fires on a tick of the run exactly where that history fires. */
  lemma FiredInHistory(v: Vocabulary, prefix: string, inhibit: seq<Rule>, react: seq<Rule>, rule: Rule,
                       run: seq<Ticking>, k: nat)
    requires FreshRun(v, prefix, inhibit, react, rule, run) && k < |run| && rule.id in run[k].before.cores
    ensures FiredIn(inhibit, react, rule, run[k]) <==> History(rule, Heard(inhibit, react, rule, run))[k].outcome.Shot?
  {
    RuleFollowsHistory(v, prefix, inhibit, react, rule, run, k);
    HistoryAt(rule, Heard(inhibit, react, rule, run), k);
  }

  ghost predicate ClockForward(run: seq<Ticking>) {
    forall i, j :: 0 <= i <= j < |run| ==> run[i].sight.now <= run[j].sight.now
  }

  /** What a rule met is timed by the run's clock, and matched when the run says so. */
  lemma HeardTells(v: Vocabulary, prefix: string, inhibit: seq<Rule>, react: seq<Rule>, rule: Rule, run: seq<Ticking>)
    requires FreshRun(v, prefix, inhibit, react, rule, run)
    ensures var h := Heard(inhibit, react, rule, run);
            && (forall k :: 0 <= k < |h| ==> Tells(run[k].sight, rule, h[k]))
            && Named(h) && (ClockForward(run) ==> NonDecreasing(h))
  {
    forall k | 0 <= k < |run|
      ensures var met := Met(inhibit, react, rule, run[k]);
              Tells(run[k].sight, rule, met) && (met.refused.Some? ==> met.refused.value != "")
    {
      RuleFollowsHistory(v, prefix, inhibit, react, rule, run, k);
      RefusalsAreNamed(v, prefix, inhibit, react, rule, run[k]);
    }
  }

  /** With a clock that never goes back, the state of a rule means what its history says, after every tick of a run. */
  lemma RuleStandsForItsHistory(v: Vocabulary, prefix: string, inhibit: seq<Rule>, react: seq<Rule>, rule: Rule,
                                run: seq<Ticking>, k: nat)
    requires FreshRun(v, prefix, inhibit, react, rule, run) && ValidTimes(rule) && ClockForward(run) && k < |run|
    ensures rule.id in run[k].after.cores
    ensures Stands(rule, run[k].after.cores[rule.id].timing, History(rule, Heard(inhibit, react, rule, run)[..k + 1]))
  {
    HeardTells(v, prefix, inhibit, react, rule, run);
    RuleFollowsHistory(v, prefix, inhibit, react, rule, run, k);
    StateStandsForHistory(rule, Heard(inhibit, react, rule, run)[..k + 1]);
  }

  /** Ticks `lo` to `hi` of a run are all unmatched for the rule, and span its hysteresis. */
  ghost predicate QuietIn(rule: Rule, run: seq<Ticking>, lo: nat, hi: nat) {
    && lo <= hi < |run| && run[hi].sight.now - run[lo].sight.now >= rule.hysteresis
    && forall i :: lo <= i <= hi ==> rule.id !in run[i].sight.matched
  }

  /**
   * Two ticks of a run on which a rule fired are at least its cooldown apart, and with hysteresis an unbroken run of
   * ticks on which its predicate failed, spanning at least that long, lies strictly between them.
   */
  lemma RunFiresAreSpaced(v: Vocabulary, prefix: string, inhibit: seq<Rule>, react: seq<Rule>, rule: Rule,
                          run: seq<Ticking>, a: nat, b: nat)
    requires FreshRun(v, prefix, inhibit, react, rule, run) && ValidTimes(rule) && ClockForward(run)
    requires a < b < |run| && rule.id in run[a].before.cores && rule.id in run[b].before.cores
    requires FiredIn(inhibit, react, rule, run[a]) && FiredIn(inhibit, react, rule, run[b])
    ensures run[b].sight.now - run[a].sight.now >= rule.cooldownS
    ensures rule.hysteresis > 0.0 ==> exists lo: nat, hi: nat :: a < lo <= hi < b && QuietIn(rule, run, lo, hi)
  {
    var h := Heard(inhibit, react, rule, run);
    HeardTells(v, prefix, inhibit, react, rule, run);
    FiredInHistory(v, prefix, inhibit, react, rule, run, a);
    FiredInHistory(v, prefix, inhibit, react, rule, run, b);
    FiresAreSpaced(rule, h, a, b);
    if rule.hysteresis > 0.0 {
      QuietBetween(rule, run, h, a, b);
    }
  }

  /** A quiet run of the history is one of the run. */
  lemma QuietBetween(rule: Rule, run: seq<Ticking>, h: seq<Input>, a: nat, b: nat)
    requires |h| == |run| && forall k :: 0 <= k < |h| ==> Tells(run[k].sight, rule, h[k])
    requires exists lo: nat, hi: nat :: a < lo <= hi < b && QuietRun(History(rule, h), lo, hi, rule.hysteresis)
    ensures exists lo: nat, hi: nat :: a < lo <= hi < b && QuietIn(rule, run, lo, hi)
  {
    var lo: nat, hi: nat :| a < lo <= hi < b && QuietRun(History(rule, h), lo, hi, rule.hysteresis);
    assert QuietIn(rule, run, lo, hi);
  }

  // ---- exactly when a rule fires in a run ------------------------------------------------------------------

  /** What tick `k` of a run came to for the rule. */
  ghost function OutcomeIn(inhibit: seq<Rule>, react: seq<Rule>, rule: Rule, t: Ticking): Outcome
    requires rule in react + inhibit && |t.story.reactTicks| == |react| && |t.story.inhibitTicks| == |inhibit|
    requires rule.id in t.before.cores
  {
    Ticked(rule, t.before.cores[rule.id], Met(inhibit, react, rule, t)).1
  }

  ghost predicate FiredAt(inhibit: seq<Rule>, react: seq<Rule>, rule: Rule, run: seq<Ticking>, k: nat)
    requires rule in react + inhibit && AllHeard(inhibit, react, run) && k < |run|
  {
    rule.id in run[k].before.cores && FiredIn(inhibit, react, rule, run[k])
  }

  /** Every fire before tick `k` is at least the cooldown old. */
  ghost predicate CooledAt(inhibit: seq<Rule>, react: seq<Rule>, rule: Rule, run: seq<Ticking>, k: nat)
    requires rule in react + inhibit && AllHeard(inhibit, react, run) && k < |run|
  {
    forall i :: 0 <= i < k && FiredAt(inhibit, react, rule, run, i) ==>
      run[k].sight.now - run[i].sight.now >= rule.cooldownS
  }

  /** Every fire before tick `k` was followed by ticks on which the predicate failed, for as long as the hysteresis. */
  ghost predicate RearmedAt(inhibit: seq<Rule>, react: seq<Rule>, rule: Rule, run: seq<Ticking>, k: nat)
    requires rule in react + inhibit && AllHeard(inhibit, react, run) && k < |run|
  {
    rule.hysteresis > 0.0 ==>
      forall i :: 0 <= i < k && FiredAt(inhibit, react, rule, run, i) ==> QuietFrom(rule, run, i, k)
  }

  ghost predicate QuietFrom(rule: Rule, run: seq<Ticking>, i: nat, k: nat) {
    exists lo: nat, hi: nat :: i < lo && hi < k && QuietIn(rule, run, lo, hi)
  }

  lemma {:induction false} FiresAgree(v: Vocabulary, prefix: string, inhibit: seq<Rule>, react: seq<Rule>, rule: Rule,
                                      run: seq<Ticking>)
    requires FreshRun(v, prefix, inhibit, react, rule, run)
    ensures var h := Heard(inhibit, react, rule, run);
            forall k :: 0 <= k < |run| ==>
              && (FiredAt(inhibit, react, rule, run, k) <==> History(rule, h)[k].outcome.Shot?)
              && rule.id in run[k].before.cores
              && OutcomeIn(inhibit, react, rule, run[k]) == History(rule, h)[k].outcome
  {
    var h := Heard(inhibit, react, rule, run);
    forall k | 0 <= k < |run|
      ensures FiredAt(inhibit, react, rule, run, k) <==> History(rule, h)[k].outcome.Shot?
      ensures rule.id in run[k].before.cores
      ensures OutcomeIn(inhibit, react, rule, run[k]) == History(rule, h)[k].outcome
    {
      RuleFollowsHistory(v, prefix, inhibit, react, rule, run, k);
      HistoryAt(rule, h, k);
    }
  }

  /** The run and the history agree on what was quiet. */
  lemma QuietAgrees(rule: Rule, run: seq<Ticking>, h: seq<Input>, i: nat, k: nat)
    requires |h| == |run| && k < |h| && forall j :: 0 <= j < |h| ==> Tells(run[j].sight, rule, h[j])
    ensures QuietFrom(rule, run, i, k) <==> QuietAfter(History(rule, h)[..k], i, rule.hysteresis)
  {
    var past := History(rule, h)[..k];
    if QuietFrom(rule, run, i, k) {
      var lo: nat, hi: nat :| i < lo && hi < k && QuietIn(rule, run, lo, hi);
      assert QuietRun(past, lo, hi, rule.hysteresis);
    }
    if QuietAfter(past, i, rule.hysteresis) {
      var lo: nat, hi: nat :| i < lo && QuietRun(past, lo, hi, rule.hysteresis);
      forall j | lo <= j <= hi ensures rule.id !in run[j].sight.matched {
        assert past[j].outcome.Unmatched? && past[j] == History(rule, h)[j];
      }
      assert QuietIn(rule, run, lo, hi);
    }
  }

  lemma CooledAgrees(inhibit: seq<Rule>, react: seq<Rule>, rule: Rule, run: seq<Ticking>, h: seq<Input>, k: nat)
    requires rule in react + inhibit && AllHeard(inhibit, react, run) && |h| == |run| && k < |run|
    requires forall j :: 0 <= j < |h| ==> Tells(run[j].sight, rule, h[j])
    requires forall j :: 0 <= j < |h| ==> (FiredAt(inhibit, react, rule, run, j) <==> History(rule, h)[j].outcome.Shot?)
    ensures CooledAt(inhibit, react, rule, run, k) <==> Cooled(rule, History(rule, h), k)
  {
    var past := History(rule, h);
    forall i | 0 <= i < k
      ensures past[k].now - past[i].now == run[k].sight.now - run[i].sight.now
      ensures FiredAt(inhibit, react, rule, run, i) <==> past[i].outcome.Shot?
    {
    }
  }

  lemma RearmedAgrees(inhibit: seq<Rule>, react: seq<Rule>, rule: Rule, run: seq<Ticking>, h: seq<Input>, k: nat)
    requires rule in react + inhibit && AllHeard(inhibit, react, run) && |h| == |run| && k < |run|
    requires forall j :: 0 <= j < |h| ==> Tells(run[j].sight, rule, h[j])
    requires forall j :: 0 <= j < |h| ==> (FiredAt(inhibit, react, rule, run, j) <==> History(rule, h)[j].outcome.Shot?)
    ensures RearmedAt(inhibit, react, rule, run, k) <==> RearmedAfterEvery(rule, History(rule, h)[..k])
  {
    var past := History(rule, h)[..k];
    forall i | 0 <= i < k
      ensures QuietFrom(rule, run, i, k) <==> QuietAfter(past, i, rule.hysteresis)
      ensures FiredAt(inhibit, react, rule, run, i) <==> past[i].outcome.Shot?
    {
      QuietAgrees(rule, run, h, i, k);
    }
  }

  /** What a tick of a run comes to, by what the rule met, its fires before, and the quiet ticks before. */
  lemma RunComes(v: Vocabulary, prefix: string, inhibit: seq<Rule>, react: seq<Rule>, rule: Rule, run: seq<Ticking>,
                 k: nat)
    requires FreshRun(v, prefix, inhibit, react, rule, run) && ValidTimes(rule) && ClockForward(run) && k < |run|
    ensures rule.id in run[k].before.cores
    ensures Tells(run[k].sight, rule, Met(inhibit, react, rule, run[k]))
    ensures Comes(rule, Met(inhibit, react, rule, run[k]), RearmedAt(inhibit, react, rule, run, k),
                  CooledAt(inhibit, react, rule, run, k), OutcomeIn(inhibit, react, rule, run[k]))
  {
    var h := Heard(inhibit, react, rule, run);
    HeardTells(v, prefix, inhibit, react, rule, run);
    FiresAgree(v, prefix, inhibit, react, rule, run);
    FiresExactlyWhen(rule, h, k);
    CooledAgrees(inhibit, react, rule, run, h, k);
    RearmedAgrees(inhibit, react, rule, run, h, k);
  }

  /** Nothing but its own timing holds an inhibit rule back. */
  lemma InhibitMeets(v: Vocabulary, prefix: string, inhibit: seq<Rule>, react: seq<Rule>, rule: Rule, t: Ticking)
    requires rule in inhibit && rule !in react
    requires RulesRan(v, prefix, t.words, inhibit, react, t.sight, t.queue, t.before, t.story, t.after)
    ensures var met := Met(inhibit, react, rule, t); !met.blocked && met.refused.None?
  {
    var k, s := Position(inhibit, rule), t.story;
    assert InhibitStep(inhibit[k], t.sight, s.inhibitTicks[k], s.inhibitScenes[k], s.inhibitScenes[k + 1]);
  }

  /** What holds a react rule back besides its timing: its action is blocked, or live already, or will not bind. */
  lemma ReactMeets(v: Vocabulary, prefix: string, inhibit: seq<Rule>, react: seq<Rule>, rule: Rule, t: Ticking)
    requires rule in react
    requires RulesRan(v, prefix, t.words, inhibit, react, t.sight, t.queue, t.before, t.story, t.after)
    ensures var met, at := Met(inhibit, react, rule, t), t.story.reactScenes[Position(react, rule)].at;
            && (met.blocked <==> rule.run != "" && rule.run in t.words)
            && met.refused == if exists b :: b in at.live && b.name == rule.run then Some(ALREADY_ACTIVE)
                              else if TurnedAway(v, at.live, RequestId(prefix, rule.run, at.minted + 1),
                                                 RuleRequest(v, rule)) then Some(INVALID)
                              else None
  {
    var k, s := Position(react, rule), t.story;
    assert ReactStep(v, prefix, t.words, react[k], t.sight, s.reactTicks[k], s.reactScenes[k], s.reactScenes[k + 1]);
  }

  /**
   * A react rule fires on a tick of a run exactly when its predicate holds, its action is not blocked, not live and
   * would be admitted, every earlier fire is at least the cooldown old and, with hysteresis, was followed by ticks on
   * which its predicate failed for that long.
   */
  lemma ReactFiresExactly(v: Vocabulary, prefix: string, inhibit: seq<Rule>, react: seq<Rule>, rule: Rule,
                          run: seq<Ticking>, k: nat)
    requires FreshRun(v, prefix, inhibit, react, rule, run) && ValidTimes(rule) && ClockForward(run) && k < |run|
    requires rule in react
    ensures |run[k].story.reactScenes| == |react| + 1
    ensures var at := run[k].story.reactScenes[Position(react, rule)].at;
            FiredAt(inhibit, react, rule, run, k) <==>
              && rule.id in run[k].sight.matched && (rule.run == "" || rule.run !in run[k].words)
              && RearmedAt(inhibit, react, rule, run, k) && CooledAt(inhibit, react, rule, run, k)
              && (forall b :: b in at.live ==> b.name != rule.run)
              && !TurnedAway(v, at.live, RequestId(prefix, rule.run, at.minted + 1), RuleRequest(v, rule))
  {
    RunComes(v, prefix, inhibit, react, rule, run, k);
    ReactMeets(v, prefix, inhibit, react, rule, run[k]);
  }

  /** An inhibit rule fires exactly when its predicate holds and its timing lets it. */
  lemma InhibitFiresExactly(v: Vocabulary, prefix: string, inhibit: seq<Rule>, react: seq<Rule>, rule: Rule,
                            run: seq<Ticking>, k: nat)
    requires FreshRun(v, prefix, inhibit, react, rule, run) && ValidTimes(rule) && ClockForward(run) && k < |run|
    requires rule in inhibit
    ensures FiredAt(inhibit, react, rule, run, k) <==>
              && rule.id in run[k].sight.matched
              && RearmedAt(inhibit, react, rule, run, k) && CooledAt(inhibit, react, rule, run, k)
  {
    RunComes(v, prefix, inhibit, react, rule, run, k);
    KindsApart(inhibit, react, rule);
    InhibitMeets(v, prefix, inhibit, react, rule, run[k]);
  }

  lemma KindsApart(inhibit: seq<Rule>, react: seq<Rule>, rule: Rule)
    requires DistinctRules(react + inhibit) && rule in inhibit
    ensures rule !in react
  {
    var all := react + inhibit;
    var j :| 0 <= j < |inhibit| && inhibit[j] == rule;
    var n := |react| + j;
    assert all[n] == rule;
    forall i | 0 <= i < |react| ensures react[i] != rule {
      assert all[i].id != all[n].id;
    }
  }

  /**
   * And why it is suppressed: a rule that matches and is not blocked is still rearming exactly when some fire was not
   * followed by its quiet ticks, and otherwise on its cooldown exactly when some fire is too young.
   */
  lemma SuppressedExactly(v: Vocabulary, prefix: string, inhibit: seq<Rule>, react: seq<Rule>, rule: Rule,
                          run: seq<Ticking>, k: nat)
    requires FreshRun(v, prefix, inhibit, react, rule, run) && ValidTimes(rule) && ClockForward(run) && k < |run|
    requires rule.id in run[k].sight.matched && !Met(inhibit, react, rule, run[k]).blocked
    ensures rule.id in run[k].before.cores
    ensures var outcome := OutcomeIn(inhibit, react, rule, run[k]);
            && (outcome == Gated(REARMING) <==> !RearmedAt(inhibit, react, rule, run, k))
            && (outcome == Gated(COOLDOWN) <==>
                  RearmedAt(inhibit, react, rule, run, k) && !CooledAt(inhibit, react, rule, run, k))
  {
    RunComes(v, prefix, inhibit, react, rule, run, k);
    if rule in react {
      ReactMeets(v, prefix, inhibit, react, rule, run[k]);
    } else {
      InhibitMeets(v, prefix, inhibit, react, rule, run[k]);
    }
  }

  /** How many of a run's ticks matched the rule. */
  ghost function MatchedIn(rule: Rule, run: seq<Ticking>): nat {
    if run == [] then 0
    else MatchedIn(rule, run[..|run| - 1]) + if rule.id in run[|run| - 1].sight.matched then 1 else 0
  }

  lemma {:induction false} MatchedAgree(rule: Rule, run: seq<Ticking>, h: seq<Input>)
    requires |h| == |run| && forall k :: 0 <= k < |h| ==> Tells(run[k].sight, rule, h[k])
    ensures MatchedTicks(h) == MatchedIn(rule, run)
  {
    if run != [] {
      MatchedAgree(rule, run[..|run| - 1], h[..|h| - 1]);
    }
  }

  lemma MatchedUpTo(rule: Rule, run: seq<Ticking>, h: seq<Input>, k: nat)
    requires |h| == |run| && k < |h| && forall i :: 0 <= i < |h| ==> Tells(run[i].sight, rule, h[i])
    ensures MatchedTicks(h[..k + 1]) == MatchedIn(rule, run[..k + 1])
  {
    MatchedAgree(rule, run[..k + 1], h[..k + 1]);
  }

  lemma NamedUpTo(h: seq<Input>, k: nat)
    requires k < |h| && Named(h)
    ensures Named(h[..k + 1])
  {
  }

  /**
   * After every tick of a run the rule's ledger and its streak agree, event by line, and every tick that matched so far
   * is a fire, in a summary, or in the open episode.
   */
  lemma RunIsAccounted(v: Vocabulary, prefix: string, inhibit: seq<Rule>, react: seq<Rule>, rule: Rule,
                       run: seq<Ticking>, k: nat)
    requires FreshRun(v, prefix, inhibit, react, rule, run) && k < |run|
    ensures rule.id in run[k].after.cores
    ensures var core := run[k].after.cores[rule.id];
            && Lockstep(core)
            && MatchedIn(rule, run[..k + 1]) == Fires(core.ledger.events) + SummaryTicks(core.ledger.events) +
               core.ledger.ticks
  {
    var h := Heard(inhibit, react, rule, run);
    HeardTells(v, prefix, inhibit, react, rule, run);
    RuleFollowsHistory(v, prefix, inhibit, react, rule, run, k);
    MatchedUpTo(rule, run, h, k);
    NamedUpTo(h, k);
    LedgerAndStreakAgree(rule, h[..k + 1]);
    EveryTickAccounted(rule, h[..k + 1]);
  }
}
