/** The evaluator over a run of the engine whose seam it is: one behavior of a name per rule, and each of them ends. */
module EvaluatorSeam {
  import opened Common
  import opened RuleTypes
  import opened RuleStates
  import opened RuleHistory
  import opened Behaviors
  import opened Arbitration
  import opened TickEngine
  import opened EngineLifetimes
  import opened Registries
  import opened Admissions
  import opened Evaluators
  import opened EvaluatorRuns

  // ---- what one tick keeps ---------------------------------------------------------------------------------

  /** Every queued request will end. */
  ghost predicate FiniteQueue(ps: seq<Pending>) {
    forall p :: p in ps && p.PendingAdmit? ==> Finite(p.request)
  }

  lemma {:induction false} QueueKeeps(v: Vocabulary, prefix: string, words: set<string>, before: Moment,
                                      ps: seq<Pending>, after: Moment)
    requires PendingRun(v, prefix, words, before, ps, after) && FiniteQueue(ps) && Tidy(before)
    ensures Tidy(after) && OnlyLimitedAdded(before.live, after.live)
  {
    if ps != [] {
      var n := |ps| - 1;
      var mid :| PendingRun(v, prefix, words, before, ps[..n], mid) && PendingStep(v, prefix, words, mid, ps[n], after);
      assert forall p :: p in ps[..n] ==> p in ps;
      QueueKeeps(v, prefix, words, before, ps[..n], mid);
      PendingKeeps(v, prefix, words, mid, ps[n], after);
    }
  }

  lemma {:induction false} InhibitKeeps(rules: seq<Rule>, sight: Sight, ticks: seq<Input>, scenes: seq<Scene>, i: nat)
    requires InhibitTurns(rules, sight, ticks, scenes) && Tidy(scenes[0].at) && i <= |rules|
    ensures Tidy(scenes[i].at) && forall b :: b in scenes[i].at.live ==> b in scenes[0].at.live
  {
    if i > 0 {
      var n := i - 1;
      InhibitKeeps(rules, sight, ticks, scenes, n);
      assert InhibitStep(rules[n], sight, ticks[n], scenes[n], scenes[n + 1]);
      WithoutNamesIsTidy(scenes[n].at, rules[n].disable);
    }
  }

  /** No react rule asks for something endless: what building an evaluator checks. */
  ghost predicate FiniteRules(v: Vocabulary, react: seq<Rule>) {
    forall i :: 0 <= i < |react| ==> Finite(RuleRequest(v, react[i]))
  }

  lemma {:induction false} ReactKeeps(v: Vocabulary, prefix: string, words: set<string>, rules: seq<Rule>, sight: Sight,
                                      ticks: seq<Input>, scenes: seq<Scene>, i: nat)
    requires ReactTurns(v, prefix, words, rules, sight, ticks, scenes) && FiniteRules(v, rules)
    requires Tidy(scenes[0].at) && i <= |rules|
    ensures Tidy(scenes[i].at) && RulesJoined(scenes[0].at.live, scenes[i].at.live)
  {
    if i > 0 {
      var n := i - 1;
      ReactKeeps(v, prefix, words, rules, sight, ticks, scenes, n);
      assert ReactStep(v, prefix, words, rules[n], sight, ticks[n], scenes[n], scenes[n + 1]);
      ReactTurnKeeps(v, prefix, words, rules[n], scenes[n].cores[rules[n].id], ticks[n], scenes[0].at.live,
                     scenes[n].at, scenes[n + 1].at);
    }
  }

  // ---- a run of whole ticks --------------------------------------------------------------------------------

  /** A run of the rules, with the goals upheld at the end of every tick. */
  ghost predicate WholeTicks(v: Vocabulary, prefix: string, inhibit: seq<Rule>, react: seq<Rule>, run: seq<Ticking>) {
    && Ticks(v, prefix, inhibit, react, run) && FiniteRules(v, react)
    && forall k :: 0 <= k < |run| ==>
         && FiniteQueue(run[k].queue) && ProperGoals(run[k].goals)
         && Upheld(v, prefix, run[k].words, run[k].goals, run[k].after.at, run[k].upheld)
  }

  /** Those of the rules' behaviors that are still live. */
  function StillOurs(m: Moment, live: seq<Behavior>): set<Behavior> {
    set b | b in m.ours && b in live
  }

  /**
   * What rules admitted is followed through the run: nothing at first, then what each turn adds and takes away, and
   * from tick to tick what is still live, whatever else the engine does in between.
   */
  ghost predicate Followed(run: seq<Ticking>) {
    && (run != [] ==> run[0].before.at.ours == {})
    && forall k, j :: 0 <= k && j == k + 1 && j < |run| ==>
         run[j].before.at.ours == StillOurs(run[k].upheld, run[j].before.at.live)
  }

  /** Whatever happens to the live set between ticks, those of the rules' behaviors that are still there stay tidy. */
  lemma TidySurvives(m: Moment, after: seq<Behavior>, minted: nat)
    requires Tidy(m)
    ensures Tidy(Moment(after, minted, StillOurs(m, after)))
  {
  }

  /** At every stage of a tick, no two live behaviors that rules admitted share a name, and each of them will end. */
  ghost predicate TidyThroughout(t: Ticking) {
    && Tidy(t.before.at) && Tidy(t.story.applied) && Tidy(t.after.at) && Tidy(t.upheld)
    && (forall i :: 0 <= i < |t.story.inhibitScenes| ==> Tidy(t.story.inhibitScenes[i].at))
    && (forall i :: 0 <= i < |t.story.reactScenes| ==> Tidy(t.story.reactScenes[i].at))
  }

  lemma {:induction false} TickStaysTidy(v: Vocabulary, prefix: string, inhibit: seq<Rule>, react: seq<Rule>,
                                         t: Ticking)
    requires RulesRan(v, prefix, t.words, inhibit, react, t.sight, t.queue, t.before, t.story, t.after)
    requires Upheld(v, prefix, t.words, t.goals, t.after.at, t.upheld) && ProperGoals(t.goals)
    requires FiniteRules(v, react) && FiniteQueue(t.queue) && Tidy(t.before.at)
    ensures TidyThroughout(t)
  {
    var s := t.story;
    QueueKeeps(v, prefix, t.words, t.before.at, t.queue, s.applied);
    forall i | 0 <= i < |s.inhibitScenes| ensures Tidy(s.inhibitScenes[i].at) {
      InhibitKeeps(inhibit, t.sight, s.inhibitTicks, s.inhibitScenes, i);
    }
    forall i | 0 <= i < |s.reactScenes| ensures Tidy(s.reactScenes[i].at) {
      ReactKeeps(v, prefix, t.words, react, t.sight, s.reactTicks, s.reactScenes, i);
    }
    UpheldKeeps(v, prefix, t.words, t.goals, t.after.at, t.upheld);
  }

  /**
   * At every stage of every tick of a run at most one live behavior of a given name was admitted by a react rule, and
   * it will end, whatever happens between the ticks.
   */
  lemma {:induction false} OneOfEachName(v: Vocabulary, prefix: string, inhibit: seq<Rule>, react: seq<Rule>,
                                         run: seq<Ticking>, k: nat)
    requires WholeTicks(v, prefix, inhibit, react, run) && Followed(run) && k < |run|
    ensures TidyThroughout(run[k])
  {
    if k > 0 {
      var j := k - 1;
      OneOfEachName(v, prefix, inhibit, react, run, j);
      assert run[k].before.at.ours == StillOurs(run[j].upheld, run[k].before.at.live);
      TidySurvives(run[j].upheld, run[k].before.at.live, run[k].before.at.minted);
    }
    TickStaysTidy(v, prefix, inhibit, react, run[k]);
  }

  // ---- as the seam of the engine ---------------------------------------------------------------------------

  /**
   * The evaluator is the engine's seam: on each tick that reaches it, it meets the live set the pose was composed from,
   * and what it leaves is what the engine holds at the next edge.
   */
  ghost predicate Served(v: Vocabulary, size: nat, c: Course, gaveUp: bool, prefix: string, inhibit: seq<Rule>,
                         react: seq<Rule>, run: seq<Ticking>) {
    && RunOf(v, size, c, gaveUp) && WholeTicks(v, prefix, inhibit, react, run)
    && |run| <= |c.log| <= |run| + (if gaveUp then 1 else 0)
    && forall k :: 0 <= k < |run| ==> ServedOn(v, size, c, gaveUp, run[k], k)
  }

  ghost predicate ServedOn(v: Vocabulary, size: nat, c: Course, gaveUp: bool, t: Ticking, k: nat) {
    && k < |c.log| <= |c.inputs| && |c.edges| == |c.log| + 1 && c.log[k].TickPose?
    && ComposedFrom(v, size, c, gaveUp, k, t.before.at.live) && t.upheld.live == c.edges[k + 1].live
    && t.sight.clock == c.inputs[k].clock
  }

  /** Nobody asks for a behavior under a time of admission of its own. */
  ghost predicate NobodyStamps(size: nat, c: Course)
    requires |c.log| <= |c.inputs| && |c.log| < |c.edges|
  {
    forall i, op :: 0 <= i < |c.log| && op in TickOps(size, c.edges[i], c.inputs[i]) && op.AdmitOp? ==>
      op.b.admittedAt.None?
  }

  /** Whatever is live when a run starts was admitted before it. */
  ghost predicate StartsSettled(c: Course)
    requires |c.log| <= |c.inputs| && c.edges != []
  {
    c.log != [] ==> forall b :: b in c.edges[0].live && b.admittedAt.Some? ==> b.admittedAt.value <= c.inputs[0].now
  }

  /** On this tick the queue added it, or a rule's turn did. */
  ghost predicate AddedOn(t: Ticking, b: Behavior) {
    || (b in t.story.applied.live && b !in t.before.at.live)
    || exists i, j :: 0 <= i && j == i + 1 && j < |t.story.reactScenes|
                      && t.story.reactScenes[j].at.live == t.story.reactScenes[i].at.live + [b]
  }

  lemma {:induction false} AddedIsLimited(v: Vocabulary, prefix: string, inhibit: seq<Rule>, react: seq<Rule>,
                                          t: Ticking, b: Behavior)
    requires RulesRan(v, prefix, t.words, inhibit, react, t.sight, t.queue, t.before, t.story, t.after)
    requires FiniteRules(v, react) && FiniteQueue(t.queue) && Tidy(t.before.at) && AddedOn(t, b)
    ensures Limited(b)
  {
    var s := t.story;
    QueueKeeps(v, prefix, t.words, t.before.at, t.queue, s.applied);
    if i, j :| 0 <= i && j == i + 1 && j < |s.reactScenes|
               && s.reactScenes[j].at.live == s.reactScenes[i].at.live + [b] {
      TurnAddsLimited(v, prefix, t.words, react, t.sight, s.reactTicks, s.reactScenes, i, b);
    }
  }

  lemma {:induction false} TurnAddsLimited(v: Vocabulary, prefix: string, words: set<string>, react: seq<Rule>,
                                           sight: Sight, ticks: seq<Input>, scenes: seq<Scene>, i: nat, b: Behavior)
    requires ReactTurns(v, prefix, words, react, sight, ticks, scenes) && FiniteRules(v, react) && i < |react|
    requires scenes[i + 1].at.live == scenes[i].at.live + [b]
    ensures Limited(b)
  {
    assert ReactStep(v, prefix, words, react[i], sight, ticks[i], scenes[i], scenes[i + 1]);
    assert scenes[i + 1].at.live[|scenes[i].at.live|] == b;
  }

  /**
   * What a react rule or a run-once request adds on any tick of a run carries a positive bound d, and with ticks that
   * begin at least p apart it is asked for its offer on at most ceil(d / p) + 1 ticks of the run.
   */
  lemma {:induction false} RulesAddOnlyBounded(v: Vocabulary, size: nat, c: Course, gaveUp: bool, prefix: string,
                                               inhibit: seq<Rule>, react: seq<Rule>, run: seq<Ticking>, k: nat,
                                               b: Behavior, p: real)
    requires Served(v, size, c, gaveUp, prefix, inhibit, react, run) && Followed(run) && k < |run|
    requires Paced(c.inputs, |c.log|, p) && p > 0.0 && NobodyStamps(size, c) && StartsSettled(c)
    requires AddedOn(run[k], b)
    ensures b.lifetime.durationS.Some? && b.lifetime.durationS.value > 0.0
    ensures BoundedIn(v, size, c, gaveUp, b, b.lifetime.durationS.value, p)
    ensures AskedCount(v, size, c, gaveUp, b, |c.log|) <= Ceil(b.lifetime.durationS.value / p) + 1
  {
    OneOfEachName(v, prefix, inhibit, react, run, k);
    AddedIsLimited(v, prefix, inhibit, react, run[k], b);
    forall i | 0 <= i < |c.log| ensures Unstamped(TickOps(size, c.edges[i], c.inputs[i]), b) {
    }
    BoundedContribution(v, size, c, gaveUp, b, b.lifetime.durationS.value, p);
  }

  /** And once its time is up no later tick asks it, no channel is its, and it is off the live set. */
  lemma {:induction false} ThenRulesAreDone(v: Vocabulary, size: nat, c: Course, gaveUp: bool, prefix: string,
                                            inhibit: seq<Rule>, react: seq<Rule>, run: seq<Ticking>, k: nat,
                                            b: Behavior, p: real, a: nat, i: nat)
    requires Served(v, size, c, gaveUp, prefix, inhibit, react, run) && Followed(run) && k < |run| && i < |run|
    requires Paced(c.inputs, |c.log|, p) && p > 0.0 && NobodyStamps(size, c) && StartsSettled(c)
    requires AddedOn(run[k], b) && b.lifetime.durationS.Some? && AskedOn(v, size, c, gaveUp, a, b)
    requires i > a + Ceil(b.lifetime.durationS.value / p)
    ensures b !in run[i].before.at.live && OwnsNothing(v, run[i].before.at.live, b) && b !in run[i].upheld.live
  {
    RulesAddOnlyBounded(v, size, c, gaveUp, prefix, inhibit, react, run, k, b, p);
    ThenItIsOver(v, size, c, gaveUp, b, b.lifetime.durationS.value, p, a, i, run[i].before.at.live);
  }

  /** A rule that starts such a run fresh meets it as `EvaluatorRuns` describes. */
  lemma {:induction false} ServedIsFresh(v: Vocabulary, size: nat, c: Course, gaveUp: bool, prefix: string,
                                         inhibit: seq<Rule>, react: seq<Rule>, run: seq<Ticking>, rule: Rule)
    requires Served(v, size, c, gaveUp, prefix, inhibit, react, run) && rule in react + inhibit
    requires run != [] ==> rule.id in run[0].before.cores && run[0].before.cores[rule.id] == INITIAL
    ensures FreshRun(v, prefix, inhibit, react, rule, run)
  {
    StoriesAreWhole(v, prefix, inhibit, react, run);
  }

  /**
   * Two fires of such a rule in the engine's run are at least its cooldown apart, and with hysteresis its predicate was
   * quiet for that long in between.
   */
  lemma {:induction false} ServedFiresAreSpaced(v: Vocabulary, size: nat, c: Course, gaveUp: bool, prefix: string,
                                                inhibit: seq<Rule>, react: seq<Rule>, run: seq<Ticking>, rule: Rule,
                                                a: nat, b: nat)
    requires Served(v, size, c, gaveUp, prefix, inhibit, react, run) && rule in react + inhibit
    requires run != [] ==> rule.id in run[0].before.cores && run[0].before.cores[rule.id] == INITIAL
    requires ValidTimes(rule) && ClockForward(run)
    requires a < b < |run| && rule.id in run[a].before.cores && rule.id in run[b].before.cores
    requires FiredIn(inhibit, react, rule, run[a]) && FiredIn(inhibit, react, rule, run[b])
    ensures run[b].sight.now - run[a].sight.now >= rule.cooldownS
    ensures rule.hysteresis > 0.0 ==> exists lo: nat, hi: nat :: a < lo <= hi < b && QuietIn(rule, run, lo, hi)
  {
    ServedIsFresh(v, size, c, gaveUp, prefix, inhibit, react, run, rule);
    RunFiresAreSpaced(v, prefix, inhibit, react, rule, run, a, b);
  }
}
