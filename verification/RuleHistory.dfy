/**
 * A rule over a whole run of ticks. The constant-size state of `RuleStates` is shown to stand for the full history:
 * what `armed`, `lastFire` and `falseSince` mean, how far apart fires are, and that the ledger and the streak agree.
 */
module RuleHistory {
  import opened Common
  import opened Text
  import opened RuleTypes
  import opened Streaks
  import opened RuleStates

  /** One tick as a rule sees it; `refused` is why an admission it may attempt would be turned away. */
  datatype Input = Input(now: real, matched: bool, blocked: bool, refused: Option<string>, detail: string)

  datatype Outcome = Unmatched | Gated(reason: string) | Shot

  datatype Record = Record(now: real, outcome: Outcome)

  /** The order of the guards: the predicate, the inhibitions, the timing, the admission. */
  function Decide(rule: Rule, stepped: Timing, tick: Input): Outcome {
    if !tick.matched then Unmatched
    else if tick.blocked then Gated(INHIBITED)
    else
      var reason := stepped.Reason(rule, tick.now);
      if reason != FIRED then Gated(reason)
      else if tick.refused.Some? then Gated(tick.refused.value)
      else Shot
  }

  function Ticked(rule: Rule, core: Core, tick: Input): (Core, Outcome) {
    var stepped := core.(timing := core.timing.Stepped(rule, tick.matched, tick.now));
    var outcome := Decide(rule, stepped.timing, tick);
    match outcome
    case Unmatched => (stepped.Released(), outcome)
    case Gated(reason) => (stepped.Suppressed(reason), outcome)
    case Shot => (stepped.Fired(rule, tick.now, tick.detail), outcome)
  }

  function Run(rule: Rule, ticks: seq<Input>): Core {
    if ticks == [] then INITIAL else Ticked(rule, Run(rule, ticks[..|ticks| - 1]), ticks[|ticks| - 1]).0
  }

  function History(rule: Rule, ticks: seq<Input>): (h: seq<Record>)
    ensures |h| == |ticks|
    ensures forall i :: 0 <= i < |h| ==> h[i].now == ticks[i].now && (h[i].outcome.Unmatched? <==> !ticks[i].matched)
  {
    if ticks == [] then []
    else
      var front, tick := ticks[..|ticks| - 1], ticks[|ticks| - 1];
      History(rule, front) + [Record(tick.now, Ticked(rule, Run(rule, front), tick).1)]
  }

  lemma {:induction false} HistoryPrefix(rule: Rule, ticks: seq<Input>, n: nat)
    requires n <= |ticks|
    ensures History(rule, ticks)[..n] == History(rule, ticks[..n])
  {
    if n < |ticks| {
      var front := ticks[..|ticks| - 1];
      HistoryPrefix(rule, front, n);
      assert front[..n] == ticks[..n];
      assert History(rule, ticks)[..n] == History(rule, front)[..n];
    } else {
      assert ticks[..n] == ticks;
    }
  }

  /** The clock never goes back. */
  ghost predicate NonDecreasing(ticks: seq<Input>) {
    forall i, j :: 0 <= i <= j < |ticks| ==> ticks[i].now <= ticks[j].now
  }

  // ---- what the timing state means, read off the history ----------------------------------------------------

  /** The last tick that fired, or -1. */
  function LastShot(h: seq<Record>): (r: int)
    ensures -1 <= r < |h|
    ensures r >= 0 ==> h[r].outcome.Shot?
    ensures forall i :: r < i < |h| ==> !h[i].outcome.Shot?
  {
    if h == [] then -1
    else if h[|h| - 1].outcome.Shot? then |h| - 1
    else LastShot(h[..|h| - 1])
  }

  /** Where the unbroken run of unmatched ticks that ends the history began; |h| when it is empty. */
  function QuietSince(h: seq<Record>): (r: nat)
    ensures r <= |h|
    ensures forall i :: r <= i < |h| ==> h[i].outcome.Unmatched?
    ensures r > 0 ==> !h[r - 1].outcome.Unmatched?
  {
    if h == [] || !h[|h| - 1].outcome.Unmatched? then |h| else QuietSince(h[..|h| - 1])
  }

  /** Ticks `lo` to `hi` are all unmatched and span at least `span` seconds. */
  ghost predicate QuietRun(h: seq<Record>, lo: nat, hi: nat, span: real) {
    && lo <= hi < |h|
    && (forall i :: lo <= i <= hi ==> h[i].outcome.Unmatched?)
    && h[hi].now - h[lo].now >= span
  }

  /** Nothing has fired, or no hysteresis is asked for, or a long enough quiet run followed the last fire. */
  ghost predicate MayRearm(rule: Rule, h: seq<Record>) {
    LastShot(h) < 0 || rule.hysteresis == 0.0
    || exists lo: nat, hi: nat :: LastShot(h) < lo && QuietRun(h, lo, hi, rule.hysteresis)
  }

  /** The three fields against the history. */
  ghost predicate Stands(rule: Rule, t: Timing, h: seq<Record>) {
    && t.lastFire == (if LastShot(h) >= 0 then Some(h[LastShot(h)].now) else None)
    && t.falseSince == (if QuietSince(h) < |h| then Some(h[QuietSince(h)].now) else None)
    && (t.armed <==> MayRearm(rule, h))
  }

  /** An unmatched tick arms the rule exactly when it completes a long enough quiet run. */
  lemma {:induction false} RearmOnQuiet(rule: Rule, h: seq<Record>, rec: Record)
    requires rec.outcome.Unmatched?
    requires forall i, j :: 0 <= i <= j < |h + [rec]| ==> (h + [rec])[i].now <= (h + [rec])[j].now
    ensures MayRearm(rule, h + [rec]) <==>
              MayRearm(rule, h) || rec.now - (h + [rec])[QuietSince(h + [rec])].now >= rule.hysteresis
  {
    var g := h + [rec];
    assert g[..|h|] == h;
    var since := QuietSince(g);
    assert since <= |h|;
    var last := LastShot(g);
    assert last == LastShot(h);
    if MayRearm(rule, h) && !(last < 0 || rule.hysteresis == 0.0) {
      var lo: nat, hi: nat :| last < lo && QuietRun(h, lo, hi, rule.hysteresis);
      assert QuietRun(g, lo, hi, rule.hysteresis);
    }
    if g[|h|].now - g[since].now >= rule.hysteresis {
      assert QuietRun(g, since, |h|, rule.hysteresis);
      assert last >= 0 ==> g[last].outcome.Shot?;
    }
    if MayRearm(rule, g) && !(last < 0 || rule.hysteresis == 0.0) {
      var lo: nat, hi: nat :| last < lo && QuietRun(g, lo, hi, rule.hysteresis);
      if hi < |h| {
        assert QuietRun(h, lo, hi, rule.hysteresis);
      } else {
        assert since > 0 ==> !g[since - 1].outcome.Unmatched?;
      }
    }
  }

  /** A matched tick that does not fire changes nothing about rearming. */
  lemma {:induction false} RearmOnMatched(rule: Rule, h: seq<Record>, rec: Record)
    requires rec.outcome.Gated?
    ensures MayRearm(rule, h + [rec]) <==> MayRearm(rule, h)
  {
    var g := h + [rec];
    assert g[..|h|] == h;
    var last := LastShot(h);
    assert LastShot(g) == last;
    if MayRearm(rule, h) && !(last < 0 || rule.hysteresis == 0.0) {
      var lo: nat, hi: nat :| last < lo && QuietRun(h, lo, hi, rule.hysteresis);
      assert QuietRun(g, lo, hi, rule.hysteresis);
    }
    if MayRearm(rule, g) && !(last < 0 || rule.hysteresis == 0.0) {
      var lo: nat, hi: nat :| last < lo && QuietRun(g, lo, hi, rule.hysteresis);
      assert hi < |h|;
      assert QuietRun(h, lo, hi, rule.hysteresis);
    }
  }

  /** A fire needs an armed rule whose cooldown is over. */
  lemma {:induction false} ShotNeeds(rule: Rule, core: Core, tick: Input)
    requires Ticked(rule, core, tick).1.Shot?
    ensures core.timing.armed
    ensures core.timing.lastFire.Some? ==> tick.now - core.timing.lastFire.value >= rule.cooldownS
  {
  }

  lemma {:induction false} TimingNext(rule: Rule, core: Core, tick: Input)
    ensures Ticked(rule, core, tick).0.timing ==
              if Ticked(rule, core, tick).1.Shot? then
                core.timing.Stepped(rule, tick.matched, tick.now).Marked(rule, tick.now)
              else core.timing.Stepped(rule, tick.matched, tick.now)
    ensures Ticked(rule, core, tick).1.Unmatched? <==> !tick.matched
  {
  }

  lemma {:induction false} StandsNext(rule: Rule, core: Core, h: seq<Record>, tick: Input)
    requires ValidTimes(rule) && Stands(rule, core.timing, h)
    requires var g := h + [Record(tick.now, Ticked(rule, core, tick).1)];
             forall i, j :: 0 <= i <= j < |g| ==> g[i].now <= g[j].now
    ensures Stands(rule, Ticked(rule, core, tick).0.timing, h + [Record(tick.now, Ticked(rule, core, tick).1)])
  {
    TimingNext(rule, core, tick);
    StandsAfter(rule, core.timing, h, tick, Record(tick.now, Ticked(rule, core, tick).1));
  }

  lemma {:induction false} StandsAfter(rule: Rule, t: Timing, h: seq<Record>, tick: Input, rec: Record)
    requires ValidTimes(rule) && Stands(rule, t, h)
    requires rec.now == tick.now && (rec.outcome.Unmatched? <==> !tick.matched)
    requires forall i, j :: 0 <= i <= j < |h + [rec]| ==> (h + [rec])[i].now <= (h + [rec])[j].now
    ensures var stepped := t.Stepped(rule, tick.matched, tick.now);
            Stands(rule, if rec.outcome.Shot? then stepped.Marked(rule, tick.now) else stepped, h + [rec])
  {
    Ends(h, rec);
    match rec.outcome
    case Unmatched => RearmOnQuiet(rule, h, rec);
    case Gated(_) => RearmOnMatched(rule, h, rec);
    case Shot => RearmOnShot(rule, h, rec);
  }

  lemma {:induction false} Ends(h: seq<Record>, rec: Record)
    ensures LastShot(h + [rec]) == if rec.outcome.Shot? then |h| else LastShot(h)
    ensures QuietSince(h + [rec]) == if rec.outcome.Unmatched? then QuietSince(h) else |h| + 1
  {
    assert (h + [rec])[..|h|] == h;
  }

  lemma {:induction false} RearmOnShot(rule: Rule, h: seq<Record>, rec: Record)
    requires rec.outcome.Shot?
    ensures MayRearm(rule, h + [rec]) <==> rule.hysteresis == 0.0
  {
    assert LastShot(h + [rec]) == |h|;
  }

  /** With a clock that never goes back, the state after any run of ticks is what the history says it is. */
  lemma {:induction false} StateStandsForHistory(rule: Rule, ticks: seq<Input>)
    requires ValidTimes(rule) && NonDecreasing(ticks)
    ensures Stands(rule, Run(rule, ticks).timing, History(rule, ticks))
  {
    if ticks != [] {
      var front, tick := ticks[..|ticks| - 1], ticks[|ticks| - 1];
      StateStandsForHistory(rule, front);
      StandsNext(rule, Run(rule, front), History(rule, front), tick);
    }
  }

  /** Two fires are at least the cooldown apart, and with hysteresis a long enough quiet run lies strictly between. */
  lemma {:induction false} FiresAreSpaced(rule: Rule, ticks: seq<Input>, a: nat, b: nat)
    requires ValidTimes(rule) && NonDecreasing(ticks)
    requires a < b < |ticks| && History(rule, ticks)[a].outcome.Shot? && History(rule, ticks)[b].outcome.Shot?
    ensures ticks[b].now - ticks[a].now >= rule.cooldownS
    ensures rule.hysteresis > 0.0 ==>
              exists lo: nat, hi: nat :: a < lo <= hi < b && QuietRun(History(rule, ticks), lo, hi, rule.hysteresis)
  {
    ArmedBefore(rule, ticks, b);
    SpacedFromPast(rule, Run(rule, ticks[..b]).timing, History(rule, ticks), a, b);
  }

  /** A tick that fires met an armed rule, off its cooldown, whose state stands for the history so far. */
  lemma {:induction false} ArmedBefore(rule: Rule, ticks: seq<Input>, b: nat)
    requires ValidTimes(rule) && NonDecreasing(ticks) && b < |ticks| && History(rule, ticks)[b].outcome.Shot?
    ensures var t := Run(rule, ticks[..b]).timing;
            && Stands(rule, t, History(rule, ticks)[..b]) && t.armed
            && (t.lastFire.Some? ==> ticks[b].now - t.lastFire.value >= rule.cooldownS)
  {
    HistoryPrefix(rule, ticks, b);
    HistoryAt(rule, ticks, b);
    StateStandsForHistory(rule, ticks[..b]);
    ShotNeeds(rule, Run(rule, ticks[..b]), ticks[b]);
  }

  /** A rule armed at tick `b` has had its quiet run since its last fire, which is no earlier than `a`. */
  lemma {:induction false} SpacedFromPast(rule: Rule, t: Timing, h: seq<Record>, a: nat, b: nat)
    requires a < b < |h| && h[a].outcome.Shot? && Stands(rule, t, h[..b]) && t.armed
    requires forall i, j :: 0 <= i <= j < |h| ==> h[i].now <= h[j].now
    ensures t.lastFire.Some? && t.lastFire.value >= h[a].now
    ensures rule.hysteresis > 0.0 ==>
              exists lo: nat, hi: nat :: a < lo <= hi < b && QuietRun(h, lo, hi, rule.hysteresis)
  {
    var past := h[..b];
    var last := LastShot(past);
    assert past[a].outcome.Shot? && last >= a;
    if rule.hysteresis > 0.0 {
      var lo: nat, hi: nat :| last < lo && QuietRun(past, lo, hi, rule.hysteresis);
      assert QuietRun(h, lo, hi, rule.hysteresis);
    }
  }

  lemma {:induction false} HistoryAt(rule: Rule, ticks: seq<Input>, n: nat)
    requires n < |ticks|
    ensures History(rule, ticks)[n].outcome == Ticked(rule, Run(rule, ticks[..n]), ticks[n]).1
  {
    var upTo := ticks[..n + 1];
    HistoryPrefix(rule, ticks, n + 1);
    assert upTo[..n] == ticks[..n];
    assert History(rule, ticks)[n] == History(rule, upTo)[n];
  }

  // ---- exactly when a rule fires ---------------------------------------------------------------------------

  /** Every fire before tick `k` is at least the cooldown old. */
  ghost predicate Cooled(rule: Rule, h: seq<Record>, k: nat)
    requires k < |h|
  {
    forall i :: 0 <= i < k && h[i].outcome.Shot? ==> h[k].now - h[i].now >= rule.cooldownS
  }

  /** Every fire was followed by a long enough quiet run, if the rule asks for one. */
  ghost predicate RearmedAfterEvery(rule: Rule, h: seq<Record>) {
    rule.hysteresis > 0.0 ==> forall i :: 0 <= i < |h| && h[i].outcome.Shot? ==> QuietAfter(h, i, rule.hysteresis)
  }

  ghost predicate QuietAfter(h: seq<Record>, i: nat, span: real) {
    exists lo: nat, hi: nat :: i < lo && QuietRun(h, lo, hi, span)
  }

  /** It is the last fire that counts. */
  lemma {:induction false} RearmedMeans(rule: Rule, h: seq<Record>)
    requires ValidTimes(rule)
    ensures MayRearm(rule, h) <==> RearmedAfterEvery(rule, h)
  {
    var last := LastShot(h);
    if MayRearm(rule, h) && rule.hysteresis > 0.0 && last >= 0 {
      var lo: nat, hi: nat :| last < lo && QuietRun(h, lo, hi, rule.hysteresis);
      forall i | 0 <= i < |h| && h[i].outcome.Shot? ensures QuietAfter(h, i, rule.hysteresis) {
        assert i < lo && QuietRun(h, lo, hi, rule.hysteresis);
      }
    }
    if RearmedAfterEvery(rule, h) && rule.hysteresis > 0.0 && last >= 0 {
      assert QuietAfter(h, last, rule.hysteresis);
    }
  }

  /** Off its cooldown by the state is off its cooldown by the history. */
  lemma {:induction false} CooledMeans(rule: Rule, t: Timing, h: seq<Record>, k: nat)
    requires ValidTimes(rule) && k < |h| && Stands(rule, t, h[..k])
    requires forall i, j :: 0 <= i <= j < |h| ==> h[i].now <= h[j].now
    ensures Cooled(rule, h, k) <==> !(t.lastFire.Some? && h[k].now - t.lastFire.value < rule.cooldownS)
  {
    var last := LastShot(h[..k]);
    if last >= 0 {
      assert h[last].outcome.Shot? && t.lastFire == Some(h[last].now);
      forall i | 0 <= i < k && h[i].outcome.Shot? ensures i <= last {
        assert h[..k][i].outcome.Shot?;
      }
    } else {
      forall i | 0 <= i < k ensures !h[i].outcome.Shot? {
        assert h[..k][i] == h[i];
      }
    }
  }

  /** What a tick comes to, by its own input, the fires before it and the quiet runs before it. */
  ghost predicate Comes(rule: Rule, tick: Input, rearmed: bool, cooled: bool, outcome: Outcome) {
    && (outcome.Unmatched? <==> !tick.matched)
    && (outcome.Shot? <==> tick.matched && !tick.blocked && tick.refused.None? && rearmed && cooled)
    && (tick.matched && tick.blocked ==> outcome == Gated(INHIBITED))
    && (tick.matched && !tick.blocked && !rearmed ==> outcome == Gated(REARMING))
    && (tick.matched && !tick.blocked && rearmed && !cooled ==> outcome == Gated(COOLDOWN))
    && (tick.matched && !tick.blocked && rearmed && cooled && tick.refused.Some? ==>
          outcome == Gated(tick.refused.value))
  }

  /**
   * A tick fires exactly when it matches, nothing inhibits or refuses it, every fire before it is at least the cooldown
   * old and, with hysteresis, was followed by a long enough quiet run; otherwise the first of these that fails is the
   * reason it is suppressed for.
   */
  lemma {:induction false} FiresExactlyWhen(rule: Rule, ticks: seq<Input>, k: nat)
    requires ValidTimes(rule) && NonDecreasing(ticks) && k < |ticks|
    ensures var h := History(rule, ticks);
            Comes(rule, ticks[k], RearmedAfterEvery(rule, h[..k]), Cooled(rule, h, k), h[k].outcome)
  {
    var h, core := History(rule, ticks), Run(rule, ticks[..k]);
    HistoryPrefix(rule, ticks, k);
    HistoryAt(rule, ticks, k);
    StateStandsForHistory(rule, ticks[..k]);
    RearmedMeans(rule, h[..k]);
    CooledMeans(rule, core.timing, h, k);
    DecidesBy(rule, core, ticks[k]);
  }

  /** What one tick comes to, by the state it meets. */
  lemma DecidesBy(rule: Rule, core: Core, tick: Input)
    ensures Comes(rule, tick, core.timing.armed,
                  !(core.timing.lastFire.Some? && tick.now - core.timing.lastFire.value < rule.cooldownS),
                  Ticked(rule, core, tick).1)
  {
  }
}
