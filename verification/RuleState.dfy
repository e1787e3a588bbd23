/** One rule's cooldown and hysteresis bookkeeping, and its suppression-episode ledger. */
module RuleStates {
  import opened Common
  import opened Text
  import opened RuleTypes
  import opened Streaks

  const FIRED := "fired"
  const COOLDOWN := "cooldown"
  const REARMING := "rearming"
  const INHIBITED := "inhibited"
  const ALREADY_ACTIVE := "already-active"

  /** An event published for a rule; `ticks` marks an episode summary. */
  datatype Event = Suppress(reason: string, ticks: Option<nat>) | Fire(detail: string)

  /** The state that decides whether a rule may fire. */
  datatype Timing = Timing(lastFire: Option<real>, falseSince: Option<real>, armed: bool) {

    function Stepped(rule: Rule, matched: bool, now: real): Timing {
      if matched then this.(falseSince := None)
      else
        var since := if falseSince.Some? then falseSince.value else now;
        Timing(lastFire, Some(since), armed || now - since >= rule.hysteresis)
    }

    function Reason(rule: Rule, now: real): string {
      if !armed then REARMING
      else if lastFire.Some? && now - lastFire.value < rule.cooldownS then COOLDOWN
      else FIRED
    }

    function Marked(rule: Rule, now: real): Timing {
      if rule.hysteresis > 0.0 then Timing(Some(now), None, false) else this.(lastFire := Some(now))
    }
  }

  /** The evaluator's own account of the open suppression episode, with the events it has published. */
  datatype Ledger = Ledger(reason: string, ticks: nat, reasons: seq<string>, events: seq<Event>) {

    function Suppressed(next: string): Ledger {
      if next == reason then this.(ticks := ticks + 1)
      else Ledger(next, ticks + 1, if next in reasons then reasons else reasons + [next],
                  events + [Suppress(next, None)])
    }

    function Released(): Ledger {
      if reason == "" then this
      else Ledger("", 0, [],
                  events + [Suppress(Join(reasons, ",") + " suppressed " + Decimal(ticks) + " ticks", Some(ticks))])
    }
  }

  /** A rule's whole state as a value. */
  datatype Core = Core(timing: Timing, ledger: Ledger, streak: View) {

    function Suppressed(reason: string): Core {
      Core(timing, ledger.Suppressed(reason), streak.Entered(reason))
    }

    function Released(): Core {
      if ledger.reason == "" then this else Core(timing, ledger.Released(), streak.Ended())
    }

    function Fired(rule: Rule, now: real, detail: string): Core {
      var quiet := Released();
      Core(timing.Marked(rule, now), quiet.ledger.(events := quiet.ledger.events + [Fire(detail)]),
           quiet.streak.Fired(detail))
    }
  }

  const INITIAL := Core(Timing(None, None, true), Ledger("", 0, [], []), CLOSED)

  class RuleState {
    var lastFire: real
    var hasFired: bool
    var falseSince: real
    var hasFalseSince: bool
    var armed: bool

    var suppressReason: string
    var suppressTicks: nat
    var suppressReasons: seq<string>
    var events: seq<Event> // what has been published
    const streak: Streak

    function Value(): Core
      reads this, streak
    {
      Core(Timing(if hasFired then Some(lastFire) else None, if hasFalseSince then Some(falseSince) else None, armed),
           Ledger(suppressReason, suppressTicks, suppressReasons, events),
           streak.Value())
    }

    constructor ()
      ensures Value() == INITIAL && fresh(streak)
    {
      lastFire, hasFired, falseSince, hasFalseSince, armed := 0.0, false, 0.0, false, true;
      suppressReason, suppressTicks, suppressReasons, events := "", 0, [], [];
      streak := new Streak();
    }

    /** Advances the re-arm state given this tick's predicate result. */
    method StepArming(rule: Rule, matched: bool, now: real)
      modifies this
      ensures Value() == old(Value()).(timing := old(Value()).timing.Stepped(rule, matched, now))
    {
      if matched {
        hasFalseSince := false;
        return;
      }
      if !hasFalseSince {
        falseSince := now;
        hasFalseSince := true;
      }
      if !armed && now - falseSince >= rule.hysteresis {
        armed := true;
      }
    }

    /** Whether the rule may fire now, or why it is suppressed. */
    function FireReason(rule: Rule, now: real): (r: string)
      reads this, streak
      ensures r == Value().timing.Reason(rule, now)
    {
      if !armed then REARMING
      else if hasFired && now - lastFire < rule.cooldownS then COOLDOWN
      else FIRED
    }

    method MarkFired(rule: Rule, now: real)
      modifies this
      ensures Value() == old(Value()).(timing := old(Value()).timing.Marked(rule, now))
    {
      lastFire := now;
      hasFired := true;
      if rule.hysteresis > 0.0 {
        armed := false;
        hasFalseSince := false;
      }
    }

    /** Records one suppressed tick, publishing only on an episode transition. */
    method Suppress(reason: string)
      modifies this, streak
      ensures Value() == old(Value()).Suppressed(reason)
    {
      suppressTicks := suppressTicks + 1;
      streak.Enter(reason);
      if reason == suppressReason {
        return;
      }
      if reason !in suppressReasons {
        suppressReasons := suppressReasons + [reason];
      }
      suppressReason := reason;
      events := events + [Event.Suppress(reason, None)];
    }

    /** Closes an open suppression episode with one summary. */
    method Release()
      modifies this, streak
      ensures Value() == old(Value()).Released()
    {
      if suppressReason == "" {
        return;
      }
      var summary := Join(suppressReasons, ",") + " suppressed " + Decimal(suppressTicks) + " ticks";
      events := events + [Event.Suppress(summary, Some(suppressTicks))];
      streak.End();
      suppressReason, suppressTicks, suppressReasons := "", 0, [];
    }

    method EmitFire(detail: string)
      modifies this, streak
      ensures Value() == Core(old(Value()).timing,
                              old(Value()).ledger.(events := old(events) + [Event.Fire(detail)]),
                              old(Value()).streak.Fired(detail))
    {
      streak.Fire(detail);
      events := events + [Event.Fire(detail)];
    }
  }
}
