/** The one admission registry: standing goals, inhibitions and queued intents. */
module Registries {
  import opened Common
  import opened Text
  import opened Behaviors

  /** One admission asked for; an empty name means the action's own, no class means stoppable. */
  datatype Request = Request(name: string, action: string, durationS: Option<real>, loops: bool,
                             class_: Option<StopClass>)

  datatype Goal = Goal(name: string, action: string, params: map<string, real>)

  /** A queued intent that needs a tick to apply. */
  datatype Pending = PendingEvict(name: string) | PendingAdmit(request: Request)

  /** The name a request's behavior goes by. */
  function NameOf(r: Request): string {
    if r.name == "" then r.action else r.name
  }

  /** A standing goal asks, every tick, for an unbounded repeating admission under its own name. */
  function GoalRequest(g: Goal): Request {
    Request(g.name, g.action, None, true, None)
  }

  /** The admission cannot go on for ever: a repeating one carries a bound. */
  predicate Finite(r: Request) {
    r.class_.None? && (r.loops ==> r.durationS.Some?)
  }

  function StandingOf(order: seq<string>, goals: map<string, Goal>): (r: seq<Goal>)
    requires forall n :: n in order ==> n in goals
    ensures |r| == |order| && forall i :: 0 <= i < |r| ==> r[i] == goals[order[i]]
  {
    seq(|order|, i requires 0 <= i < |order| => goals[order[i]])
  }

  /** Goals with a name each, all different, and an action. */
  predicate ProperGoals(goals: seq<Goal>) {
    && (forall g :: g in goals ==> g.name != "" && g.action != "")
    && (forall i, j :: 0 <= i < j < |goals| ==> goals[i].name != goals[j].name)
  }

  class Registry {
    var queue: seq<Pending>
    var goals: map<string, Goal>
    var goalOrder: seq<string>
    var inhibited: set<string>
    var seq_: nat

    /** The goal order lists each standing goal once, a goal knows its own name, and every queued admission ends. */
    ghost predicate Valid()
      reads `queue, `goals, `goalOrder
    {
      && NoRepeats(goalOrder)
      && (forall n :: n in goalOrder <==> n in goals)
      && (forall n :: n in goals ==> n != "" && goals[n].name == n && goals[n].action != "")
      && (forall p :: p in queue && p.PendingAdmit? ==> Finite(p.request))
    }

    constructor ()
      ensures Valid() && goals == map[] && inhibited == {} && queue == [] && seq_ == 0
    {
      queue, goals, goalOrder, inhibited, seq_ := [], map[], [], {}, 0;
    }

    /** The standing goals in declaration order. */
    function Standing(): (r: seq<Goal>)
      requires Valid()
      reads `queue, `goals, `goalOrder
      ensures |r| == |goalOrder| && forall i :: 0 <= i < |r| ==> goalOrder[i] in goals && r[i] == goals[goalOrder[i]]
      ensures ProperGoals(r)
    {
      StandingOf(goalOrder, goals)
    }

    /** Queues one bounded admission; an unbounded looping one is refused. `loops` is whether the action repeats. */
    method RunOnce(action: string, duration: real, loops: bool) returns (ok: bool)
      requires Valid()
      modifies `queue
      ensures Valid()
      ensures ok <==> action != "" && duration >= 0.0 && (loops ==> duration > 0.0)
      ensures queue == if ok then old(queue) +
                       [PendingAdmit(Request("", action, if duration > 0.0 then Some(duration) else None, loops, None))]
                       else old(queue)
    {
      if action == "" {
        return false;
      }
      var bound: Option<real> := None;
      if duration > 0.0 {
        bound := Some(duration);
      } else if duration < 0.0 {
        return false;
      }
      if bound.None? && loops {
        return false;
      }
      queue := queue + [PendingAdmit(Request("", action, bound, loops, None))];
      return true;
    }

    /** Declares a goal, or re-declares it: a change of action or params evicts what is running under its name. */
    method StandingGoal(name: string, action: string, params: map<string, real>) returns (ok: bool)
      requires Valid()
      modifies `goals, `goalOrder, `queue
      ensures Valid()
      ensures ok <==> name != "" && action != ""
      ensures goals == if ok then old(goals)[name := Goal(name, action, params)] else old(goals)
      ensures goalOrder == if ok && name !in old(goals) then old(goalOrder) + [name] else old(goalOrder)
      ensures queue == if ok && name in old(goals) && old(goals)[name] != Goal(name, action, params)
                       then old(queue) + [PendingEvict(name)] else old(queue)
    {
      if name == "" || action == "" {
        return false;
      }
      var existed := name in goals;
      var replaced := existed && (goals[name].action != action || goals[name].params != params);
      goals := goals[name := Goal(name, action, params)];
      if !existed {
        goalOrder := goalOrder + [name];
      }
      if replaced {
        queue := queue + [PendingEvict(name)];
      }
      return true;
    }

    /** Clears a goal and queues the eviction of what it sustains. */
    method Withdraw(name: string) returns (stood: bool)
      requires Valid()
      modifies `goals, `goalOrder, `queue
      ensures Valid()
      ensures stood <==> name in old(goals)
      ensures goals == old(goals) - {name}
      ensures goalOrder == Filter(old(goalOrder), OtherThan(name))
      ensures queue == if stood then old(queue) + [PendingEvict(name)] else old(queue)
    {
      stood := name in goals;
      WithoutOne(goalOrder, name);
      goals := goals - {name};
      if stood {
        goalOrder := Remaining(goalOrder, name);
        queue := queue + [PendingEvict(name)];
      }
    }

    method Inhibit(names: seq<string>)
      requires Valid()
      modifies `inhibited
      ensures Valid() && inhibited == old(inhibited) + set n | n in names && n != ""
    {
      for i := 0 to |names|
        invariant Valid() && inhibited == old(inhibited) + set n | n in names[..i] && n != ""
      {
        assert names[..i + 1] == names[..i] + [names[i]];
        if names[i] != "" {
          inhibited := inhibited + {names[i]};
        }
      }
      assert names[..|names|] == names;
    }

    method Uninhibit(names: seq<string>)
      requires Valid()
      modifies `inhibited
      ensures Valid() && inhibited == old(inhibited) - set n | n in names
    {
      for i := 0 to |names|
        invariant Valid() && inhibited == old(inhibited) - set n | n in names[..i]
      {
        assert names[..i + 1] == names[..i] + [names[i]];
        inhibited := inhibited - {names[i]};
      }
      assert names[..|names|] == names;
    }

    /** Either word is inhibited, by the registry or by this tick's inhibit rules. */
    predicate Blocks(byRules: set<string>, name: string, action: string): (r: bool)
      reads `inhibited
      ensures r <==> BlockedBy(inhibited + byRules, name, action)
    {
      || (name != "" && (name in inhibited || name in byRules))
      || (action != "" && (action in inhibited || action in byRules))
    }

    method Drain() returns (out: seq<Pending>)
      requires Valid()
      modifies `queue
      ensures Valid() && out == old(queue) && queue == []
    {
      out := queue;
      queue := [];
    }

    method NextId(prefix: string, name: string) returns (id: string)
      requires Valid()
      modifies `seq_
      ensures Valid() && seq_ == old(seq_) + 1 && id == RequestId(prefix, name, seq_)
    {
      seq_ := seq_ + 1;
      id := RequestId(prefix, name, seq_);
    }
  }

  /** One of the two words a behavior answers to is among these. */
  predicate BlockedBy(words: set<string>, name: string, action: string) {
    (name != "" && name in words) || (action != "" && action in words)
  }

  function OtherThan(name: string): string -> bool {
    (n: string) => n != name
  }

  method Remaining(order: seq<string>, name: string) returns (kept: seq<string>)
    ensures kept == Filter(order, OtherThan(name))
  {
    kept := [];
    for i := 0 to |order|
      invariant kept == Filter(order[..i], OtherThan(name))
    {
      FilterStep(order, i, OtherThan(name));
      if order[i] != name {
        kept := kept + [order[i]];
      }
    }
    assert order[..|order|] == order;
  }

  function RequestId(prefix: string, name: string, n: nat): (id: string)
    ensures id != ""
  {
    prefix + ":" + name + ":" + Decimal(n)
  }

  /** Minting once more never gives an id of the same name again. */
  lemma RequestIdInjective(prefix: string, name: string, m: nat, n: nat)
    requires RequestId(prefix, name, m) == RequestId(prefix, name, n)
    ensures m == n
  {
    var head := prefix + ":" + name + ":";
    assert Decimal(m) == RequestId(prefix, name, m)[|head|..] == RequestId(prefix, name, n)[|head|..] == Decimal(n);
    DecimalInjective(m, n);
  }

  lemma {:induction false} WithoutOne(names: seq<string>, name: string)
    requires NoRepeats(names)
    ensures NoRepeats(Filter(names, OtherThan(name)))
    ensures forall n :: n in Filter(names, OtherThan(name)) <==> n in names && n != name
    ensures name !in names ==> Filter(names, OtherThan(name)) == names
  {
    var keep := OtherThan(name);
    if names != [] {
      var front, last := names[..|names| - 1], names[|names| - 1];
      assert names == front + [last];
      WithoutOne(front, name);
      FilterSnoc(front, last, keep);
      assert forall i :: 0 <= i < |front| ==> front[i] == names[i] != last;
    }
  }
}
