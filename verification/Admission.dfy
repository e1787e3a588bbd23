/**
 * The one admission path, and the registry's three parts of a tick: apply the queue, enforce inhibitions,
 * sustain goals.
 */
module Admissions {
  import opened Common
  import opened Text
  import opened RuleStates
  import opened Trajectories
  import opened Behaviors
  import opened Arbitration
  import opened TickEngine
  import opened Registries

  const INVALID := "invalid"

  datatype Admission = Admitted | NotAdmitted(reason: string)

  function LiveNames(live: seq<Behavior>): set<string> {
    set b | b in live :: b.name
  }

  // ---- building a behavior from a request ------------------------------------------------------------------

  /** The longest trajectory an action declares, or 0. */
  ghost predicate Longest(trajectories: map<string, Trajectory>, d: real) {
    && d >= 0.0 && (forall ch :: ch in trajectories ==> trajectories[ch].duration <= d)
    && (d == 0.0 || exists ch :: ch in trajectories && trajectories[ch].duration == d)
  }

  /** The behavior a request asks the engine to admit. */
  ghost predicate Built(v: Vocabulary, id: string, r: Request, b: Behavior) {
    && b.id == id && b.name == NameOf(r) && b.action == r.action && b.channels == [] && b.trajectories == map[]
    && !b.contribute && b.admittedAt.None?
    && b.class_ == (if r.class_.Some? then r.class_.value else Stoppable)
    && b.lifetime.loops == r.loops
    && (r.durationS.Some? ==> b.lifetime.durationS == r.durationS)
    && (r.durationS.None? && r.loops ==> b.lifetime.durationS.None?)
    && (r.durationS.None? && !r.loops ==>
          var action := FindAction(v, r.action);
          if action.None? then b.lifetime.durationS.None?
          else exists d :: Longest(action.value.trajectories, d)
                           && b.lifetime.durationS == if d > 0.0 then Some(d) else None)
  }

  /** A request builds one behavior. */
  lemma BuiltOnce(v: Vocabulary, id: string, r: Request, a: Behavior, b: Behavior)
    requires Built(v, id, r, a) && Built(v, id, r, b)
    ensures a == b
  {
    if r.durationS.None? && !r.loops && FindAction(v, r.action).Some? {
      var t := FindAction(v, r.action).value.trajectories;
      var d :| Longest(t, d) && a.lifetime.durationS == if d > 0.0 then Some(d) else None;
      var e :| Longest(t, e) && b.lifetime.durationS == if e > 0.0 then Some(e) else None;
      assert d == e;
    }
  }

  /** Once bound, what a finite request built has a positive duration. */
  lemma FiniteMeansBounded(v: Vocabulary, id: string, r: Request, b: Behavior)
    requires ValidVocabulary(v) && Built(v, id, r, b) && Finite(r) && Bound(v, b).Some?
    ensures Bound(v, b).value.lifetime.durationS.Some? && Bound(v, b).value.lifetime.durationS.value > 0.0
  {
    BoundIsWell(v, b);
  }

  method ActionDuration(v: Vocabulary, name: string) returns (d: Option<real>)
    ensures var action := FindAction(v, name);
            if action.None? then d.None?
            else exists longest ::
                   Longest(action.value.trajectories, longest) && d == if longest > 0.0 then Some(longest) else None
  {
    var action := FindAction(v, name);
    if action.None? {
      return None;
    }
    var trajectories := action.value.trajectories;
    var longest := 0.0;
    var left := trajectories.Keys;
    while left != {}
      invariant left <= trajectories.Keys && longest >= 0.0
      invariant forall ch :: ch in trajectories && ch !in left ==> trajectories[ch].duration <= longest
      invariant longest == 0.0 || exists ch :: ch in trajectories && trajectories[ch].duration == longest
    {
      var ch :| ch in left;
      if trajectories[ch].duration > longest {
        longest := trajectories[ch].duration;
      }
      left := left - {ch};
    }
    assert Longest(trajectories, longest);
    d := if longest > 0.0 then Some(longest) else None;
  }

  method Build(v: Vocabulary, id: string, r: Request) returns (b: Behavior)
    ensures Built(v, id, r, b)
  {
    var class_ := if r.class_.Some? then r.class_.value else Stoppable;
    var durationS := r.durationS;
    if r.durationS.None? && !r.loops {
      durationS := ActionDuration(v, r.action);
    }
    b := Behavior(NameOf(r), id, class_, [], Lifetime(durationS, r.loops), r.action, None, map[], false);
  }

  // ---- one admission ---------------------------------------------------------------------------------------

  /**
   * `after` is `live` with one more behavior: stoppable, running what was asked for, and ending if the request
   * is finite.
   */
  ghost predicate Joined(live: seq<Behavior>, r: Request, after: seq<Behavior>) {
    && |after| == |live| + 1 && after[..|live|] == live
    && after[|live|].name == NameOf(r) && after[|live|].action == r.action && after[|live|].class_.Stoppable?
    && after[|live|].lifetime.loops == r.loops && !after[|live|].contribute && after[|live|].admittedAt.Some?
    && (r.durationS.Some? ==> after[|live|].lifetime.durationS == r.durationS)
    && (r.durationS.None? && r.loops ==> after[|live|].lifetime.durationS.None?)
    && (Finite(r) ==> after[|live|].lifetime.durationS.Some? && after[|live|].lifetime.durationS.value > 0.0)
  }

  /** A newcomer that is not stopping displaces nobody. */
  lemma PoliteJoins(live: seq<Behavior>, admitted: Behavior)
    requires !admitted.class_.Stopping?
    ensures WithNewcomer(live, admitted) == live + [admitted]
  {
    FilterAll(live, Undisplaced(admitted));
  }

  lemma JoinedBy(v: Vocabulary, live: seq<Behavior>, id: string, r: Request, b: Behavior, clock: real,
                 admitted: Behavior)
    requires ValidVocabulary(v) && Built(v, id, r, b) && r.class_.None? && Newcomer(v, live, b, clock, admitted)
    ensures Joined(live, r, WithNewcomer(live, admitted))
  {
    BoundIsWell(v, b);
    PoliteJoins(live, admitted);
    if Finite(r) {
      FiniteMeansBounded(v, id, r, b);
    }
  }

  lemma TurnedAwayIff(v: Vocabulary, live: seq<Behavior>, id: string, r: Request, b: Behavior)
    requires Built(v, id, r, b)
    ensures TurnedAway(v, live, id, r) <==> Refusing(v, live, b).Some?
  {
    if TurnedAway(v, live, id, r) {
      var a :| Built(v, id, r, a) && Refusing(v, live, a).Some?;
      BuiltOnce(v, id, r, a, b);
    }
  }

  /** Why the engine turns a request away: it does not bind, or its id is taken. */
  ghost predicate TurnedAway(v: Vocabulary, live: seq<Behavior>, id: string, r: Request) {
    exists b :: Built(v, id, r, b) && Refusing(v, live, b).Some?
  }

  /** A trajectory of the action takes some time. */
  ghost predicate TakesTime(a: Action) {
    exists ch :: ch in a.trajectories && a.trajectories[ch].duration > 0.0
  }

  /** What a request lasts: the bound it brings, or for ever if it repeats, or as long as its action does. */
  ghost predicate Lasts(v: Vocabulary, r: Request) {
    match r.durationS
    case Some(d) => d > 0.0
    case None => r.loops || exists a :: a in v.actions && FindAction(v, r.action) == Some(a) && TakesTime(a)
  }

  /**
   * A request is turned away exactly when its action is not declared, it would not last any time, or somebody live has
   * its id.
   */
  lemma TurnedAwayExactly(v: Vocabulary, live: seq<Behavior>, id: string, r: Request)
    requires ValidVocabulary(v) && r.class_.None? && id != ""
    ensures TurnedAway(v, live, id, r) <==>
              !(r.action != "" && Declares(v, r.action)) || !Lasts(v, r) || exists x :: x in live && x.id == id
  {
    var b := BuiltFrom(v, id, r);
    TurnedAwayIff(v, live, id, r, b);
    BindsExactly(v, b);
    LastsExactly(v, id, r, b);
  }

  lemma {:induction false} LongestExists(trajectories: map<string, Trajectory>) returns (d: real)
    ensures Longest(trajectories, d)
    decreases |trajectories|
  {
    if trajectories == map[] {
      d := 0.0;
    } else {
      var ch :| ch in trajectories;
      var rest := trajectories - {ch};
      assert rest.Keys == trajectories.Keys - {ch};
      var e := LongestExists(rest);
      d := if trajectories[ch].duration > e then trajectories[ch].duration else e;
      forall c | c in trajectories ensures trajectories[c].duration <= d {
        assert c == ch || (c in rest && rest[c] == trajectories[c]);
      }
    }
  }

  lemma BuiltFrom(v: Vocabulary, id: string, r: Request) returns (b: Behavior)
    ensures Built(v, id, r, b)
  {
    var durationS := r.durationS;
    if r.durationS.None? && !r.loops && FindAction(v, r.action).Some? {
      var d := LongestExists(FindAction(v, r.action).value.trajectories);
      durationS := if d > 0.0 then Some(d) else None;
    }
    var class_ := if r.class_.Some? then r.class_.value else Stoppable;
    b := Behavior(NameOf(r), id, class_, [], Lifetime(durationS, r.loops), r.action, None, map[], false);
  }

  lemma LastsExactly(v: Vocabulary, id: string, r: Request, b: Behavior)
    requires Built(v, id, r, b)
    ensures HasEnd(b.lifetime) <==> Lasts(v, r)
  {
    if r.durationS.None? && !r.loops && FindAction(v, r.action).Some? {
      var a := FindAction(v, r.action).value;
      var d :| Longest(a.trajectories, d) && b.lifetime.durationS == if d > 0.0 then Some(d) else None;
      assert d > 0.0 <==> TakesTime(a);
    }
  }

  /** THE admission path: rule fires and injected intents alike. */
  method AdmitRequest(engine: Engine, registry: Registry, prefix: string, r: Request, byRules: set<string>, clock: real)
    returns (outcome: Admission)
    requires engine.Valid() && registry.Valid() && r.class_.None?
    modifies engine`active, engine`count, engine`seq_, engine`roll, engine.active, registry`seq_
    ensures engine.Valid() && registry.Valid() && (engine.active == old(engine.active) || fresh(engine.active))
    ensures registry.Blocks(byRules, NameOf(r), r.action) ==>
              outcome == NotAdmitted(INHIBITED) && registry.seq_ == old(registry.seq_)
    ensures outcome == NotAdmitted(INHIBITED) || outcome == NotAdmitted(INVALID) || outcome == Admitted
    ensures outcome.Admitted? ==>
              Joined(old(engine.Live()), r, engine.Live())
              && engine.Live()[|old(engine.Live())|].id == RequestId(prefix, NameOf(r), registry.seq_)
              && engine.roll == old(engine.roll) + [engine.Live()[|old(engine.Live())|]]
    ensures outcome.NotAdmitted? ==> engine.Live() == old(engine.Live()) && engine.roll == old(engine.roll)
    ensures old(engine.roll) <= engine.roll
    ensures !registry.Blocks(byRules, NameOf(r), r.action) ==>
              && registry.seq_ == old(registry.seq_) + 1
              && (outcome == NotAdmitted(INVALID) <==>
                    TurnedAway(engine.voc, old(engine.Live()), RequestId(prefix, NameOf(r), registry.seq_), r))
              && outcome != NotAdmitted(INHIBITED)
  {
    if registry.Blocks(byRules, NameOf(r), r.action) {
      return NotAdmitted(INHIBITED);
    }
    var id := registry.NextId(prefix, NameOf(r));
    var b := Build(engine.voc, id, r);
    ghost var was := engine.Live();
    var result := engine.AdmitBehavior(b, clock);
    TurnedAwayIff(engine.voc, was, id, r, b);
    if result.Err? {
      return NotAdmitted(INVALID);
    }
    JoinedBy(engine.voc, was, id, r, b, clock, engine.Live()[|engine.Live()| - 1]);
    return Admitted;
  }

  // ---- the registry's part of a tick -----------------------------------------------------------------------

  /** The inhibited words, and the name of every goal whose action is one of them, in declaration order. */
  function Cascade(blocked: set<string>, goals: seq<Goal>): (r: set<string>)
    ensures blocked <= r
    ensures forall i :: 0 <= i < |goals| && goals[i].action in blocked ==> goals[i].name in r
    ensures blocked == {} ==> r == {}
  {
    if goals == [] then blocked
    else
      var before, last := Cascade(blocked, goals[..|goals| - 1]), goals[|goals| - 1];
      if last.action in before then before + {last.name} else before
  }

  /**
   * A chain of goals, in declaration order, that leads from a blocked word to this one: each goal's action is the word
   * before, and its name the next.
   */
  ghost predicate Chain(words: set<string>, goals: seq<Goal>, links: seq<nat>, word: string) {
    if links == [] then word in words
    else
      var front, last := links[..|links| - 1], links[|links| - 1];
      && last < |goals| && goals[last].name == word && (forall l :: l in front ==> l < last)
      && Chain(words, goals, front, goals[last].action)
  }

  /** Enforcement reaches this word. */
  ghost predicate Reached(words: set<string>, goals: seq<Goal>, word: string) {
    exists links :: Chain(words, goals, links, word)
  }

  /** A chain stays one when later goals are added or taken away. */
  lemma {:induction false} ChainWithin(words: set<string>, goals: seq<Goal>, n: nat, links: seq<nat>, word: string)
    requires n <= |goals|
    ensures Chain(words, goals[..n], links, word) <==>
              Chain(words, goals, links, word) && forall l :: l in links ==> l < n
    decreases |links|
  {
    if links != [] {
      var front, last := links[..|links| - 1], links[|links| - 1];
      assert links == front + [last] && last in links;
      if last < n {
        assert goals[..n][last] == goals[last];
        ChainWithin(words, goals, n, front, goals[last].action);
      }
    }
  }

  lemma LinkOn(words: set<string>, goals: seq<Goal>, links: seq<nat>)
    requires goals != [] && Chain(words, goals[..|goals| - 1], links, goals[|goals| - 1].action)
    ensures Reached(words, goals, goals[|goals| - 1].name)
  {
    var n := |goals| - 1;
    ChainWithin(words, goals, n, links, goals[n].action);
    var more := links + [n];
    assert more[..|links|] == links;
    assert Chain(words, goals, more, goals[n].name);
  }

  /** The cascade is exactly what is blocked and what some chain of goals leads to from there. */
  lemma {:induction false} CascadeExactly(words: set<string>, goals: seq<Goal>, word: string)
    ensures word in Cascade(words, goals) <==> Reached(words, goals, word)
  {
    if goals == [] {
      assert word in words ==> Chain(words, goals, [], word);
    } else {
      var n := |goals| - 1;
      var front, last := goals[..n], goals[n];
      CascadeExactly(words, front, word);
      CascadeExactly(words, front, last.action);
      if Reached(words, front, word) {
        var links :| Chain(words, front, links, word);
        ChainWithin(words, goals, n, links, word);
      }
      if Reached(words, front, last.action) {
        var links :| Chain(words, front, links, last.action);
        LinkOn(words, goals, links);
      }
      forall links | Chain(words, goals, links, word) ensures word in Cascade(words, goals) {
        ChainEnds(words, goals, links, word);
      }
    }
  }

  /** Where a chain over some goals ends: before the last of them, or at it. */
  lemma ChainEnds(words: set<string>, goals: seq<Goal>, links: seq<nat>, word: string)
    requires goals != [] && Chain(words, goals, links, word)
    ensures var n := |goals| - 1;
            || Reached(words, goals[..n], word)
            || (word == goals[n].name && Reached(words, goals[..n], goals[n].action))
  {
    var n := |goals| - 1;
    if links == [] {
      assert Chain(words, goals[..n], links, word);
    } else {
      var front, last := links[..|links| - 1], links[|links| - 1];
      assert links == front + [last];
      if last < n {
        ChainWithin(words, goals, n, links, word);
      } else {
        ChainWithin(words, goals, n, front, goals[n].action);
      }
    }
  }

  /** Where no goal's name is another's action, that is the blocked words and the goals whose action is one of them. */
  lemma CascadeInOneStep(words: set<string>, goals: seq<Goal>)
    requires forall i, j :: 0 <= i < |goals| && 0 <= j < |goals| && i != j ==> goals[i].name != goals[j].action
    ensures forall word :: word in Cascade(words, goals) <==>
              || word in words
              || exists i :: 0 <= i < |goals| && goals[i].name == word && goals[i].action in words
  {
    forall word ensures word in Cascade(words, goals) <==>
        || word in words
        || exists i :: 0 <= i < |goals| && goals[i].name == word && goals[i].action in words
    {
      CascadeExactly(words, goals, word);
      forall links | Chain(words, goals, links, word)
        ensures word in words || exists i :: 0 <= i < |goals| && goals[i].name == word && goals[i].action in words
      {
        OneLink(words, goals, links, word);
      }
    }
  }

  lemma LastIsIn(links: seq<nat>)
    ensures links != [] ==> links[|links| - 1] in links
  {
  }

  lemma OneLink(words: set<string>, goals: seq<Goal>, links: seq<nat>, word: string)
    requires forall i, j :: 0 <= i < |goals| && 0 <= j < |goals| && i != j ==> goals[i].name != goals[j].action
    requires Chain(words, goals, links, word)
    ensures word in words || exists i :: 0 <= i < |goals| && goals[i].name == word && goals[i].action in words
  {
    if links != [] {
      var front := links[..|links| - 1];
      LastIsIn(front);
      assert front == [];
    }
  }

  /** Neither the name nor the id is one of these. */
  function NotAmong(words: set<string>): Behavior -> bool {
    (b: Behavior) => b.name !in words && b.id !in words
  }

  /** Enforcement leaves this behavior alone: it reaches neither its name nor, where something runs under it, its id. */
  ghost predicate Untouched(live: seq<Behavior>, goals: seq<Goal>, words: set<string>, b: Behavior) {
    && !Reached(words, goals, b.name)
    && !(Reached(words, goals, b.id) && exists other :: other in live && other.name == b.id)
  }

  /** What is live after enforcement: exactly what it leaves alone, in the same order. */
  lemma EnforcesExactly(live: seq<Behavior>, goals: seq<Goal>, words: set<string>)
    ensures var after := Filter(live, NotAmong(Cascade(words, goals) * LiveNames(live)));
            forall b :: b in after <==> b in live && Untouched(live, goals, words, b)
  {
    var keep := NotAmong(Cascade(words, goals) * LiveNames(live));
    forall b ensures b in Filter(live, keep) <==> b in live && Untouched(live, goals, words, b) {
      if b in live {
        CascadeExactly(words, goals, b.name);
        CascadeExactly(words, goals, b.id);
        if keep(b) {
          FilterKeeps(live, keep, b);
        }
      }
    }
  }

  /** Evicts everything running under a blocked word. */
  method Enforce(engine: Engine, registry: Registry, byRules: set<string>)
    requires engine.Valid() && registry.Valid()
    modifies engine`count, engine.active
    ensures engine.Valid() && engine.active == old(engine.active)
    ensures var gone := Cascade(registry.inhibited + byRules, registry.Standing()) * LiveNames(old(engine.Live()));
            engine.Live() == Filter(old(engine.Live()), NotAmong(gone))
    ensures forall b :: b in engine.Live() <==>
              && b in old(engine.Live())
              && Untouched(old(engine.Live()), registry.Standing(), registry.inhibited + byRules, b)
  {
    ghost var was := engine.Live();
    var blocked := registry.inhibited + byRules;
    var goals := registry.Standing();
    EnforcesExactly(was, goals, blocked);
    if blocked == {} {
      assert Cascade(blocked, goals) * LiveNames(was) == {};
      FilterAll(was, NotAmong({}));
      return;
    }
    blocked := CascadeOver(blocked, goals);
    EvictAll(engine, blocked * LiveNames(engine.active[..engine.count]));
  }

  method CascadeOver(words: set<string>, goals: seq<Goal>) returns (blocked: set<string>)
    ensures blocked == Cascade(words, goals)
  {
    blocked := words;
    for i := 0 to |goals|
      invariant blocked == Cascade(words, goals[..i])
    {
      assert goals[..i + 1][..i] == goals[..i];
      if goals[i].action in blocked {
        blocked := blocked + {goals[i].name};
      }
    }
    assert goals[..|goals|] == goals;
  }

  method EvictAll(engine: Engine, names: set<string>)
    requires engine.Valid() && "" !in names
    modifies engine`count, engine.active
    ensures engine.Valid() && engine.active == old(engine.active)
    ensures engine.Live() == Filter(old(engine.Live()), NotAmong(names))
  {
    ghost var was := engine.Live();
    var left, done := names, {};
    FilterAll(was, NotAmong(done));
    while left != {}
      invariant engine.Valid() && engine.active == old(engine.active)
      invariant left + done == names
      invariant engine.Live() == Filter(was, NotAmong(done))
    {
      var n :| n in left;
      var _ := engine.Evict(n);
      EvictOneMore(was, done, n);
      left, done := left - {n}, done + {n};
    }
    assert done == names;
  }

  lemma EvictOneMore(live: seq<Behavior>, done: set<string>, n: string)
    requires n != ""
    ensures WithoutName(Filter(live, NotAmong(done)), n) ==
            Filter(live, NotAmong(done + {n}))
  {
    var f, g := NotAmong(done), NotNamed(n);
    FilterTwice(live, f, g, NotAmong(done + {n}));
  }

  /** A goal a tick has dealt with: it is live, or blocked, or the engine turned its behavior away. */
  ghost predicate Settled(v: Vocabulary, live: seq<Behavior>, prefix: string, g: Goal, blocked: bool, from: nat,
                          upTo: nat) {
    || g.name in LiveNames(live)
    || blocked
    || exists k: nat :: from < k <= upTo && TurnedAway(v, live, RequestId(prefix, g.name, k), GoalRequest(g))
  }

  lemma SettledStays(v: Vocabulary, live: seq<Behavior>, more: seq<Behavior>, prefix: string, g: Goal, blocked: bool,
                    from: nat, m: nat, n: nat)
    requires Settled(v, live, prefix, g, blocked, from, m) && m <= n
    ensures Settled(v, live + more, prefix, g, blocked, from, n)
  {
    if exists k: nat :: from < k <= m && TurnedAway(v, live, RequestId(prefix, g.name, k), GoalRequest(g)) {
      var k: nat :| from < k <= m && TurnedAway(v, live, RequestId(prefix, g.name, k), GoalRequest(g));
      var b :| Built(v, RequestId(prefix, g.name, k), GoalRequest(g), b) && Refusing(v, live, b).Some?;
      assert Refusing(v, live + more, b).Some?;
      assert TurnedAway(v, live + more, RequestId(prefix, g.name, k), GoalRequest(g));
    }
  }

  /** Whatever was added since `was` serves one of these goals, and that goal is not blocked. */
  ghost predicate AddedFor(was: seq<Behavior>, live: seq<Behavior>, goals: seq<Goal>, words: set<string>) {
    && was <= live
    && forall j :: |was| <= j < |live| ==> OfGoal(live[j], goals, words)
  }

  /** It goes by the name of one of these goals, runs its action without end, and that goal is not blocked. */
  ghost predicate OfGoal(b: Behavior, goals: seq<Goal>, words: set<string>) {
    exists i :: 0 <= i < |goals| && Serves(b, goals[i]) && !BlockedBy(words, b.name, goals[i].action)
  }

  predicate Serves(b: Behavior, g: Goal) {
    && b.name == g.name && b.action == g.action && b.class_.Stoppable?
    && b.lifetime.loops && b.lifetime.durationS.None?
  }

  ghost predicate AllSettled(v: Vocabulary, live: seq<Behavior>, prefix: string, goals: seq<Goal>, words: set<string>,
                             from: nat, upTo: nat) {
    forall i :: 0 <= i < |goals| ==> Settled(v, live, prefix, goals[i],
                                             BlockedBy(words, goals[i].name, goals[i].action), from, upTo)
  }

  lemma SustainNext(v: Vocabulary, was: seq<Behavior>, mid: seq<Behavior>, live: seq<Behavior>, prefix: string,
                    goals: seq<Goal>, n: nat, words: set<string>, from: nat, seqMid: nat, seqAfter: nat)
    requires n < |goals| && goals[n].name != "" && AddedFor(was, mid, goals[..n], words)
    requires AllSettled(v, mid, prefix, goals[..n], words, from, seqMid) && seqMid <= seqAfter
    requires TurnTaken(mid, goals[n], words, live)
    requires Settled(v, live, prefix, goals[n], BlockedBy(words, goals[n].name, goals[n].action), from, seqAfter)
    ensures AddedFor(was, live, goals[..n + 1], words)
    ensures AllSettled(v, live, prefix, goals[..n + 1], words, from, seqAfter)
  {
    var more := live[|mid|..];
    assert live == mid + more;
    forall i | 0 <= i < n
      ensures Settled(v, live, prefix, goals[i], BlockedBy(words, goals[i].name, goals[i].action), from, seqAfter)
    {
      assert goals[..n][i] == goals[i];
      SettledStays(v, mid, more, prefix, goals[i], BlockedBy(words, goals[i].name, goals[i].action), from, seqMid,
                   seqAfter);
    }
    forall j | |was| <= j < |live| ensures OfGoal(live[j], goals[..n + 1], words) {
      if j < |mid| {
        assert live[j] == mid[j];
        var i :| 0 <= i < n && Serves(mid[j], goals[..n][i]) && !BlockedBy(words, mid[j].name, goals[..n][i].action);
        assert goals[..n + 1][i] == goals[..n][i];
      } else {
        assert goals[..n + 1][n] == goals[n];
      }
    }
  }

  /** What one goal's turn may do to the live set: nothing, or one admission under its name if it is not blocked. */
  ghost predicate TurnTaken(live: seq<Behavior>, g: Goal, words: set<string>, after: seq<Behavior>) {
    after == live || (Joined(live, GoalRequest(g), after) && !BlockedBy(words, g.name, g.action))
  }

  lemma JoinedIsLive(live: seq<Behavior>, r: Request, after: seq<Behavior>)
    requires Joined(live, r, after)
    ensures LiveNames(after) == LiveNames(live) + {NameOf(r)}
  {
    assert after == live + [after[|live|]];
  }

  method SustainOne(engine: Engine, registry: Registry, prefix: string, g: Goal, active: set<string>,
                    byRules: set<string>, clock: real, ghost from: nat)
    requires engine.Valid() && registry.Valid() && from <= registry.seq_ && g.name != ""
               && active <= LiveNames(engine.Live())
    modifies engine`active, engine`count, engine`seq_, engine`roll, engine.active, registry`seq_
    ensures engine.Valid() && registry.Valid() && (engine.active == old(engine.active) || fresh(engine.active))
    ensures old(engine.roll) <= engine.roll
    ensures registry.seq_ >= old(registry.seq_)
    ensures TurnTaken(old(engine.Live()), g, registry.inhibited + byRules, engine.Live())
    ensures Settled(engine.voc, engine.Live(), prefix, g, BlockedBy(registry.inhibited + byRules, g.name, g.action),
                    from, registry.seq_)
  {
    if g.name in active {
      return;
    }
    ghost var was := engine.Live();
    var outcome := AdmitRequest(engine, registry, prefix, GoalRequest(g), byRules, clock);
    if outcome.Admitted? {
      JoinedIsLive(was, GoalRequest(g), engine.Live());
    }
  }

  lemma AddedKeepsNames(was: seq<Behavior>, live: seq<Behavior>, goals: seq<Goal>, words: set<string>)
    requires AddedFor(was, live, goals, words)
    ensures LiveNames(was) <= LiveNames(live)
  {
    forall b | b in was ensures b in live {
      var i :| 0 <= i < |was| && was[i] == b;
      assert live[i] == b;
    }
  }

  /** The turns of the first `n` goals are done: what was added is theirs, and each of them is settled. */
  ghost predicate Sustained(v: Vocabulary, was: seq<Behavior>, live: seq<Behavior>, prefix: string, goals: seq<Goal>,
                            n: nat, words: set<string>, from: nat, minted: nat) {
    && n <= |goals| && from <= minted
    && AddedFor(was, live, goals[..n], words)
    && AllSettled(v, live, prefix, goals[..n], words, from, minted)
  }

  method SustainNth(engine: Engine, registry: Registry, prefix: string, goals: seq<Goal>, n: nat, active: set<string>,
                    byRules: set<string>, clock: real, ghost was: seq<Behavior>, ghost from: nat)
    requires engine.Valid() && registry.Valid() && n < |goals| && goals[n].name != "" && active <= LiveNames(was)
    requires Sustained(engine.voc, was, engine.Live(), prefix, goals, n, registry.inhibited + byRules, from,
                       registry.seq_)
    modifies engine`active, engine`count, engine`seq_, engine`roll, engine.active, registry`seq_
    ensures engine.Valid() && registry.Valid() && (engine.active == old(engine.active) || fresh(engine.active))
    ensures old(engine.roll) <= engine.roll
    ensures Sustained(engine.voc, was, engine.Live(), prefix, goals, n + 1, registry.inhibited + byRules, from,
                      registry.seq_)
  {
    ghost var mid, seqMid, words := engine.Live(), registry.seq_, registry.inhibited + byRules;
    AddedKeepsNames(was, mid, goals[..n], words);
    SustainOne(engine, registry, prefix, goals[n], active, byRules, clock, from);
    SustainNext(engine.voc, was, mid, engine.Live(), prefix, goals, n, words, from, seqMid, registry.seq_);
  }

  /** Admits again every standing goal that is missing and not blocked. */
  method Sustain(engine: Engine, registry: Registry, prefix: string, byRules: set<string>, clock: real)
    requires engine.Valid() && registry.Valid()
    modifies engine`active, engine`count, engine`seq_, engine`roll, engine.active, registry`seq_
    ensures engine.Valid() && registry.Valid() && (engine.active == old(engine.active) || fresh(engine.active))
    ensures old(engine.roll) <= engine.roll
    ensures AddedFor(old(engine.Live()), engine.Live(), registry.Standing(), registry.inhibited + byRules)
    ensures AllSettled(engine.voc, engine.Live(), prefix, registry.Standing(), registry.inhibited + byRules,
                       old(registry.seq_), registry.seq_)
  {
    var goals := registry.Standing();
    if |goals| == 0 {
      return;
    }
    ghost var was, from := engine.Live(), registry.seq_;
    var active := LiveNames(engine.active[..engine.count]);
    for i := 0 to |goals|
      invariant engine.Valid() && registry.Valid() && (engine.active == old(engine.active) || fresh(engine.active))
      invariant old(engine.roll) <= engine.roll
      invariant Sustained(engine.voc, was, engine.Live(), prefix, goals, i, registry.inhibited + byRules, from,
                          registry.seq_)
    {
      SustainNth(engine, registry, prefix, goals, i, active, byRules, clock, was, from);
    }
    assert goals[..|goals|] == goals;
  }

  // ---- the queue -------------------------------------------------------------------------------------------

  /** What a tick keeps track of: the live set, how many ids were minted, and which live behaviors rules admitted. */
  datatype Moment = Moment(live: seq<Behavior>, minted: nat, ours: set<Behavior>)

  /** It was admitted at some time, and will end. */
  predicate Limited(b: Behavior) {
    b.lifetime.durationS.Some? && b.lifetime.durationS.value > 0.0 && b.admittedAt.Some?
  }

  /** No two live behaviors that rules admitted share a name, and each of them will end. */
  ghost predicate Tidy(m: Moment) {
    && (forall b :: b in m.ours ==> b in m.live && Limited(b))
    && (forall a, b :: a in m.ours && b in m.ours && a != b ==> a.name != b.name)
  }

  /** What is left of a moment when only these stay. */
  function Narrowed(m: Moment, keep: Behavior -> bool): Moment {
    Moment(Filter(m.live, keep), m.minted, set b | b in m.ours && keep(b))
  }

  /** What an eviction leaves. */
  function WithoutOneName(m: Moment, name: string): Moment {
    if name == "" then m else Narrowed(m, NotNamed(name))
  }

  lemma NarrowedIsTidy(m: Moment, keep: Behavior -> bool)
    requires Tidy(m)
    ensures Tidy(Narrowed(m, keep))
  {
    forall b | b in Narrowed(m, keep).ours ensures b in Filter(m.live, keep) {
      FilterKeeps(m.live, keep, b);
    }
  }

  lemma JoinedIsTidy(m: Moment, r: Request, after: seq<Behavior>, minted: nat)
    requires Tidy(m) && Joined(m.live, r, after)
    ensures Tidy(Moment(after, minted, m.ours))
    ensures Finite(r) && NameOf(r) !in LiveNames(m.live) ==> Tidy(Moment(after, minted, m.ours + {after[|m.live|]}))
  {
    assert after == m.live + [after[|m.live|]];
  }

  /** One queued intent: an eviction, or an attempt at admission, turned away when blocked or refused. */
  ghost predicate PendingStep(v: Vocabulary, prefix: string, words: set<string>, before: Moment, p: Pending,
                              after: Moment) {
    match p
    case PendingEvict(name) => after == WithoutOneName(before, name)
    case PendingAdmit(r) =>
      if BlockedBy(words, NameOf(r), r.action) then after == before
      else
        && after.minted == before.minted + 1 && after.ours == before.ours
        && if TurnedAway(v, before.live, RequestId(prefix, NameOf(r), after.minted), r) then after.live == before.live
           else Joined(before.live, r, after.live)
  }

  ghost predicate PendingRun(v: Vocabulary, prefix: string, words: set<string>, before: Moment, ps: seq<Pending>,
                             after: Moment) {
    if ps == [] then after == before
    else
      var n := |ps| - 1;
      exists mid :: PendingRun(v, prefix, words, before, ps[..n], mid)
        && PendingStep(v, prefix, words, mid, ps[n], after)
  }

  lemma PendingRunNext(v: Vocabulary, prefix: string, words: set<string>, before: Moment, ps: seq<Pending>, n: nat,
                       mid: Moment, after: Moment)
    requires n < |ps| && PendingRun(v, prefix, words, before, ps[..n], mid)
               && PendingStep(v, prefix, words, mid, ps[n], after)
    ensures PendingRun(v, prefix, words, before, ps[..n + 1], after)
  {
    assert ps[..n + 1][..n] == ps[..n] && ps[..n + 1][n] == ps[n];
  }

  /** Whatever a drained queue leaves live was live before or will end. */
  ghost predicate OnlyLimitedAdded(was: seq<Behavior>, live: seq<Behavior>) {
    forall b :: b in live ==> b in was || Limited(b)
  }

  lemma PendingKeeps(v: Vocabulary, prefix: string, words: set<string>, before: Moment, p: Pending, after: Moment)
    requires PendingStep(v, prefix, words, before, p, after) && (p.PendingAdmit? ==> Finite(p.request))
    requires Tidy(before)
    ensures Tidy(after) && OnlyLimitedAdded(before.live, after.live)
  {
    match p
    case PendingEvict(name) => NarrowedIsTidy(before, NotNamed(name));
    case PendingAdmit(r) =>
      if Joined(before.live, r, after.live) {
        JoinedIsTidy(before, r, after.live, after.minted);
        assert after.live == before.live + [after.live[|before.live|]];
      }
  }

  method ApplyOne(engine: Engine, registry: Registry, prefix: string, byRules: set<string>, clock: real, p: Pending,
                  ghost before: Moment)
    returns (ghost after: Moment)
    requires engine.Valid() && registry.Valid() && (p.PendingAdmit? ==> Finite(p.request))
    requires before.live == engine.Live() && before.minted == registry.seq_ && Tidy(before)
    modifies engine`active, engine`count, engine`seq_, engine`roll, engine.active, registry`seq_
    ensures engine.Valid() && registry.Valid() && (engine.active == old(engine.active) || fresh(engine.active))
    ensures old(engine.roll) <= engine.roll
    ensures after.live == engine.Live() && after.minted == registry.seq_ && Tidy(after)
    ensures PendingStep(engine.voc, prefix, registry.inhibited + byRules, before, p, after)
    ensures OnlyLimitedAdded(before.live, after.live)
  {
    match p {
      case PendingEvict(name) =>
        var _ := engine.Evict(name);
        after := WithoutOneName(before, name);
      case PendingAdmit(r) =>
        var _ := AdmitRequest(engine, registry, prefix, r, byRules, clock);
        after := Moment(engine.Live(), registry.seq_, before.ours);
    }
    PendingKeeps(engine.voc, prefix, registry.inhibited + byRules, before, p, after);
  }

  /** Drains the queued intents. */
  method Apply(engine: Engine, registry: Registry, prefix: string, byRules: set<string>, clock: real,
               ghost before: Moment)
    returns (ghost after: Moment)
    requires engine.Valid() && registry.Valid()
    requires before.live == engine.Live() && before.minted == registry.seq_ && Tidy(before)
    modifies engine`active, engine`count, engine`seq_, engine`roll, engine.active, registry`seq_, registry`queue
    ensures engine.Valid() && registry.Valid() && (engine.active == old(engine.active) || fresh(engine.active))
    ensures old(engine.roll) <= engine.roll
    ensures registry.queue == []
    ensures after.live == engine.Live() && after.minted == registry.seq_ && Tidy(after)
    ensures PendingRun(engine.voc, prefix, registry.inhibited + byRules, before, old(registry.queue), after)
    ensures OnlyLimitedAdded(before.live, after.live)
  {
    var ps := registry.Drain();
    after := before;
    for i := 0 to |ps|
      invariant engine.Valid() && registry.Valid() && (engine.active == old(engine.active) || fresh(engine.active))
      invariant old(engine.roll) <= engine.roll
      invariant after.live == engine.Live() && after.minted == registry.seq_ && Tidy(after)
      invariant registry.queue == []
      invariant PendingRun(engine.voc, prefix, registry.inhibited + byRules, before, ps[..i], after)
      invariant OnlyLimitedAdded(before.live, after.live)
    {
      ghost var mid := after;
      assert ps[i] in ps;
      after := ApplyOne(engine, registry, prefix, byRules, clock, ps[i], mid);
      PendingRunNext(engine.voc, prefix, registry.inhibited + byRules, before, ps, i, mid, after);
    }
    assert ps[..|ps|] == ps;
  }
}
