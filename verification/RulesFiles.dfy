/**
 * What a loaded config holds, read off the files it was loaded from: which rules and events, in what order, and whose
 * modes and defaults.
 */
module RulesFiles {
  import opened Common
  import opened Text
  import opened RuleTypes
  import opened RulesLayers
  import opened RulesLoad

  // ---- one layer's rules and events ------------------------------------------------------------------------

  function RulesIn(f: File): seq<Rule> {
    f.ordered
  }

  function EventsIn(f: File): seq<Event> {
    f.events
  }

  /** The parts of some files, one after another. */
  ghost function Laid<T>(part: File -> seq<T>, files: seq<File>): seq<T> {
    if files == [] then [] else Laid(part, files[..|files| - 1]) + part(files[|files| - 1])
  }

  /** How much the files before the `i`th lay. */
  ghost function Start<T>(part: File -> seq<T>, files: seq<File>, i: nat): nat
    requires i <= |files|
  {
    if i == 0 then 0 else Start(part, files, i - 1) + |part(files[i - 1])|
  }

  lemma {:induction false} StartInFront<T>(part: File -> seq<T>, files: seq<File>, n: nat, i: nat)
    requires i <= n <= |files|
    ensures Start(part, files[..n], i) == Start(part, files, i)
  {
    if i > 0 {
      StartInFront(part, files, n, i - 1);
    }
  }

  lemma {:induction false} LaidEnds<T>(part: File -> seq<T>, files: seq<File>)
    ensures |Laid(part, files)| == Start(part, files, |files|)
  {
    if files != [] {
      LaidEnds(part, files[..|files| - 1]);
      StartInFront(part, files, |files| - 1, |files| - 1);
    }
  }

  /** Every entry of every file has its place. */
  lemma {:induction false} LaidAt<T>(part: File -> seq<T>, files: seq<File>, i: nat, p: nat, at: nat)
    requires i < |files| && p < |part(files[i])| && at == Start(part, files, i) + p
    ensures at < |Laid(part, files)| && Laid(part, files)[at] == part(files[i])[p]
  {
    var n := |files| - 1;
    LaidEnds(part, files[..n]);
    StartInFront(part, files, n, i);
    if i < n {
      LaidAt(part, files[..n], i, p, at);
    }
  }

  lemma {:induction false} LaidHolds<T>(part: File -> seq<T>, files: seq<File>, e: T)
    ensures e in Laid(part, files) <==> exists f :: f in files && e in part(f)
  {
    if files != [] {
      var front, last := files[..|files| - 1], files[|files| - 1];
      assert files == front + [last];
      LaidHolds(part, front, e);
    }
  }

  lemma {:induction false} StartGrows<T>(part: File -> seq<T>, files: seq<File>, i: nat, j: nat)
    requires i < j <= |files|
    ensures Start(part, files, i) + |part(files[i])| <= Start(part, files, j)
  {
    if i < j - 1 {
      StartGrows(part, files, i, j - 1);
    }
  }

  lemma {:induction false} LayerIsLaid(files: seq<File>)
    ensures LayerOf(files).rules.ordered == Laid(RulesIn, files)
    ensures LayerOf(files).events.ordered == Laid(EventsIn, files)
    ensures forall id :: id in LayerOf(files).rules.disabled <==> exists f :: f in files && id in f.disabled
    ensures forall id :: id in LayerOf(files).events.disabled <==> exists f :: f in files && id in f.eventDisabled
  {
    if files != [] {
      var front, last := files[..|files| - 1], files[|files| - 1];
      assert files == front + [last];
      LayerIsLaid(front);
    }
  }

  /** A layer holds exactly the rules and events its files define, and tombstones exactly what they tombstone. */
  lemma LayerHoldsFiles(files: seq<File>)
    ensures forall r :: r in LayerOf(files).rules.ordered <==> exists f :: f in files && r in f.ordered
    ensures forall id :: id in LayerOf(files).rules.disabled <==> exists f :: f in files && id in f.disabled
    ensures forall e :: e in LayerOf(files).events.ordered <==> exists f :: f in files && e in f.events
    ensures forall id :: id in LayerOf(files).events.disabled <==> exists f :: f in files && id in f.eventDisabled
  {
    LayerIsLaid(files);
    forall r ensures r in LayerOf(files).rules.ordered <==> exists f :: f in files && r in f.ordered {
      LaidHolds(RulesIn, files, r);
      assert forall f :: f in files ==> (r in f.ordered <==> r in RulesIn(f));
    }
    forall e ensures e in LayerOf(files).events.ordered <==> exists f :: f in files && e in f.events {
      LaidHolds(EventsIn, files, e);
      assert forall f :: f in files ==> (e in f.events <==> e in EventsIn(f));
    }
  }

  /** Entry `p` of file `i` comes before entry `q` of file `j`: in an earlier file, or earlier in the same one. */
  predicate ComesFirst(i: nat, p: nat, j: nat, q: nat) {
    i < j || (i == j && p < q)
  }

  lemma StandsByFile<T>(part: File -> seq<T>, files: seq<File>, i: nat, p: nat, j: nat, q: nat)
    returns (m: nat, n: nat)
    requires i < |files| && j < |files| && p < |part(files[i])| && q < |part(files[j])| && ComesFirst(i, p, j, q)
    ensures m < n < |Laid(part, files)| && Laid(part, files)[m] == part(files[i])[p]
              && Laid(part, files)[n] == part(files[j])[q]
  {
    m, n := Start(part, files, i) + p, Start(part, files, j) + q;
    LaidAt(part, files, i, p, m);
    LaidAt(part, files, j, q, n);
    if i < j {
      StartGrows(part, files, i, j);
    }
  }

  /** In a layer rules and events stand by file, and then by their position in it. */
  lemma LayerStandsByFile(files: seq<File>, i: nat, p: nat, j: nat, q: nat)
    requires i < |files| && j < |files| && ComesFirst(i, p, j, q)
    ensures p < |files[i].ordered| && q < |files[j].ordered| ==>
              exists m, n :: 0 <= m < n < |LayerOf(files).rules.ordered|
                && LayerOf(files).rules.ordered[m] == files[i].ordered[p]
                && LayerOf(files).rules.ordered[n] == files[j].ordered[q]
    ensures p < |files[i].events| && q < |files[j].events| ==>
              exists m, n :: 0 <= m < n < |LayerOf(files).events.ordered|
                && LayerOf(files).events.ordered[m] == files[i].events[p]
                && LayerOf(files).events.ordered[n] == files[j].events[q]
  {
    LayerIsLaid(files);
    if p < |files[i].ordered| && q < |files[j].ordered| {
      var m, n := StandsByFile(RulesIn, files, i, p, j, q);
    }
    if p < |files[i].events| && q < |files[j].events| {
      var m, n := StandsByFile(EventsIn, files, i, p, j, q);
    }
  }

  // ---- whose settings --------------------------------------------------------------------------------------

  /** File `i` is the last that does this. */
  ghost predicate LastTo(files: seq<File>, gives: File -> bool, i: nat) {
    i < |files| && gives(files[i]) && forall j :: i < j < |files| ==> !gives(files[j])
  }

  predicate Selects(f: File) {
    f.activeMode != ""
  }

  predicate SetsDefault(f: File) {
    f.eventDefault.Some?
  }

  function Defines(name: string): File -> bool {
    (f: File) => name in f.modes
  }

  lemma LastToInFront(files: seq<File>, gives: File -> bool, i: nat)
    requires LastTo(files, gives, i)
    ensures i == |files| - 1 || (LastTo(files[..|files| - 1], gives, i) && !gives(files[|files| - 1]))
  {
  }

  /** The selected mode, the event default, the version and the params of a mode are those of the last to give them. */
  lemma {:induction false} LastFileDecides(files: seq<File>, name: string)
    ensures files != [] ==> LayerOf(files).schemaVersion == files[|files| - 1].schemaVersion
    ensures forall i: nat :: LastTo(files, Selects, i) ==> LayerOf(files).activeMode == files[i].activeMode
    ensures forall i: nat :: LastTo(files, SetsDefault, i) ==> LayerOf(files).eventDefault == files[i].eventDefault
    ensures forall i: nat :: LastTo(files, Defines(name), i) ==>
              name in LayerOf(files).modes && LayerOf(files).modes[name] == files[i].modes[name]
  {
    if files != [] {
      var n := |files| - 1;
      LastFileDecides(files[..n], name);
      forall i: nat | LastTo(files, Selects, i) ensures LayerOf(files).activeMode == files[i].activeMode {
        LastToInFront(files, Selects, i);
      }
      forall i: nat | LastTo(files, SetsDefault, i) ensures LayerOf(files).eventDefault == files[i].eventDefault {
        LastToInFront(files, SetsDefault, i);
      }
      forall i: nat | LastTo(files, Defines(name), i)
        ensures name in LayerOf(files).modes && LayerOf(files).modes[name] == files[i].modes[name]
      {
        LastToInFront(files, Defines(name), i);
      }
    }
  }

  /** And what no file gives stays as it is: nothing selected, no event default, no such mode. */
  lemma {:induction false} NobodyDecides(files: seq<File>, name: string)
    ensures (forall f :: f in files ==> f.activeMode == "") ==> LayerOf(files).activeMode == ""
    ensures (forall f :: f in files ==> f.eventDefault.None?) ==> LayerOf(files).eventDefault.None?
    ensures (forall f :: f in files ==> name !in f.modes) ==> name !in LayerOf(files).modes
  {
    if files != [] {
      var front, last := files[..|files| - 1], files[|files| - 1];
      assert files == front + [last];
      NobodyDecides(front, name);
    }
  }

  // ---- a stack of layers -----------------------------------------------------------------------------------

  /** All the files of a stack in the order they are loaded. */
  ghost function AllFiles(stacks: seq<seq<File>>): seq<File> {
    if stacks == [] then [] else AllFiles(stacks[..|stacks| - 1]) + stacks[|stacks| - 1]
  }

  /** The settings of `all` are those of `b`, and where `b` has none, of `a`; `any` is whether `b` has a version. */
  ghost predicate Over(all: LayerResult, a: LayerResult, b: LayerResult, any: bool) {
    && all.modes == a.modes + b.modes
    && all.activeMode == (if b.activeMode != "" then b.activeMode else a.activeMode)
    && all.eventDefault == (if b.eventDefault.Some? then b.eventDefault else a.eventDefault)
    && all.schemaVersion == (if any then b.schemaVersion else a.schemaVersion)
  }

  ghost predicate SameSettings(a: LayerResult, b: LayerResult) {
    a.modes == b.modes && a.activeMode == b.activeMode && a.eventDefault == b.eventDefault
    && a.schemaVersion == b.schemaVersion
  }

  lemma OverNext(all: LayerResult, a: LayerResult, b: LayerResult, any: bool, f: File)
    requires Over(all, a, b, any)
    ensures Over(WithFile(all, f), a, WithFile(b, f), true)
  {
    assert a.modes + b.modes + f.modes == a.modes + (b.modes + f.modes);
  }

  lemma {:induction false} SettingsOver(a: seq<File>, b: seq<File>)
    ensures Over(LayerOf(a + b), LayerOf(a), LayerOf(b), b != [])
  {
    if b == [] {
      assert a + b == a;
    } else {
      var front, last := b[..|b| - 1], b[|b| - 1];
      SettingsOver(a, front);
      assert (a + b)[..|a + b| - 1] == a + front && (a + b)[|a + b| - 1] == last;
      OverNext(LayerOf(a + front), LayerOf(a), LayerOf(front), front != [], last);
    }
  }

  ghost predicate Loadable(stacks: seq<seq<File>>) {
    AllBuildable(stacks) && forall files, f :: files in stacks && f in files ==> ValidFile(f)
  }

  lemma LoadableInFront(stacks: seq<seq<File>>)
    requires Loadable(stacks) && stacks != []
    ensures Loadable(stacks[..|stacks| - 1])
    ensures Buildable(stacks[|stacks| - 1]) && forall f :: f in stacks[|stacks| - 1] ==> ValidFile(f)
  {
    assert forall files :: files in stacks[..|stacks| - 1] ==> files in stacks;
    assert stacks[|stacks| - 1] in stacks;
  }

  lemma {:induction false} BuiltIsValid(stacks: seq<seq<File>>)
    requires Loadable(stacks)
    ensures AllValid(Built(stacks))
  {
    if stacks != [] {
      var n := |stacks| - 1;
      LoadableInFront(stacks);
      BuiltIsValid(stacks[..n]);
      LayerIsValid(stacks[n]);
    }
  }

  lemma {:induction false} VersionOfFiles(files: seq<File>)
    requires files != [] && forall f :: f in files ==> ValidFile(f)
    ensures LayerOf(files).schemaVersion != 0
  {
    assert files[|files| - 1] in files;
  }

  /** One more layer of a stack. */
  lemma BuiltStep(stacks: seq<seq<File>>)
    requires Loadable(stacks) && stacks != []
    ensures var front, last := stacks[..|stacks| - 1], stacks[|stacks| - 1];
            Stacked(Built(stacks)) ==
              if last == [] then Stacked(Built(front)) else Combined(Stacked(Built(front)), LayerOf(last))
  {
    var n := |stacks| - 1;
    LoadableInFront(stacks);
    BuiltIsValid(stacks[..n]);
    assert stacks[..n + 1] == stacks;
    BuiltNext(stacks, n);
  }

  /** What is laid over keeps its own settings, given that it selects a mode it defines and has a version. */
  lemma CombinedOver(base: LayerResult, overlay: LayerResult, below: LayerResult, all: LayerResult)
    requires SameSettings(base, below) && Over(all, below, overlay, true) && overlay.schemaVersion != 0
    requires base.activeMode != "" ==> base.activeMode in base.modes
    requires overlay.activeMode != "" ==> overlay.activeMode in overlay.modes
    ensures SameSettings(Combined(base, overlay), all)
  {
  }

  /** Layers make no difference to the settings: they are what all the files in a row would give. */
  lemma {:induction false} SettingsAcross(stacks: seq<seq<File>>)
    requires Loadable(stacks)
    ensures SameSettings(Stacked(Built(stacks)), LayerOf(AllFiles(stacks)))
  {
    if stacks != [] {
      var front, last := stacks[..|stacks| - 1], stacks[|stacks| - 1];
      LoadableInFront(stacks);
      SettingsAcross(front);
      BuiltStep(stacks);
      SettingsOver(AllFiles(front), last);
      if last != [] {
        VersionOfFiles(last);
        SelectionsAreDefined(front, last);
        CombinedOver(Stacked(Built(front)), LayerOf(last), LayerOf(AllFiles(front)), LayerOf(AllFiles(stacks)));
      } else {
        assert AllFiles(front) + last == AllFiles(front);
      }
    }
  }

  lemma SelectionsAreDefined(stacks: seq<seq<File>>, files: seq<File>)
    requires Loadable(stacks) && forall f :: f in files ==> ValidFile(f)
    ensures var base, overlay := Stacked(Built(stacks)), LayerOf(files);
            && (base.activeMode != "" ==> base.activeMode in base.modes)
            && (overlay.activeMode != "" ==> overlay.activeMode in overlay.modes)
  {
    BuiltIsValid(stacks);
    StackedIsValid(Built(stacks));
    ModeIsDefined(files);
  }

  /**
   * The config's settings: each is that of the last file, in the order they are loaded, that gives it; what no file
   * gives is not set.
   */
  lemma SettingsLastWin(stacks: seq<seq<File>>, name: string)
    requires Loadable(stacks)
    ensures var c, files := ConfigOf(Stacked(Built(stacks))), AllFiles(stacks);
            && (files != [] ==> c.schemaVersion == files[|files| - 1].schemaVersion)
            && (forall i: nat :: LastTo(files, Selects, i) ==> c.activeMode == files[i].activeMode)
            && (forall i: nat :: LastTo(files, SetsDefault, i) ==> c.eventDefault == files[i].eventDefault)
            && (forall i: nat :: LastTo(files, Defines(name), i) ==>
                  name in c.modes && c.modes[name] == files[i].modes[name])
            && ((forall f :: f in files ==> f.activeMode == "") ==> c.activeMode == "")
            && ((forall f :: f in files ==> f.eventDefault.None?) ==> c.eventDefault.None?)
            && ((forall f :: f in files ==> name !in f.modes) ==> name !in c.modes)
  {
    SettingsAcross(stacks);
    LastFileDecides(AllFiles(stacks), name);
    NobodyDecides(AllFiles(stacks), name);
  }

  // ---- a stack's rules and events --------------------------------------------------------------------------

  /** The rules of every layer of a stack, those without files among them. */
  ghost function EachRules(stacks: seq<seq<File>>): (r: seq<Layer<Rule>>)
    ensures |r| == |stacks| && forall k :: 0 <= k < |r| ==> r[k] == LayerOf(stacks[k]).rules
  {
    seq(|stacks|, k requires 0 <= k < |stacks| => LayerOf(stacks[k]).rules)
  }

  ghost function EachEvents(stacks: seq<seq<File>>): (r: seq<Layer<Event>>)
    ensures |r| == |stacks| && forall k :: 0 <= k < |r| ==> r[k] == LayerOf(stacks[k]).events
  {
    seq(|stacks|, k requires 0 <= k < |stacks| => LayerOf(stacks[k]).events)
  }

  lemma {:induction false} RetainedByNothing<T>(key: T -> string, base: seq<T>)
    ensures Retained(key, base, Layer([], {})) == base
  {
    if base != [] {
      RetainedByNothing(key, base[..|base| - 1]);
    }
  }

  /** A layer that says nothing changes nothing. */
  lemma NothingOver<T>(key: T -> string, base: Layer<T>)
    ensures Merged(key, base, Layer([], {})) == base
  {
    RetainedByNothing(key, base.ordered);
  }

  /** One more layer of the folds. */
  lemma FoldStep<T>(key: T -> string, layers: seq<Layer<T>>, front: seq<Layer<T>>, last: Layer<T>, quiet: bool)
    requires |layers| == |front| + 1 && layers[..|front|] == front && layers[|front|] == last
    requires quiet ==> last == Layer([], {})
    ensures Fold(key, layers) == if quiet then Fold(key, front) else Merged(key, Fold(key, front), last)
  {
    if quiet {
      NothingOver(key, Fold(key, front));
    }
  }

  lemma CombinedMerges(base: LayerResult, overlay: LayerResult)
    ensures Combined(base, overlay).rules == Merged(RuleId, base.rules, overlay.rules)
    ensures Combined(base, overlay).events == Merged(EventId, base.events, overlay.events)
  {
  }

  lemma {:induction false} RulesFold(stacks: seq<seq<File>>)
    requires Loadable(stacks)
    ensures Stacked(Built(stacks)).rules == Fold(RuleId, EachRules(stacks))
  {
    if stacks != [] {
      var front, last := stacks[..|stacks| - 1], stacks[|stacks| - 1];
      LoadableInFront(stacks);
      RulesFold(front);
      BuiltStep(stacks);
      CombinedMerges(Stacked(Built(front)), LayerOf(last));
      FoldStep(RuleId, EachRules(stacks), EachRules(front), LayerOf(last).rules, last == []);
    }
  }

  lemma {:induction false} EventsFold(stacks: seq<seq<File>>)
    requires Loadable(stacks)
    ensures Stacked(Built(stacks)).events == Fold(EventId, EachEvents(stacks))
  {
    if stacks != [] {
      var front, last := stacks[..|stacks| - 1], stacks[|stacks| - 1];
      LoadableInFront(stacks);
      EventsFold(front);
      BuiltStep(stacks);
      CombinedMerges(Stacked(Built(front)), LayerOf(last));
      FoldStep(EventId, EachEvents(stacks), EachEvents(front), LayerOf(last).events, last == []);
    }
  }

  lemma EachIsValid(stacks: seq<seq<File>>)
    requires Loadable(stacks)
    ensures forall l :: l in EachRules(stacks) ==> ValidLayer(RuleId, l)
    ensures forall l :: l in EachEvents(stacks) ==> ValidLayer(EventId, l)
  {
    forall k | 0 <= k < |stacks| ensures ValidResult(LayerOf(stacks[k])) {
      assert stacks[k] in stacks;
      LayerIsValid(stacks[k]);
    }
  }

  /** Some file of the layer defines a rule under this id, or tombstones the id. */
  ghost predicate SpeaksOf(files: seq<File>, id: string) {
    exists f :: f in files && (id in f.disabled || exists r :: r in f.ordered && r.id == id)
  }

  ghost predicate SpeaksOfEvent(files: seq<File>, id: string) {
    exists f :: f in files && (id in f.eventDisabled || exists e :: e in f.events && EventId(e) == id)
  }

  /** Layer `k` is the highest that has its say on the id. */
  ghost predicate LastSay(stacks: seq<seq<File>>, says: (seq<File>, string) -> bool, id: string, k: nat) {
    k < |stacks| && says(stacks[k], id) && forall j :: k < j < |stacks| ==> !says(stacks[j], id)
  }

  lemma SpeaksMentions(files: seq<File>, id: string)
    ensures SpeaksOf(files, id) <==> Mentions(RuleId, LayerOf(files).rules, id)
    ensures SpeaksOfEvent(files, id) <==> Mentions(EventId, LayerOf(files).events, id)
  {
    LayerHoldsFiles(files);
    if SpeaksOf(files, id) && id !in LayerOf(files).rules.disabled {
      var f :| f in files && (id in f.disabled || exists r :: r in f.ordered && r.id == id);
      var r :| r in f.ordered && r.id == id;
      assert r in LayerOf(files).rules.ordered && RuleId(r) == id;
    }
    if SpeaksOfEvent(files, id) && id !in LayerOf(files).events.disabled {
      var f :| f in files && (id in f.eventDisabled || exists e :: e in f.events && EventId(e) == id);
      var e :| e in f.events && EventId(e) == id;
      assert e in LayerOf(files).events.ordered;
    }
  }

  lemma LastSayMentions(stacks: seq<seq<File>>, id: string, k: nat)
    ensures LastSay(stacks, SpeaksOf, id, k) <==> LastMention(RuleId, EachRules(stacks), id, k)
    ensures LastSay(stacks, SpeaksOfEvent, id, k) <==> LastMention(EventId, EachEvents(stacks), id, k)
  {
    forall j | 0 <= j < |stacks|
      ensures SpeaksOf(stacks[j], id) <==> Mentions(RuleId, EachRules(stacks)[j], id)
      ensures SpeaksOfEvent(stacks[j], id) <==> Mentions(EventId, EachEvents(stacks)[j], id)
    {
      SpeaksMentions(stacks[j], id);
    }
  }

  /**
   * Two events are the same to a config exactly when their sources and their types are, where no source has a
   * slash.
   */
  lemma EventIdTells(a: Event, b: Event)
    requires '/' !in a.source && '/' !in b.source
    ensures EventId(a) == EventId(b) <==> a.source == b.source && a.kind == b.kind
  {
    FirstMark(a.source, "/", a.kind);
    FirstMark(b.source, "/", b.kind);
  }

  /** The highest layer with a say on the rule's id has a file that defines this rule. */
  ghost predicate GivenBy(stacks: seq<seq<File>>, rule: Rule) {
    exists k: nat, f :: LastSay(stacks, SpeaksOf, rule.id, k) && f in stacks[k] && rule in f.ordered
  }

  ghost predicate EventGivenBy(stacks: seq<seq<File>>, e: Event) {
    exists k: nat, f :: LastSay(stacks, SpeaksOfEvent, EventId(e), k) && f in stacks[k] && e in f.events
  }

  ghost predicate DisabledBy(stacks: seq<seq<File>>, id: string) {
    exists k: nat, f :: LastSay(stacks, SpeaksOf, id, k) && f in stacks[k] && id in f.disabled
  }

  lemma RuleGiven(stacks: seq<seq<File>>, rule: Rule)
    requires Loadable(stacks)
    ensures rule in Stacked(Built(stacks)).rules.ordered <==> GivenBy(stacks, rule)
  {
    var layers := EachRules(stacks);
    RulesFold(stacks);
    EachIsValid(stacks);
    LiveEntries(RuleId, layers, rule);
    forall k: nat | k < |stacks|
      ensures LastSay(stacks, SpeaksOf, rule.id, k) <==> LastMention(RuleId, layers, rule.id, k)
      ensures rule in layers[k].ordered <==> exists f :: f in stacks[k] && rule in f.ordered
    {
      LastSayMentions(stacks, rule.id, k);
      LayerHoldsFiles(stacks[k]);
    }
  }

  lemma EventGiven(stacks: seq<seq<File>>, e: Event)
    requires Loadable(stacks)
    ensures e in Stacked(Built(stacks)).events.ordered <==> EventGivenBy(stacks, e)
  {
    var layers := EachEvents(stacks);
    EventsFold(stacks);
    EachIsValid(stacks);
    LiveEntries(EventId, layers, e);
    forall k: nat | k < |stacks|
      ensures LastSay(stacks, SpeaksOfEvent, EventId(e), k) <==> LastMention(EventId, layers, EventId(e), k)
      ensures e in layers[k].ordered <==> exists f :: f in stacks[k] && e in f.events
    {
      LastSayMentions(stacks, EventId(e), k);
      LayerHoldsFiles(stacks[k]);
    }
  }

  lemma RuleDisabled(stacks: seq<seq<File>>, id: string)
    requires Loadable(stacks)
    ensures id in Stacked(Built(stacks)).rules.disabled <==> DisabledBy(stacks, id)
  {
    var layers := EachRules(stacks);
    RulesFold(stacks);
    EachIsValid(stacks);
    DeadEntries(RuleId, layers, id);
    forall k: nat | k < |stacks|
      ensures LastSay(stacks, SpeaksOf, id, k) <==> LastMention(RuleId, layers, id, k)
      ensures id in layers[k].disabled <==> exists f :: f in stacks[k] && id in f.disabled
    {
      LastSayMentions(stacks, id, k);
      LayerHoldsFiles(stacks[k]);
    }
  }

  /**
   * A loaded config runs exactly the rules that some file of the highest layer with a say on their id defines, each as
   * the kind it is; it has exactly the events given in the same way, and tombstones what such a layer tombstones.
   */
  lemma LoadedFromFiles(stacks: seq<seq<File>>)
    requires Loadable(stacks)
    ensures var c := ConfigOf(Stacked(Built(stacks)));
            && DistinctRules(c.react + c.inhibit)
            && (forall rule :: rule in c.react <==> GivenBy(stacks, rule) && rule.kind.React?)
            && (forall rule :: rule in c.inhibit <==> GivenBy(stacks, rule) && rule.kind.Inhibit?)
            && (forall e :: e in c.events <==> EventGivenBy(stacks, e))
            && (forall id :: id in c.disabled <==> DisabledBy(stacks, id))
  {
    var l := Stacked(Built(stacks));
    BuiltIsValid(stacks);
    StackedIsValid(Built(stacks));
    KindsApart(l.rules.ordered);
    forall rule ensures rule in l.rules.ordered <==> GivenBy(stacks, rule) {
      RuleGiven(stacks, rule);
    }
    forall rule
      ensures rule in Filter(l.rules.ordered, IsReact) <==> rule in l.rules.ordered && rule.kind.React?
      ensures rule in Filter(l.rules.ordered, IsInhibit) <==> rule in l.rules.ordered && rule.kind.Inhibit?
    {
      if rule in l.rules.ordered && rule.kind.React? {
        FilterKeeps(l.rules.ordered, IsReact, rule);
      }
      if rule in l.rules.ordered && rule.kind.Inhibit? {
        FilterKeeps(l.rules.ordered, IsInhibit, rule);
      }
    }
    forall e ensures e in l.events.ordered <==> EventGivenBy(stacks, e) {
      EventGiven(stacks, e);
    }
    forall id ensures id in l.rules.disabled <==> DisabledBy(stacks, id) {
      RuleDisabled(stacks, id);
    }
  }

  /**
   * And in this order: by the layer where the rule's, or the event's, current live span began, and then as that layer
   * has them.
   */
  lemma LoadedInOrder(stacks: seq<seq<File>>)
    requires Loadable(stacks)
    ensures var c := ConfigOf(Stacked(Built(stacks)));
            && InOrder(RuleId, EachRules(stacks), c.react) && InOrder(RuleId, EachRules(stacks), c.inhibit)
            && InOrder(EventId, EachEvents(stacks), c.events)
  {
    RulesFold(stacks);
    EventsFold(stacks);
    EachIsValid(stacks);
    LiveInOrder(RuleId, EachRules(stacks));
    LiveInOrder(EventId, EachEvents(stacks));
    FilterInOrder(RuleId, EachRules(stacks), Fold(RuleId, EachRules(stacks)).ordered, IsReact);
    FilterInOrder(RuleId, EachRules(stacks), Fold(RuleId, EachRules(stacks)).ordered, IsInhibit);
  }

  lemma {:induction false} FilterInOrder<T>(key: T -> string, layers: seq<Layer<T>>, s: seq<T>, keep: T -> bool)
    requires InOrder(key, layers, s)
    ensures InOrder(key, layers, Filter(s, keep))
  {
    if s != [] {
      var front, last := s[..|s| - 1], s[|s| - 1];
      FilterInOrder(key, layers, front, keep);
      forall e | e in Filter(front, keep) ensures Before(key, layers, key(e), key(last)) {
        assert e in front;
        var i :| 0 <= i < |front| && front[i] == e;
        assert s[i] == e;
      }
    }
  }
}
