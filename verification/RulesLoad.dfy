/** Loading a stack of rules layers: files fold into layers, layers fold into one config. */
module RulesLoad {
  import opened Common
  import opened RuleTypes
  import opened RulesLayers
  import opened Behaviors

  type Modes = map<string, map<string, real>>

  /** An event's routing record; its identity is its source and its type together. */
  datatype Event = Event(source: string, kind: string, priority: string, urgency: string, voice: string)

  datatype EventDefault = EventDefault(priority: string, urgency: string, voice: string)

  /** One parsed and validated file; `namesOk` is whether its names are in the robot's vocabulary. */
  datatype File = File(
    path: string, namesOk: bool, schemaVersion: nat,
    ordered: seq<Rule>, disabled: seq<string>,
    events: seq<Event>, eventDisabled: seq<string>, eventDefault: Option<EventDefault>,
    modes: Modes, activeMode: string
  )

  datatype LayerResult = LayerResult(
    rules: Layer<Rule>, events: Layer<Event>, modes: Modes, activeMode: string, schemaVersion: nat,
    eventDefault: Option<EventDefault>
  )

  datatype Config = Config(
    schemaVersion: nat, activeMode: string, modes: Modes, react: seq<Rule>, inhibit: seq<Rule>, disabled: set<string>,
    events: seq<Event>, eventDefault: Option<EventDefault>
  )

  /** `at` is the file in which an id turned up again, `first` the one that had it before. */
  datatype Refusal = UnknownName(at: string) | DuplicateRule(id: string, at: string, first: string)
                   | DuplicateEvent(id: string, at: string, first: string)

  const NOTHING := LayerResult(Layer([], {}), Layer([], {}), map[], "", 0, None)

  function RuleId(r: Rule): string {
    r.id
  }

  function EventId(e: Event): string {
    e.source + "/" + e.kind
  }

  function RuleIds(rules: seq<Rule>): (r: seq<string>)
    ensures |r| == |rules| && forall i :: 0 <= i < |r| ==> r[i] == rules[i].id
  {
    seq(|rules|, i requires 0 <= i < |rules| => rules[i].id)
  }

  function EventIds(events: seq<Event>): (r: seq<string>)
    ensures |r| == |events| && forall i :: 0 <= i < |r| ==> r[i] == EventId(events[i])
  {
    seq(|events|, i requires 0 <= i < |events| => EventId(events[i]))
  }

  /** The rule ids a file mentions, live ones first. */
  function RulesNamed(f: File): seq<string> {
    RuleIds(f.ordered) + f.disabled
  }

  function EventsNamed(f: File): seq<string> {
    EventIds(f.events) + f.eventDisabled
  }

  /** What validating one file guarantees. */
  ghost predicate ValidFile(f: File) {
    && NoRepeats(RulesNamed(f)) && NoRepeats(EventsNamed(f))
    && (f.activeMode != "" ==> f.activeMode in f.modes)
    && f.schemaVersion in {1, 2}
  }

  // ---- files into a layer ----------------------------------------------------------------------------------

  /** All the ids some files mention, file after file. */
  ghost function AllNamed(named: File -> seq<string>, files: seq<File>): seq<string> {
    if files == [] then [] else AllNamed(named, files[..|files| - 1]) + named(files[|files| - 1])
  }

  /** A file's part laid at the end of the files before it. */
  function WithFile(layer: LayerResult, f: File): LayerResult {
    LayerResult(
      Layer(layer.rules.ordered + f.ordered, layer.rules.disabled + set id | id in f.disabled),
      Layer(layer.events.ordered + f.events, layer.events.disabled + set id | id in f.eventDisabled),
      layer.modes + f.modes,
      if f.activeMode != "" then f.activeMode else layer.activeMode,
      f.schemaVersion,
      if f.eventDefault.Some? then f.eventDefault else layer.eventDefault)
  }

  /** The files one after another. */
  function LayerOf(files: seq<File>): LayerResult {
    if files == [] then NOTHING else WithFile(LayerOf(files[..|files| - 1]), files[|files| - 1])
  }

  /**
   * A layer is refused when a name is unknown or an id is mentioned twice in it: inside a layer there is no
   * precedence.
   */
  ghost predicate Buildable(files: seq<File>) {
    && (forall f :: f in files ==> f.namesOk)
    && NoRepeats(AllNamed(RulesNamed, files)) && NoRepeats(AllNamed(EventsNamed, files))
  }

  /** `origin` says in which of the files seen so far each id was. */
  ghost predicate Origins(named: File -> seq<string>, files: seq<File>, origin: map<string, string>) {
    && (forall f, id :: f in files && id in named(f) ==> id in origin)
    && (forall id :: id in origin ==> exists f :: f in files && id in named(f) && f.path == origin[id])
  }

  /** Looks up a file's ids among those seen, and adds them. */
  method Note(named: seq<string>, path: string, origin: map<string, string>)
    returns (clash: Option<string>, noted: map<string, string>)
    requires NoRepeats(named)
    ensures clash.Some? ==> clash.value in named && clash.value in origin
    ensures clash.None? ==> (forall id :: id in named ==> id !in origin)
    ensures clash.None? ==> noted.Keys == origin.Keys + set id | id in named
    ensures clash.None? ==> forall id :: id in noted ==> noted[id] == if id in origin then origin[id] else path
  {
    clash, noted := None, origin;
    for i := 0 to |named|
      invariant forall j :: 0 <= j < i ==> named[j] !in origin
      invariant noted.Keys == origin.Keys + set id | id in named[..i]
      invariant forall id :: id in noted ==> noted[id] == if id in origin then origin[id] else path
    {
      assert named[..i + 1] == named[..i] + [named[i]];
      if named[i] in noted {
        return Some(named[i]), noted;
      }
      noted := noted[named[i] := path];
    }
    assert named[..|named|] == named;
  }

  lemma NoRepeatsConcat(a: seq<string>, b: seq<string>)
    ensures NoRepeats(a + b) <==> NoRepeats(a) && NoRepeats(b) && forall id :: id in b ==> id !in a
  {
    var all, n := a + b, |a|;
    if NoRepeats(all) {
      forall i, j | 0 <= i < j < n ensures a[i] != a[j] {
        assert all[i] != all[j];
      }
      forall i, j | 0 <= i < j < |b| ensures b[i] != b[j] {
        assert all[n + i] != all[n + j];
      }
      forall i, j | 0 <= i < n && 0 <= j < |b| ensures a[i] != b[j] {
        assert all[i] != all[n + j];
      }
    }
    if NoRepeats(a) && NoRepeats(b) && forall id :: id in b ==> id !in a {
      forall i, j | 0 <= i < j < |all| ensures all[i] != all[j] {
        if j >= n {
          assert all[j] == b[j - n] && b[j - n] in b;
          assert i < n ==> all[i] == a[i] && a[i] in a;
        }
      }
    }
  }

  lemma {:induction false} AllNamedIn(named: File -> seq<string>, files: seq<File>, id: string)
    ensures id in AllNamed(named, files) <==> exists f :: f in files && id in named(f)
  {
    if files != [] {
      var front, last := files[..|files| - 1], files[|files| - 1];
      assert files == front + [last];
      AllNamedIn(named, front, id);
    }
  }

  /** One more file: a clash is an id some earlier file mentions, and without one the ids stay unique. */
  lemma NotedNext(named: File -> seq<string>, files: seq<File>, n: nat, origin: map<string, string>,
                  clash: Option<string>, noted: map<string, string>)
    requires n < |files| && Origins(named, files[..n], origin)
    requires NoRepeats(named(files[n])) && NoRepeats(AllNamed(named, files[..n]))
    requires clash.Some? ==> clash.value in named(files[n]) && clash.value in origin
    requires clash.None? ==> (forall id :: id in named(files[n]) ==> id !in origin)
    requires clash.None? ==> noted.Keys == origin.Keys + set id | id in named(files[n])
    requires clash.None? ==> forall id :: id in noted ==>
               noted[id] == if id in origin then origin[id] else files[n].path
    ensures clash.Some? <==> !NoRepeats(AllNamed(named, files[..n + 1]))
    ensures clash.None? ==> Origins(named, files[..n + 1], noted)
  {
    var f, past, more := files[n], files[..n], files[..n + 1];
    assert more[..n] == past && more == past + [f];
    NoRepeatsConcat(AllNamed(named, past), named(f));
    OriginsNameAll(named, past, origin);
    if clash.None? {
      OriginsNext(named, past, f, origin, noted);
    }
  }

  lemma OriginsNameAll(named: File -> seq<string>, files: seq<File>, origin: map<string, string>)
    requires Origins(named, files, origin)
    ensures forall id :: id in AllNamed(named, files) <==> id in origin
  {
    forall id ensures id in AllNamed(named, files) <==> id in origin {
      AllNamedIn(named, files, id);
    }
  }

  lemma OriginsNext(named: File -> seq<string>, past: seq<File>, f: File, origin: map<string, string>,
                    noted: map<string, string>)
    requires Origins(named, past, origin) && noted.Keys == origin.Keys + set id | id in named(f)
    requires forall id :: id in noted ==> noted[id] == if id in origin then origin[id] else f.path
    ensures Origins(named, past + [f], noted)
  {
  }

  /** Repetition never goes away. */
  lemma {:induction false} RepeatsStay(named: File -> seq<string>, files: seq<File>, n: nat)
    requires n <= |files| && NoRepeats(AllNamed(named, files))
    ensures NoRepeats(AllNamed(named, files[..n]))
  {
    if n == |files| {
      assert files[..n] == files;
    } else {
      var front := files[..|files| - 1];
      NoRepeatsConcat(AllNamed(named, front), named(files[|files| - 1]));
      RepeatsStay(named, front, n);
      assert front[..n] == files[..n];
    }
  }

  /** A clash names an id that two different files of the layer mention. */
  ghost predicate Clashes(named: File -> seq<string>, files: seq<File>, id: string, at: string, first: string) {
    exists i, j :: 0 <= i < j < |files| && files[i].path == first && files[j].path == at
                   && id in named(files[i]) && id in named(files[j])
  }

  /** Adds one file's ids to those seen in its layer, or finds one of them there. */
  method Register(ghost named: File -> seq<string>, ghost files: seq<File>, ghost n: nat, f: File, ids: seq<string>,
                  origin: map<string, string>)
    returns (clash: Option<string>, noted: map<string, string>)
    requires n < |files| && files[n] == f && named(f) == ids && NoRepeats(ids)
    requires Origins(named, files[..n], origin) && NoRepeats(AllNamed(named, files[..n]))
    ensures clash.Some? ==> clash.value in origin && Clashes(named, files, clash.value, f.path, origin[clash.value])
    ensures clash.Some? ==> !NoRepeats(AllNamed(named, files))
    ensures clash.None? ==> Origins(named, files[..n + 1], noted) && NoRepeats(AllNamed(named, files[..n + 1]))
  {
    clash, noted := Note(ids, f.path, origin);
    NotedNext(named, files, n, origin, clash, noted);
    if clash.Some? {
      ClashAt(named, files, n, origin, clash.value);
      RepeatsSpread(named, files, n + 1);
    }
  }

  /** A refusal that tells the truth about these files. */
  ghost predicate Justified(files: seq<File>, why: Refusal) {
    match why
    case UnknownName(at) => exists f :: f in files && f.path == at && !f.namesOk
    case DuplicateRule(id, at, first) => Clashes(RulesNamed, files, id, at, first)
    case DuplicateEvent(id, at, first) => Clashes(EventsNamed, files, id, at, first)
  }

  /** Nothing in the first `n` files stands in the way, and their ids are on record. */
  ghost predicate Clear(files: seq<File>, n: nat, origin: map<string, string>, eventOrigin: map<string, string>) {
    && n <= |files| && (forall j :: 0 <= j < n ==> files[j].namesOk)
    && Origins(RulesNamed, files[..n], origin) && NoRepeats(AllNamed(RulesNamed, files[..n]))
    && Origins(EventsNamed, files[..n], eventOrigin) && NoRepeats(AllNamed(EventsNamed, files[..n]))
  }

  lemma ClearIsBuildable(files: seq<File>, origin: map<string, string>, eventOrigin: map<string, string>)
    requires Clear(files, |files|, origin, eventOrigin)
    ensures Buildable(files)
  {
    assert files[..|files|] == files;
  }

  /** Checks one file against those before it. */
  method Check(ghost files: seq<File>, ghost n: nat, f: File, origin: map<string, string>,
               eventOrigin: map<string, string>)
    returns (why: Option<Refusal>, noted: map<string, string>, eventNoted: map<string, string>)
    requires n < |files| && files[n] == f && ValidFile(f) && Clear(files, n, origin, eventOrigin)
    ensures why.None? ==> Clear(files, n + 1, noted, eventNoted)
    ensures why.Some? ==> !Buildable(files) && Justified(files, why.value)
  {
    noted, eventNoted := origin, eventOrigin;
    if !f.namesOk {
      return Some(UnknownName(f.path)), noted, eventNoted;
    }
    var clash;
    clash, noted := Register(RulesNamed, files, n, f, RulesNamed(f), origin);
    if clash.Some? {
      return Some(DuplicateRule(clash.value, f.path, origin[clash.value])), noted, eventNoted;
    }
    clash, eventNoted := Register(EventsNamed, files, n, f, EventsNamed(f), eventOrigin);
    if clash.Some? {
      return Some(DuplicateEvent(clash.value, f.path, eventOrigin[clash.value])), noted, eventNoted;
    }
    why := None;
  }

  /** Folds one layer's files together, or refuses the layer. */
  method BuildLayer(files: seq<File>) returns (r: Result<LayerResult, Refusal>)
    requires forall f :: f in files ==> ValidFile(f)
    ensures r.Ok? <==> Buildable(files)
    ensures r.Ok? ==> r.value == LayerOf(files)
    ensures r.Err? ==> Justified(files, r.error)
  {
    var layer := NOTHING;
    var origin: map<string, string>, eventOrigin: map<string, string> := map[], map[];
    for i := 0 to |files|
      invariant layer == LayerOf(files[..i])
      invariant Clear(files, i, origin, eventOrigin)
    {
      var f := files[i];
      assert f in files && files[..i + 1][..i] == files[..i];
      var why, noted, eventNoted := Check(files, i, f, origin, eventOrigin);
      if why.Some? {
        return Err(why.value);
      }
      origin, eventOrigin := noted, eventNoted;
      layer := WithFile(layer, f);
    }
    assert files[..|files|] == files;
    ClearIsBuildable(files, origin, eventOrigin);
    return Ok(layer);
  }

  lemma ClashAt(named: File -> seq<string>, files: seq<File>, n: nat, origin: map<string, string>, id: string)
    requires n < |files| && Origins(named, files[..n], origin) && id in named(files[n]) && id in origin
    ensures Clashes(named, files, id, files[n].path, origin[id])
  {
    var f :| f in files[..n] && id in named(f) && f.path == origin[id];
    var i :| 0 <= i < n && files[..n][i] == f;
    assert files[i].path == origin[id] && id in named(files[i]);
  }

  lemma RepeatsSpread(named: File -> seq<string>, files: seq<File>, n: nat)
    requires n <= |files| && !NoRepeats(AllNamed(named, files[..n]))
    ensures !NoRepeats(AllNamed(named, files))
  {
    if NoRepeats(AllNamed(named, files)) {
      RepeatsStay(named, files, n);
    }
  }

  // ---- layers into a config --------------------------------------------------------------------------------

  /** What a built layer guarantees, and what merging keeps. */
  ghost predicate ValidResult(l: LayerResult) {
    && ValidLayer(RuleId, l.rules) && ValidLayer(EventId, l.events)
    && (l.activeMode != "" ==> l.activeMode in l.modes)
  }

  lemma {:induction false} LayerIsValid(files: seq<File>)
    requires (forall f :: f in files ==> ValidFile(f)) && Buildable(files)
    ensures ValidResult(LayerOf(files))
    ensures forall r :: r in LayerOf(files).rules.ordered ==> r.id in AllNamed(RulesNamed, files)
    ensures forall id :: id in LayerOf(files).rules.disabled ==> id in AllNamed(RulesNamed, files)
    ensures forall e :: e in LayerOf(files).events.ordered ==> EventId(e) in AllNamed(EventsNamed, files)
    ensures forall id :: id in LayerOf(files).events.disabled ==> id in AllNamed(EventsNamed, files)
  {
    RulesAreValid(files);
    EventsAreValid(files);
    ModeIsDefined(files);
  }

  lemma {:induction false} RulesAreValid(files: seq<File>)
    requires (forall f :: f in files ==> ValidFile(f)) && NoRepeats(AllNamed(RulesNamed, files))
    ensures ValidLayer(RuleId, LayerOf(files).rules)
    ensures forall r :: r in LayerOf(files).rules.ordered ==> r.id in AllNamed(RulesNamed, files)
    ensures forall id :: id in LayerOf(files).rules.disabled ==> id in AllNamed(RulesNamed, files)
  {
    if files != [] {
      var front, f := files[..|files| - 1], files[|files| - 1];
      NoRepeatsConcat(AllNamed(RulesNamed, front), RulesNamed(f));
      RulesAreValid(front);
      NoRepeatsConcat(RuleIds(f.ordered), f.disabled);
      LaysEnd(RuleId, LayerOf(front).rules, f.ordered, RuleIds(f.ordered), f.disabled, AllNamed(RulesNamed, front));
    }
  }

  lemma {:induction false} EventsAreValid(files: seq<File>)
    requires (forall f :: f in files ==> ValidFile(f)) && NoRepeats(AllNamed(EventsNamed, files))
    ensures ValidLayer(EventId, LayerOf(files).events)
    ensures forall e :: e in LayerOf(files).events.ordered ==> EventId(e) in AllNamed(EventsNamed, files)
    ensures forall id :: id in LayerOf(files).events.disabled ==> id in AllNamed(EventsNamed, files)
  {
    if files != [] {
      var front, f := files[..|files| - 1], files[|files| - 1];
      NoRepeatsConcat(AllNamed(EventsNamed, front), EventsNamed(f));
      EventsAreValid(front);
      NoRepeatsConcat(EventIds(f.events), f.eventDisabled);
      LaysEnd(EventId, LayerOf(front).events, f.events, EventIds(f.events), f.eventDisabled,
              AllNamed(EventsNamed, front));
    }
  }

  lemma {:induction false} ModeIsDefined(files: seq<File>)
    requires forall f :: f in files ==> ValidFile(f)
    ensures LayerOf(files).activeMode != "" ==> LayerOf(files).activeMode in LayerOf(files).modes
  {
    if files != [] {
      ModeIsDefined(files[..|files| - 1]);
      assert ValidFile(files[|files| - 1]);
    }
  }

  /** Laying a file's entries at the end of a layer that mentions none of them. */
  lemma LaysEnd<T>(key: T -> string, before: Layer<T>, more: seq<T>, ids: seq<string>, disabled: seq<string>,
                   known: seq<string>)
    requires ValidLayer(key, before) && |ids| == |more| && forall i :: 0 <= i < |ids| ==> ids[i] == key(more[i])
    requires NoRepeats(ids) && (forall id :: id in disabled ==> id !in ids)
    requires forall id :: id in ids + disabled ==> id !in known
    requires (forall e :: e in before.ordered ==> key(e) in known) && forall id :: id in before.disabled ==> id in known
    ensures ValidLayer(key, Layer(before.ordered + more, before.disabled + set id | id in disabled))
    ensures forall e :: e in more ==> key(e) in ids
  {
    forall e | e in more ensures key(e) in ids {
      var i :| 0 <= i < |more| && more[i] == e;
      assert ids[i] == key(e);
    }
    var all, n := before.ordered + more, |before.ordered|;
    forall i, j | 0 <= i < j < |all| ensures key(all[i]) != key(all[j]) {
      if j >= n {
        assert all[j] == more[j - n] && ids[j - n] in ids + disabled;
        assert i >= n ==> all[i] == more[i - n];
        assert i < n ==> all[i] in before.ordered;
      }
    }
    forall e | e in all ensures key(e) !in before.disabled + set id | id in disabled {
      if e in more {
        assert key(e) in ids + disabled;
      } else {
        assert forall id :: id in disabled ==> id in ids + disabled;
      }
    }
  }

  ghost function Combined(base: LayerResult, overlay: LayerResult): LayerResult {
    var modes := base.modes + overlay.modes;
    var chosen := if overlay.activeMode != "" then overlay.activeMode else base.activeMode;
    LayerResult(
      Merged(RuleId, base.rules, overlay.rules),
      Merged(EventId, base.events, overlay.events),
      modes,
      if chosen in modes then chosen else "",
      if overlay.schemaVersion != 0 then overlay.schemaVersion else base.schemaVersion,
      if overlay.eventDefault.Some? then overlay.eventDefault else base.eventDefault)
  }

  method MergeLayers(base: LayerResult, overlay: LayerResult) returns (r: LayerResult)
    requires ValidResult(base) && ValidResult(overlay)
    ensures r == Combined(base, overlay)
  {
    var merged := MergeEntries(RuleId, base.rules, overlay.rules);
    var modes := base.modes + overlay.modes;
    var activeMode := base.activeMode;
    if overlay.activeMode != "" {
      activeMode := overlay.activeMode;
    }
    if activeMode != "" && activeMode !in modes {
      activeMode := "";
    }
    var schemaVersion := base.schemaVersion;
    if overlay.schemaVersion != 0 {
      schemaVersion := overlay.schemaVersion;
    }
    var events := MergeEntries(EventId, base.events, overlay.events);
    var eventDefault := base.eventDefault;
    if overlay.eventDefault.Some? {
      eventDefault := overlay.eventDefault;
    }
    r := LayerResult(merged, events, modes, activeMode, schemaVersion, eventDefault);
  }

  ghost function Stacked(layers: seq<LayerResult>): LayerResult {
    if layers == [] then NOTHING else Combined(Stacked(layers[..|layers| - 1]), layers[|layers| - 1])
  }

  ghost function RulesOf(layers: seq<LayerResult>): (r: seq<Layer<Rule>>)
    ensures |r| == |layers| && forall i :: 0 <= i < |r| ==> r[i] == layers[i].rules
  {
    seq(|layers|, i requires 0 <= i < |layers| => layers[i].rules)
  }

  ghost function EventsOf(layers: seq<LayerResult>): (r: seq<Layer<Event>>)
    ensures |r| == |layers| && forall i :: 0 <= i < |r| ==> r[i] == layers[i].events
  {
    seq(|layers|, i requires 0 <= i < |layers| => layers[i].events)
  }

  /** The stack's rules and events are the folds of the layers' rules and events. */
  lemma {:induction false} StackedFolds(layers: seq<LayerResult>)
    ensures Stacked(layers).rules == Fold(RuleId, RulesOf(layers))
              && Stacked(layers).events == Fold(EventId, EventsOf(layers))
  {
    if layers != [] {
      var n := |layers| - 1;
      StackedFolds(layers[..n]);
      assert RulesOf(layers)[..n] == RulesOf(layers[..n]) && EventsOf(layers)[..n] == EventsOf(layers[..n]);
    }
  }

  ghost function ModesOf(layers: seq<LayerResult>): Modes {
    if layers == [] then map[] else ModesOf(layers[..|layers| - 1]) + layers[|layers| - 1].modes
  }

  ghost function LastSelected(layers: seq<LayerResult>): string {
    if layers == [] then ""
    else if layers[|layers| - 1].activeMode != "" then layers[|layers| - 1].activeMode
    else LastSelected(layers[..|layers| - 1])
  }

  /** The merge never has to drop a selection: a layer only selects a mode it defines, and a defined mode stays. */
  lemma {:induction false} StackedModes(layers: seq<LayerResult>)
    requires forall l :: l in layers ==> ValidResult(l)
    ensures Stacked(layers).modes == ModesOf(layers) && Stacked(layers).activeMode == LastSelected(layers)
    ensures LastSelected(layers) != "" ==> LastSelected(layers) in ModesOf(layers)
  {
    if layers != [] {
      StackedModes(layers[..|layers| - 1]);
      assert ValidResult(layers[|layers| - 1]);
    }
  }

  /** `k` is the highest layer that selects a mode. */
  ghost predicate SelectsLast(layers: seq<LayerResult>, k: nat) {
    k < |layers| && layers[k].activeMode != "" && forall j :: k < j < |layers| ==> layers[j].activeMode == ""
  }

  /** `k` is the highest layer that defines the mode. */
  ghost predicate DefinesLast(layers: seq<LayerResult>, name: string, k: nat) {
    k < |layers| && name in layers[k].modes && forall j :: k < j < |layers| ==> name !in layers[j].modes
  }

  /** The active mode is the one the highest layer that selects any selects. */
  lemma {:induction false} LastSelectionWins(layers: seq<LayerResult>)
    ensures forall k: nat :: SelectsLast(layers, k) ==> LastSelected(layers) == layers[k].activeMode
    ensures (forall k :: 0 <= k < |layers| ==> layers[k].activeMode == "") ==> LastSelected(layers) == ""
  {
    if layers != [] {
      var n := |layers| - 1;
      LastSelectionWins(layers[..n]);
      forall k: nat | SelectsLast(layers, k) ensures LastSelected(layers) == layers[k].activeMode {
        if k < n {
          assert layers[n].activeMode == "" && SelectsLast(layers[..n], k);
        }
      }
    }
  }

  /** A mode has the params of the highest layer that defines it. */
  lemma {:induction false} LastDefinitionWins(layers: seq<LayerResult>, name: string)
    ensures forall k: nat :: DefinesLast(layers, name, k) ==>
              name in ModesOf(layers) && ModesOf(layers)[name] == layers[k].modes[name]
    ensures name in ModesOf(layers) ==> exists k :: 0 <= k < |layers| && name in layers[k].modes
  {
    if layers != [] {
      var n := |layers| - 1;
      LastDefinitionWins(layers[..n], name);
      forall k: nat | DefinesLast(layers, name, k)
        ensures name in ModesOf(layers) && ModesOf(layers)[name] == layers[k].modes[name]
      {
        if k < n {
          assert name !in layers[n].modes && DefinesLast(layers[..n], name, k);
        }
      }
      if name in ModesOf(layers[..n]) {
        var k :| 0 <= k < n && name in layers[..n][k].modes;
        assert name in layers[k].modes;
      }
    }
  }

  /**
   * In a loaded stack, modes and the active mode are those of the highest layer that speaks of them, and the
   * active one exists.
   */
  lemma {:induction false} ModesLastWin(layers: seq<LayerResult>, name: string)
    requires forall l :: l in layers ==> ValidResult(l)
    ensures forall k: nat :: DefinesLast(layers, name, k) ==>
              name in Stacked(layers).modes && Stacked(layers).modes[name] == layers[k].modes[name]
    ensures forall k: nat :: SelectsLast(layers, k) ==> Stacked(layers).activeMode == layers[k].activeMode
    ensures Stacked(layers).activeMode != "" ==> Stacked(layers).activeMode in Stacked(layers).modes
  {
    StackedModes(layers);
    LastDefinitionWins(layers, name);
    LastSelectionWins(layers);
  }

  lemma LayersAreValid(layers: seq<LayerResult>)
    requires forall l :: l in layers ==> ValidResult(l)
    ensures forall l :: l in RulesOf(layers) ==> ValidLayer(RuleId, l)
    ensures forall l :: l in EventsOf(layers) ==> ValidLayer(EventId, l)
  {
    forall l | l in RulesOf(layers) ensures ValidLayer(RuleId, l) {
      var i :| 0 <= i < |layers| && RulesOf(layers)[i] == l;
      assert layers[i] in layers;
    }
    forall l | l in EventsOf(layers) ensures ValidLayer(EventId, l) {
      var i :| 0 <= i < |layers| && EventsOf(layers)[i] == l;
      assert layers[i] in layers;
    }
  }

  lemma StackedIsValid(layers: seq<LayerResult>)
    requires forall l :: l in layers ==> ValidResult(l)
    ensures ValidResult(Stacked(layers))
  {
    StackedFolds(layers);
    LayersAreValid(layers);
    FoldIsValid(RuleId, RulesOf(layers));
    FoldIsValid(EventId, EventsOf(layers));
    StackedModes(layers);
  }

  predicate IsReact(r: Rule) {
    r.kind.React?
  }

  predicate IsInhibit(r: Rule) {
    r.kind.Inhibit?
  }

  ghost function ConfigOf(l: LayerResult): Config {
    Config(l.schemaVersion, l.activeMode, l.modes, Filter(l.rules.ordered, IsReact), Filter(l.rules.ordered, IsInhibit),
           l.rules.disabled, l.events.ordered, l.eventDefault)
  }

  method MakeConfig(l: LayerResult) returns (c: Config)
    ensures c == ConfigOf(l)
  {
    var react: seq<Rule>, inhibit: seq<Rule> := [], [];
    var rules := l.rules.ordered;
    for i := 0 to |rules|
      invariant react == Filter(rules[..i], IsReact) && inhibit == Filter(rules[..i], IsInhibit)
    {
      FilterStep(rules, i, IsReact);
      FilterStep(rules, i, IsInhibit);
      if rules[i].kind.Inhibit? {
        inhibit := inhibit + [rules[i]];
        continue;
      }
      react := react + [rules[i]];
    }
    assert rules[..|rules|] == rules;
    c := Config(l.schemaVersion, l.activeMode, l.modes, react, inhibit, l.rules.disabled, l.events.ordered,
                l.eventDefault);
  }

  /** The layers that hold any file, built. */
  ghost function Built(stacks: seq<seq<File>>): seq<LayerResult> {
    if stacks == [] then []
    else
      var front, last := Built(stacks[..|stacks| - 1]), stacks[|stacks| - 1];
      if last == [] then front else front + [LayerOf(last)]
  }

  ghost predicate AllBuildable(stacks: seq<seq<File>>) {
    forall files :: files in stacks ==> Buildable(files)
  }

  ghost predicate AllValid(layers: seq<LayerResult>) {
    forall l :: l in layers ==> ValidResult(l)
  }

  /** One more layer of the stack. */
  lemma BuiltNext(stacks: seq<seq<File>>, n: nat)
    requires n < |stacks| && (forall f :: f in stacks[n] ==> ValidFile(f)) && Buildable(stacks[n])
    requires AllBuildable(stacks[..n]) && AllValid(Built(stacks[..n]))
    ensures AllBuildable(stacks[..n + 1]) && AllValid(Built(stacks[..n + 1]))
    ensures ValidResult(LayerOf(stacks[n])) && ValidResult(Stacked(Built(stacks[..n])))
    ensures Stacked(Built(stacks[..n + 1])) ==
              if stacks[n] == [] then Stacked(Built(stacks[..n]))
                else Combined(Stacked(Built(stacks[..n])), LayerOf(stacks[n]))
  {
    var front, last := Built(stacks[..n]), LayerOf(stacks[n]);
    assert stacks[..n + 1] == stacks[..n] + [stacks[n]] && stacks[..n + 1][..n] == stacks[..n];
    LayerIsValid(stacks[n]);
    StackedIsValid(front);
    assert (front + [last])[..|front|] == front;
  }

  /** One turn of the loading loop: a layer without files changes nothing. */
  method LayOver(files: seq<File>, merged: LayerResult) returns (r: Result<LayerResult, Refusal>)
    requires (forall f :: f in files ==> ValidFile(f)) && ValidResult(merged)
    ensures r.Ok? <==> Buildable(files)
    ensures r.Ok? ==> r.value == if files == [] then merged else Combined(merged, LayerOf(files))
  {
    if |files| == 0 {
      assert AllNamed(RulesNamed, files) == [] && AllNamed(EventsNamed, files) == [];
      return Ok(merged);
    }
    var built := BuildLayer(files);
    if built.Err? {
      return Err(built.error);
    }
    LayerIsValid(files);
    var next := MergeLayers(merged, built.value);
    return Ok(next);
  }

  /** Builds every layer and lays each over those below; the first layer that cannot be built refuses the whole load. */
  method Load(stacks: seq<seq<File>>) returns (r: Result<Config, Refusal>)
    requires forall files, f :: files in stacks && f in files ==> ValidFile(f)
    ensures r.Ok? <==> AllBuildable(stacks)
    ensures r.Ok? ==> r.value == ConfigOf(Stacked(Built(stacks))) && AllValid(Built(stacks))
  {
    var merged := NOTHING;
    for i := 0 to |stacks|
      invariant merged == Stacked(Built(stacks[..i]))
      invariant AllBuildable(stacks[..i]) && AllValid(Built(stacks[..i]))
    {
      assert stacks[i] in stacks;
      StackedIsValid(Built(stacks[..i]));
      var next := LayOver(stacks[i], merged);
      if next.Err? {
        return Err(next.error);
      }
      BuiltNext(stacks, i);
      merged := next.value;
    }
    assert stacks[..|stacks|] == stacks;
    var config := MakeConfig(merged);
    return Ok(config);
  }

  /** Some layer is the highest to mention an id, unless none does. */
  lemma {:induction false} HighestMention<T>(key: T -> string, layers: seq<Layer<T>>, id: string)
    ensures (exists k: nat :: LastMention(key, layers, id, k)) || forall k: nat :: k < |layers| ==>
              !Mentions(key, layers[k], id)
  {
    if layers != [] {
      var n := |layers| - 1;
      HighestMention(key, layers[..n], id);
      if Mentions(key, layers[n], id) {
        assert LastMention(key, layers, id, n);
      } else if exists k: nat :: LastMention(key, layers[..n], id, k) {
        var k: nat :| LastMention(key, layers[..n], id, k);
        assert LastMention(key, layers, id, k);
      }
    }
  }

  lemma {:induction false} FilterFresh(rules: seq<Rule>, keep: Rule -> bool)
    requires Fresh(RuleId, rules)
    ensures Fresh(RuleId, Filter(rules, keep))
  {
    if rules != [] {
      var front, last := rules[..|rules| - 1], rules[|rules| - 1];
      FilterFresh(front, keep);
      forall r | r in front ensures RuleId(r) != RuleId(last) {
        var i :| 0 <= i < |front| && front[i] == r;
        assert RuleId(rules[i]) != RuleId(rules[|rules| - 1]);
      }
    }
  }

  /** Splitting the rules by kind loses none and repeats none. */
  lemma KindsApart(rules: seq<Rule>)
    requires Fresh(RuleId, rules)
    ensures DistinctRules(Filter(rules, IsReact) + Filter(rules, IsInhibit))
    ensures forall r :: r in rules <==> r in Filter(rules, IsReact) + Filter(rules, IsInhibit)
  {
    var a, b := Filter(rules, IsReact), Filter(rules, IsInhibit);
    FilterFresh(rules, IsReact);
    FilterFresh(rules, IsInhibit);
    var all: seq<Rule> := a + b;
    forall i, j | 0 <= i < j < |all| ensures all[i].id != all[j].id {
      if i < |a| <= j {
        assert a[i] in rules && b[j - |a|] in rules;
        FindsOnly(RuleId, rules, a[i]);
        FindsOnly(RuleId, rules, b[j - |a|]);
      } else if j < |a| {
        assert RuleId(a[i]) != RuleId(a[j]);
      } else {
        assert RuleId(b[i - |a|]) != RuleId(b[j - |a|]);
      }
    }
    forall r | r in rules ensures r in a + b {
      if IsReact(r) {
        FilterKeeps(rules, IsReact, r);
      } else {
        FilterKeeps(rules, IsInhibit, r);
      }
    }
  }

  /** An entry is in the fold exactly when the highest layer that mentions its id defines it. */
  lemma LiveEntries<T>(key: T -> string, layers: seq<Layer<T>>, e: T)
    requires forall l :: l in layers ==> ValidLayer(key, l)
    ensures e in Fold(key, layers).ordered <==>
              exists k: nat :: LastMention(key, layers, key(e), k) && e in layers[k].ordered
  {
    LastMentionWins(key, layers, key(e));
    FoldIsValid(key, layers);
    if e in Fold(key, layers).ordered {
      FindsOnly(key, Fold(key, layers).ordered, e);
      HighestMention(key, layers, key(e));
    }
    forall k: nat | LastMention(key, layers, key(e), k) && e in layers[k].ordered
      ensures e in Fold(key, layers).ordered
    {
      assert ValidLayer(key, layers[k]);
      FindsOnly(key, layers[k].ordered, e);
    }
  }

  /** And an id is tombstoned in it exactly when that layer tombstones it. */
  lemma DeadEntries<T>(key: T -> string, layers: seq<Layer<T>>, id: string)
    requires forall l :: l in layers ==> ValidLayer(key, l)
    ensures id in Fold(key, layers).disabled <==>
              exists k: nat :: LastMention(key, layers, id, k) && id in layers[k].disabled
  {
    LastMentionWins(key, layers, id);
    HighestMention(key, layers, id);
  }

  /**
   * A loaded config runs exactly the rules that the highest layer mentioning their id defines, and no two share
   * an id.
   */
  lemma {:induction false} LoadedRules(layers: seq<LayerResult>, rule: Rule)
    requires forall l :: l in layers ==> ValidResult(l)
    ensures var c := ConfigOf(Stacked(layers));
            && DistinctRules(c.react + c.inhibit)
            && (rule in c.react + c.inhibit <==>
                  exists k: nat :: LastMention(RuleId, RulesOf(layers), rule.id, k)
                    && rule in RulesOf(layers)[k].ordered)
  {
    StackedFolds(layers);
    LayersAreValid(layers);
    FoldIsValid(RuleId, RulesOf(layers));
    KindsApart(Fold(RuleId, RulesOf(layers)).ordered);
    LiveEntries(RuleId, RulesOf(layers), rule);
  }
}
