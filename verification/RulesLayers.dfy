/**
 * Merging a stack of rules layers: overrides, tombstones and revival, against a reading in which the last
 * mention wins.
 */
module RulesLayers {
  import opened Common
  import opened RuleTypes

  /** The entries a layer defines, in order, and the ids it tombstones. Rules and events merge alike. */
  datatype Layer<T> = Layer(ordered: seq<T>, disabled: set<string>)

  predicate Fresh<T>(key: T -> string, s: seq<T>) {
    forall i, j :: 0 <= i < j < |s| ==> key(s[i]) != key(s[j])
  }

  /** What loading guarantees of a layer, and what merging keeps: an id is mentioned at most once. */
  ghost predicate ValidLayer<T>(key: T -> string, l: Layer<T>) {
    Fresh(key, l.ordered) && forall e :: e in l.ordered ==> key(e) !in l.disabled
  }

  /** The entry a sequence holds under an id. */
  function Find<T>(key: T -> string, s: seq<T>, id: string): (r: Option<T>)
    ensures r.Some? ==> r.value in s && key(r.value) == id
    ensures r.None? ==> forall e :: e in s ==> key(e) != id
  {
    if s == [] then None
    else if key(s[|s| - 1]) == id then Some(s[|s| - 1])
    else
      assert s == s[..|s| - 1] + [s[|s| - 1]];
      Find(key, s[..|s| - 1], id)
  }

  lemma FindsOnly<T>(key: T -> string, s: seq<T>, e: T)
    requires Fresh(key, s) && e in s
    ensures Find(key, s, key(e)) == Some(e)
  {
    var i :| 0 <= i < |s| && s[i] == e;
    var f := Find(key, s, key(e)).value;
    var j :| 0 <= j < |s| && s[j] == f;
    assert i == j;
  }

  // ---- one merge -------------------------------------------------------------------------------------------

  /** What stays of the lower entries: replaced where the overlay redefines them, dropped where it tombstones them. */
  function Retained<T>(key: T -> string, base: seq<T>, overlay: Layer<T>): (r: seq<T>)
    ensures |r| <= |base|
  {
    if base == [] then []
    else
      var front, last := Retained(key, base[..|base| - 1], overlay), base[|base| - 1];
      var replacement := Find(key, overlay.ordered, key(last));
      if replacement.Some? then front + [replacement.value]
      else if key(last) in overlay.disabled then front
      else front + [last]
  }

  function Unknown<T>(key: T -> string, base: seq<T>): T -> bool {
    e => Find(key, base, key(e)).None?
  }

  /** The ids a sequence defines. */
  ghost function IdsOf<T>(key: T -> string, s: seq<T>): set<string> {
    set e | e in s :: key(e)
  }

  /**
   * The overlay laid over the base: lower positions are kept, new entries come last, revived ids lose their
   * tombstone.
   */
  ghost function Merged<T>(key: T -> string, base: Layer<T>, overlay: Layer<T>): Layer<T> {
    Layer(Retained(key, base.ordered, overlay) + Filter(overlay.ordered, Unknown(key, base.ordered)),
          (base.disabled + overlay.disabled) - IdsOf(key, overlay.ordered))
  }

  /** The map holds every entry under its id. */
  ghost predicate Indexes<T>(key: T -> string, s: seq<T>, m: map<string, T>) {
    && (forall id :: id in m <==> Find(key, s, id).Some?)
    && (forall id :: id in m ==> Some(m[id]) == Find(key, s, id))
  }

  method ById<T>(key: T -> string, s: seq<T>) returns (m: map<string, T>)
    ensures Indexes(key, s, m)
  {
    m := map[];
    for i := 0 to |s|
      invariant forall id :: id in m <==> Find(key, s[..i], id).Some?
      invariant forall id :: id in m ==> Some(m[id]) == Find(key, s[..i], id)
    {
      assert s[..i + 1][..i] == s[..i];
      m := m[key(s[i]) := s[i]];
    }
    assert s[..|s|] == s;
  }

  /** What the merging loop has gathered after `i` of the base's and then the overlay's entries. */
  ghost function Gathered<T>(key: T -> string, base: Layer<T>, overlay: Layer<T>, i: nat): seq<T>
    requires i <= |base.ordered + overlay.ordered|
  {
    var n := |base.ordered|;
    if i <= n then Retained(key, base.ordered[..i], overlay)
    else Retained(key, base.ordered, overlay) + Filter(overlay.ordered[..i - n], Unknown(key, base.ordered))
  }

  lemma GatheredBase<T>(key: T -> string, base: Layer<T>, overlay: Layer<T>, i: nat)
    requires ValidLayer(key, base) && i < |base.ordered|
    ensures var e := base.ordered[i];
            var replacement := Find(key, overlay.ordered, key(e));
            var before := Gathered(key, base, overlay, i);
            Gathered(key, base, overlay, i + 1) ==
              if replacement.Some? then before + [replacement.value]
              else if key(e) in base.disabled + overlay.disabled then before
              else before + [e]
  {
    assert base.ordered[i] in base.ordered && base.ordered[..i + 1][..i] == base.ordered[..i];
  }

  lemma GatheredOverlay<T>(key: T -> string, base: Layer<T>, overlay: Layer<T>, i: nat)
    requires i < |overlay.ordered|
    ensures var n, e := |base.ordered|, overlay.ordered[i];
            var before := Gathered(key, base, overlay, n + i);
            Gathered(key, base, overlay, n + i + 1) == if Unknown(key, base.ordered)(e) then before + [e] else before
  {
    var e, keep := overlay.ordered[i], Unknown(key, base.ordered);
    GatheredSecond(key, base, overlay, i);
    GatheredSecond(key, base, overlay, i + 1);
    FilterStep(overlay.ordered, i, keep);
    if keep(e) {
      ConcatAssociates(Retained(key, base.ordered, overlay), Filter(overlay.ordered[..i], keep), [e]);
    }
  }

  /** Among the overlay's entries, all of the base's are dealt with. */
  lemma GatheredSecond<T>(key: T -> string, base: Layer<T>, overlay: Layer<T>, i: nat)
    requires i <= |overlay.ordered|
    ensures Gathered(key, base, overlay, |base.ordered| + i) ==
            Retained(key, base.ordered, overlay) + Filter(overlay.ordered[..i], Unknown(key, base.ordered))
  {
    assert base.ordered[..|base.ordered|] == base.ordered;
    assert i == 0 ==> Filter(overlay.ordered[..0], Unknown(key, base.ordered)) == [];
  }

  /**
   * One turn of the merging loop: an id met before is skipped, the overlay's entry wins, a bare tombstone drops
   * the entry.
   */
  lemma GatheredNext<T>(key: T -> string, base: Layer<T>, overlay: Layer<T>, i: nat)
    requires ValidLayer(key, base) && ValidLayer(key, overlay) && i < |base.ordered + overlay.ordered|
    ensures var all := base.ordered + overlay.ordered;
            var replacement := Find(key, overlay.ordered, key(all[i]));
            var before := Gathered(key, base, overlay, i);
            Gathered(key, base, overlay, i + 1) ==
              if key(all[i]) in IdsOf(key, all[..i]) then before
              else if replacement.Some? then before + [replacement.value]
              else if key(all[i]) in base.disabled + overlay.disabled then before
              else before + [all[i]]
  {
    SeenBefore(key, base.ordered, overlay.ordered, i);
    if i < |base.ordered| {
      GatheredBase(key, base, overlay, i);
    } else {
      GatheredOverlay(key, base, overlay, i - |base.ordered|);
    }
  }

  lemma GatheredAll<T>(key: T -> string, base: Layer<T>, overlay: Layer<T>)
    ensures Gathered(key, base, overlay, |base.ordered + overlay.ordered|) == Merged(key, base, overlay).ordered
  {
    assert base.ordered[..|base.ordered|] == base.ordered;
    assert overlay.ordered[..|overlay.ordered|] == overlay.ordered;
    assert overlay.ordered == [] ==> Filter(overlay.ordered, Unknown(key, base.ordered)) == [];
  }

  lemma IdsOfStep<T>(key: T -> string, s: seq<T>, i: nat)
    requires i < |s|
    ensures IdsOf(key, s[..i + 1]) == IdsOf(key, s[..i]) + {key(s[i])}
  {
    assert s[..i + 1] == s[..i] + [s[i]];
  }

  lemma FoundIds<T>(key: T -> string, s: seq<T>, disabled: set<string>, byId: map<string, T>)
    requires Indexes(key, s, byId)
    ensures (set id | id in disabled && id !in byId) == disabled - IdsOf(key, s)
  {
    forall id | id in disabled ensures id in byId <==> id in IdsOf(key, s) {
      if id in IdsOf(key, s) {
        var e :| e in s && key(e) == id;
      }
    }
  }

  /** The same turn, by way of the overlay's entries by id. */
  lemma GatheredTurn<T>(key: T -> string, base: Layer<T>, overlay: Layer<T>, i: nat, byId: map<string, T>)
    requires ValidLayer(key, base) && ValidLayer(key, overlay) && i < |base.ordered + overlay.ordered|
    requires Indexes(key, overlay.ordered, byId)
    ensures var all := base.ordered + overlay.ordered;
            var e, before := all[i], Gathered(key, base, overlay, i);
            && (key(e) in byId ==> key(byId[key(e)]) == key(e))
            && Gathered(key, base, overlay, i + 1) ==
                 if key(e) in IdsOf(key, all[..i]) then before
                 else if key(e) in byId then before + [byId[key(e)]]
                 else if key(e) in base.disabled + overlay.disabled then before
                 else before + [e]
  {
    GatheredNext(key, base, overlay, i);
  }

  lemma MergeEnds<T>(key: T -> string, base: Layer<T>, overlay: Layer<T>, byId: map<string, T>)
    requires Indexes(key, overlay.ordered, byId)
    ensures var disabled := base.disabled + overlay.disabled;
            Layer(Gathered(key, base, overlay, |base.ordered + overlay.ordered|),
                  set id | id in disabled && id !in byId) == Merged(key, base, overlay)
  {
    GatheredAll(key, base, overlay);
    FoundIds(key, overlay.ordered, base.disabled + overlay.disabled, byId);
  }

  /** One turn of the loop, at one entry. */
  method MergeOne<T>(key: T -> string, ghost base: Layer<T>, ghost overlay: Layer<T>, ghost i: nat, e: T,
                     overlayById: map<string, T>, disabled: set<string>, was: seq<T>, met: set<string>)
    returns (ordered: seq<T>, seen: set<string>)
    requires ValidLayer(key, base) && ValidLayer(key, overlay) && Indexes(key, overlay.ordered, overlayById)
    requires i < |base.ordered + overlay.ordered| && e == (base.ordered + overlay.ordered)[i]
    requires disabled == base.disabled + overlay.disabled
    requires met == IdsOf(key, (base.ordered + overlay.ordered)[..i]) && was == Gathered(key, base, overlay, i)
    ensures seen == IdsOf(key, (base.ordered + overlay.ordered)[..i + 1])
    ensures ordered == Gathered(key, base, overlay, i + 1)
  {
    IdsOfStep(key, base.ordered + overlay.ordered, i);
    GatheredTurn(key, base, overlay, i, overlayById);
    ordered, seen := was, met;
    if key(e) in seen {
      return;
    }
    seen := seen + {key(e)};
    var winner := if key(e) in overlayById then overlayById[key(e)] else e;
    if key(winner) in disabled && key(winner) !in overlayById {
      return;
    }
    ordered := ordered + [winner];
  }

  /** The merging loop: each id once, at its first position, with the overlay's entry if there is one. */
  method MergeEntries<T>(key: T -> string, base: Layer<T>, overlay: Layer<T>) returns (m: Layer<T>)
    requires ValidLayer(key, base) && ValidLayer(key, overlay)
    ensures m == Merged(key, base, overlay)
  {
    var overlayById := ById(key, overlay.ordered);
    var disabled := base.disabled + overlay.disabled;
    var all := base.ordered + overlay.ordered;
    var ordered: seq<T> := [];
    var seen: set<string> := {};
    for i := 0 to |all|
      invariant seen == IdsOf(key, all[..i])
      invariant ordered == Gathered(key, base, overlay, i)
    {
      ordered, seen := MergeOne(key, base, overlay, i, all[i], overlayById, disabled, ordered, seen);
    }
    m := Layer(ordered, set id | id in disabled && id !in overlayById);
    MergeEnds(key, base, overlay, overlayById);
  }

  /**
   * Whether the merging loop has met an id: never for a base entry, and for an overlay entry when the base
   * defines it.
   */
  lemma SeenBefore<T>(key: T -> string, base: seq<T>, overlay: seq<T>, i: nat)
    requires Fresh(key, base) && Fresh(key, overlay) && i < |base + overlay|
    ensures i < |base| ==> key((base + overlay)[i]) !in IdsOf(key, (base + overlay)[..i])
    ensures i >= |base| ==>
              (key((base + overlay)[i]) in IdsOf(key, (base + overlay)[..i]) <==>
               !Unknown(key, base)((base + overlay)[i]))
              && Find(key, overlay, key((base + overlay)[i])) == Some((base + overlay)[i])
  {
    var all := base + overlay;
    if i >= |base| {
      FindsOnly(key, overlay, all[i]);
      assert all[..i] == base + overlay[..i - |base|];
      assert forall e :: e in overlay[..i - |base|] ==> key(e) != key(overlay[i - |base|]);
    } else {
      assert all[..i] == base[..i];
    }
  }

  // ---- what one merge means, id by id ----------------------------------------------------------------------

  lemma {:induction false} FindConcat<T>(key: T -> string, a: seq<T>, b: seq<T>, id: string)
    ensures Find(key, a + b, id) == if Find(key, b, id).Some? then Find(key, b, id) else Find(key, a, id)
  {
    if b == [] {
      assert a + b == a;
    } else {
      assert (a + b)[..|a + b| - 1] == a + b[..|b| - 1];
      FindConcat(key, a, b[..|b| - 1], id);
    }
  }

  lemma FindOne<T>(key: T -> string, e: T, id: string)
    ensures Find(key, [e], id) == if key(e) == id then Some(e) else None
  {
  }

  lemma {:induction false} FindRetained<T>(key: T -> string, base: seq<T>, overlay: Layer<T>, id: string)
    ensures Find(key, Retained(key, base, overlay), id) ==
              if Find(key, base, id).None? then None
              else if Find(key, overlay.ordered, id).Some? then Find(key, overlay.ordered, id)
              else if id in overlay.disabled then None
              else Find(key, base, id)
  {
    if base != [] {
      var front, last := base[..|base| - 1], base[|base| - 1];
      FindRetained(key, front, overlay, id);
      var replacement := Find(key, overlay.ordered, key(last));
      if replacement.Some? {
        FindConcat(key, Retained(key, front, overlay), [replacement.value], id);
        FindOne(key, replacement.value, id);
      } else if key(last) !in overlay.disabled {
        FindConcat(key, Retained(key, front, overlay), [last], id);
        FindOne(key, last, id);
      }
    }
  }

  lemma {:induction false} FindUnknown<T>(key: T -> string, s: seq<T>, base: seq<T>, id: string)
    ensures Find(key, Filter(s, Unknown(key, base)), id) == if Find(key, base, id).None? then Find(key, s, id) else None
  {
    if s != [] {
      var front, last := s[..|s| - 1], s[|s| - 1];
      var keep := Unknown(key, base);
      FindUnknown(key, front, base, id);
      assert s == front + [last];
      FilterSnoc(front, last, keep);
      if keep(last) {
        FindConcat(key, Filter(front, keep), [last], id);
        FindOne(key, last, id);
      }
    }
  }

  /** The overlay has the last word on every id it mentions, and the base on the others. */
  lemma FindMerged<T>(key: T -> string, base: Layer<T>, overlay: Layer<T>, id: string)
    ensures Find(key, Merged(key, base, overlay).ordered, id) ==
              if Find(key, overlay.ordered, id).Some? then Find(key, overlay.ordered, id)
              else if id in overlay.disabled then None
              else Find(key, base.ordered, id)
    ensures id in Merged(key, base, overlay).disabled <==>
              Find(key, overlay.ordered, id).None? && (id in base.disabled || id in overlay.disabled)
  {
    var keep := Unknown(key, base.ordered);
    FindConcat(key, Retained(key, base.ordered, overlay), Filter(overlay.ordered, keep), id);
    FindRetained(key, base.ordered, overlay, id);
    FindUnknown(key, overlay.ordered, base.ordered, id);
    if id in IdsOf(key, overlay.ordered) {
      var e :| e in overlay.ordered && key(e) == id;
    }
  }

  /** Which entry each id has, and which ids are tombstoned, does not depend on how the merges are bracketed. */
  lemma {:induction false} MergeAssociates<T>(key: T -> string, a: Layer<T>, b: Layer<T>, c: Layer<T>, id: string)
    ensures var left, right := Merged(key, Merged(key, a, b), c), Merged(key, a, Merged(key, b, c));
            && Find(key, left.ordered, id) == Find(key, right.ordered, id)
            && (Find(key, left.ordered, id).None? ==> (id in left.disabled <==> id in right.disabled))
  {
    FindMerged(key, a, b, id);
    FindMerged(key, Merged(key, a, b), c, id);
    FindMerged(key, b, c, id);
    FindMerged(key, a, Merged(key, b, c), id);
  }

  // ---- a stack of layers -----------------------------------------------------------------------------------

  ghost function Fold<T>(key: T -> string, layers: seq<Layer<T>>): Layer<T> {
    if layers == [] then Layer([], {})
    else Merged(key, Fold(key, layers[..|layers| - 1]), layers[|layers| - 1])
  }

  ghost predicate Mentions<T>(key: T -> string, l: Layer<T>, id: string) {
    Find(key, l.ordered, id).Some? || id in l.disabled
  }

  /** `k` is the highest layer that mentions the id. */
  ghost predicate LastMention<T>(key: T -> string, layers: seq<Layer<T>>, id: string, k: nat) {
    k < |layers| && Mentions(key, layers[k], id) && forall j :: k < j < |layers| ==> !Mentions(key, layers[j], id)
  }

  lemma MentionedInFront<T>(key: T -> string, layers: seq<Layer<T>>, id: string, k: nat)
    requires k < |layers| - 1 && LastMention(key, layers, id, k)
    ensures LastMention(key, layers[..|layers| - 1], id, k) && layers[..|layers| - 1][k] == layers[k]
    ensures !Mentions(key, layers[|layers| - 1], id)
  {
  }

  /** An id nobody mentions is neither live nor tombstoned. */
  lemma {:induction false} NeverMentioned<T>(key: T -> string, layers: seq<Layer<T>>, id: string)
    requires forall k: nat :: k < |layers| ==> !Mentions(key, layers[k], id)
    ensures Find(key, Fold(key, layers).ordered, id).None? && id !in Fold(key, layers).disabled
  {
    if layers != [] {
      var n := |layers| - 1;
      NeverMentioned(key, layers[..n], id);
      FindMerged(key, Fold(key, layers[..n]), layers[n], id);
      assert !Mentions(key, layers[n], id);
    }
  }

  /** An overlay that does not mention an id leaves it as it was. */
  lemma Unmentioned<T>(key: T -> string, base: Layer<T>, overlay: Layer<T>, id: string)
    requires !Mentions(key, overlay, id)
    ensures Find(key, Merged(key, base, overlay).ordered, id) == Find(key, base.ordered, id)
    ensures id in Merged(key, base, overlay).disabled <==> id in base.disabled
  {
    FindMerged(key, base, overlay, id);
  }

  /** One that does decides it. */
  lemma Mentioned<T>(key: T -> string, base: Layer<T>, overlay: Layer<T>, id: string)
    requires ValidLayer(key, overlay) && Mentions(key, overlay, id)
    ensures Find(key, Merged(key, base, overlay).ordered, id) == Find(key, overlay.ordered, id)
    ensures id in Merged(key, base, overlay).disabled <==> id in overlay.disabled
  {
    FindMerged(key, base, overlay, id);
  }

  /** The highest layer that mentions an id decides it. */
  lemma {:induction false} LastMentionDecides<T>(key: T -> string, layers: seq<Layer<T>>, id: string, k: nat)
    requires (forall l :: l in layers ==> ValidLayer(key, l)) && LastMention(key, layers, id, k)
    ensures Find(key, Fold(key, layers).ordered, id) == Find(key, layers[k].ordered, id)
    ensures id in Fold(key, layers).disabled <==> id in layers[k].disabled
  {
    var n := |layers| - 1;
    if k < n {
      MentionedInFront(key, layers, id, k);
      LastMentionDecides(key, layers[..n], id, k);
      Unmentioned(key, Fold(key, layers[..n]), layers[n], id);
    } else {
      Mentioned(key, Fold(key, layers[..n]), layers[n], id);
    }
  }

  /** A live id is not tombstoned. */
  lemma {:induction false} LiveNotTombstoned<T>(key: T -> string, layers: seq<Layer<T>>, id: string)
    requires forall l :: l in layers ==> ValidLayer(key, l)
    ensures Find(key, Fold(key, layers).ordered, id).Some? ==> id !in Fold(key, layers).disabled
  {
    if layers != [] {
      var n := |layers| - 1;
      LiveNotTombstoned(key, layers[..n], id);
      FindMerged(key, Fold(key, layers[..n]), layers[n], id);
    }
  }

  /**
   * Nothing but the highest layer that mentions an id counts: it is live with that layer's entry, or
   * tombstoned, as that layer says.
   */
  lemma {:induction false} LastMentionWins<T>(key: T -> string, layers: seq<Layer<T>>, id: string)
    requires forall l :: l in layers ==> ValidLayer(key, l)
    ensures forall k: nat :: LastMention(key, layers, id, k) ==>
              && Find(key, Fold(key, layers).ordered, id) == Find(key, layers[k].ordered, id)
              && (id in Fold(key, layers).disabled <==> id in layers[k].disabled)
    ensures (forall k: nat :: k < |layers| ==> !Mentions(key, layers[k], id)) ==>
              Find(key, Fold(key, layers).ordered, id).None? && id !in Fold(key, layers).disabled
    ensures Find(key, Fold(key, layers).ordered, id).Some? ==> id !in Fold(key, layers).disabled
  {
    forall k: nat | LastMention(key, layers, id, k)
      ensures Find(key, Fold(key, layers).ordered, id) == Find(key, layers[k].ordered, id)
      ensures id in Fold(key, layers).disabled <==> id in layers[k].disabled
    {
      LastMentionDecides(key, layers, id, k);
    }
    if forall k: nat :: k < |layers| ==> !Mentions(key, layers[k], id) {
      NeverMentioned(key, layers, id);
    }
    LiveNotTombstoned(key, layers, id);
  }

  // ---- the order of the live entries -----------------------------------------------------------------------

  /**
   * The id's current unbroken live span began in layer `s`: defined there, never tombstoned since, and not live
   * before.
   */
  ghost predicate SpanBegins<T>(key: T -> string, layers: seq<Layer<T>>, id: string, s: nat) {
    && s < |layers| && Find(key, layers[s].ordered, id).Some?
    && (forall j :: s <= j < |layers| ==> id !in layers[j].disabled)
    && (forall t :: 0 <= t < s && Find(key, layers[t].ordered, id).Some? ==>
        exists j :: t < j < s && id in layers[j].disabled)
  }

  /** Where the current live span of an id began, if it is live. */
  ghost function Since<T>(key: T -> string, layers: seq<Layer<T>>, id: string): (r: Option<nat>)
    requires forall l :: l in layers ==> ValidLayer(key, l)
    ensures r.Some? ==> SpanBegins(key, layers, id, r.value)
    ensures r.None? ==> forall t :: 0 <= t < |layers| && Find(key, layers[t].ordered, id).Some? ==>
                          exists j :: t < j < |layers| && id in layers[j].disabled
  {
    if layers == [] then None
    else
      var n := |layers| - 1;
      var before := Since(key, layers[..n], id);
      assert ValidLayer(key, layers[n]);
      if id in layers[n].disabled then None
      else if before.Some? then before
      else if Find(key, layers[n].ordered, id).Some? then Some(n)
      else None
  }

  /** A span has one beginning. */
  lemma SinceIsUnique<T>(key: T -> string, layers: seq<Layer<T>>, id: string, a: nat, b: nat)
    requires SpanBegins(key, layers, id, a) && SpanBegins(key, layers, id, b)
    ensures a == b
  {
  }

  lemma {:induction false} LiveIffSince<T>(key: T -> string, layers: seq<Layer<T>>, id: string)
    requires forall l :: l in layers ==> ValidLayer(key, l)
    ensures Find(key, Fold(key, layers).ordered, id).Some? <==> Since(key, layers, id).Some?
  {
    if layers != [] {
      var n := |layers| - 1;
      LiveIffSince(key, layers[..n], id);
      FindMerged(key, Fold(key, layers[..n]), layers[n], id);
      assert ValidLayer(key, layers[n]);
    }
  }

  /** Where a sequence holds an id. */
  ghost predicate At<T>(key: T -> string, s: seq<T>, id: string, p: nat) {
    p < |s| && key(s[p]) == id
  }

  /** In one layer, `a` has the earlier position. */
  ghost predicate Earlier<T>(key: T -> string, l: Layer<T>, a: string, b: string) {
    exists p: nat, q: nat :: At(key, l.ordered, a, p) && At(key, l.ordered, b, q) && p < q
  }

  lemma EarlierIsStrict<T>(key: T -> string, l: Layer<T>, a: string, b: string)
    requires ValidLayer(key, l)
    ensures !(Earlier(key, l, a, b) && Earlier(key, l, b, a))
  {
    forall p: nat, q: nat | At(key, l.ordered, a, p) && At(key, l.ordered, a, q) ensures p == q {
    }
    forall p: nat, q: nat | At(key, l.ordered, b, p) && At(key, l.ordered, b, q) ensures p == q {
    }
  }

  /** `a` stands before `b`: its live span began in an earlier layer, or at an earlier position of the same one. */
  ghost predicate Before<T>(key: T -> string, layers: seq<Layer<T>>, a: string, b: string) {
    exists s: nat, t: nat :: SpanBegins(key, layers, a, s) && SpanBegins(key, layers, b, t)
      && (s < t || (s == t && Earlier(key, layers[s], a, b)))
  }

  ghost predicate InOrder<T>(key: T -> string, layers: seq<Layer<T>>, s: seq<T>) {
    forall i, j :: 0 <= i < j < |s| ==> Before(key, layers, key(s[i]), key(s[j]))
  }

  /** A span goes on through a layer that does not tombstone the id. */
  lemma SpanGoesOn<T>(key: T -> string, layers: seq<Layer<T>>, last: Layer<T>, id: string, s: nat)
    requires SpanBegins(key, layers, id, s) && id !in last.disabled
    ensures SpanBegins(key, layers + [last], id, s)
  {
    var more := layers + [last];
    forall t | 0 <= t < s && Find(key, more[t].ordered, id).Some?
      ensures exists j :: t < j < s && id in more[j].disabled
    {
      assert Find(key, layers[t].ordered, id).Some?;
      var j :| t < j < s && id in layers[j].disabled;
      assert id in more[j].disabled;
    }
  }

  lemma BeforeStays<T>(key: T -> string, layers: seq<Layer<T>>, last: Layer<T>, a: string, b: string)
    requires Before(key, layers, a, b) && a !in last.disabled && b !in last.disabled
    ensures Before(key, layers + [last], a, b)
  {
    var s: nat, t: nat :| SpanBegins(key, layers, a, s) && SpanBegins(key, layers, b, t)
      && (s < t || (s == t && Earlier(key, layers[s], a, b)));
    SpanGoesOn(key, layers, last, a, s);
    SpanGoesOn(key, layers, last, b, t);
    assert (layers + [last])[s] == layers[s];
  }

  /** What is retained keeps its order, and brings in no id of its own and none the overlay tombstones. */
  lemma {:induction false} RetainedInOrder<T>(key: T -> string, layers: seq<Layer<T>>, last: Layer<T>, base: seq<T>)
    requires InOrder(key, layers, base) && ValidLayer(key, last)
    ensures InOrder(key, layers + [last], Retained(key, base, last))
    ensures forall e :: e in Retained(key, base, last) ==>
              key(e) !in last.disabled && exists f :: f in base && key(f) == key(e)
  {
    if base != [] {
      var front, x := base[..|base| - 1], base[|base| - 1];
      assert base == front + [x];
      RetainedInOrder(key, layers, last, front);
      var kept, r := Retained(key, front, last), Retained(key, base, last);
      forall i | 0 <= i < |kept| && key(x) !in last.disabled
        ensures Before(key, layers + [last], key(kept[i]), key(x))
      {
        assert kept[i] in kept;
        var f :| f in front && key(f) == key(kept[i]);
        var k :| 0 <= k < |front| && front[k] == f;
        assert base[k] == f;
        BeforeStays(key, layers, last, key(f), key(x));
      }
      assert x in base;
    }
  }

  /** What the overlay adds stands after everything older, in the overlay's own order. */
  lemma NewcomersInOrder<T>(key: T -> string, layers: seq<Layer<T>>, last: Layer<T>, base: seq<T>, a: string, q: nat)
    requires (forall l :: l in layers ==> ValidLayer(key, l)) && ValidLayer(key, last) && q < |last.ordered|
    requires forall id :: Find(key, base, id).Some? <==> Since(key, layers, id).Some?
    requires Find(key, base, key(last.ordered[q])).None?
    requires a !in last.disabled
    requires
      || Find(key, base, a).Some?
      || exists p: nat :: p < q && At(key, last.ordered, a, p) && Find(key, base, a).None?
    ensures Before(key, layers + [last], a, key(last.ordered[q]))
  {
    var b := key(last.ordered[q]);
    SpanStarts(key, layers, last, b);
    if Find(key, base, a).Some? {
      SpanGoesOn(key, layers, last, a, Since(key, layers, a).value);
    } else {
      var p: nat :| p < q && At(key, last.ordered, a, p);
      SpanStarts(key, layers, last, a);
      assert At(key, (layers + [last])[|layers|].ordered, b, q);
    }
  }

  lemma SpanStarts<T>(key: T -> string, layers: seq<Layer<T>>, last: Layer<T>, id: string)
    requires (forall l :: l in layers ==> ValidLayer(key, l)) && ValidLayer(key, last)
    requires Since(key, layers, id).None? && exists e :: e in last.ordered && key(e) == id
    ensures SpanBegins(key, layers + [last], id, |layers|)
  {
    var n, more := |layers|, layers + [last];
    forall t | 0 <= t < n && Find(key, more[t].ordered, id).Some?
      ensures exists j :: t < j < n && id in more[j].disabled
    {
      assert Find(key, layers[t].ordered, id).Some?;
      var j :| t < j < |layers| && id in layers[j].disabled;
      assert id in more[j].disabled;
    }
  }

  lemma OrderSnoc<T>(key: T -> string, layers: seq<Layer<T>>, s: seq<T>, x: T)
    requires InOrder(key, layers, s) && forall e :: e in s ==> Before(key, layers, key(e), key(x))
    ensures InOrder(key, layers, s + [x])
  {
    forall i, j | 0 <= i < j < |s + [x]| ensures Before(key, layers, key((s + [x])[i]), key((s + [x])[j])) {
      assert s[i] in s;
    }
  }

  lemma KeptBefore<T>(key: T -> string, layers: seq<Layer<T>>, last: Layer<T>, base: Layer<T>, e: T, q: nat)
    requires (forall l :: l in layers ==> ValidLayer(key, l)) && ValidLayer(key, last) && q < |last.ordered|
    requires forall id :: Find(key, base.ordered, id).Some? <==> Since(key, layers, id).Some?
    requires InOrder(key, layers, base.ordered) && e in Retained(key, base.ordered, last)
    requires Find(key, base.ordered, key(last.ordered[q])).None?
    ensures Before(key, layers + [last], key(e), key(last.ordered[q]))
  {
    RetainedInOrder(key, layers, last, base.ordered);
    var f :| f in base.ordered && key(f) == key(e);
    NewcomersInOrder(key, layers, last, base.ordered, key(e), q);
  }

  lemma AddedBefore<T>(key: T -> string, layers: seq<Layer<T>>, last: Layer<T>, base: Layer<T>, e: T, q: nat)
    requires (forall l :: l in layers ==> ValidLayer(key, l)) && ValidLayer(key, last) && q < |last.ordered|
    requires forall id :: Find(key, base.ordered, id).Some? <==> Since(key, layers, id).Some?
    requires e in Filter(last.ordered[..q], Unknown(key, base.ordered))
    requires Find(key, base.ordered, key(last.ordered[q])).None?
    ensures Before(key, layers + [last], key(e), key(last.ordered[q]))
  {
    var p :| 0 <= p < q && last.ordered[..q][p] == e;
    assert last.ordered[p] == e && e in last.ordered && At(key, last.ordered, key(e), p);
    NewcomersInOrder(key, layers, last, base.ordered, key(e), q);
  }

  /** The merge so far, after `m` of the overlay's entries. */
  ghost function SoFar<T>(key: T -> string, last: Layer<T>, base: Layer<T>, m: nat): seq<T>
    requires m <= |last.ordered|
  {
    Retained(key, base.ordered, last) + Filter(last.ordered[..m], Unknown(key, base.ordered))
  }

  lemma AllBefore<T>(key: T -> string, layers: seq<Layer<T>>, last: Layer<T>, base: Layer<T>, q: nat)
    requires (forall l :: l in layers ==> ValidLayer(key, l)) && ValidLayer(key, last) && q < |last.ordered|
    requires forall id :: Find(key, base.ordered, id).Some? <==> Since(key, layers, id).Some?
    requires InOrder(key, layers, base.ordered) && Find(key, base.ordered, key(last.ordered[q])).None?
    ensures forall e :: e in SoFar(key, last, base, q) ==> Before(key, layers + [last], key(e), key(last.ordered[q]))
  {
    forall e | e in SoFar(key, last, base, q)
      ensures Before(key, layers + [last], key(e), key(last.ordered[q]))
    {
      if e in Retained(key, base.ordered, last) {
        KeptBefore(key, layers, last, base, e, q);
      } else {
        AddedBefore(key, layers, last, base, e, q);
      }
    }
  }

  lemma SoFarNext<T>(key: T -> string, last: Layer<T>, base: Layer<T>, m: nat)
    requires m < |last.ordered|
    ensures SoFar(key, last, base, m + 1) ==
            if Unknown(key, base.ordered)(last.ordered[m]) then SoFar(key, last, base, m) + [last.ordered[m]]
            else SoFar(key, last, base, m)
  {
    var keep, x := Unknown(key, base.ordered), last.ordered[m];
    FilterStep(last.ordered, m, keep);
    ConcatAssociates(Retained(key, base.ordered, last), Filter(last.ordered[..m], keep), [x]);
  }

  /** It is in order. */
  lemma {:induction false} AddedInOrder<T>(key: T -> string, layers: seq<Layer<T>>, last: Layer<T>, base: Layer<T>,
                                           m: nat)
    requires (forall l :: l in layers ==> ValidLayer(key, l)) && ValidLayer(key, last) && m <= |last.ordered|
    requires forall id :: Find(key, base.ordered, id).Some? <==> Since(key, layers, id).Some?
    requires InOrder(key, layers, base.ordered)
    ensures InOrder(key, layers + [last], SoFar(key, last, base, m))
  {
    if m == 0 {
      RetainedInOrder(key, layers, last, base.ordered);
      assert SoFar(key, last, base, 0) == Retained(key, base.ordered, last);
    } else {
      var n := m - 1;
      AddedInOrder(key, layers, last, base, n);
      SoFarNext(key, last, base, n);
      if Unknown(key, base.ordered)(last.ordered[n]) {
        AllBefore(key, layers, last, base, n);
        OrderSnoc(key, layers + [last], SoFar(key, last, base, n), last.ordered[n]);
      }
    }
  }

  lemma LiveIdsHaveSpans<T>(key: T -> string, layers: seq<Layer<T>>)
    requires forall l :: l in layers ==> ValidLayer(key, l)
    ensures forall id :: Find(key, Fold(key, layers).ordered, id).Some? <==> Since(key, layers, id).Some?
  {
    forall id ensures Find(key, Fold(key, layers).ordered, id).Some? <==> Since(key, layers, id).Some? {
      LiveIffSince(key, layers, id);
    }
  }

  /** One more layer. */
  lemma MergedInOrder<T>(key: T -> string, layers: seq<Layer<T>>, last: Layer<T>, base: Layer<T>)
    requires (forall l :: l in layers ==> ValidLayer(key, l)) && ValidLayer(key, last)
    requires base == Fold(key, layers) && InOrder(key, layers, base.ordered)
    ensures InOrder(key, layers + [last], Merged(key, base, last).ordered)
  {
    LiveIdsHaveSpans(key, layers);
    AddedInOrder(key, layers, last, base, |last.ordered|);
    assert last.ordered[..|last.ordered|] == last.ordered;
  }

  /** The live entries stand by the layer where their current live span began, then by their position in that layer. */
  lemma {:induction false} LiveInOrder<T>(key: T -> string, layers: seq<Layer<T>>)
    requires forall l :: l in layers ==> ValidLayer(key, l)
    ensures InOrder(key, layers, Fold(key, layers).ordered)
  {
    if layers != [] {
      var n := |layers| - 1;
      var front, last := layers[..n], layers[n];
      assert front + [last] == layers;
      LiveInOrder(key, front);
      var base := Fold(key, front);
      assert Fold(key, layers) == Merged(key, base, last);
      MergedInOrder(key, front, last, base);
    }
  }

  /** Of two ids at most one stands before the other, and none before itself. */
  lemma OrderIsStrict<T>(key: T -> string, layers: seq<Layer<T>>, a: string, b: string)
    requires forall l :: l in layers ==> ValidLayer(key, l)
    ensures !(Before(key, layers, a, b) && Before(key, layers, b, a))
  {
    if Before(key, layers, a, b) && Before(key, layers, b, a) {
      var s, t := Began(key, layers, a, b);
      var u, v := Began(key, layers, b, a);
      SinceIsUnique(key, layers, a, s, v);
      SinceIsUnique(key, layers, b, t, u);
      EarlierIsStrict(key, layers[s], a, b);
    }
  }

  /** Where the spans of two ids in order began. */
  lemma Began<T>(key: T -> string, layers: seq<Layer<T>>, a: string, b: string) returns (s: nat, t: nat)
    requires Before(key, layers, a, b)
    ensures SpanBegins(key, layers, a, s) && SpanBegins(key, layers, b, t) && s <= t
    ensures s == t ==> Earlier(key, layers[s], a, b)
  {
    s, t :| SpanBegins(key, layers, a, s) && SpanBegins(key, layers, b, t)
            && (s < t || (s == t && Earlier(key, layers[s], a, b)));
  }

  /** In a sequence that is in order, the last entry is not among the others. */
  lemma LastIsNew<T>(key: T -> string, layers: seq<Layer<T>>, s: seq<T>, e: T)
    requires (forall l :: l in layers ==> ValidLayer(key, l)) && InOrder(key, layers, s) && s != []
    requires e in s[..|s| - 1]
    ensures Before(key, layers, key(e), key(s[|s| - 1])) && key(e) != key(s[|s| - 1])
  {
    var i :| 0 <= i < |s| - 1 && s[i] == e;
    OrderIsStrict(key, layers, key(e), key(s[|s| - 1]));
  }

  /** Two sequences of the same entries that are both in order end alike. */
  lemma SameLast<T>(key: T -> string, layers: seq<Layer<T>>, s: seq<T>, t: seq<T>)
    requires forall l :: l in layers ==> ValidLayer(key, l)
    requires InOrder(key, layers, s) && InOrder(key, layers, t) && s != [] && t != []
    requires forall e :: e in s <==> e in t
    ensures s[|s| - 1] == t[|t| - 1]
  {
    var a, b := s[|s| - 1], t[|t| - 1];
    assert s == s[..|s| - 1] + [a] && t == t[..|t| - 1] + [b];
    if a != b {
      assert a in t && b in s;
      LastIsNew(key, layers, t, a);
      LastIsNew(key, layers, s, b);
      OrderIsStrict(key, layers, key(a), key(b));
    }
  }

  lemma EmptyAlike<T>(s: seq<T>, t: seq<T>)
    requires forall e :: e in s <==> e in t
    ensures s == [] <==> t == []
  {
    assert s != [] ==> s[0] in s;
    assert t != [] ==> t[0] in t;
  }

  /** There is only one way to put some entries in order. */
  lemma {:induction false} OnlyOrder<T>(key: T -> string, layers: seq<Layer<T>>, s: seq<T>, t: seq<T>)
    requires forall l :: l in layers ==> ValidLayer(key, l)
    requires InOrder(key, layers, s) && InOrder(key, layers, t) && forall e :: e in s <==> e in t
    ensures s == t
  {
    EmptyAlike(s, t);
    if s != [] {
      var m, n := |s| - 1, |t| - 1;
      SameLast(key, layers, s, t);
      assert s == s[..m] + [s[m]] && t == t[..n] + [t[n]];
      forall e | e in s[..m] ensures e in t[..n] {
        LastIsNew(key, layers, s, e);
        assert e in s;
      }
      forall e | e in t[..n] ensures e in s[..m] {
        LastIsNew(key, layers, t, e);
        assert e in t;
      }
      OnlyOrder(key, layers, s[..m], t[..n]);
    }
  }

  /** So the live entries stand in the one order there is. */
  lemma LiveOrderIsDetermined<T>(key: T -> string, layers: seq<Layer<T>>, s: seq<T>)
    requires forall l :: l in layers ==> ValidLayer(key, l)
    requires InOrder(key, layers, s) && forall e :: e in s <==> e in Fold(key, layers).ordered
    ensures s == Fold(key, layers).ordered
  {
    LiveInOrder(key, layers);
    OnlyOrder(key, layers, s, Fold(key, layers).ordered);
  }

  /** Nothing stands before itself, so ids are unique, and an id is never both live and tombstoned. */
  lemma {:induction false} FoldIsValid<T>(key: T -> string, layers: seq<Layer<T>>)
    requires forall l :: l in layers ==> ValidLayer(key, l)
    ensures ValidLayer(key, Fold(key, layers))
  {
    var m := Fold(key, layers);
    LiveInOrder(key, layers);
    forall i, j | 0 <= i < j < |m.ordered| ensures key(m.ordered[i]) != key(m.ordered[j]) {
      if key(m.ordered[i]) == key(m.ordered[j]) {
        OrderIsStrict(key, layers, key(m.ordered[i]), key(m.ordered[j]));
      }
    }
    forall e | e in m.ordered ensures key(e) !in m.disabled {
      LastMentionWins(key, layers, key(e));
    }
  }

  /**
   * The order, unlike the entries, depends on the bracketing: the lowest layer's rule, tombstoned by the middle one and
   * revived by the top one, comes last when merged bottom up and keeps its first position when the upper two merge
   * first.
   */
  lemma OrderDoesNotAssociate()
    ensures var key: string -> string := (s: string) => s;
            var a, b, c := Layer(["x", "y"], {}), Layer([], {"x"}), Layer(["x"], {});
            && Merged(key, Merged(key, a, b), c).ordered == ["y", "x"]
            && Merged(key, a, Merged(key, b, c)).ordered == ["x", "y"]
  {
    var key: string -> string := (s: string) => s;
    LowerFirst(key);
    UpperFirst(key);
  }

  lemma LowerFirst(key: string -> string)
    requires forall s: string :: key(s) == s
    ensures var a, b, c := Layer(["x", "y"], {}), Layer([], {"x"}), Layer(["x"], {});
            Merged(key, Merged(key, a, b), c).ordered == ["y", "x"]
  {
    var a, b, c := Layer(["x", "y"], {}), Layer([], {"x"}), Layer(["x"], {});
    assert Retained(key, ["x"], b) == [] && Retained(key, ["x", "y"], b) == ["y"];
    assert Merged(key, a, b).ordered == ["y"];
    assert Retained(key, ["y"], c) == ["y"];
    FilterOne("x", Unknown(key, ["y"]));
  }

  lemma UpperFirst(key: string -> string)
    requires forall s: string :: key(s) == s
    ensures var a, b, c := Layer(["x", "y"], {}), Layer([], {"x"}), Layer(["x"], {});
            Merged(key, a, Merged(key, b, c)).ordered == ["x", "y"]
  {
    var a, b, c := Layer(["x", "y"], {}), Layer([], {"x"}), Layer(["x"], {});
    FilterOne("x", Unknown(key, []));
    var d := Merged(key, b, c);
    assert d.ordered == ["x"];
    assert Retained(key, ["x"], d) == ["x"] && Retained(key, ["x", "y"], d) == ["x", "y"];
    FilterOne("x", Unknown(key, ["x", "y"]));
  }
}
