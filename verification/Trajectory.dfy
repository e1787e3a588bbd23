/** How one action drives one channel over time: keyframes joined by straight lines, or one eased move. */
module Trajectories {
  import opened Common
  import opened RealArithmetic

  datatype Keyframe = Keyframe(t: real, value: seq<real>)

  datatype EasingKind = Hold | Linear | EaseInOut

  datatype Shape =
    | Frames(frames: seq<Keyframe>)
    | Eased(kind: EasingKind, from: seq<real>, to: seq<real>, durationS: real)

  datatype Trajectory = Trajectory(shape: Shape, loops: bool, duration: real, arity: nat)

  /** The shape of the ease-in-out curve; the runtime uses half a cosine. */
  ghost predicate EaseCurve(ease: real -> real) {
    forall u :: 0.0 <= u <= 1.0 ==> 0.0 <= ease(u) <= 1.0
  }

  // ---- compiling -------------------------------------------------------------------------------------------

  ghost predicate GoodFrames(frames: seq<Keyframe>, arity: nat) {
    && frames != [] && frames[0].t == 0.0
    && (forall i, j :: 0 <= i <= j < |frames| ==> frames[i].t <= frames[j].t)
    && (forall i :: 0 <= i < |frames| ==> |frames[i].value| == arity)
  }

  ghost predicate GoodShape(shape: Shape, arity: nat) {
    match shape
    case Frames(frames) => GoodFrames(frames, arity)
    case Eased(_, from, to, durationS) => |from| == arity && |to| == arity && durationS > 0.0
  }

  /** A trajectory as compilation leaves it. */
  ghost predicate Compiled(tr: Trajectory) {
    && GoodShape(tr.shape, tr.arity)
    && tr.duration == (if tr.shape.Frames? then tr.shape.frames[|tr.shape.frames| - 1].t else tr.shape.durationS)
  }

  /** Accepts exactly the keyframe lists that start at 0, never go back and carry the channel's arity. */
  method CompileKeyframes(frames: seq<Keyframe>, loops: bool, arity: nat) returns (r: Option<Trajectory>)
    requires frames != []
    ensures r.Some? <==> GoodFrames(frames, arity)
    ensures r.Some? ==>
              && Compiled(r.value) && r.value.shape == Frames(frames)
              && r.value.loops == loops && r.value.arity == arity
  {
    if frames[0].t != 0.0 {
      return None;
    }
    var previous := frames[0].t;
    for i := 0 to |frames|
      invariant forall j, k :: 0 <= j <= k < i ==> frames[j].t <= frames[k].t
      invariant forall j :: 0 <= j < i ==> |frames[j].value| == arity
      invariant previous == if i == 0 then 0.0 else frames[i - 1].t
    {
      if frames[i].t < 0.0 {
        return None;
      }
      if frames[i].t < previous {
        return None;
      }
      previous := frames[i].t;
      if |frames[i].value| != arity {
        return None;
      }
    }
    return Some(Trajectory(Frames(frames), loops, frames[|frames| - 1].t, arity));
  }

  method CompileEasing(kind: EasingKind, from: seq<real>, to: seq<real>, durationS: real, loops: bool, arity: nat)
    returns (r: Option<Trajectory>)
    ensures r.Some? <==> GoodShape(Eased(kind, from, to, durationS), arity)
    ensures r.Some? ==> Compiled(r.value) && r.value.shape == Eased(kind, from, to, durationS) && r.value.loops == loops
                        && r.value.arity == arity
  {
    if |from| != arity || |to| != arity || durationS <= 0.0 {
      return None;
    }
    return Some(Trajectory(Eased(kind, from, to, durationS), loops, durationS, arity));
  }

  // ---- sampling --------------------------------------------------------------------------------------------

  function Mix(a: real, b: real, u: real): real {
    a + Times(b - a, u)
  }

  function Lerp(from: seq<real>, to: seq<real>, u: real): (r: seq<real>)
    requires |from| == |to|
    ensures |r| == |from|
  {
    seq(|from|, i requires 0 <= i < |from| => Mix(from[i], to[i], u))
  }

  /** The scan over keyframe pairs, from pair `i` on. */
  function Scan(frames: seq<Keyframe>, t: real, i: nat): seq<real>
    requires i < |frames| && forall j :: 0 <= j < |frames| ==> |frames[j].value| == |frames[0].value|
    decreases |frames| - i
  {
    if i + 1 == |frames| then frames[i].value
    else if t < frames[i].t then frames[i].value
    else if t < frames[i + 1].t then
      if frames[i + 1].t - frames[i].t <= 0.0 then frames[i + 1].value
      else Lerp(frames[i].value, frames[i + 1].value, Over(t - frames[i].t, frames[i + 1].t - frames[i].t))
    else Scan(frames, t, i + 1)
  }

  function SampleFrames(frames: seq<Keyframe>, t: real): seq<real>
    requires frames != [] && forall j :: 0 <= j < |frames| ==> |frames[j].value| == |frames[0].value|
  {
    var last := frames[|frames| - 1];
    if t >= last.t then last.value else Scan(frames, t, 0)
  }

  function SampleEasing(e: Shape, ease: real -> real, t: real): seq<real>
    requires e.Eased? && |e.from| == |e.to| && e.durationS > 0.0
  {
    if t >= e.durationS then e.to
    else
      var u := Over(t, e.durationS);
      match e.kind
      case Hold => e.from
      case Linear => Lerp(e.from, e.to, u)
      case EaseInOut => Lerp(e.from, e.to, ease(u))
  }

  function LocalTime(tr: Trajectory, tLocal: real): (t: real)
    ensures t >= 0.0
  {
    var wrapped :=
      if tr.loops && tr.duration > 0.0 then
        var m := Mod(tLocal, tr.duration);
        if m < 0.0 then m + tr.duration else m
      else tLocal;
    if wrapped < 0.0 then 0.0 else wrapped
  }

  function Sampled(tr: Trajectory, ease: real -> real, t: real): seq<real>
    requires Compiled(tr)
  {
    if tr.shape.Eased? then SampleEasing(tr.shape, ease, t) else SampleFrames(tr.shape.frames, t)
  }

  /** The value at `tLocal` seconds of behavior-local time. */
  function At(tr: Trajectory, ease: real -> real, tLocal: real): seq<real>
    requires Compiled(tr)
  {
    Sampled(tr, ease, LocalTime(tr, tLocal))
  }

  method LerpValues(from: seq<real>, to: seq<real>, u: real) returns (out: seq<real>)
    requires |from| == |to|
    ensures out == Lerp(from, to, u)
  {
    out := [];
    for i := 0 to |from|
      invariant |out| == i
      invariant forall j :: 0 <= j < i ==> out[j] == Mix(from[j], to[j], u)
    {
      out := out + [from[i] + (to[i] - from[i]) * u];
    }
  }

  method SampleKeyframes(frames: seq<Keyframe>, t: real) returns (out: seq<real>)
    requires frames != [] && forall j :: 0 <= j < |frames| ==> |frames[j].value| == |frames[0].value|
    ensures out == SampleFrames(frames, t)
  {
    var last := frames[|frames| - 1];
    if t >= last.t {
      return last.value;
    }
    var i := 0;
    while i + 1 < |frames|
      invariant i < |frames|
      invariant Scan(frames, t, 0) == Scan(frames, t, i)
    {
      var a, b := frames[i], frames[i + 1];
      if t < a.t {
        return a.value;
      }
      if t < b.t {
        var span := b.t - a.t;
        if span <= 0.0 {
          return b.value;
        }
        out := LerpValues(a.value, b.value, (t - a.t) / span);
        return;
      }
      i := i + 1;
    }
    return last.value;
  }

  // ---- properties ------------------------------------------------------------------------------------------

  /** Every sample carries the channel's arity. */
  lemma SampleArity(tr: Trajectory, ease: real -> real, tLocal: real)
    requires Compiled(tr)
    ensures |At(tr, ease, tLocal)| == tr.arity
  {
    if tr.shape.Frames? {
      ScanArity(tr.shape.frames, LocalTime(tr, tLocal), 0, tr.arity);
    }
  }

  lemma {:induction false} ScanArity(frames: seq<Keyframe>, t: real, i: nat, arity: nat)
    requires i < |frames| && forall j :: 0 <= j < |frames| ==> |frames[j].value| == arity
    ensures |Scan(frames, t, i)| == arity
    decreases |frames| - i
  {
    if i + 1 < |frames| {
      ScanArity(frames, t, i + 1, arity);
    }
  }

  /** Between keyframes the sample lies on the line that joins the pair around `t`. */
  lemma {:induction false} ScanFinds(frames: seq<Keyframe>, arity: nat, t: real, i: nat) returns (k: nat)
    requires GoodFrames(frames, arity) && i < |frames| && frames[i].t <= t < frames[|frames| - 1].t
    ensures i <= k && k + 1 < |frames| && frames[k].t <= t < frames[k + 1].t
    ensures Scan(frames, t, i) ==
              Lerp(frames[k].value, frames[k + 1].value, Over(t - frames[k].t, frames[k + 1].t - frames[k].t))
    decreases |frames| - i
  {
    if t < frames[i + 1].t {
      k := i;
    } else {
      k := ScanFinds(frames, arity, t, i + 1);
    }
  }

  lemma MixBetween(a: real, b: real, u: real, lo: real, hi: real)
    requires 0.0 <= u <= 1.0 && lo <= a <= hi && lo <= b <= hi
    ensures lo <= Mix(a, b, u) <= hi
  {
    if a <= b {
      PartOf(b - a, u);
    } else {
      PartOf(a - b, u);
      MinusTimes(a - b, u);
      assert b - a == -(a - b);
    }
  }

  /** Component `c` of everything a trajectory declares lies between `lo` and `hi`. */
  ghost predicate DeclaredWithin(shape: Shape, c: nat, lo: real, hi: real) {
    match shape
    case Frames(frames) => forall i :: 0 <= i < |frames| ==> c < |frames[i].value| && lo <= frames[i].value[c] <= hi
    case Eased(_, from, to, _) => c < |from| && c < |to| && lo <= from[c] <= hi && lo <= to[c] <= hi
  }

  /** No sample, at any time, leaves the range of the declared values. */
  lemma SampleWithin(tr: Trajectory, ease: real -> real, tLocal: real, c: nat, lo: real, hi: real)
    requires Compiled(tr) && EaseCurve(ease) && c < tr.arity && DeclaredWithin(tr.shape, c, lo, hi)
    ensures |At(tr, ease, tLocal)| == tr.arity && lo <= At(tr, ease, tLocal)[c] <= hi
  {
    SampleArity(tr, ease, tLocal);
    var t := LocalTime(tr, tLocal);
    match tr.shape
    case Frames(frames) =>
      if t < frames[|frames| - 1].t {
        var k := ScanFinds(frames, tr.arity, t, 0);
        var x, span := t - frames[k].t, frames[k + 1].t - frames[k].t;
        Fraction(x, span);
        MixBetween(frames[k].value[c], frames[k + 1].value[c], Over(x, span), lo, hi);
      }
    case Eased(kind, from, to, durationS) =>
      if t < durationS {
        Fraction(t, durationS);
        MixBetween(from[c], to[c], Over(t, durationS), lo, hi);
        MixBetween(from[c], to[c], ease(Over(t, durationS)), lo, hi);
      }
  }

  lemma LocalIsPhase(tr: Trajectory, t: real)
    requires tr.loops && tr.duration > 0.0
    ensures LocalTime(tr, t) == Phase(t, tr.duration)
  {
    PhaseRange(t, tr.duration);
    ModIsPhase(t, tr.duration);
  }

  /** A looping trajectory repeats: whole cycles, forward or back, change nothing. */
  lemma LoopRepeats(tr: Trajectory, ease: real -> real, t: real, cycles: int)
    requires Compiled(tr) && tr.loops && tr.duration > 0.0
    ensures At(tr, ease, t + Times(tr.duration, cycles as real)) == At(tr, ease, t)
    ensures 0.0 <= LocalTime(tr, t) < tr.duration
  {
    var later := t + Times(tr.duration, cycles as real);
    PhaseRange(t, tr.duration);
    PhaseRepeats(t, tr.duration, cycles);
    LocalIsPhase(tr, t);
    LocalIsPhase(tr, later);
  }

  /** The last keyframe declared at its time is what the trajectory shows at that time. */
  lemma KeyframeIsHit(tr: Trajectory, ease: real -> real, i: nat)
    requires Compiled(tr) && tr.shape.Frames? && i < |tr.shape.frames|
    requires i + 1 < |tr.shape.frames| ==> tr.shape.frames[i].t < tr.shape.frames[i + 1].t
    requires tr.loops && tr.duration > 0.0 ==> tr.shape.frames[i].t < tr.duration
    ensures At(tr, ease, tr.shape.frames[i].t) == tr.shape.frames[i].value
  {
    var frames := tr.shape.frames;
    var t := frames[i].t;
    if tr.loops && tr.duration > 0.0 {
      WithinCycle(t, tr.duration);
    }
    if t < tr.duration {
      var k := ScanFinds(frames, tr.arity, t, 0);
      assert k == i;
      StartOfSegment(frames[k].value, frames[k + 1].value, frames[k + 1].t - frames[k].t);
    }
  }

  lemma StartOfSegment(from: seq<real>, to: seq<real>, span: real)
    requires |from| == |to| && span > 0.0
    ensures Lerp(from, to, Over(0.0, span)) == from
  {
    Fraction(0.0, span);
    assert forall i :: 0 <= i < |from| ==> Times(to[i] - from[i], 0.0) == 0.0;
  }

  lemma WithinCycle(t: real, d: real)
    requires 0.0 <= t < d
    ensures Mod(t, d) == t
  {
    Fraction(t, d);
    assert Trunc(Over(t, d)) == 0 && Times(d, 0.0) == 0.0;
  }

  // ---- one eased move --------------------------------------------------------------------------------------

  /** A trajectory that does not loop shows where it begins before its time, and where it ends after it. */
  lemma EndsHold(tr: Trajectory, ease: real -> real, tLocal: real)
    requires Compiled(tr) && !tr.loops
    ensures tLocal <= 0.0 ==> At(tr, ease, tLocal) == At(tr, ease, 0.0)
    ensures tLocal >= tr.duration ==>
              At(tr, ease, tLocal) ==
              if tr.shape.Eased? then tr.shape.to else tr.shape.frames[|tr.shape.frames| - 1].value
  {
    assert tLocal <= 0.0 ==> LocalTime(tr, tLocal) == LocalTime(tr, 0.0);
  }

  /** Until it is over, a held move shows where it started; one that loops is never over. */
  lemma HoldShowsFrom(tr: Trajectory, ease: real -> real, tLocal: real)
    requires Compiled(tr) && tr.shape.Eased? && tr.shape.kind.Hold? && (tr.loops || tLocal < tr.duration)
    ensures At(tr, ease, tLocal) == tr.shape.from
  {
    if tr.loops {
      LocalIsPhase(tr, tLocal);
      PhaseRange(tLocal, tr.duration);
    }
  }

  /** The two keyframes of a linear move. */
  function AsKeyframes(tr: Trajectory): Trajectory
    requires tr.shape.Eased?
  {
    tr.(shape := Frames([Keyframe(0.0, tr.shape.from), Keyframe(tr.shape.durationS, tr.shape.to)]))
  }

  /** A linear move is the trajectory of its two keyframes, at every time, looping or not. */
  lemma LinearIsTwoKeyframes(tr: Trajectory, ease: real -> real, tLocal: real)
    requires Compiled(tr) && tr.shape.Eased? && tr.shape.kind.Linear?
    ensures Compiled(AsKeyframes(tr)) && At(AsKeyframes(tr), ease, tLocal) == At(tr, ease, tLocal)
  {
    var twin, t := AsKeyframes(tr), LocalTime(tr, tLocal);
    assert LocalTime(twin, tLocal) == t;
    if t < tr.duration {
      var k := ScanFinds(twin.shape.frames, tr.arity, t, 0);
      assert k == 0;
    }
  }

  /** The same move without its ease, once. */
  function Unease(tr: Trajectory): Trajectory
    requires tr.shape.Eased?
  {
    tr.(shape := tr.shape.(kind := Linear), loops := false)
  }

  /** An eased move shows at time t what the linear one shows at the eased time: ease(t / d) of its duration d. */
  lemma EaseInOutIsLinearEased(tr: Trajectory, ease: real -> real, tLocal: real)
    requires Compiled(tr) && tr.shape.Eased? && tr.shape.kind.EaseInOut? && EaseCurve(ease)
    ensures var t, d := LocalTime(tr, tLocal), tr.duration;
            t < d ==> At(tr, ease, tLocal) == At(Unease(tr), ease, Times(ease(Over(t, d)), d))
  {
    var t, d := LocalTime(tr, tLocal), tr.duration;
    if t < d {
      Fraction(t, d);
      var u := ease(Over(t, d));
      var x := Times(u, d);
      Scale(0.0, u, d);
      Scale(u, 1.0, d);
      assert 0.0 <= x <= d;
      if x < d {
        Commute(u, d);
        TimesOver(x, d);
        Cancel(d, Over(x, d), u);
      } else {
        Commute(u, d);
        Cancel(d, u, 1.0);
        WholeMove(tr.shape.from, tr.shape.to);
      }
    }
  }

  lemma WholeMove(from: seq<real>, to: seq<real>)
    requires |from| == |to|
    ensures Lerp(from, to, 1.0) == to
  {
    forall i | 0 <= i < |from| ensures Mix(from[i], to[i], 1.0) == to[i] {
      assert Times(to[i] - from[i], 1.0) == to[i] - from[i];
    }
  }

  // ---- regularity ------------------------------------------------------------------------------------------

  predicate SegmentAtMost(frames: seq<Keyframe>, i: nat, c: nat, slope: real)
    requires i + 1 < |frames|
  {
    && c < |frames[i].value| && c < |frames[i + 1].value|
    && Abs(frames[i + 1].value[c] - frames[i].value[c]) <= Times(slope, frames[i + 1].t - frames[i].t)
  }

  /** Every segment of component `c` is at most as steep as `slope`. */
  ghost predicate SteepAtMost(frames: seq<Keyframe>, c: nat, slope: real) {
    forall i: nat :: i + 1 < |frames| ==> SegmentAtMost(frames, i, c, slope)
  }

  ghost predicate StrictTimes(frames: seq<Keyframe>) {
    forall i, j :: 0 <= i < j < |frames| ==> frames[i].t < frames[j].t
  }

  /** Two moments change component `c` by at most `slope` times their distance. */
  ghost predicate ChangesAtMost(tr: Trajectory, ease: real -> real, c: nat, slope: real, s: real, t: real)
    requires Compiled(tr)
  {
    && c < |At(tr, ease, s)| && c < |At(tr, ease, t)|
    && Abs(At(tr, ease, t)[c] - At(tr, ease, s)[c]) <= Times(slope, Abs(t - s))
  }

  /** Along one segment the change is in proportion to the time. */
  lemma SegmentSteep(a: real, b: real, span: real, slope: real, x: real, y: real)
    requires span > 0.0 && 0.0 <= x <= y <= span && Abs(b - a) <= Times(slope, span)
    ensures Abs(Mix(a, b, Over(y, span)) - Mix(a, b, Over(x, span))) <= Times(slope, y - x)
  {
    var w, u := b - a, Over(y, span) - Over(x, span);
    Distribute(w, Over(x, span), u);
    TimesOver(x, span);
    TimesOver(y, span);
    Distribute(span, Over(x, span), u);
    assert Times(span, u) == y - x;
    SameSign(span, u);
    Associate(slope, span, u);
    Scale(w, Times(slope, span), u);
    Scale(-w, Times(slope, span), u);
    MinusTimes(w, u);
  }

  lemma WholeSegment(a: real, b: real, span: real)
    requires span > 0.0
    ensures Mix(a, b, Over(span, span)) == b && Mix(a, b, Over(0.0, span)) == a
  {
    assert Over(span, span) == 1.0 && Over(0.0, span) == 0.0;
    assert Times(b - a, 1.0) == b - a && Times(b - a, 0.0) == 0.0;
  }

  /** From a keyframe on, the value strays from the keyframe's no faster than the slope. */
  lemma {:induction false} StraysFromKeyframe(frames: seq<Keyframe>, arity: nat, c: nat, slope: real, i: nat, t: real)
    requires GoodFrames(frames, arity) && StrictTimes(frames) && c < arity && SteepAtMost(frames, c, slope)
               && slope >= 0.0
    requires i < |frames| && frames[i].t <= t
    ensures |SampleFrames(frames, t)| == arity
    ensures Abs(SampleFrames(frames, t)[c] - frames[i].value[c]) <= Times(slope, t - frames[i].t)
    decreases |frames| - i
  {
    ScanArity(frames, t, 0, arity);
    if i + 1 == |frames| {
      Scale(0.0, slope, t - frames[i].t);
      assert Times(0.0, t - frames[i].t) == 0.0;
    } else {
      var a, b := frames[i], frames[i + 1];
      assert SegmentAtMost(frames, i, c, slope);
      if t < b.t {
        var k := ScanFinds(frames, arity, t, 0);
        assert k == i;
        WholeSegment(a.value[c], b.value[c], b.t - a.t);
        SegmentSteep(a.value[c], b.value[c], b.t - a.t, slope, 0.0, t - a.t);
      } else {
        StraysFromKeyframe(frames, arity, c, slope, i + 1, t);
        Distribute(slope, t - b.t, b.t - a.t);
        assert t - b.t + (b.t - a.t) == t - a.t;
      }
    }
  }

  lemma ChangesBetween(frames: seq<Keyframe>, arity: nat, c: nat, slope: real, s: real, t: real)
    requires GoodFrames(frames, arity) && StrictTimes(frames) && c < arity && SteepAtMost(frames, c, slope)
               && slope >= 0.0
    requires 0.0 <= s <= t
    ensures |SampleFrames(frames, s)| == arity && |SampleFrames(frames, t)| == arity
    ensures Abs(SampleFrames(frames, t)[c] - SampleFrames(frames, s)[c]) <= Times(slope, t - s)
  {
    ScanArity(frames, s, 0, arity);
    ScanArity(frames, t, 0, arity);
    if s >= frames[|frames| - 1].t {
      Scale(0.0, slope, t - s);
      assert Times(0.0, t - s) == 0.0;
    } else {
      var k := ScanFinds(frames, arity, s, 0);
      var a, b := frames[k], frames[k + 1];
      assert SegmentAtMost(frames, k, c, slope);
      if t < b.t {
        var m := ScanFinds(frames, arity, t, 0);
        assert m == k;
        SegmentSteep(a.value[c], b.value[c], b.t - a.t, slope, s - a.t, t - a.t);
      } else {
        WholeSegment(a.value[c], b.value[c], b.t - a.t);
        SegmentSteep(a.value[c], b.value[c], b.t - a.t, slope, s - a.t, b.t - a.t);
        StraysFromKeyframe(frames, arity, c, slope, k + 1, t);
        Distribute(slope, t - b.t, b.t - s);
        assert t - b.t + (b.t - s) == t - s;
      }
    }
  }

  lemma ChangesInOrder(tr: Trajectory, ease: real -> real, c: nat, slope: real, s: real, t: real)
    requires Compiled(tr) && tr.shape.Frames? && !tr.loops && StrictTimes(tr.shape.frames)
    requires c < tr.arity && slope >= 0.0 && SteepAtMost(tr.shape.frames, c, slope) && s <= t
    ensures ChangesAtMost(tr, ease, c, slope, s, t) && ChangesAtMost(tr, ease, c, slope, t, s)
  {
    var from, to := LocalTime(tr, s), LocalTime(tr, t);
    ChangesBetween(tr.shape.frames, tr.arity, c, slope, from, to);
    Commute(slope, to - from);
    Commute(slope, t - s);
    Scale(to - from, t - s, slope);
  }

  /** A trajectory that does not loop changes no faster than `slope` exactly when no segment is steeper than that. */
  lemma SteepestSegmentBounds(tr: Trajectory, ease: real -> real, c: nat, slope: real)
    requires Compiled(tr) && tr.shape.Frames? && !tr.loops && StrictTimes(tr.shape.frames)
    requires c < tr.arity && slope >= 0.0
    ensures SteepAtMost(tr.shape.frames, c, slope) <==> forall s, t :: ChangesAtMost(tr, ease, c, slope, s, t)
  {
    var frames := tr.shape.frames;
    if SteepAtMost(frames, c, slope) {
      forall s, t ensures ChangesAtMost(tr, ease, c, slope, s, t) {
        if s <= t {
          ChangesInOrder(tr, ease, c, slope, s, t);
        } else {
          ChangesInOrder(tr, ease, c, slope, t, s);
        }
      }
    }
    if forall s, t :: ChangesAtMost(tr, ease, c, slope, s, t) {
      forall i: nat | i + 1 < |frames| ensures SegmentAtMost(frames, i, c, slope) {
        KeyframeIsHit(tr, ease, i);
        KeyframeIsHit(tr, ease, i + 1);
        assert ChangesAtMost(tr, ease, c, slope, frames[i].t, frames[i + 1].t);
      }
    }
  }
}
