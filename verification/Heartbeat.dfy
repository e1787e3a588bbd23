/** The heartbeat that rides the engine's ticks: the interval is armed by the first tick and then never drifts. */
module Heartbeat {
  import opened Common

  /** `LastBeat` advanced over one tick: the first arms it, and a later one moves it on by one interval at most. */
  function Advanced(every: int, lastBeat: Option<int>, now: int): Option<int> {
    if every <= 0 then lastBeat
    else if lastBeat.None? then Some(now)
    else if now - lastBeat.value < every then lastBeat
    else Some(lastBeat.value + every)
  }

  /** The part of the stream server that the tick drives; times are nanoseconds. */
  class Server {
    const every: int
    var lastBeat: Option<int>
    var beats: seq<nat> // the ticks on which a heartbeat was enqueued

    constructor (every: int)
      ensures this.every == every && lastBeat.None? && beats == []
    {
      this.every := every;
      lastBeat, beats := None, [];
    }

    /** Emits a beat on the tick whose clock crosses the interval, if a session is there to take it. */
    method Seam(tick: nat, now: int, attached: bool)
      modifies this
      ensures lastBeat == Advanced(every, old(lastBeat), now)
      ensures beats == old(beats) + if attached && old(lastBeat).Some? && lastBeat != old(lastBeat) then [tick] else []
    {
      if every <= 0 {
        return;
      }
      if lastBeat.None? {
        lastBeat := Some(now);
        return;
      }
      if now - lastBeat.value < every {
        return;
      }
      lastBeat := Some(lastBeat.value + every);
      if !attached {
        return;
      }
      beats := beats + [tick];
    }
  }

  // ---- over a run of ticks ---------------------------------------------------------------------------------

  function LastBeat(every: int, ticks: seq<int>): Option<int> {
    if ticks == [] then None else Advanced(every, LastBeat(every, ticks[..|ticks| - 1]), ticks[|ticks| - 1])
  }

  ghost predicate NonDecreasing(ticks: seq<int>) {
    forall i, j :: 0 <= i <= j < |ticks| ==> ticks[i] <= ticks[j]
  }

  /** Without a positive interval the heartbeat is off: nothing arms it, and it never beats. */
  lemma {:induction false} OffNeverBeats(every: int, ticks: seq<int>)
    requires every <= 0
    ensures LastBeat(every, ticks).None? && Beats(every, ticks) == 0
  {
    if ticks != [] {
      OffNeverBeats(every, ticks[..|ticks| - 1]);
    }
  }

  /** How many whole intervals have passed since the first tick. */
  function Due(every: int, first: int, now: int): int
    requires every > 0
  {
    (now - first) / every
  }

  /** How many times the interval has been advanced. */
  function Beats(every: int, ticks: seq<int>): nat {
    if |ticks| < 2 then 0
    else
      var before := ticks[..|ticks| - 1];
      Beats(every, before) + if LastBeat(every, ticks) != LastBeat(every, before) then 1 else 0
  }

  /** A quotient is settled by the two multiples around the dividend. */
  lemma QuotientIs(d: int, h: int, k: int)
    requires h > 0
    ensures d / h == k <==> k * h <= d < k * h + h
    ensures d / h >= k <==> k * h <= d
  {
    var q, r := d / h, d % h;
    assert d == q * h + r;
    if k <= q {
      Scaled(k, q, h);
    } else {
      Scaled(q + 1, k, h);
    }
    if k < q {
      Scaled(k + 1, q, h);
    }
  }

  lemma Scaled(a: int, b: int, h: int)
    requires a <= b && h > 0
    ensures a * h <= b * h && (a + 1) * h == a * h + h
  {
  }

  /** What one tick does to the count, given that it has not run ahead. */
  lemma BeatNext(every: int, first: int, k: nat, now: int)
    requires every > 0 && k <= Due(every, first, now)
    ensures Advanced(every, Some(first + k * every), now) ==
              Some(first + (if k < Due(every, first, now) then k + 1 else k) * every)
  {
    QuotientIs(now - first, every, k);
    QuotientIs(now - first, every, k + 1);
    Scaled(k, k, every);
  }

  lemma DueGrows(every: int, first: int, a: int, b: int)
    requires every > 0 && a <= b
    ensures Due(every, first, a) <= Due(every, first, b)
    ensures b - a <= every ==> Due(every, first, b) <= Due(every, first, a) + 1
    ensures first <= a ==> Due(every, first, a) >= 0
  {
    var k := Due(every, first, a);
    QuotientIs(a - first, every, k);
    QuotientIs(b - first, every, k);
    QuotientIs(b - first, every, k + 2);
    QuotientIs(a - first, every, 0);
    Scaled(k, k, every);
    Scaled(k + 1, k + 1, every);
  }

  /** The last beat is always a whole number of intervals after the first tick, and never ahead of the clock. */
  lemma {:induction false} NeverDrifts(every: int, ticks: seq<int>)
    requires every > 0 && ticks != [] && NonDecreasing(ticks)
    ensures LastBeat(every, ticks) == Some(ticks[0] + Beats(every, ticks) * every)
    ensures Beats(every, ticks) <= Due(every, ticks[0], ticks[|ticks| - 1])
    ensures |ticks| > 1 ==>
              var k := Beats(every, ticks[..|ticks| - 1]);
              Beats(every, ticks) == if k < Due(every, ticks[0], ticks[|ticks| - 1]) then k + 1 else k
  {
    var n := |ticks| - 1;
    if n > 0 {
      var before := ticks[..n];
      NeverDrifts(every, before);
      DueGrows(every, ticks[0], ticks[n - 1], ticks[n]);
      BeatNext(every, ticks[0], Beats(every, before), ticks[n]);
      Scaled(Beats(every, before), Beats(every, before), every);
    } else {
      assert Due(every, ticks[0], ticks[0]) == 0;
      assert LastBeat(every, ticks[..0]) == None;
    }
  }

  /** No tick crosses more than one beat. */
  ghost predicate OneBeatAtATime(every: int, ticks: seq<int>)
    requires every > 0
  {
    forall i :: 0 < i < |ticks| ==> Due(every, ticks[0], ticks[i]) <= Due(every, ticks[0], ticks[i - 1]) + 1
  }

  /** After tick `n` the count is what the tick before left, plus one if a beat was due. */
  ghost predicate CountsOn(every: int, ticks: seq<int>, n: nat)
    requires every > 0 && 0 < n <= |ticks|
  {
    var due := Due(every, ticks[0], ticks[n - 1]);
    && Beats(every, ticks[..n]) <= due
    && (n > 1 ==>
          var past := Beats(every, ticks[..n - 1]);
          Beats(every, ticks[..n]) == past + if past < due then 1 else 0)
  }

  ghost predicate KeptUp(every: int, ticks: seq<int>, n: nat)
    requires every > 0 && 0 < n <= |ticks|
  {
    Beats(every, ticks[..n]) == Due(every, ticks[0], ticks[n - 1])
  }

  lemma CountsOnAll(every: int, ticks: seq<int>, n: nat)
    requires every > 0 && NonDecreasing(ticks) && 0 < n <= |ticks|
    ensures CountsOn(every, ticks, n)
  {
    NeverDrifts(every, ticks[..n]);
    assert ticks[..n][..n - 1] == ticks[..n - 1];
  }

  /** The heartbeat keeps up after every tick exactly when no tick crosses more than one beat. */
  lemma KeepsUp(every: int, ticks: seq<int>)
    requires every > 0 && NonDecreasing(ticks)
    ensures (forall n :: 0 < n <= |ticks| ==> KeptUp(every, ticks, n)) <==> OneBeatAtATime(every, ticks)
  {
    if forall n :: 0 < n <= |ticks| ==> KeptUp(every, ticks, n) {
      forall i | 0 < i < |ticks| ensures Due(every, ticks[0], ticks[i]) <= Due(every, ticks[0], ticks[i - 1]) + 1 {
        assert KeptUp(every, ticks, i) && KeptUp(every, ticks, i + 1);
        CountsOnAll(every, ticks, i + 1);
      }
    }
    if OneBeatAtATime(every, ticks) {
      KeepsUpThrough(every, ticks, |ticks|);
    }
  }

  lemma {:induction false} KeepsUpThrough(every: int, ticks: seq<int>, m: nat)
    requires every > 0 && NonDecreasing(ticks) && m <= |ticks| && OneBeatAtATime(every, ticks)
    ensures forall n :: 0 < n <= m ==> KeptUp(every, ticks, n)
  {
    if m > 0 {
      KeepsUpThrough(every, ticks, m - 1);
      CountsOnAll(every, ticks, m);
      if m > 1 {
        assert KeptUp(every, ticks, m - 1);
        DueGrows(every, ticks[0], ticks[m - 2], ticks[m - 1]);
      } else {
        assert Due(every, ticks[0], ticks[0]) == 0;
      }
    }
  }

  /** Ticks no further apart than the interval never cross two beats, so the heartbeat keeps up with them. */
  lemma CloseTicksKeepUp(every: int, ticks: seq<int>)
    requires every > 0 && NonDecreasing(ticks)
    requires forall i :: 0 < i < |ticks| ==> ticks[i] - ticks[i - 1] <= every
    ensures forall n :: 0 < n <= |ticks| ==> KeptUp(every, ticks, n)
  {
    forall i | 0 < i < |ticks| ensures Due(every, ticks[0], ticks[i]) <= Due(every, ticks[0], ticks[i - 1]) + 1 {
      DueGrows(every, ticks[0], ticks[i - 1], ticks[i]);
    }
    KeepsUp(every, ticks);
  }
}
