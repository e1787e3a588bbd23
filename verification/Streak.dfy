/**
 * The per-episode log tracker: one line when a gated streak opens, one per change of reason, one summary when
 * it ends.
 */
module Streaks {
  import opened Text

  /** A line a streak sends to its logger; the stage, source and event key never change. */
  datatype Line = Drop(reason: string, detail: string) | Stage(detail: string)

  function SuppressedDetail(ticks: nat): string {
    "suppressed " + Decimal(ticks) + " ticks"
  }

  /** A summary says how many ticks it stands for. */
  lemma SummaryTellsTicks(m: nat, n: nat)
    requires SuppressedDetail(m) == SuppressedDetail(n)
    ensures m == n
  {
    var head, tail := "suppressed ", " ticks";
    var a, b := SuppressedDetail(m), SuppressedDetail(n);
    assert Decimal(m) == a[|head|..|a| - |tail|] == b[|head|..|b| - |tail|] == Decimal(n);
    DecimalInjective(m, n);
  }

  /** A streak as a value, and what each call makes of it. */
  datatype View = View(open: bool, reason: string, reasons: seq<string>, ticks: nat, lines: seq<Line>) {

    function Entered(next: string): View {
      if !open then View(true, next, reasons + [next], ticks + 1, lines + [Drop(next, "")])
      else if next == reason then this.(ticks := ticks + 1)
      else View(true, next, if next in reasons then reasons else reasons + [next], ticks + 1, lines + [Drop(next, "")])
    }

    function Ended(): View {
      if open then View(false, "", [], 0, lines + [Drop(Join(reasons, ","), SuppressedDetail(ticks))]) else this
    }

    function Fired(detail: string): View {
      var ended := Ended();
      ended.(lines := ended.lines + [Stage(detail)])
    }
  }

  const CLOSED := View(false, "", [], 0, [])

  class Streak {
    var open: bool
    var reason: string
    var reasons: seq<string>
    var ticks: nat
    var lines: seq<Line> // what has been logged

    function Value(): View
      reads this
    {
      View(open, reason, reasons, ticks, lines)
    }

    constructor ()
      ensures Value() == CLOSED
    {
      open, reason, reasons, ticks, lines := false, "", [], 0, [];
    }

    method Enter(reason: string)
      modifies this
      ensures Value() == old(Value()).Entered(reason)
    {
      ticks := ticks + 1;
      if !open {
        open := true;
        this.reason := reason;
        reasons := reasons + [reason];
        lines := lines + [Drop(reason, "")];
        return;
      }
      if reason == this.reason {
        return;
      }
      this.reason := reason;
      if reason !in reasons {
        reasons := reasons + [reason];
      }
      lines := lines + [Drop(reason, "")];
    }

    method End()
      modifies this
      ensures Value() == old(Value()).Ended()
    {
      if !open {
        return;
      }
      lines := lines + [Drop(Join(reasons, ","), SuppressedDetail(ticks))];
      open, reason, reasons, ticks := false, "", [], 0;
    }

    method Fire(detail: string)
      modifies this
      ensures Value() == old(Value()).Fired(detail)
    {
      End();
      lines := lines + [Stage(detail)];
    }
  }
}
