/** Products and quotients of reals behind names, so that proofs can treat them as atoms and use these laws. */
module RealArithmetic {

  function Times(x: real, y: real): real {
    x * y
  }

  function Over(x: real, y: real): real
    requires y != 0.0
  {
    x / y
  }

  function Abs(x: real): real {
    if x >= 0.0 then x else -x
  }

  lemma Distribute(d: real, a: real, b: real)
    ensures Times(d, a + b) == Times(d, a) + Times(d, b)
  {
  }

  lemma MinusTimes(w: real, u: real)
    ensures Times(-w, u) == -Times(w, u)
  {
  }

  lemma Associate(a: real, b: real, c: real)
    ensures Times(Times(a, b), c) == Times(a, Times(b, c))
  {
  }

  lemma Commute(a: real, b: real)
    ensures Times(a, b) == Times(b, a)
  {
  }

  lemma TimesOver(t: real, d: real)
    requires d > 0.0
    ensures Times(d, Over(t, d)) == t
  {
  }

  lemma Cancel(d: real, a: real, b: real)
    requires d > 0.0 && Times(d, a) == Times(d, b)
    ensures a == b
  {
  }

  /** A fraction of a non-negative amount. */
  lemma PartOf(w: real, u: real)
    requires 0.0 <= w && 0.0 <= u <= 1.0
    ensures 0.0 <= Times(w, u) <= w
    ensures u < 1.0 && w > 0.0 ==> Times(w, u) < w
  {
    assert w * (1.0 - u) >= 0.0;
    if u < 1.0 && w > 0.0 {
      assert w * (1.0 - u) > 0.0;
    }
  }

  lemma StrictScale(a: real, b: real, u: real)
    requires a < b && 0.0 < u
    ensures Times(a, u) < Times(b, u)
  {
    PositiveProduct(b - a, u);
    assert (b - a) * u == b * u - a * u;
  }

  lemma PositiveProduct(x: real, y: real)
    requires x > 0.0 && y > 0.0
    ensures x * y > 0.0
  {
  }

  lemma Fraction(x: real, span: real)
    requires 0.0 <= x && span > 0.0
    ensures 0.0 <= Over(x, span)
    ensures x <= span ==> Over(x, span) <= 1.0
    ensures x < span ==> Over(x, span) < 1.0
    ensures x == 0.0 ==> Over(x, span) == 0.0
  {
    var y := Over(x, span);
    TimesOver(x, span);
    Commute(span, y);
    if y < 0.0 {
      StrictScale(y, 0.0, span);
    } else if y > 1.0 {
      StrictScale(1.0, y, span);
    } else if y > 0.0 {
      StrictScale(0.0, y, span);
    }
  }

  /** Multiplying both sides by something non-negative keeps an inequality. */
  lemma Scale(a: real, b: real, u: real)
    requires a <= b && 0.0 <= u
    ensures Times(a, u) <= Times(b, u)
  {
  }

  lemma SameSign(a: real, u: real)
    requires 0.0 < a && 0.0 <= Times(a, u)
    ensures 0.0 <= u
  {
  }

  lemma FloorShift(x: real, k: int)
    ensures (x + k as real).Floor == x.Floor + k
  {
  }

  // ---- whole cycles ----------------------------------------------------------------------------------------

  function Trunc(x: real): int {
    if x >= 0.0 then x.Floor else -(-x).Floor
  }

  /** The remainder of a division that truncates toward zero. */
  function Mod(t: real, d: real): real
    requires d > 0.0
  {
    t - Times(d, Trunc(Over(t, d)) as real)
  }

  /** What is left after taking out the whole cycles. */
  function Phase(t: real, d: real): real
    requires d > 0.0
  {
    t - Times(d, Over(t, d).Floor as real)
  }

  lemma PhaseIs(t: real, d: real)
    requires d > 0.0
    ensures Phase(t, d) == Times(d, Over(t, d) - Over(t, d).Floor as real)
  {
    var q := Over(t, d);
    var f := q.Floor as real;
    TimesOver(t, d);
    Distribute(d, q - f, f);
    assert (q - f) + f == q;
  }

  lemma PhaseRange(t: real, d: real)
    requires d > 0.0
    ensures 0.0 <= Phase(t, d) < d
  {
    PhaseIs(t, d);
    PartOf(d, Over(t, d) - Over(t, d).Floor as real);
  }

  /** Truncating, and lifting a negative remainder by one cycle, is taking the phase. */
  lemma ModIsPhase(t: real, d: real)
    requires d > 0.0
    ensures var m := Mod(t, d); (if m < 0.0 then m + d else m) == Phase(t, d)
  {
    PhaseRange(t, d);
    var q := Over(t, d);
    if Trunc(q) != q.Floor {
      assert Trunc(q) as real == q.Floor as real + 1.0;
      Distribute(d, q.Floor as real, 1.0);
      assert Times(d, 1.0) == d;
    }
  }

  lemma QuotientSum(t: real, d: real, k: real)
    requires d > 0.0
    ensures Over(t + Times(d, k), d) == Over(t, d) + k
  {
    TimesOver(t, d);
    TimesOver(t + Times(d, k), d);
    Distribute(d, Over(t, d), k);
    Cancel(d, Over(t + Times(d, k), d), Over(t, d) + k);
  }

  lemma PhaseRepeats(t: real, d: real, cycles: int)
    requires d > 0.0
    ensures Phase(t + Times(d, cycles as real), d) == Phase(t, d)
  {
    var k := cycles as real;
    var q := Over(t, d);
    QuotientSum(t, d, k);
    FloorShift(q, cycles);
    PhaseIs(t, d);
    PhaseIs(t + Times(d, k), d);
    assert (q + k) - (q + k).Floor as real == q - q.Floor as real;
  }
}
