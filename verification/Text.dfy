/** The little text formatting the runtime relies on: decimal numerals and comma-joined lists. */
module Text {

  function Digit(d: nat): char
    requires d < 10
  {
    '0' + d as char
  }

  /** `%d` of a non-negative integer. */
  function Decimal(n: nat): (r: string)
    ensures |r| > 0
    ensures forall c :: c in r ==> '0' <= c <= '9'
  {
    if n < 10 then [Digit(n)] else Decimal(n / 10) + [Digit(n % 10)]
  }

  /** Distinct numbers print differently, which is what makes a counter a source of fresh names. */
  lemma {:induction false} DecimalInjective(m: nat, n: nat)
    requires Decimal(m) == Decimal(n)
    ensures m == n
  {
    var a, b := Decimal(m), Decimal(n);
    assert Digit(m % 10) == a[|a| - 1] == b[|b| - 1] == Digit(n % 10);
    if m >= 10 && n >= 10 {
      assert Decimal(m / 10) == a[..|a| - 1] == b[..|b| - 1] == Decimal(n / 10);
      DecimalInjective(m / 10, n / 10);
    }
  }

  /** What a decimal numeral says, by the codes of its characters. */
  function Reading(s: string): int {
    if s == "" then 0 else 10 * Reading(s[..|s| - 1]) + (s[|s| - 1] as int - '0' as int)
  }

  /** A number is printed as the numeral that says it, without a leading zero. */
  lemma {:induction false} DecimalReads(n: nat)
    ensures Reading(Decimal(n)) == n && (n > 0 ==> Decimal(n)[0] != '0')
  {
    var s := Decimal(n);
    if n < 10 {
      assert s[..0] == "";
    } else {
      DecimalReads(n / 10);
      assert s[..|s| - 1] == Decimal(n / 10) && s[|s| - 1] == Digit(n % 10) && s[0] == Decimal(n / 10)[0];
    }
  }

  function Join(items: seq<string>, sep: string): string {
    if items == [] then ""
    else if |items| == 1 then items[0]
    else items[0] + sep + Join(items[1..], sep)
  }

  predicate OccursAt(s: string, mark: string, k: int) {
    0 <= k <= |s| - |mark| && s[k..k + |mark|] == mark
  }

  /** Where `mark` first occurs in `s`, at `from` or later; -1 when it does not. */
  function IndexOf(s: string, mark: string, from: nat := 0): (r: int)
    ensures r >= 0 ==> r >= from && OccursAt(s, mark, r) && forall k :: from <= k < r ==> !OccursAt(s, mark, k)
    ensures r < 0 ==> r == -1 && forall k: int :: from <= k ==> !OccursAt(s, mark, k)
    decreases |s| - from
  {
    if from + |mark| > |s| then -1
    else if OccursAt(s, mark, from) then from
    else IndexOf(s, mark, from + 1)
  }

  /** A mark comes first where the text before it lacks the mark's first character. */
  lemma FirstMark(a: string, mark: string, rest: string)
    requires |mark| > 0 && mark[0] !in a
    ensures IndexOf(a + mark + rest, mark) == |a|
    ensures (a + mark + rest)[..|a|] == a && (a + mark + rest)[|a| + |mark|..] == rest
  {
    var s := a + mark + rest;
    assert OccursAt(s, mark, |a|);
    forall k | 0 <= k < |a| ensures !OccursAt(s, mark, k) {
      assert s[k] == a[k] && (k + |mark| <= |s| ==> s[k..k + |mark|][0] == s[k]);
    }
  }

  lemma NoMark(s: string, mark: string)
    requires |mark| > 0 && mark[0] !in s
    ensures IndexOf(s, mark) == -1
  {
    forall k | 0 <= k <= |s| - |mark| ensures !OccursAt(s, mark, k) {
      assert s[k] in s && s[k..k + |mark|][0] == s[k];
    }
  }

  /** A list taken apart at its separators. */
  function Split(s: string, sep: char): (r: seq<string>)
    ensures r != []
    decreases |s|
  {
    var i := IndexOf(s, [sep]);
    if i < 0 then [s] else [s[..i]] + Split(s[i + 1..], sep)
  }

  /** Joined items that do not contain the separator come apart again, each as it was and in their order. */
  lemma {:induction false} SplitJoins(items: seq<string>, sep: char)
    requires items != [] && forall s :: s in items ==> sep !in s
    ensures Split(Join(items, [sep]), sep) == items
    decreases |items|
  {
    var first := items[0];
    assert first in items;
    if |items| == 1 {
      NoMark(first, [sep]);
      assert items == [first];
    } else {
      var rest := items[1..];
      assert forall s :: s in rest ==> s in items;
      SplitJoins(rest, sep);
      FirstMark(first, [sep], Join(rest, [sep]));
      assert items == [first] + rest;
    }
  }
}
