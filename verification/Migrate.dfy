/**
 * The schema-version rewriter: a line-by-line scanner that must agree with TOML's strings and comments, and the
 * edit it allows.
 */
module Migrate {
  import opened Common
  import opened Text

  // ---- strings and comments, one character at a time -------------------------------------------------------

  /**
   * Where a character of a document stands, in the terms of the sections "Comment" and "String" of TOML v1.0.0: `q` is
   * the kind of quote, and `run` how many closing quotes a multi-line string has just seen in a row. Here a multi-line
   * string ends at its first three quotes in a row, escaped or not; `MigrateLimits.Toml` is the automaton for which it
   * does not.
   */
  datatype Mode =
    | Normal
    | Comment
    | Quote1(q: char)
    | Quote2(q: char)
    | Basic
    | Escaped
    | Literal
    | Multi(q: char, run: nat)

  function InBasic(c: char): Mode {
    if c == '\\' then Escaped else if c == '"' || c == '\n' then Normal else Basic
  }

  function InLiteral(c: char): Mode {
    if c == '\'' || c == '\n' then Normal else Literal
  }

  function InNormal(c: char): Mode {
    if c == '#' then Comment else if c == '"' || c == '\'' then Quote1(c) else Normal
  }

  function Step(mode: Mode, c: char): Mode {
    match mode
    case Normal => InNormal(c)
    case Comment => if c == '\n' then Normal else Comment
    case Quote1(q) => if c == q then Quote2(q) else if q == '"' then InBasic(c) else InLiteral(c)
    case Quote2(q) => if c == q then Multi(q, 0) else InNormal(c)
    case Basic => InBasic(c)
    case Escaped => if c == '\n' then Normal else Basic
    case Literal => InLiteral(c)
    case Multi(q, run) => if c != q then Multi(q, 0) else if run >= 2 then Normal else Multi(q, run + 1)
  }

  /** The automaton over a whole text. */
  function Run(mode: Mode, text: string): Mode {
    if text == "" then mode else Step(Run(mode, text[..|text| - 1]), text[|text| - 1])
  }

  lemma {:induction false} RunConcat(mode: Mode, a: string, b: string)
    ensures Run(mode, a + b) == Run(Run(mode, a), b)
  {
    if b == "" {
      assert a + b == a;
    } else {
      assert (a + b)[..|a + b| - 1] == a + b[..|b| - 1];
      RunConcat(mode, a, b[..|b| - 1]);
    }
  }

  lemma RunStep(mode: Mode, text: string, i: nat)
    requires i < |text|
    ensures Run(mode, text[..i + 1]) == Step(Run(mode, text[..i]), text[i])
  {
    assert text[..i + 1][..i] == text[..i];
  }

  // ---- the line scanner ------------------------------------------------------------------------------------

  const TRIPLE_BASIC := "\"\"\""
  const TRIPLE_LITERAL := "'''"

  function Triple(q: char): string {
    [q, q, q]
  }

  /** What the scanner's two string fields say about a mode. */
  ghost predicate Sees(inMulti: bool, delim: string, mode: Mode) {
    if inMulti then mode.Multi? && delim == Triple(mode.q) else !mode.Multi?
  }

  /** At position `i` the scanner is between tokens: no quote is pending that the rest of the line could complete. */
  ghost predicate AtRest(mode: Mode, line: string, i: nat) {
    i <= |line| && (mode.Normal? || (mode.Quote2? && (i < |line| ==> line[i] != mode.q)))
  }

  lemma RestSteps(mode: Mode, line: string, i: nat)
    requires AtRest(mode, line, i) && i < |line|
    ensures Step(mode, line[i]) == InNormal(line[i])
  {
  }

  function TrimLeft(s: string): string {
    if s != "" && (s[0] == ' ' || s[0] == '\t') then TrimLeft(s[1..]) else s
  }

  /** The line opens a table: its first character that is not blank is a bracket. */
  predicate OpensTable(line: string) {
    var t := TrimLeft(line);
    t != "" && t[0] == '['
  }

  /** Before position `i` there are only spaces and tabs. */
  predicate BlankBefore(line: string, i: nat)
    requires i <= |line|
  {
    forall k :: 0 <= k < i ==> line[k] == ' ' || line[k] == '\t'
  }

  lemma {:induction false} OpensTableExactly(line: string)
    ensures OpensTable(line) <==> exists i :: 0 <= i < |line| && line[i] == '[' && BlankBefore(line, i)
  {
    if line != "" && (line[0] == ' ' || line[0] == '\t') {
      OpensTableExactly(line[1..]);
      if i :| 0 <= i < |line[1..]| && line[1..][i] == '[' && BlankBefore(line[1..], i) {
        assert forall k :: 0 < k <= i ==> line[k] == line[1..][k - 1];
        assert line[i + 1] == '[' && BlankBefore(line, i + 1);
      }
      if i :| 0 <= i < |line| && line[i] == '[' && BlankBefore(line, i) {
        assert line[1..][i - 1] == '[';
        assert forall k :: 0 <= k < i - 1 ==> line[1..][k] == line[k + 1];
        assert BlankBefore(line[1..], i - 1);
      }
    } else if line != "" && line[0] == '[' {
      assert BlankBefore(line, 0);
    }
  }

  lemma {:induction false} CommentLasts(line: string, i: nat, j: nat)
    requires i <= j <= |line| && '\n' !in line
    ensures Run(Comment, line[i..j]) == Comment
    decreases j - i
  {
    if i < j {
      CommentLasts(line, i, j - 1);
      assert line[i..j][..j - 1 - i] == line[i..j - 1];
      assert line[j - 1] in line;
    }
  }

  lemma ThreeQuotes(q: char, s: string, k: int)
    requires 0 <= k <= |s| - 3
    ensures OccursAt(s, Triple(q), k) <==> s[k] == q && s[k + 1] == q && s[k + 2] == q
  {
    assert s[k..k + 3] == [s[k], s[k + 1], s[k + 2]];
  }

  /** In a multi-line string, up to the first place where three of its quotes stand together. */
  lemma {:induction false} MultiLasts(q: char, s: string, n: nat)
    requires n <= |s| && forall k :: 0 <= k && k + 3 <= n ==> !OccursAt(s, Triple(q), k)
    ensures var mode := Run(Multi(q, 0), s[..n]);
            mode.Multi? && mode.q == q && mode.run <= 2 && mode.run <= n && forall k :: n - mode.run <= k < n ==>
              s[k] == q
  {
    if n > 0 {
      MultiLasts(q, s, n - 1);
      RunStep(Multi(q, 0), s, n - 1);
      if n >= 3 {
        ThreeQuotes(q, s, n - 3);
      }
    } else {
      assert s[..0] == "";
    }
  }

  lemma ThirdQuoteCloses(q: char, s: string, k: nat)
    requires k + 3 <= |s| && s[k] == q && s[k + 1] == q && s[k + 2] == q && Run(Multi(q, 0), s[..k]) == Multi(q, 0)
    ensures Run(Multi(q, 0), s[..k + 3]) == Normal
  {
    RunStep(Multi(q, 0), s, k);
    RunStep(Multi(q, 0), s, k + 1);
    RunStep(Multi(q, 0), s, k + 2);
  }

  lemma MultiCloses(q: char, s: string, k: nat)
    requires OccursAt(s, Triple(q), k) && forall j :: 0 <= j < k ==> !OccursAt(s, Triple(q), j)
    ensures Run(Multi(q, 0), s[..k + 3]) == Normal
  {
    ThreeQuotes(q, s, k);
    MultiLasts(q, s, k);
    if k > 0 {
      ThreeQuotes(q, s, k - 1);
    }
    ThirdQuoteCloses(q, s, k);
  }

  /** The index just past the closing quote of a basic string whose content starts at `from`, or the end of the line. */
  method SkipBasicString(line: string, from: nat) returns (i: nat)
    requires from <= |line| && '\n' !in line
    ensures from <= i <= |line|
    ensures Run(Basic, line[from..i]) == Normal || (i == |line| && !Run(Basic, line[from..i]).Multi?)
    ensures from < |line| ==> i > from && (line[from] == '"' ==> i == from + 1)
  {
    var k: int := from;
    while k < |line|
      invariant from <= k <= |line| + 1
      invariant k <= |line| ==> Run(Basic, line[from..k]) == Basic
      invariant k == |line| + 1 ==> Run(Basic, line[from..|line|]) == Escaped
      invariant k > from ==> line[from] != '"'
    {
      assert line[k] in line;
      SliceStep(Basic, line, from, k);
      if line[k] == '\\' {
        k := k + 1;
        if k < |line| {
          assert line[k] in line;
          SliceStep(Basic, line, from, k);
        }
      } else if line[k] == '"' {
        return k + 1;
      }
      k := k + 1;
    }
    i := |line|;
  }

  lemma SliceStep(mode: Mode, line: string, from: nat, k: nat)
    requires from <= k < |line|
    ensures Run(mode, line[from..k + 1]) == Step(Run(mode, line[from..k]), line[k])
  {
    assert line[from..k + 1][..k - from] == line[from..k];
  }

  lemma {:induction false} LiteralLasts(line: string, from: nat, end: nat)
    requires from <= end <= |line| && '\n' !in line && forall k :: from <= k < end ==> line[k] != '\''
    ensures Run(Literal, line[from..end]) == Literal
    decreases end
  {
    if from < end {
      LiteralLasts(line, from, end - 1);
      assert line[end - 1] in line;
      SliceStep(Literal, line, from, end - 1);
    }
  }

  /**
   * The index just past the closing quote of a literal string whose content starts at `from`, or the end of the
   * line.
   */
  method SkipLiteralString(line: string, from: nat) returns (i: nat)
    requires from <= |line| && '\n' !in line
    ensures from <= i <= |line|
    ensures Run(Literal, line[from..i]) == Normal || (i == |line| && Run(Literal, line[from..i]) == Literal)
    ensures from < |line| ==> i > from && (line[from] == '\'' ==> i == from + 1)
  {
    var idx := IndexOf(line, "'", from);
    if idx >= 0 {
      forall k | from <= k < idx ensures line[k] != '\'' {
        assert line[k..k + 1] == [line[k]] && !OccursAt(line, "'", k);
      }
      assert line[idx] == line[idx..idx + 1][0];
      LiteralLasts(line, from, idx);
      SliceStep(Literal, line, from, idx);
      return idx + 1;
    }
    forall k | from <= k < |line| ensures line[k] != '\'' {
      assert line[k..k + 1] == [line[k]] && !OccursAt(line, "'", k);
    }
    LiteralLasts(line, from, |line|);
    return |line|;
  }

  /** Past its first character, a string that did not turn out empty or multi-line is simply its kind of string. */
  lemma QuotedRun(q: char, line: string, from: nat, i: nat)
    requires from < i <= |line| && line[from] != q
    ensures Run(Quote1(q), line[from..i]) == Run(if q == '"' then Basic else Literal, line[from..i])
  {
    var inner := if q == '"' then Basic else Literal;
    assert line[from..i] == [line[from]] + line[from + 1..i];
    RunConcat(Quote1(q), [line[from]], line[from + 1..i]);
    RunConcat(inner, [line[from]], line[from + 1..i]);
    assert Run(Quote1(q), [line[from]]) == Step(Quote1(q), line[from]);
    assert Run(inner, [line[from]]) == Step(inner, line[from]);
  }

  lemma OneStep(mode: Mode, c: char)
    ensures Run(mode, [c]) == Step(mode, c)
  {
    assert [c][..0] == "";
  }

  /** The scanner may go on from here: it is between tokens, or the line is over and no multi-line string is open. */
  ghost predicate Resting(mode: Mode, line: string, i: nat) {
    i <= |line| && !mode.Multi? && (i < |line| ==> AtRest(mode, line, i))
  }

  lemma QuotedRests(mode: Mode, q: char, line: string, i: nat, j: nat)
    requires AtRest(mode, line, i) && i < j <= |line| && line[i] == q && (q == '"' || q == '\'')
    requires !OccursAt(line, Triple(q), i)
    requires i + 1 < |line| ==> i + 1 < j && (line[i + 1] == q ==> j == i + 2)
    requires var inner := Run(if q == '"' then Basic else Literal, line[i + 1..j]);
             inner == Normal || (j == |line| && !inner.Multi?)
    ensures Resting(Run(mode, line[i..j]), line, j)
  {
    assert line[i..j] == [q] + line[i + 1..j];
    RunConcat(mode, [q], line[i + 1..j]);
    OneStep(mode, q);
    RestSteps(mode, line, i);
    if i + 1 == |line| {
      assert line[i + 1..j] == "";
    } else if line[i + 1] != q {
      QuotedRun(q, line, i + 1, j);
    } else {
      assert line[i + 1..j] == [q];
      OneStep(Quote1(q), q);
      if j < |line| {
        assert line[i..i + 3] == [line[i], line[i + 1], line[i + 2]];
      }
    }
  }

  lemma TripleOpens(mode: Mode, q: char, line: string, i: nat)
    requires AtRest(mode, line, i) && (q == '"' || q == '\'') && OccursAt(line, Triple(q), i)
    ensures Run(mode, line[i..i + 3]) == Multi(q, 0)
  {
    assert line[i] == line[i..i + 3][0] && line[i + 1] == line[i..i + 3][1] && line[i + 2] == line[i..i + 3][2];
    RestSteps(mode, line, i);
    OneStep(mode, q);
    assert line[i..i + 1] == [q];
    SliceStep(mode, line, i, i + 1);
    SliceStep(mode, line, i, i + 2);
  }

  /** The rest of the line from `i`, after what the automaton made of it up to there. */
  lemma RunFrom(mode: Mode, line: string, i: nat, j: nat)
    requires i <= j <= |line|
    ensures Run(mode, line[..j]) == Run(Run(mode, line[..i]), line[i..j])
  {
    assert line[..j] == line[..i] + line[i..j];
    RunConcat(mode, line[..i], line[i..j]);
  }

  /** Past one token: a quote that opens a multi-line string, a whole string of another kind, or any other character. */
  method SkipToken(line: string, i: nat, ghost start: Mode) returns (j: nat, opens: Option<string>)
    requires i < |line| && '\n' !in line && AtRest(Run(start, line[..i]), line, i) && line[i] != '#'
    ensures i < j <= |line|
    ensures opens.Some? ==> opens.value == TRIPLE_BASIC || opens.value == TRIPLE_LITERAL
    ensures opens.Some? ==> Run(start, line[..j]) == Multi(opens.value[0], 0)
    ensures opens.None? ==> Resting(Run(start, line[..j]), line, j)
  {
    ghost var mode := Run(start, line[..i]);
    var c := line[i];
    if OccursAt(line, TRIPLE_BASIC, i) {
      TripleOpens(mode, '"', line, i);
      RunFrom(start, line, i, i + 3);
      return i + 3, Some(TRIPLE_BASIC);
    }
    if OccursAt(line, TRIPLE_LITERAL, i) {
      TripleOpens(mode, '\'', line, i);
      RunFrom(start, line, i, i + 3);
      return i + 3, Some(TRIPLE_LITERAL);
    }
    opens := None;
    if c == '"' {
      j := SkipBasicString(line, i + 1);
      QuotedRests(mode, c, line, i, j);
      RunFrom(start, line, i, j);
    } else if c == '\'' {
      j := SkipLiteralString(line, i + 1);
      QuotedRests(mode, c, line, i, j);
      RunFrom(start, line, i, j);
    } else {
      RestSteps(mode, line, i);
      RunStep(start, line, i);
      j := i + 1;
    }
  }

  class TomlScan {
    var inMulti: bool
    var delim: string
    var seenTable: bool

    ghost predicate Valid()
      reads this
    {
      inMulti ==> delim == TRIPLE_BASIC || delim == TRIPLE_LITERAL
    }

    /** The automaton's mode at the start of a line. */
    ghost function AtLineStart(): Mode
      requires Valid()
      reads this
    {
      if inMulti then Multi(delim[0], 0) else Normal
    }

    constructor ()
      ensures Valid() && !inMulti && !seenTable
    {
      inMulti, delim, seenTable := false, "", false;
    }

    /** Takes the next line in; what it then says about strings is what the automaton says at the line's end. */
    method Advance(line: string)
      requires Valid() && '\n' !in line
      modifies this
      ensures Valid()
      ensures Sees(inMulti, delim, Run(old(AtLineStart()), line))
      ensures seenTable == (old(seenTable) || (!old(inMulti) && OpensTable(line)))
    {
      if !inMulti && OpensTable(line) {
        seenTable := true;
      }
      ghost var start := AtLineStart();
      var i := 0;
      while i < |line|
        invariant Valid() && i <= |line|
        invariant inMulti ==> Run(start, line[..i]) == Multi(delim[0], 0)
        invariant !inMulti ==> Resting(Run(start, line[..i]), line, i)
        invariant seenTable == (old(seenTable) || (!old(inMulti) && OpensTable(line)))
      {
        if inMulti {
          var j := CloseMulti(line, i, delim, start);
          if j.None? {
            return;
          }
          i := j.value;
          inMulti := false;
          continue;
        }
        if line[i] == '#' {
          EndsInComment(start, line, i);
          return;
        }
        var j, opens := SkipToken(line, i, start);
        if opens.Some? {
          inMulti, delim := true, opens.value;
        }
        i := j;
      }
      assert line[..|line|] == line;
    }
  }

  lemma EndsInComment(start: Mode, line: string, i: nat)
    requires i < |line| && '\n' !in line && AtRest(Run(start, line[..i]), line, i) && line[i] == '#'
    ensures Run(start, line) == Comment
  {
    RestSteps(Run(start, line[..i]), line, i);
    RunStep(start, line, i);
    CommentLasts(line, i + 1, |line|);
    RunFrom(start, line, i + 1, |line|);
    assert line[..|line|] == line;
  }

  /** Just past where the open multi-line string closes on this line, if it does. */
  method CloseMulti(line: string, i: nat, delim: string, ghost start: Mode) returns (j: Option<nat>)
    requires i <= |line| && (delim == TRIPLE_BASIC || delim == TRIPLE_LITERAL)
    requires Run(start, line[..i]) == Multi(delim[0], 0)
    ensures j.Some? ==> i < j.value <= |line| && Run(start, line[..j.value]) == Normal
    ensures j.None? ==> Run(start, line).Multi? && Run(start, line).q == delim[0]
  {
    var q, rest := delim[0], line[i..];
    assert delim == Triple(q);
    var idx := IndexOf(rest, delim);
    if idx < 0 {
      StaysMulti(start, line, i, q);
      return None;
    }
    ClosesAt(start, line, i, q, idx);
    return Some(i + idx + |delim|);
  }

  lemma ClosesAt(start: Mode, line: string, i: nat, q: char, idx: nat)
    requires i <= |line| && Run(start, line[..i]) == Multi(q, 0) && IndexOf(line[i..], Triple(q)) == idx
    ensures i + idx + 3 <= |line| && Run(start, line[..i + idx + 3]) == Normal
  {
    var rest := line[i..];
    MultiCloses(q, rest, idx);
    RunFrom(start, line, i, i + idx + 3);
    assert rest[..idx + 3] == line[i..i + idx + 3];
  }

  /** Without its closing quotes on the line, a multi-line string goes on. */
  lemma StaysMulti(start: Mode, line: string, i: nat, q: char)
    requires i <= |line| && Run(start, line[..i]) == Multi(q, 0) && IndexOf(line[i..], Triple(q)) < 0
    ensures Run(start, line).Multi? && Run(start, line).q == q
  {
    var rest := line[i..];
    MultiLasts(q, rest, |rest|);
    RunFrom(start, line, i, |line|);
    assert rest[..|rest|] == line[i..|line|] && line[..|line|] == line;
  }

  // ---- the line that may be rewritten ----------------------------------------------------------------------

  const KEY := "schema_version"

  predicate IsSpace(c: char) {
    c == ' ' || c == '\t' || c == '\n' || c == 0xC as char || c == '\r'
  }

  /** The blanks of the pattern, by their codes: tab, newline, form feed, carriage return and space. */
  lemma SpacesByCode(c: char)
    ensures IsSpace(c) <==> c as int == 9 || c as int == 10 || c as int == 12 || c as int == 13 || c as int == 32
  {
  }

  predicate AllSpace(s: string) {
    forall c :: c in s ==> IsSpace(c)
  }

  /** What the pattern `space key space = space 1 space comment?` takes a line apart into. */
  datatype Parts = Parts(before: string, beforeEq: string, afterEq: string, after: string, comment: string) {

    predicate Proper() {
      && AllSpace(before) && AllSpace(beforeEq) && AllSpace(afterEq) && AllSpace(after)
      && (comment == "" || (comment[0] == '#' && '\n' !in comment))
    }

    function FromOne(): string {
      "1" + (after + comment)
    }

    function FromEq(): string {
      "=" + (afterEq + FromOne())
    }

    function Text(): string {
      before + (KEY + (beforeEq + FromEq()))
    }
  }

  /** These parts make up the line, with the 1 at position `p`. */
  ghost predicate Cuts(line: string, parts: Parts, p: nat) {
    parts.Proper() && line == parts.Text() && p == |line| - |parts.FromOne()|
  }

  /** The pattern matches, with its 1 at position `p`. */
  ghost predicate MatchesAt(line: string, p: nat) {
    exists parts: Parts :: Cuts(line, parts, p)
  }

  /** The first position at `i` or later that is not a space. */
  function SkipSpace(line: string, i: nat): (r: nat)
    requires i <= |line|
    ensures i <= r <= |line| && (forall k :: i <= k < r ==> IsSpace(line[k])) && (r < |line| ==> !IsSpace(line[r]))
    decreases |line| - i
  {
    if i < |line| && IsSpace(line[i]) then SkipSpace(line, i + 1) else i
  }

  /** Where the pattern finds its equals sign. */
  function FindEq(line: string): (r: Option<nat>)
    ensures r.Some? ==> r.value < |line|
  {
    var k := SkipSpace(line, 0);
    if !OccursAt(line, KEY, k) then None
    else
      var eq := SkipSpace(line, k + |KEY|);
      if eq == |line| || line[eq] != '=' then None else Some(eq)
  }

  /** Where the pattern finds its 1 after an equals sign. */
  function FindOne(line: string, eq: nat): (r: Option<nat>)
    requires eq < |line|
    ensures r.Some? ==> r.value < |line| && line[r.value] == '1'
  {
    var one := SkipSpace(line, eq + 1);
    if one == |line| || line[one] != '1' then None
    else
      var end := SkipSpace(line, one + 1);
      if end == |line| || (line[end] == '#' && '\n' !in line[end..]) then Some(one) else None
  }

  /** Where the pattern finds its 1, if it matches. */
  function FindVersion(line: string): (r: Option<nat>)
    ensures r.Some? ==> r.value < |line| && line[r.value] == '1'
  {
    var eq := FindEq(line);
    if eq.None? then None else FindOne(line, eq.value)
  }

  /** Spaces before something that is not one are what gets skipped. */
  lemma SpaceThen(line: string, i: nat, a: string, rest: string)
    requires i <= |line| && line[i..] == a + rest && AllSpace(a) && (rest != "" ==> !IsSpace(rest[0]))
    ensures SkipSpace(line, i) == i + |a| && i + |a| <= |line| && line[i + |a|..] == rest
  {
    Peel(line, i, a, rest);
    forall k | i <= k < i + |a| ensures IsSpace(line[k]) {
      assert line[i..][k - i] == a[k - i] && a[k - i] in a;
    }
    assert rest != "" ==> line[i + |a|] == line[i + |a|..][0];
  }

  lemma Peel(line: string, i: nat, a: string, rest: string)
    requires i <= |line| && line[i..] == a + rest
    ensures i + |a| <= |line| && line[i..i + |a|] == a && line[i + |a|..] == rest
  {
    assert line[i + |a|..] == line[i..][|a|..];
    assert line[i..i + |a|] == line[i..][..|a|];
  }

  lemma OneIs(line: string, eq: nat, p: nat)
    requires eq < p < |line| && SkipSpace(line, eq + 1) == p && line[p] == '1'
    requires var end := SkipSpace(line, p + 1); end == |line| || (line[end] == '#' && '\n' !in line[end..])
    ensures FindOne(line, eq) == Some(p)
  {
  }

  lemma FoundOne(line: string, eq: nat, afterEq: string, after: string, comment: string, one: string, p: nat)
    requires AllSpace(afterEq) && AllSpace(after) && (comment == "" || (comment[0] == '#' && '\n' !in comment))
    requires one == "1" + (after + comment) && p + |one| == |line|
    requires eq < |line| && line[eq..] == "=" + (afterEq + one)
    ensures FindOne(line, eq) == Some(p)
  {
    Peel(line, eq, "=", afterEq + one);
    SpaceThen(line, eq + 1, afterEq, one);
    EndFound(line, p, after, comment);
    OneIs(line, eq, p);
  }

  lemma EndFound(line: string, p: nat, after: string, comment: string)
    requires p < |line| && AllSpace(after) && (comment == "" || (comment[0] == '#' && '\n' !in comment))
    requires line[p..] == "1" + (after + comment)
    ensures line[p] == '1'
    ensures var end := SkipSpace(line, p + 1); end == |line| || (line[end] == '#' && '\n' !in line[end..])
  {
    Peel(line, p, "1", after + comment);
    assert line[p] == line[p..p + 1][0];
    SpaceThen(line, p + 1, after, comment);
    var end := p + 1 + |after|;
    assert end < |line| ==> line[end] == line[end..][0];
  }

  lemma EqIs(line: string, k: nat, eq: nat)
    requires k + |KEY| <= eq < |line| && SkipSpace(line, 0) == k && OccursAt(line, KEY, k)
    requires SkipSpace(line, k + |KEY|) == eq && line[eq] == '='
    ensures FindEq(line) == Some(eq)
  {
  }

  lemma FoundEq(line: string, before: string, beforeEq: string, rest: string, eq: nat)
    requires AllSpace(before) && AllSpace(beforeEq) && rest != "" && rest[0] == '='
    requires line == before + (KEY + (beforeEq + rest)) && eq + |rest| == |line|
    ensures FindEq(line) == Some(eq) && line[eq..] == rest
  {
    assert line[0..] == line;
    var k := |before|;
    SpaceThen(line, 0, before, KEY + (beforeEq + rest));
    Peel(line, k, KEY, beforeEq + rest);
    SpaceThen(line, k + |KEY|, beforeEq, rest);
    assert line[eq] == line[eq..][0];
    EqIs(line, k, eq);
  }

  lemma FoundPieces(line: string, before: string, beforeEq: string, afterEq: string, after: string, comment: string,
                    one: string, rest: string, eq: nat, p: nat)
    requires AllSpace(before) && AllSpace(beforeEq) && AllSpace(afterEq) && AllSpace(after)
    requires comment == "" || (comment[0] == '#' && '\n' !in comment)
    requires one == "1" + (after + comment) && rest == "=" + (afterEq + one) && rest[0] == '='
    requires line == before + (KEY + (beforeEq + rest)) && eq + |rest| == |line| && p + |one| == |line|
    ensures FindEq(line) == Some(eq) && FindOne(line, eq) == Some(p)
  {
    FoundEq(line, before, beforeEq, rest, eq);
    FoundOne(line, eq, afterEq, after, comment, one, p);
  }

  /** The function finds the pattern wherever it is. */
  lemma Found(line: string, parts: Parts, p: nat)
    requires Cuts(line, parts, p)
    ensures FindVersion(line) == Some(p)
  {
    var one, rest := parts.FromOne(), parts.FromEq();
    var eq := |line| - |rest|;
    FoundPieces(line, parts.before, parts.beforeEq, parts.afterEq, parts.after, parts.comment, one, rest, eq, p);
  }

  /** A text from one position is the piece up to the next and the text from there. */
  lemma Split(line: string, i: nat, j: nat)
    requires i <= j <= |line|
    ensures line[i..] == line[i..j] + line[j..]
  {
  }

  lemma SpacePiece(line: string, i: nat)
    requires i <= |line|
    ensures AllSpace(line[i..SkipSpace(line, i)])
  {
    var j := SkipSpace(line, i);
    forall c | c in line[i..j] ensures IsSpace(c) {
      var k :| 0 <= k < j - i && line[i..j][k] == c;
      assert line[i + k] == c;
    }
  }

  lemma CutOne(line: string, eq: nat, p: nat, end: nat)
    requires eq < p < end <= |line| && line[eq] == '=' && line[p] == '1'
    ensures line[p..] == "1" + (line[p + 1..end] + line[end..])
    ensures line[eq..] == "=" + (line[eq + 1..p] + line[p..])
  {
    Split(line, p, p + 1);
    Split(line, p + 1, end);
    Split(line, eq, eq + 1);
    Split(line, eq + 1, p);
    assert line[p..p + 1] == "1" && line[eq..eq + 1] == "=";
  }

  lemma CutEq(line: string, k: nat, eq: nat)
    requires k + |KEY| <= eq <= |line| && line[k..k + |KEY|] == KEY
    ensures line == line[0..k] + (KEY + (line[k + |KEY|..eq] + line[eq..]))
  {
    Split(line, k + |KEY|, eq);
    Split(line, k, k + |KEY|);
    Split(line, 0, k);
    assert line[0..] == line;
  }

  lemma CutAt(line: string, k: nat, eq: nat, p: nat, end: nat) returns (parts: Parts)
    requires k + |KEY| <= eq < p < end <= |line|
    requires line[k..k + |KEY|] == KEY && line[eq] == '=' && line[p] == '1'
    requires AllSpace(line[0..k]) && AllSpace(line[k + |KEY|..eq]) && AllSpace(line[eq + 1..p])
               && AllSpace(line[p + 1..end])
    requires end == |line| || (line[end] == '#' && '\n' !in line[end..])
    ensures Cuts(line, parts, p)
  {
    CutOne(line, eq, p, end);
    CutEq(line, k, eq);
    parts := Parts(line[0..k], line[k + |KEY|..eq], line[eq + 1..p], line[p + 1..end], line[end..]);
    TextIs(parts, line, line[p..], line[eq..]);
  }

  /** The pieces the function cuts a line into. */
  lemma Cut(line: string, p: nat) returns (parts: Parts)
    requires FindVersion(line) == Some(p)
    ensures Cuts(line, parts, p)
  {
    var k := SkipSpace(line, 0);
    var eq := FindEq(line).value;
    SpacePiece(line, 0);
    SpacePiece(line, k + |KEY|);
    SpacePiece(line, eq + 1);
    SpacePiece(line, p + 1);
    parts := CutAt(line, k, eq, p, SkipSpace(line, p + 1));
  }

  lemma TextIs(parts: Parts, line: string, one: string, eq: string)
    requires one == "1" + (parts.after + parts.comment)
    requires eq == "=" + (parts.afterEq + one)
    requires line == parts.before + (KEY + (parts.beforeEq + eq))
    ensures parts.FromOne() == one && line == parts.Text()
  {
  }

  /** The function answers exactly when the pattern matches, and says where. */
  lemma FindVersionFinds(line: string, p: nat)
    ensures FindVersion(line) == Some(p) <==> MatchesAt(line, p)
  {
    if FindVersion(line) == Some(p) {
      var parts := Cut(line, p);
    }
    if MatchesAt(line, p) {
      var parts: Parts :| Cuts(line, parts, p);
      Found(line, parts, p);
    }
  }

  // ---- a document, line by line ----------------------------------------------------------------------------

  /** The lines of a text, each with the newline that ends it; the last has none, and may be empty. */
  function Lines(text: string): seq<string> {
    var i := IndexOf(text, "\n");
    if i < 0 then [text] else [text[..i + 1]] + Lines(text[i + 1..])
  }

  /** One line: no newline inside, and one at the end unless it is the last of its text. */
  ghost predicate IsLine(line: string, last: bool) {
    '\n' !in Content(line) && (!last ==> line == Content(line) + "\n")
  }

  /** The lines, one after another, are the text. */
  lemma {:induction false} LinesOf(text: string)
    ensures Lines(text) != [] && Flat(Lines(text)) == text
    ensures forall k :: 0 <= k < |Lines(text)| ==> IsLine(Lines(text)[k], k == |Lines(text)| - 1)
    decreases |text|
  {
    var i := IndexOf(text, "\n");
    if i < 0 {
      NoNewline(text, |text|);
      FlatOne(text);
    } else {
      FirstLine(text, i);
      LinesOf(text[i + 1..]);
      FlatCons(text[..i + 1], Lines(text[i + 1..]));
      LineBefore(text[..i + 1], Lines(text[i + 1..]));
    }
  }

  lemma LineBefore(first: string, rest: seq<string>)
    requires rest != [] && IsLine(first, false)
    requires forall k :: 0 <= k < |rest| ==> IsLine(rest[k], k == |rest| - 1)
    ensures var lines := [first] + rest; forall k :: 0 <= k < |lines| ==> IsLine(lines[k], k == |lines| - 1)
  {
    var lines := [first] + rest;
    forall k | 0 <= k < |lines| ensures IsLine(lines[k], k == |lines| - 1) {
      if k > 0 {
        assert lines[k] == rest[k - 1];
      }
    }
  }

  /** Lines put together are taken apart into the same lines. */
  lemma {:induction false} LinesBack(lines: seq<string>)
    requires lines != [] && '\n' !in lines[|lines| - 1]
    requires forall k :: 0 <= k < |lines| - 1 ==> IsLine(lines[k], false)
    ensures Lines(Flat(lines)) == lines
    decreases |lines|
  {
    if |lines| == 1 {
      FlatOne(lines[0]);
      assert lines == [lines[0]];
      NoMark(lines[0], "\n");
    } else {
      var content, rest := Content(lines[0]), lines[1..];
      assert [lines[0]] + rest == lines && IsLine(lines[0], false);
      FlatCons(lines[0], rest);
      LinesBack(rest);
      FirstMark(content, "\n", Flat(rest));
      assert Flat(lines)[..|content| + 1] == lines[0] && Flat(lines)[|content| + 1..] == Flat(rest);
    }
  }

  lemma FirstLine(text: string, i: nat)
    requires OccursAt(text, "\n", i) && forall k :: 0 <= k < i ==> !OccursAt(text, "\n", k)
    ensures '\n' !in Content(text[..i + 1]) && text[..i + 1] == Content(text[..i + 1]) + "\n"
    ensures text == text[..i + 1] + text[i + 1..]
  {
    assert text[i] == text[i..i + 1][0];
    NoNewline(text, i);
    assert text[..i + 1] == text[..i] + "\n";
  }

  lemma NoNewline(text: string, n: nat)
    requires n <= |text| && forall k :: 0 <= k < n ==> !OccursAt(text, "\n", k)
    ensures '\n' !in text[..n]
    ensures n == |text| ==> Content(text) == text
    ensures n < |text| && text[n] == '\n' ==> Content(text[..n + 1]) == text[..n]
  {
    forall k | 0 <= k < n ensures text[k] != '\n' {
      assert text[k..k + 1] == [text[k]] && !OccursAt(text, "\n", k);
    }
  }

  /** A line without the newline that ends it. */
  function Content(line: string): string {
    if line != "" && line[|line| - 1] == '\n' then line[..|line| - 1] else line
  }

  function Terminator(line: string): string {
    if line != "" && line[|line| - 1] == '\n' then "\n" else ""
  }

  function Flat(lines: seq<string>): string {
    if lines == [] then "" else Flat(lines[..|lines| - 1]) + lines[|lines| - 1]
  }

  lemma FlatOne(line: string)
    ensures Flat([line]) == line
  {
  }

  lemma {:induction false} FlatCons(first: string, rest: seq<string>)
    ensures Flat([first] + rest) == first + Flat(rest)
  {
    if rest == [] {
      assert [first] + rest == [first];
    } else {
      FlatCons(first, rest[..|rest| - 1]);
      assert ([first] + rest)[..|rest|] == [first] + rest[..|rest| - 1];
    }
  }

  lemma FlatStep(lines: seq<string>, k: nat)
    requires k < |lines|
    ensures Flat(lines[..k + 1]) == Flat(lines[..k]) + lines[k]
  {
    assert lines[..k + 1][..k] == lines[..k];
  }

  // ---- the scanner against the automaton, over a whole document --------------------------------------------

  predicate RealQuotes(mode: Mode) {
    mode.Quote1? || mode.Quote2? || mode.Multi? ==> mode.q == '"' || mode.q == '\''
  }

  lemma {:induction false} RunKeepsQuotes(mode: Mode, text: string)
    requires RealQuotes(mode)
    ensures RealQuotes(Run(mode, text))
  {
    if text != "" {
      RunKeepsQuotes(mode, text[..|text| - 1]);
    }
  }

  /** The automaton's mode where line `k` of a document starts. */
  function ModeAt(lines: seq<string>, k: nat): Mode
    requires k <= |lines|
  {
    Run(Normal, Flat(lines[..k]))
  }

  /** The two string fields of the scanner, as the mode they stand for at the start of a line. */
  function Carried(inMulti: bool, delim: string): Mode {
    if inMulti && delim != "" then Multi(delim[0], 0) else Normal
  }

  /** A newline ends whatever a line can leave unfinished, but a multi-line string. */
  lemma NewlineEnds(mode: Mode, inMulti: bool, delim: string)
    requires RealQuotes(mode) && Sees(inMulti, delim, mode)
    ensures Carried(inMulti, delim) == Step(mode, '\n')
  {
  }

  lemma ModeNext(lines: seq<string>, k: nat)
    requires k < |lines| && lines[k] == Content(lines[k]) + "\n"
    ensures ModeAt(lines, k + 1) == Step(Run(ModeAt(lines, k), Content(lines[k])), '\n')
  {
    FlatStep(lines, k);
    RunConcat(Normal, Flat(lines[..k]), lines[k]);
    RunConcat(ModeAt(lines, k), Content(lines[k]), "\n");
    OneStep(Run(ModeAt(lines, k), Content(lines[k])), '\n');
  }

  /** The scanner's fields after a line are the automaton's mode after that line and its newline. */
  lemma NewlineSettles(lines: seq<string>, k: nat, inMulti: bool, delim: string)
    requires k < |lines| && lines[k] == Content(lines[k]) + "\n"
    requires Sees(inMulti, delim, Run(ModeAt(lines, k), Content(lines[k])))
    ensures Carried(inMulti, delim) == ModeAt(lines, k + 1)
  {
    ModeNext(lines, k);
    RunKeepsQuotes(Normal, Flat(lines[..k]));
    RunKeepsQuotes(ModeAt(lines, k), Content(lines[k]));
    NewlineEnds(Run(ModeAt(lines, k), Content(lines[k])), inMulti, delim);
  }

  /** Line `k` starts outside every multi-line string, and opens a table. */
  predicate Header(lines: seq<string>, k: nat)
    requires k < |lines|
  {
    !ModeAt(lines, k).Multi? && OpensTable(Content(lines[k]))
  }

  /**
   * Line `k` can hold the document's own version: it starts outside every multi-line string, and no table was
   * opened before it.
   */
  predicate Eligible(lines: seq<string>, k: nat)
    requires k < |lines|
  {
    !ModeAt(lines, k).Multi? && forall j :: 0 <= j < k ==> !Header(lines, j)
  }

  predicate Hit(lines: seq<string>, k: nat)
    requires k < |lines|
  {
    Eligible(lines, k) && FindVersion(Content(lines[k])).Some?
  }

  ghost predicate NoHit(lines: seq<string>, n: nat)
    requires n <= |lines|
  {
    forall k :: 0 <= k < n ==> !Hit(lines, k)
  }

  /** Where, in the whole text, line `k` holds its 1. */
  function VersionAt(lines: seq<string>, k: nat): nat
    requires k < |lines| && Hit(lines, k)
  {
    |Flat(lines[..k])| + FindVersion(Content(lines[k])).value
  }

  /** A matching line with its 1 made a 2. */
  function WithTwo(content: string): string
    requires FindVersion(content).Some?
  {
    content[..FindVersion(content).value] + "2" + content[FindVersion(content).value + 1..]
  }

  /** `after` is `before` with the 1 of the first eligible matching line made a 2. */
  ghost predicate Edited(lines: seq<string>, at: nat, before: string, after: string) {
    && at < |lines| && Hit(lines, at) && NoHit(lines, at)
    && VersionAt(lines, at) < |before| && before[VersionAt(lines, at)] == '1'
    && after == before[VersionAt(lines, at) := '2']
  }

  /** The first line that matches is edited in place. */
  lemma EditsHere(lines: seq<string>, k: nat, next: string)
    requires k < |lines| && Hit(lines, k) && NoHit(lines, k) && next == WithTwo(Content(lines[k]))
    ensures Edited(lines, k, Flat(lines[..k + 1]), Flat(lines[..k]) + next + Terminator(lines[k]))
  {
    var done, content, end := Flat(lines[..k]), Content(lines[k]), Terminator(lines[k]);
    var p := FindVersion(content).value;
    FlatStep(lines, k);
    ContentEnds(lines[k]);
    Splice(done, content, end, p);
    assert VersionAt(lines, k) == |done| + p && Flat(lines[..k + 1]) == done + (content + end);
    assert next == content[..p] + "2" + content[p + 1..];
  }

  lemma ContentEnds(line: string)
    ensures line == Content(line) + Terminator(line)
  {
  }

  lemma Splice(done: string, content: string, end: string, p: nat)
    requires p < |content|
    ensures (done + (content + end))[|done| + p] == content[p]
    ensures (done + (content + end))[|done| + p := '2'] == done + (content[..p] + "2" + content[p + 1..]) + end
  {
  }

  /** Later lines are copied. */
  lemma {:induction false} EditsOn(lines: seq<string>, at: nat, before: string, after: string, line: string)
    requires Edited(lines, at, before, after)
    ensures Edited(lines, at, before + line, after + line)
  {
    var p := VersionAt(lines, at);
    assert (before + line)[p := '2'] == before[p := '2'] + line;
  }

  /** The edit at one line, if that line is eligible and nothing was edited yet. */
  method EditLine(content: string, eligible: bool) returns (next: string, edited: bool)
    ensures edited <==> eligible && FindVersion(content).Some?
    ensures next == if edited then WithTwo(content) else content
  {
    next, edited := content, false;
    if eligible {
      var m := FindVersion(content);
      if m.Some? {
        next := content[..m.value] + "2" + content[m.value + 1..];
        edited := true;
      }
    }
  }

  /** The scanner's fields before line `k`: the automaton's mode, and whether a table was opened. */
  ghost predicate Scanned(lines: seq<string>, k: nat, inMulti: bool, delim: string, seenTable: bool)
    requires k <= |lines|
  {
    && (k < |lines| ==> Carried(inMulti, delim) == ModeAt(lines, k))
    && (inMulti ==> delim == TRIPLE_BASIC || delim == TRIPLE_LITERAL)
    && (seenTable <==> exists j :: 0 <= j < k && Header(lines, j))
  }

  lemma ScannedMeans(lines: seq<string>, k: nat, inMulti: bool, delim: string, seenTable: bool)
    requires k < |lines| && Scanned(lines, k, inMulti, delim, seenTable)
    ensures inMulti <==> ModeAt(lines, k).Multi?
    ensures !inMulti && !seenTable <==> Eligible(lines, k)
  {
  }

  lemma ScannedNext(lines: seq<string>, k: nat, wasMulti: bool, wasDelim: string, wasTable: bool,
                    inMulti: bool, delim: string, seenTable: bool)
    requires k < |lines| && Scanned(lines, k, wasMulti, wasDelim, wasTable)
    requires k + 1 < |lines| ==> lines[k] == Content(lines[k]) + "\n"
    requires Sees(inMulti, delim, Run(ModeAt(lines, k), Content(lines[k])))
    requires inMulti ==> delim == TRIPLE_BASIC || delim == TRIPLE_LITERAL
    requires seenTable == (wasTable || (!wasMulti && OpensTable(Content(lines[k]))))
    ensures Scanned(lines, k + 1, inMulti, delim, seenTable)
  {
    ScannedMeans(lines, k, wasMulti, wasDelim, wasTable);
    assert !wasMulti && OpensTable(Content(lines[k])) <==> Header(lines, k);
    if k + 1 < |lines| {
      NewlineSettles(lines, k, inMulti, delim);
    }
  }

  /** What has been written before line `k`: everything as it was, or with the one edit, made in line `at`. */
  ghost predicate Copied(lines: seq<string>, k: nat, out: string, rewritten: bool, at: nat)
    requires k <= |lines|
  {
    if rewritten then at < k && Edited(lines, at, Flat(lines[..k]), out) else out == Flat(lines[..k]) && NoHit(lines, k)
  }

  lemma CopiedNext(lines: seq<string>, k: nat, out: string, rewritten: bool, at: nat, next: string, edited: bool)
    requires k < |lines| && Copied(lines, k, out, rewritten, at)
    requires edited <==> !rewritten && Hit(lines, k)
    requires next == if edited then WithTwo(Content(lines[k])) else Content(lines[k])
    ensures Copied(lines, k + 1, out + next + Terminator(lines[k]), rewritten || edited, if edited then k else at)
  {
    if edited {
      EditsHere(lines, k, next);
    } else {
      FlatStep(lines, k);
      assert lines[k] == next + Terminator(lines[k]);
      ConcatAssociates(out, next, Terminator(lines[k]));
      if rewritten {
        EditsOn(lines, at, Flat(lines[..k]), out, lines[k]);
      }
    }
  }

  /** One line of the document: edited if it may be and nothing was yet, and then taken in by the scanner as it was. */
  method TakeLine(scan: TomlScan, ghost lines: seq<string>, ghost k: nat, line: string, out: string, rewritten: bool,
                  ghost at: nat)
    returns (out': string, rewritten': bool, ghost at': nat)
    requires scan.Valid() && k < |lines| && line == lines[k] && IsLine(line, k == |lines| - 1)
    requires Scanned(lines, k, scan.inMulti, scan.delim, scan.seenTable) && Copied(lines, k, out, rewritten, at)
    modifies scan
    ensures scan.Valid() && Scanned(lines, k + 1, scan.inMulti, scan.delim, scan.seenTable)
    ensures Copied(lines, k + 1, out', rewritten', at')
  {
    var content := Content(line);
    ghost var wasMulti, wasDelim, wasTable := scan.inMulti, scan.delim, scan.seenTable;
    ScannedMeans(lines, k, wasMulti, wasDelim, wasTable);
    var next, edited := EditLine(content, !rewritten && !scan.inMulti && !scan.seenTable);
    CopiedNext(lines, k, out, rewritten, at, next, edited);
    out', rewritten', at' := out + next + Terminator(line), rewritten || edited, if edited then k else at;
    scan.Advance(content);
    ScannedNext(lines, k, wasMulti, wasDelim, wasTable, scan.inMulti, scan.delim, scan.seenTable);
  }

  /** Rewrites the document's own schema version: one character of the first eligible line that matches, or nothing. */
  method RewriteSchemaVersion(raw: string) returns (out: string, rewritten: bool)
    ensures rewritten <==> !NoHit(Lines(raw), |Lines(raw)|)
    ensures rewritten ==> exists at: nat :: Edited(Lines(raw), at, raw, out)
    ensures !rewritten ==> out == raw
  {
    var lines := Lines(raw);
    LinesOf(raw);
    var scan := new TomlScan();
    ghost var at: nat := 0;
    out, rewritten := "", false;
    for k := 0 to |lines|
      invariant scan.Valid() && fresh(scan)
      invariant Scanned(lines, k, scan.inMulti, scan.delim, scan.seenTable)
      invariant Copied(lines, k, out, rewritten, at)
    {
      assert IsLine(lines[k], k == |lines| - 1);
      out, rewritten, at := TakeLine(scan, lines, k, lines[k], out, rewritten, at);
    }
    assert lines[..|lines|] == lines;
  }

  /** The rewrite keeps the length, and changes at most one character, a 1 into a 2. */
  lemma {:induction false} OneCharacter(lines: seq<string>, at: nat, raw: string, out: string)
    requires Edited(lines, at, raw, out)
    ensures |out| == |raw|
    ensures exists p: nat :: p < |raw| && raw[p] == '1' && out[p] == '2' && forall i :: 0 <= i < |raw| && i != p ==>
              out[i] == raw[i]
  {
    var p := VersionAt(lines, at);
    assert p < |raw| && raw[p] == '1' && out[p] == '2';
  }
}
