/**
 * Where the schema-version rewriter's scanner and a reader of TOML agree, and exactly when the line it settles on is
 * the document's own.
 */
module MigrateLimits {
  import opened Common
  import opened Text
  import opened Migrate

  /**
   * Where a character stands for a reader of TOML v1.0.0, section "String": in a multi-line basic string a backslash
   * takes the next character with it, and either kind of multi-line string ends at the last of up to five quotes, so
   * that after three the next character decides.
   */
  datatype Toml = Outside(mode: Mode) | Inside(q: char, run: nat) | Backslash {

    function Next(c: char): Toml {
      match this
      case Outside(mode) => var next := Step(mode, c); if next.Multi? then Inside(next.q, 0) else Outside(next)
      case Backslash => Inside('"', 0)
      case Inside(q, run) =>
        if c == q then (if run >= 4 then Outside(Normal) else Inside(q, run + 1))
        else if run >= 3 then Outside(InNormal(c))
        else if q == '"' && c == '\\' then Backslash
        else Inside(q, 0)
    }

    /** The mode the scanner's automaton would have to be in to say the same. */
    function Seen(): Mode {
      match this
      case Outside(mode) => mode
      case Backslash => Multi('"', 0)
      case Inside(q, run) => if run >= 3 then Normal else Multi(q, run)
    }

    /** Within a multi-line string that has not ended. */
    predicate InText() {
      Backslash? || (Inside? && run < 3)
    }

    /** A bracket here is a bracket: it is part of no string and no comment. */
    predicate AtLarge() {
      (Outside? && (mode.Normal? || mode.Quote2?)) || (Inside? && run >= 3)
    }
  }

  function TomlRun(text: string): Toml {
    if text == "" then Outside(Normal) else TomlRun(text[..|text| - 1]).Next(text[|text| - 1])
  }

  lemma {:induction false} TomlStep(text: string, i: nat)
    requires i < |text|
    ensures TomlRun(text[..i + 1]) == TomlRun(text[..i]).Next(text[i])
  {
    assert text[..i + 1][..i] == text[..i];
  }

  /**
   * At position `i` a quote is escaped in a multi-line basic string, or a multi-line string ends with a fourth
   * quote.
   */
  ghost predicate Odd(text: string, i: nat)
    requires i < |text|
  {
    var t := TomlRun(text[..i]);
    (t.Backslash? && text[i] == '"') || (t.Inside? && t.run == 3 && text[i] == t.q)
  }

  /** Every multi-line string of the text escapes no quote and ends with just three. */
  ghost predicate PlainMultis(text: string) {
    forall i :: 0 <= i < |text| ==> !Odd(text, i)
  }

  /** The scanner's automaton and a reader of TOML agree after every character. */
  ghost predicate AgreeThroughout(text: string) {
    forall i :: 0 <= i <= |text| ==> Agree(text, i)
  }

  ghost predicate Agree(text: string, i: nat)
    requires i <= |text|
  {
    Run(Normal, text[..i]) == TomlRun(text[..i]).Seen() && Sound(TomlRun(text[..i]))
  }

  /** Outside means outside, and a quote is a quote. */
  predicate Sound(t: Toml) {
    && (t.Outside? ==> !t.mode.Multi? && RealQuotes(t.mode))
    && (t.Inside? ==> t.q == '"' || t.q == '\'')
  }

  lemma {:induction false} AgreeNext(text: string, i: nat)
    requires i < |text| && Agree(text, i) && (TomlRun(text[..i]).Inside? ==> TomlRun(text[..i]).run <= 3)
    ensures Agree(text, i + 1) <==> !Odd(text, i)
    ensures !Odd(text, i) && TomlRun(text[..i + 1]).Inside? ==> TomlRun(text[..i + 1]).run <= 3
  {
    RunStep(Normal, text, i);
    TomlStep(text, i);
  }

  lemma {:induction false} AgreeUpTo(text: string, n: nat)
    requires n <= |text| && forall i :: 0 <= i < n ==> !Odd(text, i)
    ensures Agree(text, n) && (TomlRun(text[..n]).Inside? ==> TomlRun(text[..n]).run <= 3)
  {
    if n == 0 {
      assert text[..0] == "";
    } else {
      AgreeUpTo(text, n - 1);
      AgreeNext(text, n - 1);
    }
  }

  /** The first odd place is where the two part. */
  lemma {:induction false} OddParts(text: string, n: nat)
    requires n < |text| && Odd(text, n)
    ensures !AgreeThroughout(text)
  {
    if exists i :: 0 <= i < n && Odd(text, i) {
      var i :| 0 <= i < n && Odd(text, i);
      OddParts(text, i);
    } else {
      AgreeUpTo(text, n);
      AgreeNext(text, n);
    }
  }

  /** The two agree throughout a text exactly when its multi-line strings escape no quote and end with just three. */
  lemma {:induction false} PlainMultisAgree(text: string)
    ensures AgreeThroughout(text) <==> PlainMultis(text)
  {
    if PlainMultis(text) {
      forall n | 0 <= n <= |text| ensures Agree(text, n) {
        AgreeUpTo(text, n);
      }
    } else {
      var n :| 0 <= n < |text| && Odd(text, n);
      OddParts(text, n);
    }
  }

  // ---- how deep a line starts ------------------------------------------------------------------------------

  /** What a bracket does to the nesting of arrays and inline tables. */
  function Turn(c: char): int {
    if c == '[' || c == '{' then 1 else if c == ']' || c == '}' then -1 else 0
  }

  /**
   * How many arrays and inline tables are open behind a text, in the terms of the sections "Array" and "Inline Table"
   * of TOML v1.0.0; a table header closes what it opens.
   */
  function Depth(text: string): int {
    if text == "" then 0
    else
      var front, c := text[..|text| - 1], text[|text| - 1];
      Depth(front) + if TomlRun(front).AtLarge() then Turn(c) else 0
  }

  function TomlAt(lines: seq<string>, k: nat): Toml
    requires k <= |lines|
  {
    TomlRun(Flat(lines[..k]))
  }

  function DepthAt(lines: seq<string>, k: nat): int
    requires k <= |lines|
  {
    Depth(Flat(lines[..k]))
  }

  /** Line `k` starts a statement of the document: outside every string, array and inline table. */
  predicate AtTop(lines: seq<string>, k: nat)
    requires k < |lines|
  {
    !TomlAt(lines, k).InText() && DepthAt(lines, k) == 0
  }

  predicate TomlHeader(lines: seq<string>, k: nat)
    requires k < |lines|
  {
    AtTop(lines, k) && OpensTable(Content(lines[k]))
  }

  /** Line `k` is the document's own version line: it starts a statement, before any table, and is of the right form. */
  predicate TomlHit(lines: seq<string>, k: nat)
    requires k < |lines|
  {
    && AtTop(lines, k)
    && (forall j :: 0 <= j < k ==> !TomlHeader(lines, j))
    && FindVersion(Content(lines[k])).Some?
  }

  ghost predicate NoTomlHit(lines: seq<string>, n: nat)
    requires n <= |lines|
  {
    forall k :: 0 <= k < n ==> !TomlHit(lines, k)
  }

  /** A line the scanner acts on: it matches, or its first character that is not blank is a bracket. */
  predicate Telling(line: string) {
    FindVersion(Content(line)).Some? || OpensTable(Content(line))
  }

  /** Line `k` tells the scanner something, and starts inside an array or an inline table. */
  predicate Stray(lines: seq<string>, k: nat)
    requires k < |lines|
  {
    !TomlAt(lines, k).InText() && DepthAt(lines, k) != 0 && Telling(lines[k])
  }

  /** Scanner and reader take line `k` for the same: a table header, a version line, or neither. */
  predicate SameLine(lines: seq<string>, k: nat)
    requires k < |lines|
  {
    && (Header(lines, k) <==> TomlHeader(lines, k))
    && (!ModeAt(lines, k).Multi? && FindVersion(Content(lines[k])).Some? <==>
          AtTop(lines, k) && FindVersion(Content(lines[k])).Some?)
  }

  lemma {:induction false} FlatPrefix(lines: seq<string>, k: nat)
    requires k <= |lines|
    ensures |Flat(lines[..k])| <= |Flat(lines)| && Flat(lines)[..|Flat(lines[..k])|] == Flat(lines[..k])
  {
    if k == |lines| {
      assert lines[..k] == lines;
    } else {
      var n := |lines| - 1;
      FlatPrefix(lines[..n], k);
      assert lines[..n][..k] == lines[..k];
    }
  }

  lemma {:induction false} AgreeAtLine(lines: seq<string>, j: nat, k: nat)
    requires j <= k <= |lines| && PlainMultis(Flat(lines[..k]))
    ensures TomlAt(lines, j).InText() <==> ModeAt(lines, j).Multi?
  {
    FlatPrefix(lines[..k], j);
    assert lines[..k][..j] == lines[..j];
    AgreeUpTo(Flat(lines[..k]), |Flat(lines[..j])|);
  }

  /**
   * Where the multi-line strings before line `k` are plain, scanner and reader take every line up to it for the same if
   * and only if none of them is stray.
   */
  lemma {:induction false} PlainLinesAgree(lines: seq<string>, k: nat)
    requires k < |lines| && PlainMultis(Flat(lines[..k]))
    ensures (forall j :: 0 <= j <= k ==> SameLine(lines, j)) <==> (forall j :: 0 <= j <= k ==> !Stray(lines, j))
  {
    forall j | 0 <= j <= k ensures SameLine(lines, j) <==> !Stray(lines, j) {
      AgreeAtLine(lines, j, k);
    }
  }

  /** And then they hold the same of line `k`: it is the document's own version line, or it is not. */
  lemma {:induction false} PlainHits(lines: seq<string>, k: nat)
    requires k < |lines| && PlainMultis(Flat(lines[..k])) && forall j :: 0 <= j <= k ==> !Stray(lines, j)
    ensures Hit(lines, k) <==> TomlHit(lines, k)
  {
    PlainLinesAgree(lines, k);
    assert SameLine(lines, k);
    forall j | 0 <= j < k ensures Header(lines, j) <==> TomlHeader(lines, j) {
      assert SameLine(lines, j);
    }
  }

  // ---- and what that means for the line it edits -----------------------------------------------------------

  lemma {:induction false} PlainSoFar(lines: seq<string>, j: nat, k: nat)
    requires j <= k <= |lines| && PlainMultis(Flat(lines[..k]))
    ensures PlainMultis(Flat(lines[..j]))
  {
    var all, part := Flat(lines[..k]), Flat(lines[..j]);
    FlatPrefix(lines[..k], j);
    assert lines[..k][..j] == lines[..j];
    forall i | 0 <= i < |part| ensures !Odd(part, i) {
      assert part[..i] == all[..i] && !Odd(all, i);
    }
  }

  /** A line that matches does not open a table. */
  lemma {:induction false} MatchesNoTable(content: string)
    requires FindVersion(content).Some?
    ensures !OpensTable(content)
  {
    var i := SkipSpace(content, 0);
    TrimmedStart(content, i);
  }

  lemma {:induction false} TrimmedStart(s: string, i: nat)
    requires i < |s| && s[i] == 's' && forall k :: 0 <= k < i ==> IsSpace(s[k])
    ensures TrimLeft(s) != "" && TrimLeft(s)[0] != '['
    decreases i
  {
    if i > 0 {
      TrimmedStart(s[1..], i - 1);
    }
  }

  /** What the reader takes for a header or a version line, the scanner does too. */
  lemma {:induction false} TopIsSeen(lines: seq<string>, j: nat, k: nat)
    requires j <= k < |lines| && PlainMultis(Flat(lines[..k]))
    ensures TomlHeader(lines, j) ==> Header(lines, j)
    ensures Header(lines, j) && DepthAt(lines, j) == 0 ==> TomlHeader(lines, j)
  {
    AgreeAtLine(lines, j, k);
  }

  /**
   * With only plain multi-line strings before it, the edited line is the document's own version line if and only if it
   * starts a statement, and no line before it is.
   */
  lemma {:induction false} PlainRewrites(raw: string, at: nat, out: string)
    requires Edited(Lines(raw), at, raw, out) && PlainMultis(Flat(Lines(raw)[..at]))
    ensures TomlHit(Lines(raw), at) <==> DepthAt(Lines(raw), at) == 0
    ensures NoTomlHit(Lines(raw), at)
  {
    var lines := Lines(raw);
    AgreeAtLine(lines, at, at);
    forall j | 0 <= j < at ensures !Header(lines, j) && !TomlHeader(lines, j) {
      TopIsSeen(lines, j, at);
    }
    forall k | 0 <= k < at ensures !TomlHit(lines, k) {
      AgreeAtLine(lines, k, at);
      assert !Hit(lines, k);
    }
  }

  /** Line `k` is the one the scanner settles on. */
  ghost predicate FirstHit(lines: seq<string>, k: nat)
    requires k < |lines|
  {
    Hit(lines, k) && NoHit(lines, k)
  }

  ghost predicate FirstTomlHit(lines: seq<string>, k: nat)
    requires k < |lines|
  {
    TomlHit(lines, k) && NoTomlHit(lines, k)
  }

  /** The scanner settles on the document's first own version line, or on none if there is none. */
  ghost predicate SettlesRight(lines: seq<string>) {
    forall k :: 0 <= k < |lines| ==> (FirstHit(lines, k) <==> FirstTomlHit(lines, k))
  }

  /** The line that decides: the first telling one that starts outside every string. */
  ghost predicate Decides(lines: seq<string>, m: nat) {
    && m < |lines| && !TomlAt(lines, m).InText() && Telling(lines[m])
    && forall j :: 0 <= j < m ==> TomlAt(lines, j).InText() || !Telling(lines[j])
  }

  /** The deciding line starts a statement, or it is a bracket and there was no version line to find. */
  ghost predicate DecidesWell(lines: seq<string>, m: nat)
    requires m < |lines|
  {
    DepthAt(lines, m) == 0 || (OpensTable(Content(lines[m])) && NoTomlHit(lines, |lines|))
  }

  lemma {:induction false} PlainDocument(raw: string)
    requires PlainMultis(raw)
    ensures var lines := Lines(raw);
            forall k :: 0 <= k < |lines| ==>
              PlainMultis(Flat(lines[..k])) && (TomlAt(lines, k).InText() <==> ModeAt(lines, k).Multi?)
  {
    var lines := Lines(raw);
    LinesOf(raw);
    assert lines[..|lines|] == lines;
    forall k | 0 <= k < |lines|
      ensures PlainMultis(Flat(lines[..k])) && (TomlAt(lines, k).InText() <==> ModeAt(lines, k).Multi?)
    {
      PlainSoFar(lines, k, |lines|);
      AgreeAtLine(lines, k, k);
    }
  }

  /** Before the deciding line nothing is held to be a header or a version line, by either. */
  lemma {:induction false} NothingBefore(raw: string, m: nat)
    requires PlainMultis(raw) && Decides(Lines(raw), m)
    ensures var lines := Lines(raw);
            && NoHit(lines, m) && NoTomlHit(lines, m)
            && forall j :: 0 <= j < m ==> !Header(lines, j) && !TomlHeader(lines, j)
  {
    PlainDocument(raw);
  }

  /** A matching line that decides is the scanner's, and the document's if it starts a statement. */
  lemma {:induction false} VersionDecides(raw: string, m: nat)
    requires PlainMultis(raw) && Decides(Lines(raw), m) && FindVersion(Content(Lines(raw)[m])).Some?
    ensures SettlesRight(Lines(raw)) <==> DepthAt(Lines(raw), m) == 0
  {
    var lines := Lines(raw);
    PlainDocument(raw);
    NothingBefore(raw, m);
    assert FirstHit(lines, m);
    if DepthAt(lines, m) == 0 {
      assert FirstTomlHit(lines, m);
    }
  }

  /** A bracket that decides leaves the scanner with nothing, and the reader too if it starts a statement. */
  lemma {:induction false} BracketDecides(raw: string, m: nat)
    requires PlainMultis(raw) && Decides(Lines(raw), m) && OpensTable(Content(Lines(raw)[m]))
    ensures NoHit(Lines(raw), |Lines(raw)|)
    ensures DepthAt(Lines(raw), m) == 0 ==> NoTomlHit(Lines(raw), |Lines(raw)|)
  {
    var lines := Lines(raw);
    PlainDocument(raw);
    NothingBefore(raw, m);
    assert Header(lines, m);
    if FindVersion(Content(lines[m])).Some? {
      MatchesNoTable(Content(lines[m]));
    }
    if DepthAt(lines, m) == 0 {
      assert TomlHeader(lines, m);
    }
  }

  /** Where there is a version line there is a first one. */
  lemma {:induction false} FirstOne(lines: seq<string>, n: nat) returns (k: nat)
    requires n <= |lines| && !NoTomlHit(lines, n)
    ensures k < n && FirstTomlHit(lines, k)
  {
    if NoTomlHit(lines, n - 1) {
      k := n - 1;
    } else {
      k := FirstOne(lines, n - 1);
    }
  }

  lemma {:induction false} NoneSettles(lines: seq<string>)
    requires NoHit(lines, |lines|)
    ensures SettlesRight(lines) <==> NoTomlHit(lines, |lines|)
  {
    if !NoTomlHit(lines, |lines|) {
      var k := FirstOne(lines, |lines|);
      assert !FirstHit(lines, k);
    }
  }

  lemma {:induction false} DecidesAlone(lines: seq<string>, m: nat, n: nat)
    requires Decides(lines, m) && Decides(lines, n)
    ensures m == n
  {
  }

  lemma {:induction false} OneDecides(lines: seq<string>, n: nat) returns (m: nat)
    requires n <= |lines| && exists k :: 0 <= k < n && !TomlAt(lines, k).InText() && Telling(lines[k])
    ensures m < n && Decides(lines, m)
  {
    if exists k :: 0 <= k < n - 1 && !TomlAt(lines, k).InText() && Telling(lines[k]) {
      m := OneDecides(lines, n - 1);
    } else {
      m := n - 1;
    }
  }

  /**
   * In a document with only plain multi-line strings, the scanner settles on the document's own version line, or on
   * none if there is none, if and only if the line that decides starts a statement, or is a bracket in a document that
   * has no version line.
   */
  lemma {:induction false} SettlesRightIff(raw: string)
    requires PlainMultis(raw)
    ensures SettlesRight(Lines(raw)) <==> forall m :: Decides(Lines(raw), m) ==> DecidesWell(Lines(raw), m)
  {
    var lines := Lines(raw);
    PlainDocument(raw);
    if exists k :: 0 <= k < |lines| && !TomlAt(lines, k).InText() && Telling(lines[k]) {
      var m := OneDecides(lines, |lines|);
      forall n | Decides(lines, n) ensures n == m {
        DecidesAlone(lines, m, n);
      }
      if OpensTable(Content(lines[m])) {
        BracketDecides(raw, m);
        NoneSettles(lines);
      } else {
        VersionDecides(raw, m);
      }
    }
  }

  /** With no stray line at all, it finds none exactly when the document has none. */
  lemma {:induction false} PlainFindsNone(raw: string)
    requires PlainMultis(raw) && forall k :: 0 <= k < |Lines(raw)| ==> !Stray(Lines(raw), k)
    ensures NoHit(Lines(raw), |Lines(raw)|) <==> NoTomlHit(Lines(raw), |Lines(raw)|)
  {
    var lines := Lines(raw);
    LinesOf(raw);
    assert lines[..|lines|] == lines;
    forall k | 0 <= k < |lines| ensures Hit(lines, k) <==> TomlHit(lines, k) {
      PlainSoFar(lines, k, |lines|);
      PlainHits(lines, k);
    }
  }
}
