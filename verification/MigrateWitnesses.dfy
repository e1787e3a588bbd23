/** Three documents the schema-version rewriter misreads: in each it edits a line that is not the document's version. */
module MigrateWitnesses {
  import opened Common
  import opened Text
  import opened Migrate
  import opened MigrateLimits

  const QUOTE := "\""

  /** Text without a quote, a comment, an escape or a line end. */
  predicate IsBare(s: string) {
    forall c :: c in s ==> c != '"' && c != '\'' && c != '#' && c != '\\' && c != '\n'
  }

  function OverBare(mode: Mode): Mode {
    match mode
    case Quote1(q) => if q == '"' then Basic else Literal
    case Quote2(_) => Normal
    case Escaped => Basic
    case Multi(q, _) => Multi(q, 0)
    case _ => mode
  }

  function TomlOverBare(t: Toml): Toml {
    match t
    case Outside(mode) => Outside(OverBare(mode))
    case Inside(q, run) => if run >= 3 then Outside(Normal) else Inside(q, 0)
    case Backslash => Inside('"', 0)
  }

  /** One more character, to both readers. */
  lemma {:induction false} OverChar(done: string, s: string)
    requires |s| == 1
    ensures Run(Normal, done + s) == Step(Run(Normal, done), s[0]) && TomlRun(done + s) == TomlRun(done).Next(s[0])
    ensures Depth(done + s) == Depth(done) + if TomlRun(done).AtLarge() then Turn(s[0]) else 0
  {
    assert (done + s)[..|done|] == done;
  }

  lemma {:induction false} BareParts(s: string, n: nat)
    requires IsBare(s) && n <= |s|
    ensures IsBare(s[..n]) && IsBare(s[n..])
  {
    assert forall c :: c in s[..n] || c in s[n..] ==> c in s;
  }

  /** A text is its first part and then its last character. */
  lemma LastChar(done: string, s: string)
    requires s != ""
    ensures done + s == done + s[..|s| - 1] + s[|s| - 1..] && |s[|s| - 1..]| == 1 && s[|s| - 1..][0] == s[|s| - 1]
  {
  }

  /** A bare character, to both readers. */
  lemma {:induction false} OverBareChar(mode: Mode, t: Toml, c: char)
    requires c != '"' && c != '\'' && c != '#' && c != '\\' && c != '\n' && RealQuotes(mode) && Sound(t)
    ensures Step(mode, c) == OverBare(mode) == Step(OverBare(mode), c) && RealQuotes(OverBare(mode))
    ensures t.Next(c) == TomlOverBare(t) == TomlOverBare(t).Next(c) && Sound(TomlOverBare(t))
  {
  }

  /** A stretch of bare text, to both readers. */
  lemma {:induction false} OverBareText(done: string, s: string)
    requires s != "" && IsBare(s) && RealQuotes(Run(Normal, done)) && Sound(TomlRun(done))
    ensures Run(Normal, done + s) == OverBare(Run(Normal, done)) && TomlRun(done + s) == TomlOverBare(TomlRun(done))
  {
    var n := |s| - 1;
    BareParts(s, n);
    LastChar(done, s);
    assert s[n] in s;
    OverBareChar(Run(Normal, done), TomlRun(done), s[n]);
    OverChar(done + s[..n], s[n..]);
    if n == 0 {
      assert done + s[..0] == done;
    } else {
      OverBareText(done, s[..n]);
    }
  }

  /** Where both readers are after any stretch of bare text, empty or not. */
  lemma {:induction false} OverSome(done: string, s: string)
    requires IsBare(s) && RealQuotes(Run(Normal, done)) && Sound(TomlRun(done))
    ensures TomlRun(done + s) == if s == "" then TomlRun(done) else TomlOverBare(TomlRun(done))
    ensures RealQuotes(Run(Normal, done + s)) && Sound(TomlRun(done + s))
  {
    if s == "" {
      assert done + s == done;
    } else {
      OverBareText(done, s);
      OverBareChar(Run(Normal, done), TomlRun(done), 'x');
    }
  }

  /** How many more brackets a text opens than it closes. */
  function Balance(s: string): int {
    if s == "" then 0 else Balance(s[..|s| - 1]) + Turn(s[|s| - 1])
  }

  /** Bare text outside every string nests as deep as its brackets say. */
  lemma {:induction false} DepthOverBare(done: string, s: string)
    requires IsBare(s) && TomlRun(done) == Outside(Normal) && RealQuotes(Run(Normal, done))
    ensures Depth(done + s) == Depth(done) + Balance(s)
  {
    if s == "" {
      assert done + s == done;
    } else {
      var n := |s| - 1;
      BareParts(s, n);
      LastChar(done, s);
      DepthOverBare(done, s[..n]);
      OverSome(done, s[..n]);
      OverChar(done + s[..n], s[n..]);
    }
  }

  /** In a string it nests no deeper. */
  lemma {:induction false} DepthInString(done: string, s: string)
    requires IsBare(s) && RealQuotes(Run(Normal, done))
    requires TomlRun(done) == Outside(Quote1('"')) || TomlRun(done) == Inside('"', 0)
    ensures Depth(done + s) == Depth(done)
  {
    if s == "" {
      assert done + s == done;
    } else {
      var n := |s| - 1;
      BareParts(s, n);
      LastChar(done, s);
      DepthInString(done, s[..n]);
      OverSome(done, s[..n]);
      OverChar(done + s[..n], s[n..]);
    }
  }

  /** To a reader of TOML the text has no multi-line string. */
  ghost predicate NoMulti(text: string) {
    forall i :: 0 <= i <= |text| ==> TomlRun(text[..i]).Outside?
  }

  lemma {:induction false} NoMultiIsPlain(text: string)
    requires NoMulti(text)
    ensures PlainMultis(text)
  {
    forall i | 0 <= i < |text| ensures !Odd(text, i) {
      assert TomlRun(text[..i]).Outside?;
    }
  }

  lemma {:induction false} NoMultiNext(done: string, s: string)
    requires NoMulti(done) && |s| == 1 && TomlRun(done + s).Outside?
    ensures NoMulti(done + s)
  {
    forall i | 0 <= i <= |done + s| ensures TomlRun((done + s)[..i]).Outside? {
      if i <= |done| {
        assert (done + s)[..i] == done[..i];
      } else {
        assert (done + s)[..i] == done + s;
      }
    }
  }

  /** Only a quote can begin a string. */
  lemma {:induction false} StaysOutside(t: Toml, c: char)
    requires t.Outside? && !(t.mode.Quote2? && c == t.mode.q)
    ensures !t.mode.Multi? ==> t.Next(c).Outside?
  {
  }

  lemma {:induction false} NoMultiChar(done: string, s: string)
    requires NoMulti(done) && |s| == 1 && IsBare(s) && Sound(TomlRun(done))
    ensures NoMulti(done + s)
  {
    assert s[0] in s && done[..|done|] == done && TomlRun(done[..|done|]).Outside?;
    OverChar(done, s);
    StaysOutside(TomlRun(done), s[0]);
    NoMultiNext(done, s);
  }

  lemma {:induction false} NoMultiOverBare(done: string, s: string)
    requires NoMulti(done) && IsBare(s) && RealQuotes(Run(Normal, done)) && Sound(TomlRun(done))
    ensures NoMulti(done + s)
  {
    if s == "" {
      assert done + s == done;
    } else {
      var n := |s| - 1;
      BareParts(s, n);
      LastChar(done, s);
      NoMultiOverBare(done, s[..n]);
      OverSome(done, s[..n]);
      NoMultiChar(done + s[..n], s[n..]);
    }
  }

  /** A quoted piece of bare text, to a reader who is outside. */
  lemma {:induction false} QuotedText(done: string, s: string)
    requires s != "" && IsBare(s) && Run(Normal, done) == Normal && TomlRun(done) == Outside(Normal)
    ensures Run(Normal, done + QUOTE + s + QUOTE) == Normal && TomlRun(done + QUOTE + s + QUOTE) == Outside(Normal)
    ensures Depth(done + QUOTE + s + QUOTE) == Depth(done)
    ensures NoMulti(done) ==> NoMulti(done + QUOTE + s + QUOTE)
  {
    if NoMulti(done) {
      QuotedIsNoMulti(done, s);
    }
    OverChar(done, QUOTE);
    OverBareText(done + QUOTE, s);
    DepthInString(done + QUOTE, s);
    OverChar(done + QUOTE + s, QUOTE);
  }

  lemma {:induction false} QuotedIsNoMulti(done: string, s: string)
    requires s != "" && IsBare(s) && Run(Normal, done) == Normal && TomlRun(done) == Outside(Normal) && NoMulti(done)
    ensures NoMulti(done + QUOTE + s + QUOTE)
  {
    OverChar(done, QUOTE);
    NoMultiNext(done, QUOTE);
    OverBareText(done + QUOTE, s);
    NoMultiOverBare(done + QUOTE, s);
    OverChar(done + QUOTE + s, QUOTE);
    NoMultiNext(done + QUOTE + s, QUOTE);
  }

  lemma {:induction false} BareThenQuoted(done: string, bare: string, s: string) returns (next: string)
    requires bare != "" && IsBare(bare) && s != "" && IsBare(s) && Run(Normal, done) == Normal
               && TomlRun(done) == Outside(Normal)
    ensures next == done + bare + QUOTE + s + QUOTE && Run(Normal, next) == Normal && TomlRun(next) == Outside(Normal)
    ensures Depth(next) == Depth(done) + Balance(bare) && (NoMulti(done) ==> NoMulti(next))
  {
    next := done + bare + QUOTE + s + QUOTE;
    if NoMulti(done) {
      NoMultiOverBare(done, bare);
    }
    OverBareText(done, bare);
    DepthOverBare(done, bare);
    QuotedText(done + bare, s);
  }

  /** The words a rule is written with. */
  datatype Words = Words(id: string, when: string, field: string, op: string, test: string, run: string, action: string,
                         say: string) {

    predicate Bare() {
      && id != "" && when != "" && field != "" && op != "" && test != "" && run != "" && action != "" && say != ""
      && IsBare(id) && IsBare(when) && IsBare(field) && IsBare(op) && IsBare(test) && IsBare(run) && IsBare(action)
         && IsBare(say)
    }

    /** How many more brackets the rule opens than it closes. */
    function Opened(): int {
      Balance(when) + Balance(op) + Balance(run) + Balance(say)
    }

    /** A rule in a rules file, behind `start`, up to the value of its `say`. */
    function After(start: string): string {
      start + QUOTE + id + QUOTE + when + QUOTE + field + QUOTE + op + QUOTE + test + QUOTE + run + QUOTE + action +
        QUOTE + say
    }
  }

  /** A rule's text leaves both readers outside. */
  lemma {:induction false} RuleText(start: string, w: Words)
    requires w.Bare() && Run(Normal, start) == Normal && TomlRun(start) == Outside(Normal)
    ensures Run(Normal, w.After(start)) == Normal && TomlRun(w.After(start)) == Outside(Normal)
    ensures Depth(w.After(start)) == Depth(start) + w.Opened()
    ensures NoMulti(start) ==> NoMulti(w.After(start))
  {
    QuotedText(start, w.id);
    var done := start + QUOTE + w.id + QUOTE;
    done := BareThenQuoted(done, w.when, w.field);
    done := BareThenQuoted(done, w.op, w.test);
    done := BareThenQuoted(done, w.run, w.action);
    OverBareText(done, w.say);
    DepthOverBare(done, w.say);
    if NoMulti(start) {
      NoMultiOverBare(done, w.say);
    }
  }

  /**
   * To a scanner that takes the first quote for a closing one, what stands between a rule's strings is quoted
   * instead.
   */
  lemma {:induction false} RuleTextInside(start: string, w: Words)
    requires w.Bare() && Run(Normal, start) == Basic && TomlRun(start) == Outside(Normal)
    ensures Run(Normal, w.After(start)) == Basic && TomlRun(w.After(start)) == Outside(Normal)
    ensures Depth(w.After(start)) == Depth(start) + w.Opened()
  {
    var done := start;
    done := QuoteBareQuote(done, w.id, w.when);
    done := QuoteBareQuote(done, w.field, w.op);
    done := QuoteBareQuote(done, w.test, w.run);
    done := QuoteBareQuote(done, w.action, w.say);
  }

  lemma {:induction false} QuoteBareQuote(done: string, bare: string, s: string) returns (next: string)
    requires bare != "" && IsBare(bare) && s != "" && IsBare(s) && Run(Normal, done) == Basic
               && TomlRun(done) == Outside(Normal)
    ensures next == done + QUOTE + bare + QUOTE + s && Run(Normal, next) == Basic && TomlRun(next) == Outside(Normal)
    ensures Depth(next) == Depth(done) + Balance(s)
  {
    next := done + QUOTE + bare + QUOTE + s;
    OverChar(done, QUOTE);
    OverBareText(done + QUOTE, bare);
    DepthInString(done + QUOTE, bare);
    OverChar(done + QUOTE + bare, QUOTE);
    OverBareText(done + QUOTE + bare + QUOTE, s);
    DepthOverBare(done + QUOTE + bare + QUOTE, s);
  }

  const NOD := Words("r", ", when={field=", "pat", ",op=", "is_true", "}, run=", "nod", ", say=")
  const START := "react = [{id="
  const NEXT := "}, {id="
  const PARAMS := ", params={"
  const VERSION := "schema_version = 1"
  const VERSION_LINE := VERSION + "\n"

  lemma BareWhen()
    ensures IsBare(NOD.when)
  {
  }

  lemma BareField()
    ensures IsBare(NOD.id) && IsBare(NOD.field) && IsBare(NOD.op)
  {
  }

  lemma BareTest()
    ensures IsBare(NOD.test) && IsBare(NOD.run)
  {
  }

  lemma BareAction()
    ensures IsBare(NOD.action) && IsBare(NOD.say) && IsBare(PARAMS)
  {
  }

  lemma BareRule()
    ensures NOD.Bare() && NOD.(id := "s").Bare() && NOD.(say := PARAMS).Bare()
  {
    BareWhen();
    BareField();
    BareTest();
    BareAction();
  }

  lemma BareStart()
    ensures IsBare(START) && IsBare(NEXT) && IsBare("s") && IsBare("a")
  {
  }

  lemma {:induction false} BalanceConcat(a: string, b: string)
    ensures Balance(a + b) == Balance(a) + Balance(b)
  {
    if b == "" {
      assert a + b == a;
    } else {
      var n := |b| - 1;
      BalanceConcat(a, b[..n]);
      assert (a + b)[..|a| + n] == a + b[..n];
    }
  }

  lemma {:induction false} Bracketless(s: string)
    requires forall c :: c in s ==> Turn(c) == 0
    ensures Balance(s) == 0
  {
    if s != "" {
      Bracketless(s[..|s| - 1]);
    }
  }

  /** One bracket among other characters. */
  lemma {:induction false} OneBracket(a: string, c: string, b: string)
    requires |c| == 1 && forall x :: x in a || x in b ==> Turn(x) == 0
    ensures Balance(a + c + b) == Turn(c[0])
  {
    BalanceConcat(a + c, b);
    BalanceConcat(a, c);
    Bracketless(a);
    Bracketless(b);
    assert c[..0] == "" && Balance(c) == Turn(c[0]);
  }

  lemma OpenedByWhen()
    ensures Balance(NOD.when) == 1
  {
    OneBracket(", when=", "{", "field=");
    assert NOD.when == ", when=" + "{" + "field=";
  }

  lemma OpenedByRest()
    ensures Balance(NOD.op) == 0 && Balance(NOD.run) == -1 && Balance(NOD.say) == 0
  {
    Bracketless(NOD.op);
    OneBracket("", "}", ", run=");
    assert NOD.run == "" + "}" + ", run=";
    Bracketless(NOD.say);
  }

  lemma OpenedByParams()
    ensures Balance(PARAMS) == 1
  {
    OneBracket(", params=", "{", "");
    assert PARAMS == ", params=" + "{" + "";
  }

  lemma OpenedByStart()
    ensures Balance(START) == 2 && Balance(NEXT) == 0
  {
    OneBracket("react = ", "[", "");
    OneBracket("", "{", "id=");
    BalanceConcat("react = " + "[" + "", "" + "{" + "id=");
    assert START == ("react = " + "[" + "") + ("" + "{" + "id=");
    OneBracket("", "}", ", ");
    BalanceConcat("" + "}" + ", ", "" + "{" + "id=");
    assert NEXT == ("" + "}" + ", ") + ("" + "{" + "id=");
  }

  lemma Opened()
    ensures NOD.Opened() == 0 && NOD.(id := "s").Opened() == 0 && NOD.(say := PARAMS).Opened() == 1
  {
    OpenedByWhen();
    OpenedByRest();
    OpenedByParams();
  }

  /** Behind the start of the rules, both readers are outside, and a list and a table are open. */
  lemma AtStart()
    ensures Run(Normal, START) == Normal && TomlRun(START) == Outside(Normal) && Depth(START) == 2
    ensures NoMulti(START)
  {
    BareStart();
    OpenedByStart();
    OverBareText("", START);
    DepthOverBare("", START);
    NoMultiOverBare("", START);
    assert "" + START == START;
  }

  lemma AfterNod()
    ensures Run(Normal, NOD.After(START)) == Normal && TomlRun(NOD.After(START)) == Outside(Normal)
    ensures Depth(NOD.After(START)) == 2
  {
    AtStart();
    BareRule();
    Opened();
    RuleText(START, NOD);
  }

  lemma {:induction false} OneLine(start: string, w: Words)
    requires w.Bare() && '\n' !in start && start != ""
    ensures '\n' !in w.After(start) && w.After(start) != "" && w.After(start)[0] == start[0]
  {
  }

  lemma {:induction false} OneLineEnds(s: string)
    requires '\n' !in s
    ensures Content(s + "\n") == s
  {
    assert (s + "\n")[..|s|] == s;
  }

  lemma VersionLineMatches()
    ensures Content(VERSION_LINE) == VERSION == Content(VERSION) && FindVersion(VERSION) == Some(17) && IsBare(VERSION)
  {
    var parts := Parts("", " ", " ", "", "");
    assert Cuts(VERSION, parts, 17);
    Found(VERSION, parts, 17);
    VersionIsBare();
  }

  lemma VersionIsBare()
    ensures IsBare(VERSION) && Balance(VERSION) == 0
  {
    Bracketless(VERSION);
  }

  /** A rules file: a line that leaves something open, a version line, one that closes it, and its own version. */
  function Document(first: string, closing: string): seq<string> {
    [first, VERSION_LINE, closing, VERSION]
  }

  /** The text has these lines; the scanner settles on one that starts no statement, and the version line is another. */
  ghost predicate Misread(lines: seq<string>)
    requires |lines| == 4
  {
    && Lines(Flat(lines)) == lines
    && FirstHit(lines, 1) && !AtTop(lines, 1)
    && FirstTomlHit(lines, 3)
  }

  /** Behind this text a statement starts. */
  predicate Top(text: string) {
    !TomlRun(text).InText() && Depth(text) == 0
  }

  /** A line that says nothing to the scanner. */
  predicate Quiet(line: string) {
    line == Content(line) + "\n" && '\n' !in Content(line) && !Telling(line)
  }

  lemma {:induction false} StartsQuiet(line: string)
    requires |line| > 1 && (line[0] == 'r' || line[0] == '"' || line[0] == '}') && line[|line| - 1] == '\n'
    requires '\n' !in line[..|line| - 1]
    ensures Quiet(line)
  {
    var content := Content(line);
    assert content[0] == line[0] && TrimLeft(content) == content;
    assert SkipSpace(content, 0) == 0 && !OccursAt(content, KEY, 0);
    assert line == content + "\n";
  }

  lemma {:induction false} DocumentPrefixes(first: string, closing: string)
    ensures var lines := Document(first, closing);
            && Flat(lines[..0]) == "" && Flat(lines[..1]) == first && Flat(lines[..2]) == first + VERSION_LINE
            && Flat(lines[..3]) == first + VERSION_LINE + closing
  {
    var lines := Document(first, closing);
    assert lines[..0] == [] && lines[..1] == [first];
    FlatOne(first);
    FlatStep(lines, 1);
    FlatStep(lines, 2);
  }

  lemma {:induction false} DocumentLines(first: string, closing: string)
    requires Quiet(first) && Quiet(closing)
    ensures Lines(Flat(Document(first, closing))) == Document(first, closing)
  {
    VersionLineMatches();
    LinesBack(Document(first, closing));
  }

  /** A first line that leaves the scanner outside, and the document in the midst of something, is all it takes. */
  lemma {:induction false} MisreadDocument(first: string, closing: string)
    requires Quiet(first) && Quiet(closing) && Run(Normal, first) == Normal
    requires !Top(first) && !Top(first + VERSION_LINE) && Top(first + VERSION_LINE + closing)
    ensures Misread(Document(first, closing))
  {
    DocumentLines(first, closing);
    SecondLineHit(first, closing);
    FourthLineOwn(first, closing);
    DocumentPrefixes(first, closing);
  }

  lemma {:induction false} SecondLineHit(first: string, closing: string)
    requires Quiet(first) && Run(Normal, first) == Normal
    ensures FirstHit(Document(first, closing), 1)
  {
    DocumentPrefixes(first, closing);
    VersionLineMatches();
  }

  lemma {:induction false} FourthLineOwn(first: string, closing: string)
    requires Quiet(first) && !Top(first) && !Top(first + VERSION_LINE) && Top(first + VERSION_LINE + closing)
    ensures FirstTomlHit(Document(first, closing), 3)
  {
    var lines := Document(first, closing);
    DocumentPrefixes(first, closing);
    VersionLineMatches();
    assert !Telling(lines[0]) && !AtTop(lines, 1) && !AtTop(lines, 2);
    NeitherThere(lines, 0);
    NeitherThere(lines, 1);
    NeitherThere(lines, 2);
    assert AtTop(lines, 3) && FindVersion(Content(lines[3])).Some?;
    ThreeBefore(lines);
  }

  lemma {:induction false} NeitherThere(lines: seq<string>, k: nat)
    requires k < |lines| && (!Telling(lines[k]) || !AtTop(lines, k))
    ensures !TomlHeader(lines, k) && !TomlHit(lines, k)
  {
  }

  lemma {:induction false} ThreeBefore(lines: seq<string>)
    requires |lines| == 4 && AtTop(lines, 3) && FindVersion(Content(lines[3])).Some?
    requires !TomlHeader(lines, 0) && !TomlHeader(lines, 1) && !TomlHeader(lines, 2)
    requires !TomlHit(lines, 0) && !TomlHit(lines, 1) && !TomlHit(lines, 2)
    ensures FirstTomlHit(lines, 3)
  {
    forall k | 0 <= k < 3 ensures !TomlHeader(lines, k) && !TomlHit(lines, k) {
      assert k == 0 || k == 1 || k == 2;
    }
  }

  // ---- an escaped quote ------------------------------------------------------------------------------------

  const CLOSING_LINE := "\"\"\"}]\n"

  /** To a reader of TOML, the string begun on the first line runs through the version line and ends on the next. */
  lemma {:induction false} StringRunsOn(first: string)
    requires Run(Normal, first) == Normal && TomlRun(first) == Inside('"', 0) && Depth(first) == 2
    ensures TomlRun(first + VERSION_LINE) == Inside('"', 0)
    ensures Top(first + VERSION_LINE + CLOSING_LINE)
  {
    VersionIsBare();
    OverBareText(first, VERSION);
    DepthInString(first, VERSION);
    OverChar(first + VERSION, "\n");
    ConcatAssociates(first, VERSION, "\n");
    ClosingLineCloses(first + VERSION_LINE);
  }

  lemma {:induction false} ClosingLineCloses(done: string)
    requires TomlRun(done) == Inside('"', 0) && Depth(done) == 2
    ensures Top(done + CLOSING_LINE)
  {
    MoreQuotes(done);
    var closed := done + QUOTE + QUOTE + QUOTE;
    OverChar(closed, "}");
    BracketCloses(closed + "}");
    assert closed + "}" + "]" + "\n" == done + CLOSING_LINE;
  }

  lemma {:induction false} MoreQuotes(done: string)
    requires TomlRun(done) == Inside('"', 0)
    ensures var end := done + QUOTE + QUOTE + QUOTE; TomlRun(end) == Inside('"', 3) && Depth(end) == Depth(done)
  {
    OverChar(done, QUOTE);
    OverChar(done + QUOTE, QUOTE);
    OverChar(done + QUOTE + QUOTE, QUOTE);
  }

  /** The last bracket, and the end of the line. */
  lemma {:induction false} BracketCloses(done: string)
    requires TomlRun(done) == Outside(Normal) && Depth(done) == 1
    ensures Top(done + "]" + "\n")
  {
    OverChar(done, "]");
    OverChar(done + "]", "\n");
  }

  lemma {:induction false} MisreadString(first: string)
    requires Quiet(first) && Run(Normal, first) == Normal && TomlRun(first) == Inside('"', 0) && Depth(first) == 2
    ensures Misread(Document(first, CLOSING_LINE)) && TomlAt(Document(first, CLOSING_LINE), 1).InText()
  {
    StringRunsOn(first);
    StartsQuiet(CLOSING_LINE);
    MisreadDocument(first, CLOSING_LINE);
    DocumentPrefixes(first, CLOSING_LINE);
  }

  lemma {:induction false} RuleIsQuiet(start: string, w: Words, end: string)
    requires w.Bare() && '\n' !in start && start != "" && start[0] == 'r' && '\n' !in end
    ensures Quiet(w.After(start) + end + "\n")
  {
    OneLine(start, w);
    OneLineEnds(w.After(start) + end);
    StartsQuiet(w.After(start) + end + "\n");
  }

  /** The first line of a rule whose `say` begins with an escaped quote. */
  const ESCAPED := QUOTE + QUOTE + QUOTE + "\\" + QUOTE + QUOTE + QUOTE
  const ESCAPED_LINE := NOD.After(START) + ESCAPED + "\n"

  /** After an escaped quote the scanner can take a line within a string for the document's version, and edit it. */
  lemma EscapedQuoteMisleads()
    ensures Misread(Document(ESCAPED_LINE, CLOSING_LINE)) && TomlAt(Document(ESCAPED_LINE, CLOSING_LINE), 1).InText()
  {
    AfterNod();
    EscapedQuote(NOD.After(START));
    BareRule();
    BareStart();
    RuleIsQuiet(START, NOD, ESCAPED);
    MisreadString(ESCAPED_LINE);
  }

  lemma {:induction false} EscapedQuote(done: string)
    requires Run(Normal, done) == Normal && TomlRun(done) == Outside(Normal)
    ensures var end := done + ESCAPED + "\n";
            Run(Normal, end) == Normal && TomlRun(end) == Inside('"', 0) && Depth(end) == Depth(done)
  {
    ThreeQuotesOpen(done);
    var text := done + QUOTE + QUOTE + QUOTE;
    OverChar(text, "\\");
    QuotesAfterBackslash(text + "\\");
    EscapedText(done);
  }

  lemma EscapedText(done: string)
    ensures done + ESCAPED == done + QUOTE + QUOTE + QUOTE + "\\" + QUOTE + QUOTE + QUOTE
  {
  }

  lemma {:induction false} QuotesAfterBackslash(done: string)
    requires Run(Normal, done) == Multi('"', 0) && TomlRun(done) == Backslash
    ensures var end := done + QUOTE + QUOTE + QUOTE + "\n";
            Run(Normal, end) == Normal && TomlRun(end) == Inside('"', 0) && Depth(end) == Depth(done)
  {
    OverChar(done, QUOTE);
    OverChar(done + QUOTE, QUOTE);
    OverChar(done + QUOTE + QUOTE, QUOTE);
    OverChar(done + QUOTE + QUOTE + QUOTE, "\n");
  }

  // ---- four quotes -----------------------------------------------------------------------------------------

  /** A string that ends with four quotes, and then a second rule with a multi-line string. */
  const FOUR_QUOTES := NOD.After(START) + QUOTE + QUOTE + QUOTE + "a" + QUOTE + QUOTE + QUOTE + QUOTE + NEXT
  const OPENING := QUOTE + QUOTE + QUOTE
  const FOUR_QUOTES_LINE := NOD.(id := "s").After(FOUR_QUOTES) + OPENING + "\n"

  /** Without any backslash, a string that ends with four quotes does the same. */
  lemma FourQuotesMislead()
    ensures Misread(Document(FOUR_QUOTES_LINE, CLOSING_LINE))
    ensures TomlAt(Document(FOUR_QUOTES_LINE, CLOSING_LINE), 1).InText()
  {
    AfterNod();
    FourQuotes(NOD.After(START));
    BareRule();
    Opened();
    RuleTextInside(FOUR_QUOTES, NOD.(id := "s"));
    LastQuotes(NOD.(id := "s").After(FOUR_QUOTES));
    FourQuotesOneLine();
    RuleIsQuiet(FOUR_QUOTES, NOD.(id := "s"), OPENING);
    MisreadString(FOUR_QUOTES_LINE);
  }

  lemma FourQuotesOneLine()
    ensures '\n' !in FOUR_QUOTES && FOUR_QUOTES != "" && FOUR_QUOTES[0] == 'r'
  {
    BareRule();
    BareStart();
    OneLine(START, NOD);
  }

  lemma {:induction false} FourQuotes(done: string)
    requires Run(Normal, done) == Normal && TomlRun(done) == Outside(Normal)
    ensures var end := done + QUOTE + QUOTE + QUOTE + "a" + QUOTE + QUOTE + QUOTE + QUOTE + NEXT;
            Run(Normal, end) == Basic && TomlRun(end) == Outside(Normal) && Depth(end) == Depth(done)
  {
    ThreeQuotesOpen(done);
    OverChar(done + QUOTE + QUOTE + QUOTE, "a");
    FourQuotesClose(done + QUOTE + QUOTE + QUOTE + "a");
    SecondRule(done + QUOTE + QUOTE + QUOTE + "a" + QUOTE + QUOTE + QUOTE + QUOTE);
  }

  lemma {:induction false} SecondRule(done: string)
    requires Run(Normal, done) == Quote1('"') && TomlRun(done) == Inside('"', 4)
    ensures Run(Normal, done + NEXT) == Basic && TomlRun(done + NEXT) == Outside(Normal)
    ensures Depth(done + NEXT) == Depth(done)
  {
    BareStart();
    OverBareText(done, NEXT);
    OverChar(done, "}");
    OneBracket(", ", "{", "id=");
    assert ", " + "{" + "id=" == ", {id=" && NEXT == "}" + ", {id=";
    NextGoesOn(done + "}");
    ConcatAssociates(done, "}", ", {id=");
  }

  lemma {:induction false} NextGoesOn(done: string)
    requires Run(Normal, done) == Basic && TomlRun(done) == Outside(Normal)
    ensures Depth(done + ", {id=") == Depth(done) + 1
  {
    OneBracket(", ", "{", "id=");
    assert ", " + "{" + "id=" == ", {id=";
    DepthOverBare(done, ", {id=");
  }

  /** Three quotes outside any string open a multi-line one, to the scanner and to a reader. */
  lemma {:induction false} ThreeQuotesOpen(done: string)
    requires Run(Normal, done) == Normal && TomlRun(done) == Outside(Normal)
    ensures var open := done + QUOTE + QUOTE + QUOTE;
            Run(Normal, open) == Multi('"', 0) && TomlRun(open) == Inside('"', 0) && Depth(open) == Depth(done)
  {
    OverChar(done, QUOTE);
    OverChar(done + QUOTE, QUOTE);
    OverChar(done + QUOTE + QUOTE, QUOTE);
  }

  /**
   * Four quotes may close it for a reader; the scanner closes it on the third, and takes the fourth for an
   * opening one.
   */
  lemma {:induction false} FourQuotesClose(done: string)
    requires Run(Normal, done) == Multi('"', 0) && TomlRun(done) == Inside('"', 0)
    ensures var closed := done + QUOTE + QUOTE + QUOTE + QUOTE;
            Run(Normal, closed) == Quote1('"') && TomlRun(closed) == Inside('"', 4) && Depth(closed) == Depth(done)
  {
    OverChar(done, QUOTE);
    OverChar(done + QUOTE, QUOTE);
    OverChar(done + QUOTE + QUOTE, QUOTE);
    OverChar(done + QUOTE + QUOTE + QUOTE, QUOTE);
  }

  lemma {:induction false} LastQuotes(done: string)
    requires Run(Normal, done) == Basic && TomlRun(done) == Outside(Normal)
    ensures var end := done + OPENING + "\n";
            Run(Normal, end) == Normal && TomlRun(end) == Inside('"', 0) && Depth(end) == Depth(done)
  {
    OverChar(done, QUOTE);
    OverChar(done + QUOTE, QUOTE);
    OverChar(done + QUOTE + QUOTE, QUOTE);
    OverChar(done + QUOTE + QUOTE + QUOTE, "\n");
    assert done + OPENING == done + QUOTE + QUOTE + QUOTE;
  }

  // ---- an inline table over several lines ------------------------------------------------------------------

  const TABLES_CLOSE := "}}]\n"
  const PARAMS_RULE := NOD.(say := PARAMS).After(START)
  const PARAMS_LINE := PARAMS_RULE + "" + "\n"

  /** Behind a rule that ends with an open table, three brackets are open. */
  lemma AfterParams()
    ensures Run(Normal, PARAMS_LINE) == Normal && TomlRun(PARAMS_LINE) == Outside(Normal) && Depth(PARAMS_LINE) == 3
    ensures NoMulti(PARAMS_LINE) && Quiet(PARAMS_LINE)
  {
    AtStart();
    BareRule();
    BareStart();
    Opened();
    RuleText(START, NOD.(say := PARAMS));
    assert PARAMS_RULE + "" == PARAMS_RULE;
    OverChar(PARAMS_RULE, "\n");
    NoMultiNext(PARAMS_RULE, "\n");
    RuleIsQuiet(START, NOD.(say := PARAMS), "");
  }

  /** A version line among the parameters changes nothing. */
  lemma {:induction false} VersionWithin(done: string)
    requires Run(Normal, done) == Normal && TomlRun(done) == Outside(Normal) && NoMulti(done)
    ensures TomlRun(done + VERSION_LINE) == Outside(Normal) && Depth(done + VERSION_LINE) == Depth(done)
    ensures NoMulti(done + VERSION_LINE)
  {
    VersionIsBare();
    OverBareText(done, VERSION);
    DepthOverBare(done, VERSION);
    NoMultiOverBare(done, VERSION);
    OverChar(done + VERSION, "\n");
    NoMultiNext(done + VERSION, "\n");
    ConcatAssociates(done, VERSION, "\n");
  }

  lemma {:induction false} TablesClose(done: string)
    requires TomlRun(done) == Outside(Normal) && Depth(done) == 3 && NoMulti(done)
    ensures Top(done + TABLES_CLOSE) && NoMulti(done + TABLES_CLOSE) && TomlRun(done + TABLES_CLOSE) == Outside(Normal)
  {
    OverChar(done, "}");
    NoMultiNext(done, "}");
    OverChar(done + "}", "}");
    NoMultiNext(done + "}", "}");
    BracketEnds(done + "}" + "}");
    assert done + "}" + "}" + "]" + "\n" == done + TABLES_CLOSE;
  }

  lemma {:induction false} BracketEnds(done: string)
    requires TomlRun(done) == Outside(Normal) && Depth(done) == 1 && NoMulti(done)
    ensures Top(done + "]" + "\n") && NoMulti(done + "]" + "\n") && TomlRun(done + "]" + "\n") == Outside(Normal)
  {
    BracketCloses(done);
    OverChar(done, "]");
    NoMultiNext(done, "]");
    OverChar(done + "]", "\n");
    NoMultiNext(done + "]", "\n");
  }

  /** With no multi-line string and no backslash, a rule's parameter is taken for the document's version, and edited. */
  lemma InlineTableMisleads()
    ensures var lines := Document(PARAMS_LINE, TABLES_CLOSE);
            Misread(lines) && Stray(lines, 1) && PlainMultis(Flat(lines))
  {
    AfterParams();
    VersionWithin(PARAMS_LINE);
    TablesClose(PARAMS_LINE + VERSION_LINE);
    StartsQuiet(TABLES_CLOSE);
    MisreadDocument(PARAMS_LINE, TABLES_CLOSE);
    DocumentPrefixes(PARAMS_LINE, TABLES_CLOSE);
    VersionLineMatches();
    WholeIsPlain(PARAMS_LINE, TABLES_CLOSE);
  }

  lemma {:induction false} WholeIsPlain(first: string, closing: string)
    requires NoMulti(first + VERSION_LINE + closing)
    requires TomlRun(first + VERSION_LINE + closing) == Outside(Normal)
    ensures PlainMultis(Flat(Document(first, closing)))
  {
    var lines, text := Document(first, closing), first + VERSION_LINE + closing;
    DocumentPrefixes(first, closing);
    FlatStep(lines, 3);
    assert lines[..4] == lines;
    VersionIsBare();
    RunKeepsQuotes(Normal, text);
    NoMultiOverBare(text, VERSION);
    NoMultiIsPlain(text + VERSION);
  }
}
