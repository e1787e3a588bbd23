/** The sensory log's one-line records: printing them, and reading back what was printed. */
module SenseLog {
  import opened Common
  import opened Text

  const PREFIX := "[SENSE stage="
  const SOURCE_MARK := " source="
  const EVENT_MARK := " event="
  const CLOSE_MARK := "] "
  const DROP_PREFIX := "dropped reason="

  // ---- printing --------------------------------------------------------------------------------------------

  predicate IsControl(c: char) {
    c < ' ' || c == 0x7f as char
  }

  predicate NoControl(s: string) {
    forall c :: c in s ==> !IsControl(c)
  }

  function SanitizedChar(c: char): char {
    if c == ' ' || c == ']' then '_' else c
  }

  function MappedChar(c: char): char {
    if IsControl(c) then '_' else c
  }

  /** A keyed field: spaces and closing brackets would break the grammar. */
  function Sanitize(s: string): (r: string)
    ensures |r| == |s| && ' ' !in r && ']' !in r
    ensures forall i :: 0 <= i < |s| ==> r[i] == SanitizedChar(s[i])
  {
    seq(|s|, i requires 0 <= i < |s| => SanitizedChar(s[i]))
  }

  /** Free text: only what would end the record early is replaced. */
  function SanitizeDetail(s: string): (r: string)
    ensures |r| == |s| && NoControl(r)
    ensures forall i :: 0 <= i < |s| ==> r[i] == MappedChar(s[i])
  {
    seq(|s|, i requires 0 <= i < |s| => MappedChar(s[i]))
  }

  /** One record. */
  function Record(stage: string, source: string, event: string, detail: string): string {
    PREFIX + Sanitize(stage) + SOURCE_MARK + Sanitize(source) + EVENT_MARK + Sanitize(event) + CLOSE_MARK +
      SanitizeDetail(detail) + "\n"
  }

  function DropDetail(reason: string, detail: string): string {
    DROP_PREFIX + Sanitize(reason) + if detail != "" then " " + detail else ""
  }

  class Logger {
    var written: string

    constructor ()
      ensures written == ""
    {
      written := "";
    }

    method Write(stage: string, source: string, event: string, detail: string)
      modifies this
      ensures written == old(written) + Record(stage, source, event, detail)
    {
      written := written + Record(stage, source, event, detail);
    }

    method Stage(stage: string, source: string, event: string, detail: string)
      modifies this
      ensures written == old(written) + Record(stage, source, event, detail)
    {
      Write(stage, source, event, detail);
    }

    method Drop(stage: string, source: string, event: string, reason: string, detail: string)
      modifies this
      ensures written == old(written) + Record(stage, source, event, DropDetail(reason, detail))
    {
      var msg := DROP_PREFIX + Sanitize(reason);
      if detail != "" {
        msg := msg + " " + detail;
        ConcatAssociates(DROP_PREFIX + Sanitize(reason), " ", detail);
      }
      Write(stage, source, event, msg);
    }
  }

  // ---- reading ---------------------------------------------------------------------------------------------

  datatype Line = Line(stage: string, source: string, event: string, dropped: bool, reason: string, detail: string)

  datatype ParseError = ControlCharacter | NoPrefix | NoSource | NoEvent | NoClose | EmptyField

  function TrimNewlines(s: string): string {
    if s != "" && s[|s| - 1] == '\n' then TrimNewlines(s[..|s| - 1]) else s
  }

  function StartsWith(s: string, prefix: string): bool {
    |prefix| <= |s| && s[..|prefix|] == prefix
  }

  function Parse(text: string): Result<Line, ParseError> {
    var line := TrimNewlines(text);
    if !NoControl(line) then Err(ControlCharacter)
    else if !StartsWith(line, PREFIX) then Err(NoPrefix)
    else ParseMarks(line[|PREFIX|..])
  }

  /** What stands behind the prefix: three keyed fields, and the detail. */
  function ParseMarks(rest: string): Result<Line, ParseError> {
    var sourceIdx := IndexOf(rest, SOURCE_MARK);
    if sourceIdx < 0 then Err(NoSource)
    else
      var afterStage := rest[sourceIdx + |SOURCE_MARK|..];
      var eventIdx := IndexOf(afterStage, EVENT_MARK);
      if eventIdx < 0 then Err(NoEvent)
      else
        var afterSource := afterStage[eventIdx + |EVENT_MARK|..];
        var closeIdx := IndexOf(afterSource, CLOSE_MARK);
        if closeIdx < 0 then Err(NoClose)
        else ParseFields(rest[..sourceIdx], afterStage[..eventIdx], afterSource[..closeIdx],
                         afterSource[closeIdx + |CLOSE_MARK|..])
  }

  function ParseFields(stage: string, source: string, event: string, detail: string): Result<Line, ParseError> {
    if stage == "" || source == "" || event == "" then Err(EmptyField)
    else if StartsWith(detail, DROP_PREFIX) then
      var remainder := detail[|DROP_PREFIX|..];
      var spaceIdx := IndexOf(remainder, " ");
      if spaceIdx >= 0 then Ok(Line(stage, source, event, true, remainder[..spaceIdx], remainder[spaceIdx + 1..]))
      else Ok(Line(stage, source, event, true, remainder, ""))
    else Ok(Line(stage, source, event, false, "", detail))
  }

  // ---- what is printed is read back ------------------------------------------------------------------------

  lemma SanitizeKeepsControl(s: string)
    ensures NoControl(Sanitize(s)) <==> NoControl(s)
  {
    var r := Sanitize(s);
    forall c | c in s && IsControl(c) ensures c in r {
      var i :| 0 <= i < |s| && s[i] == c;
      assert r[i] == c;
    }
    forall c | c in r && IsControl(c) ensures c in s {
      var i :| 0 <= i < |r| && r[i] == c;
      assert s[i] == c;
    }
  }

  lemma NoControlConcat(a: string, b: string)
    ensures NoControl(a + b) <==> NoControl(a) && NoControl(b)
  {
    assert forall c :: c in a + b <==> c in a || c in b;
  }

  lemma MarkedNoControl(a: string, mark: string, b: string)
    requires NoControl(a) && NoControl(mark) && NoControl(b)
    ensures NoControl(a + mark + b)
  {
    NoControlConcat(a + mark, b);
    NoControlConcat(a, mark);
  }

  lemma TrimOne(s: string)
    requires s == "" || s[|s| - 1] != '\n'
    ensures TrimNewlines(s + "\n") == s
  {
    assert (s + "\n")[..|s|] == s;
  }

  /** The three keyed fields and the detail are found where they were put. */
  lemma MarksFound(stage: string, source: string, event: string, detail: string)
    requires ' ' !in stage && ' ' !in source && ']' !in event
    ensures ParseMarks(stage + SOURCE_MARK + (source + EVENT_MARK + (event + CLOSE_MARK + detail)))
              == ParseFields(stage, source, event, detail)
  {
    FirstMark(stage, SOURCE_MARK, source + EVENT_MARK + (event + CLOSE_MARK + detail));
    FirstMark(source, EVENT_MARK, event + CLOSE_MARK + detail);
    FirstMark(event, CLOSE_MARK, detail);
  }

  /** A record without its newline, part by part. */
  lemma RecordParts(stage: string, source: string, event: string, detail: string)
    ensures PREFIX + stage + SOURCE_MARK + source + EVENT_MARK + event + CLOSE_MARK + detail
            == PREFIX + (stage + SOURCE_MARK + (source + EVENT_MARK + (event + CLOSE_MARK + detail)))
  {
  }

  /** It holds no control character if its fields hold none. */
  lemma RecordClean(stage: string, source: string, event: string, detail: string)
    requires NoControl(stage) && NoControl(source) && NoControl(event) && NoControl(detail)
    ensures NoControl(PREFIX + (stage + SOURCE_MARK + (source + EVENT_MARK + (event + CLOSE_MARK + detail))))
  {
    MarkedNoControl(event, CLOSE_MARK, detail);
    MarkedNoControl(source, EVENT_MARK, event + CLOSE_MARK + detail);
    MarkedNoControl(stage, SOURCE_MARK, source + EVENT_MARK + (event + CLOSE_MARK + detail));
    NoControlConcat(PREFIX, stage + SOURCE_MARK + (source + EVENT_MARK + (event + CLOSE_MARK + detail)));
  }

  /** A clean line behind the prefix is parsed mark by mark. */
  lemma ParsesClean(rest: string)
    requires NoControl(PREFIX + rest)
    ensures Parse(PREFIX + rest + "\n") == ParseMarks(rest)
  {
    var line := PREFIX + rest;
    assert line[|line| - 1] in line;
    TrimOne(line);
    assert line[..|PREFIX|] == PREFIX && line[|PREFIX|..] == rest;
  }

  lemma FieldsFound(stage: string, source: string, event: string, detail: string)
    requires ' ' !in stage && ' ' !in source && ']' !in event
    requires NoControl(stage) && NoControl(source) && NoControl(event) && NoControl(detail)
    ensures Parse(PREFIX + stage + SOURCE_MARK + source + EVENT_MARK + event + CLOSE_MARK + detail + "\n")
              == ParseFields(stage, source, event, detail)
  {
    RecordParts(stage, source, event, detail);
    RecordClean(stage, source, event, detail);
    ParsesClean(stage + SOURCE_MARK + (source + EVENT_MARK + (event + CLOSE_MARK + detail)));
    MarksFound(stage, source, event, detail);
  }

  /** A record reads back exactly when its keyed fields are non-empty and free of control characters. */
  lemma RecordReadsBack(stage: string, source: string, event: string, detail: string)
    ensures Parse(Record(stage, source, event, detail)).Ok? <==>
              && stage != "" && source != "" && event != ""
              && NoControl(stage) && NoControl(source) && NoControl(event)
    ensures NoControl(stage) && NoControl(source) && NoControl(event) ==>
              Parse(Record(stage, source, event, detail))
                == ParseFields(Sanitize(stage), Sanitize(source), Sanitize(event), SanitizeDetail(detail))
  {
    SanitizeKeepsControl(stage);
    SanitizeKeepsControl(source);
    SanitizeKeepsControl(event);
    if NoControl(stage) && NoControl(source) && NoControl(event) {
      FieldsFound(Sanitize(stage), Sanitize(source), Sanitize(event), SanitizeDetail(detail));
    } else {
      ControlRefused(Sanitize(stage), Sanitize(source), Sanitize(event), SanitizeDetail(detail));
    }
  }

  /** A control character in a keyed field survives printing, and the reader refuses it. */
  lemma ControlRefused(stage: string, source: string, event: string, detail: string)
    requires NoControl(detail) && !(NoControl(stage) && NoControl(source) && NoControl(event))
    ensures Parse(PREFIX + stage + SOURCE_MARK + source + EVENT_MARK + event + CLOSE_MARK + detail + "\n").Err?
  {
    var head := PREFIX + stage + SOURCE_MARK + source + EVENT_MARK + event;
    var line := head + CLOSE_MARK + detail;
    NoControlConcat(PREFIX, stage);
    NoControlConcat(PREFIX + stage, SOURCE_MARK);
    NoControlConcat(PREFIX + stage + SOURCE_MARK, source);
    NoControlConcat(PREFIX + stage + SOURCE_MARK + source, EVENT_MARK);
    NoControlConcat(PREFIX + stage + SOURCE_MARK + source + EVENT_MARK, event);
    NoControlConcat(head, CLOSE_MARK);
    NoControlConcat(head + CLOSE_MARK, detail);
    assert line[|line| - 1] == if detail != "" then detail[|detail| - 1] else ' ';
    assert detail != "" ==> detail[|detail| - 1] in detail;
    TrimOne(line);
  }

  /** An ordinary record gives back its sanitized fields, unless its detail reads like a drop. */
  lemma StageReadsBack(stage: string, source: string, event: string, detail: string)
    requires stage != "" && source != "" && event != ""
    requires NoControl(stage) && NoControl(source) && NoControl(event)
    ensures Parse(Record(stage, source, event, detail))
              == Ok(Line(Sanitize(stage), Sanitize(source), Sanitize(event), false, "", SanitizeDetail(detail)))
            <==> !StartsWith(SanitizeDetail(detail), DROP_PREFIX)
  {
    RecordReadsBack(stage, source, event, detail);
  }

  lemma MapConcat(a: string, b: string)
    ensures SanitizeDetail(a + b) == SanitizeDetail(a) + SanitizeDetail(b)
  {
  }

  lemma MapClean(s: string)
    requires NoControl(s)
    ensures SanitizeDetail(s) == s
  {
  }

  lemma DropMapped(reason: string, detail: string)
    ensures SanitizeDetail(DropDetail(reason, detail)) ==
              DROP_PREFIX + SanitizeDetail(Sanitize(reason)) + if detail != "" then " " + SanitizeDetail(detail) else ""
  {
    DropMappedBy(DROP_PREFIX, Sanitize(reason), detail);
  }

  lemma DropMappedBy(mark: string, because: string, detail: string)
    requires NoControl(mark)
    ensures SanitizeDetail(mark + because + if detail != "" then " " + detail else "") ==
              mark + SanitizeDetail(because) + if detail != "" then " " + SanitizeDetail(detail) else ""
  {
    MapClean(mark);
    MapConcat(mark, because);
    MapConcat(mark + because, if detail != "" then " " + detail else "");
    if detail != "" {
      MapConcat(" ", detail);
      MapClean(" ");
    }
  }

  /** The reader's split of a drop's detail at its first space. */
  lemma DropFields(stage: string, source: string, event: string, said: string, detail: string)
    requires stage != "" && source != "" && event != "" && ' ' !in said
    ensures ParseFields(stage, source, event, DROP_PREFIX + said + if detail != "" then " " + detail else "")
              == Ok(Line(stage, source, event, true, said, detail))
  {
    var tail := if detail != "" then " " + detail else "";
    var printed := DROP_PREFIX + said + tail;
    assert printed == DROP_PREFIX + (said + tail);
    assert printed[..|DROP_PREFIX|] == DROP_PREFIX && printed[|DROP_PREFIX|..] == said + tail;
    if detail != "" {
      FirstMark(said, " ", detail);
      assert said + tail == said + " " + detail;
    } else {
      NoMark(said, " ");
      assert said + tail == said;
    }
  }

  /** A drop gives back its sanitized reason and its control-mapped detail, exactly. */
  lemma DropReadsBack(stage: string, source: string, event: string, reason: string, detail: string)
    requires stage != "" && source != "" && event != ""
    requires NoControl(stage) && NoControl(source) && NoControl(event)
    ensures Parse(Record(stage, source, event, DropDetail(reason, detail)))
              == Ok(Line(Sanitize(stage), Sanitize(source), Sanitize(event), true,
                         SanitizeDetail(Sanitize(reason)), SanitizeDetail(detail)))
  {
    RecordReadsBack(stage, source, event, DropDetail(reason, detail));
    DropMapped(reason, detail);
    DropFields(Sanitize(stage), Sanitize(source), Sanitize(event), SanitizeDetail(Sanitize(reason)),
               SanitizeDetail(detail));
  }

  /** A record whose keyed fields hold no newline is one line: its only newline is its last character. */
  lemma OneNewline(stage: string, source: string, event: string, detail: string, i: nat)
    requires '\n' !in stage && '\n' !in source && '\n' !in event
    requires i < |Record(stage, source, event, detail)|
    ensures Record(stage, source, event, detail)[i] == '\n' <==> i == |Record(stage, source, event, detail)| - 1
  {
    var a, b, c, d := Sanitize(stage), Sanitize(source), Sanitize(event), SanitizeDetail(detail);
    assert '\n' !in a && '\n' !in b && '\n' !in c && '\n' !in d;
    var line := PREFIX + a + SOURCE_MARK + b + EVENT_MARK + c + CLOSE_MARK + d;
    assert '\n' !in line;
    assert Record(stage, source, event, detail) == line + "\n";
  }

  /** What would break a keyed field: a space, or a closing bracket. */
  predicate Fits(s: string) {
    ' ' !in s && ']' !in s
  }

  /** Free text without anything below the space, and without the delete character. */
  predicate Printable(s: string) {
    forall c :: c in s ==> ' ' <= c && c != 0x7f as char
  }

  /** Only what would break the grammar is replaced, by an underscore, and nothing else is touched. */
  lemma OnlyBreakersReplaced(s: string)
    ensures (Sanitize(s) == s <==> Fits(s)) && (SanitizeDetail(s) == s <==> Printable(s))
    ensures Fits(Sanitize(s)) && Printable(SanitizeDetail(s))
    ensures forall i :: 0 <= i < |s| ==>
              (Sanitize(s)[i] != s[i] ==> Sanitize(s)[i] == '_' && (s[i] == ' ' || s[i] == ']'))
              && (SanitizeDetail(s)[i] != s[i] ==> SanitizeDetail(s)[i] == '_')
  {
    if Fits(s) {
      forall i | 0 <= i < |s| ensures Sanitize(s)[i] == s[i] {
        assert s[i] in s;
      }
    }
    if Printable(s) {
      forall i | 0 <= i < |s| ensures SanitizeDetail(s)[i] == s[i] {
        assert s[i] in s;
      }
    }
    if Sanitize(s) == s {
      assert ' ' !in Sanitize(s) && ']' !in Sanitize(s);
    }
  }

  /** So a record whose fields break nothing gives back exactly what was logged. */
  lemma CleanRecordReadsBack(stage: string, source: string, event: string, detail: string)
    requires stage != "" && source != "" && event != ""
    requires Fits(stage) && Fits(source) && Fits(event)
    requires Printable(stage) && Printable(source) && Printable(event) && Printable(detail)
    requires !StartsWith(detail, DROP_PREFIX)
    ensures Parse(Record(stage, source, event, detail)) == Ok(Line(stage, source, event, false, "", detail))
  {
    OnlyBreakersReplaced(stage);
    OnlyBreakersReplaced(source);
    OnlyBreakersReplaced(event);
    OnlyBreakersReplaced(detail);
    StageReadsBack(stage, source, event, detail);
  }
}
