/**
 * The paragraphs of a binary package's control file (hwe-gencontrol.py): parsing
 * and serializing, and the update of Depends and Replaces. The syntax is that
 * of section 5.1 of the Debian Policy Manual; newline separates lines.
 */
module ControlText {
  import opened Common
  import opened Text

  datatype Field = Field(name: string, value: string)

  datatype Result<+T> = Ok(value: T) | Err

  // --------------------------------------------------------------------------
  // The meaning of a paragraph

  /** str.splitlines */
  function SplitLines(text: string): seq<string> {
    var parts := Split(text, '\n');
    if parts[|parts| - 1] == "" then parts[..|parts| - 1] else parts
  }

  /** A line that continues a field, or is skipped. */
  predicate Continues(line: string) { Blank(line) || IsSpace(line[0]) }

  function Cons(f: Field, r: Result<seq<Field>>): Result<seq<Field>> {
    match r
    case Ok(fields) => Ok([f] + fields)
    case Err => Err
  }

  predicate HasColon(line: string) { Until(line, ':') < |line| }

  /** What stands before and after the first colon. */
  function NameIn(line: string): string { Strip(line[..Until(line, ':')]) }

  function ValueIn(line: string): string
    requires HasColon(line)
  {
    LStrip(line[Until(line, ':') + 1..])
  }

  /** A paragraph is a sequence of fields, each with the lines that continue it. */
  function Paragraph(lines: seq<string>): Result<seq<Field>>
    decreases |lines|, 0
  {
    if lines == [] then Ok([])
    else if Blank(lines[0]) then Paragraph(lines[1..])
    else if IsSpace(lines[0][0]) then Err
    else if !HasColon(lines[0]) then Err
    else FieldFrom(NameIn(lines[0]), [ValueIn(lines[0])], lines[1..])
  }

  /** A field whose value begins with these lines, and the fields after it. */
  function FieldFrom(name: string, value: seq<string>, lines: seq<string>): Result<seq<Field>>
    decreases |lines|, 1
  {
    if lines == [] || !Continues(lines[0]) then Cons(Field(name, Join(value, "\n")), Paragraph(lines))
    else FieldFrom(name, if Blank(lines[0]) then value else value + [lines[0]], lines[1..])
  }

  function Parse(text: string): Result<seq<Field>> { Paragraph(SplitLines(text)) }

  // --------------------------------------------------------------------------
  // What this meaning says of every list of lines

  /** The lines that are not blank, in their order. */
  function NonBlank(lines: seq<string>): seq<string> {
    if lines == [] then [] else (if Blank(lines[0]) then [] else [lines[0]]) + NonBlank(lines[1..])
  }

  lemma {:induction false} BlanksAreSkipped(blanks: seq<string>, rest: seq<string>)
    requires forall l :: l in blanks ==> Blank(l)
    ensures Paragraph(blanks + rest) == Paragraph(rest)
  {
    if blanks == [] {
      assert blanks + rest == rest;
    } else {
      assert (blanks + rest)[0] == blanks[0] && (blanks + rest)[1..] == blanks[1..] + rest;
      BlanksAreSkipped(blanks[1..], rest);
    }
  }

  lemma {:induction false} ContinuationsAreRead(name: string, value: seq<string>, more: seq<string>, rest: seq<string>)
    requires (forall l :: l in more ==> Continues(l)) && (rest == [] || !Continues(rest[0]))
    ensures FieldFrom(name, value, more + rest)
         == Cons(Field(name, Join(value + NonBlank(more), "\n")), Paragraph(rest))
    decreases |more|
  {
    if more == [] {
      assert more + rest == rest && value + NonBlank(more) == value;
    } else {
      assert (more + rest)[0] == more[0] && (more + rest)[1..] == more[1..] + rest;
      assert Continues(more[0]);
      var value' := if Blank(more[0]) then value else value + [more[0]];
      assert value' + NonBlank(more[1..]) == value + NonBlank(more);
      ContinuationsAreRead(name, value', more[1..], rest);
    }
  }

  /**
   * Blank lines in front are skipped. Then comes the header of a field: an
   * indented line, or one without a colon, is an error. The value of the field
   * is what follows the colon and, line by line, what continues it.
   */
  lemma FirstFieldIsRead(blanks: seq<string>, header: string, more: seq<string>, rest: seq<string>, n: nat)
    requires (forall l :: l in blanks ==> Blank(l)) && !Blank(header)
    requires (forall l :: l in more ==> Blank(l) || IsSpace(l[0]))
    requires rest == [] || (!Blank(rest[0]) && !IsSpace(rest[0][0]))
    requires n <= |header| && ':' !in header[..n] && (n < |header| ==> header[n] == ':')
    ensures Paragraph(blanks) == Ok([])
    ensures Paragraph(blanks + [header] + more + rest) ==
              if IsSpace(header[0]) || n == |header| then Err
              else
                var value := Join([LStrip(header[n + 1..])] + NonBlank(more), "\n");
                Cons(Field(Strip(header[..n]), value), Paragraph(rest))
  {
    BlanksAreSkipped(blanks, []);
    assert blanks + [] == blanks;
    var lines := [header] + (more + rest);
    assert blanks + [header] + more + rest == blanks + lines;
    BlanksAreSkipped(blanks, lines);
    UntilIs(header, ':', n);
    assert lines[0] == header && lines[1..] == more + rest;
    if !IsSpace(header[0]) && n < |header| {
      ContinuationsAreRead(NameIn(header), [ValueIn(header)], more, rest);
    }
  }

  /** The lines of a text hold no newline, and make up the text again, but for a last newline. */
  lemma LinesOfText(text: string)
    ensures forall l :: l in SplitLines(text) ==> '\n' !in l
    ensures var lines := SplitLines(text);
            if text == "" then lines == []
            else if text[|text| - 1] == '\n' then text == Join(lines + [""], "\n")
            else lines != [] && text == Join(lines, "\n")
  {
    var parts := Split(text, '\n');
    JoinSplit(text, '\n');
    var init, last := parts[..|parts| - 1], parts[|parts| - 1];
    assert parts == init + [last];
    if init != [] { JoinLast(init, last, "\n"); }
    if text != "" {
      if last == "" {
        assert init + [""] == parts;
      } else {
        assert text[|text| - 1] == last[|last| - 1];
        assert last[|last| - 1] in last;
      }
    }
  }

  lemma {:induction false} JoinLast(parts: seq<string>, last: string, sep: string)
    requires parts != []
    ensures Join(parts + [last], sep) == Join(parts, sep) + sep + last
  {
    if |parts| > 1 {
      assert (parts + [last])[1..] == parts[1..] + [last] && (parts + [last])[0] == parts[0];
      JoinLast(parts[1..], last, sep);
    } else {
      assert (parts + [last])[1..] == [last];
    }
  }

  // --------------------------------------------------------------------------
  // parse_control_paragraph

  /** What the loop will return, given what it has got so far. */
  function Resume(fields: seq<Field>, current: Option<string>, value: seq<string>, lines: seq<string>):
    Result<seq<Field>>
  {
    var rest := if current.None? then Paragraph(lines) else FieldFrom(current.value, value, lines);
    match rest
    case Ok(more) => Ok(fields + more)
    case Err => Err
  }

  lemma ResumeField(fields: seq<Field>, name: string, value: seq<string>, lines: seq<string>)
    requires lines == [] || !Continues(lines[0])
    ensures Resume(fields, Some(name), value, lines)
         == Resume(fields + [Field(name, Join(value, "\n"))], None, [], lines)
  {
    if Paragraph(lines).Ok? {
      var f, more := Field(name, Join(value, "\n")), Paragraph(lines).value;
      assert fields + ([f] + more) == fields + [f] + more;
    }
  }

  lemma ResumeContinues(fields: seq<Field>, current: Option<string>, value: seq<string>, lines: seq<string>)
    requires lines != [] && Continues(lines[0])
    ensures Resume(fields, current, value, lines) ==
              if Blank(lines[0]) then Resume(fields, current, value, lines[1..])
              else if current.None? then Err
              else Resume(fields, current, value + [lines[0]], lines[1..])
  {
  }

  lemma ResumeHeader(fields: seq<Field>, lines: seq<string>)
    requires lines != [] && !Continues(lines[0])
    ensures Resume(fields, None, [], lines) ==
              if HasColon(lines[0]) then Resume(fields, Some(NameIn(lines[0])), [ValueIn(lines[0])], lines[1..])
              else Err
  {
  }

  method ParseControlParagraph(text: string) returns (r: Result<seq<Field>>)
    ensures r == Parse(text)
  {
    var lines := SplitLines(text);
    var fields: seq<Field> := [];
    var current: Option<string> := None;
    var value: seq<string> := [];
    ghost var result := Parse(text);
    assert result.Ok? ==> [] + result.value == result.value;
    while lines != []
      invariant Resume(fields, current, value, lines) == result
      decreases |lines|
    {
      var line, rest := lines[0], lines[1..];
      var text := Strip(line);
      ghost var _, _ := StripTrims(line);
      if text == "" || IsSpace(line[0]) {
        ResumeContinues(fields, current, value, lines);
        if text != "" {
          if current.None? { return Err; }
          value := value + [line];
        }
      } else {
        if current.Some? {
          ResumeField(fields, current.value, value, lines);
          fields := fields + [Field(current.value, Join(value, "\n"))];
        }
        ResumeHeader(fields, lines);
        if !HasColon(line) { return Err; }
        current, value := Some(NameIn(line)), [ValueIn(line)];
      }
      lines := rest;
    }
    if current.Some? {
      ResumeField(fields, current.value, value, []);
      fields := fields + [Field(current.value, Join(value, "\n"))];
    }
    assert fields + [] == fields;
    return Ok(fields);
  }

  // --------------------------------------------------------------------------
  // serialize_paragraph

  function FieldText(f: Field): string { f.name + ": " + f.value }

  function FieldTexts(fields: seq<Field>): seq<string> {
    if fields == [] then [] else [FieldText(fields[0])] + FieldTexts(fields[1..])
  }

  function Serialize(fields: seq<Field>): string { Join(FieldTexts(fields), "\n") + "\n" }

  /** The name fits before a colon; every further line of the value is indented, and none is blank. */
  predicate NameOk(name: string) { Trim(name) && ':' !in name && '\n' !in name }

  predicate Indented(line: string) { !Blank(line) && IsSpace(line[0]) }

  predicate LinesOk(lines: seq<string>) {
    lines != [] && (lines[0] == "" || !IsSpace(lines[0][0])) && forall i :: 1 <= i < |lines| ==> Indented(lines[i])
  }

  predicate FieldOk(f: Field) { NameOk(f.name) && LinesOk(Split(f.value, '\n')) }

  predicate AllFieldsOk(fields: seq<Field>) { forall f :: f in fields ==> FieldOk(f) }

  /** The lines that a field is written as. */
  function FieldLines(f: Field): seq<string> {
    var value := Split(f.value, '\n');
    [f.name + ": " + value[0]] + value[1..]
  }

  function AllLines(fields: seq<Field>): seq<string> {
    if fields == [] then [] else FieldLines(fields[0]) + AllLines(fields[1..])
  }

  lemma FieldTextLines(f: Field)
    requires NameOk(f.name)
    ensures Split(FieldText(f), '\n') == FieldLines(f)
  {
    SplitPrefix(f.name + ": ", f.value, '\n');
  }

  lemma {:induction false} SerializedLines(fields: seq<Field>)
    requires fields != [] && forall f :: f in fields ==> NameOk(f.name)
    ensures Split(Join(FieldTexts(fields), "\n"), '\n') == AllLines(fields)
  {
    FieldTextLines(fields[0]);
    if |fields| == 1 {
      assert FieldTexts(fields) == [FieldText(fields[0])];
      assert AllLines(fields) == FieldLines(fields[0]) + [];
    } else {
      var rest := Join(FieldTexts(fields[1..]), "\n");
      assert FieldTexts(fields)[1..] == FieldTexts(fields[1..]);
      SplitConcat(FieldText(fields[0]), '\n', rest);
      SerializedLines(fields[1..]);
    }
  }

  /** Reading a serialized text gives back the lines of the fields. */
  lemma LinesOfSerialized(fields: seq<Field>)
    requires fields != [] && forall f :: f in fields ==> NameOk(f.name)
    ensures SplitLines(Serialize(fields)) == AllLines(fields)
  {
    var text := Join(FieldTexts(fields), "\n");
    assert text + "\n" == text + ['\n'] + "";
    SplitConcat(text, '\n', "");
    SplitNone("", '\n');
    SerializedLines(fields);
  }

  lemma ColonIsFound(name: string, tail: string)
    requires NameOk(name)
    ensures var line := name + [':'] + tail; Until(line, ':') == |name| && !Continues(line)
  {
    var line := name + [':'] + tail;
    assert line[..|name|] == name && line[|name|] == ':';
    UntilIs(line, ':', |name|);
  }

  lemma OneSpaceIsStripped(first: string)
    requires first == "" || !IsSpace(first[0])
    ensures LStrip([' '] + first) == first
  {
    assert ([' '] + first)[1..] == first;
  }

  lemma HeaderShape(name: string, first: string, line: string)
    requires line == name + ": " + first
    ensures line == name + [':'] + ([' '] + first) && |name| < |line|
    ensures line[..|name|] == name && line[|name| + 1..] == [' '] + first
  {
  }

  lemma HeaderIsRead(name: string, first: string, line: string)
    requires NameOk(name) && (first == "" || !IsSpace(first[0])) && line == name + ": " + first
    ensures !Continues(line) && HasColon(line) && NameIn(line) == name && ValueIn(line) == first
  {
    HeaderShape(name, first, line);
    ColonIsFound(name, [' '] + first);
    var _, _ := StripTrims(name);
    OneSpaceIsStripped(first);
  }

  lemma ParagraphHeader(lines: seq<string>)
    requires lines != [] && !Continues(lines[0]) && HasColon(lines[0])
    ensures Paragraph(lines) == FieldFrom(NameIn(lines[0]), [ValueIn(lines[0])], lines[1..])
  {
  }

  lemma {:induction false} ContinuationIsRead(name: string, value: seq<string>, more: seq<string>, rest: seq<string>)
    requires (forall l :: l in more ==> Indented(l)) && (rest == [] || !Continues(rest[0]))
    ensures FieldFrom(name, value, more + rest) == Cons(Field(name, Join(value + more, "\n")), Paragraph(rest))
    decreases |more|
  {
    if more == [] {
      assert more + rest == rest && value + more == value;
    } else {
      assert Indented(more[0]);
      assert (more + rest)[0] == more[0] && (more + rest)[1..] == more[1..] + rest;
      assert value + [more[0]] + more[1..] == value + more;
      ContinuationIsRead(name, value + [more[0]], more[1..], rest);
    }
  }

  lemma FieldLinesShape(f: Field, rest: seq<string>)
    ensures var value, lines := Split(f.value, '\n'), FieldLines(f) + rest;
            && lines != [] && lines[0] == FieldLines(f)[0] == f.name + ": " + value[0]
            && lines[1..] == value[1..] + rest && [value[0]] + value[1..] == value
  {
  }

  lemma FieldIsRead(f: Field, rest: seq<string>)
    requires FieldOk(f) && (rest == [] || !Continues(rest[0]))
    ensures Paragraph(FieldLines(f) + rest) == Cons(f, Paragraph(rest))
    ensures !Continues(FieldLines(f)[0])
  {
    var value := Split(f.value, '\n');
    var more := value[1..];
    FieldLinesShape(f, rest);
    HeaderIsRead(f.name, value[0], FieldLines(f)[0]);
    ParagraphHeader(FieldLines(f) + rest);
    ContinuationIsRead(f.name, [value[0]], more, rest);
    JoinSplit(f.value, '\n');
  }

  lemma {:induction false} FieldsAreRead(fields: seq<Field>)
    requires AllFieldsOk(fields)
    ensures Paragraph(AllLines(fields)) == Ok(fields)
    ensures fields != [] ==> AllLines(fields) != [] && !Continues(AllLines(fields)[0])
  {
    if fields != [] {
      FieldsAreRead(fields[1..]);
      FieldIsRead(fields[0], AllLines(fields[1..]));
      assert [fields[0]] + fields[1..] == fields;
    }
  }

  lemma RoundTrip(fields: seq<Field>)
    requires AllFieldsOk(fields)
    ensures Parse(Serialize(fields)) == Ok(fields)
  {
    FieldsAreRead(fields);
    if fields == [] {
      assert Serialize([]) == [] + ['\n'] + [];
      SplitConcat("", '\n', "");
      SplitNone("", '\n');
      assert SplitLines("\n") == [""];
    } else {
      LinesOfSerialized(fields);
    }
  }

  predicate OneLine(line: string) { '\n' !in line }

  lemma HeaderOk(line: string)
    requires HasColon(line) && OneLine(line)
    ensures NameOk(NameIn(line)) && OneLine(ValueIn(line)) && LinesOk([ValueIn(line)])
  {
    var before := line[..Until(line, ':')];
    var a, b := StripTrims(before);
    forall c | c in before[a..b]
      ensures c in before
    {
    }
    assert forall c :: c in before ==> c in line;
    var after := line[Until(line, ':') + 1..];
    var k := LStripIs(after);
    assert forall c :: c in after[k..] ==> c in after;
    assert forall c :: c in after ==> c in line;
  }

  lemma {:induction false} ParagraphOk(lines: seq<string>)
    requires (forall l :: l in lines ==> OneLine(l)) && Paragraph(lines).Ok?
    ensures AllFieldsOk(Paragraph(lines).value)
    decreases |lines|, 0
  {
    if lines != [] {
      if Blank(lines[0]) {
        ParagraphOk(lines[1..]);
      } else {
        assert OneLine(lines[0]);
        HeaderOk(lines[0]);
        FieldFromOk(NameIn(lines[0]), [ValueIn(lines[0])], lines[1..]);
      }
    }
  }

  lemma {:induction false} FieldFromOk(name: string, value: seq<string>, lines: seq<string>)
    requires (forall l :: l in lines ==> OneLine(l)) && FieldFrom(name, value, lines).Ok?
    requires NameOk(name) && LinesOk(value) && forall l :: l in value ==> OneLine(l)
    ensures AllFieldsOk(FieldFrom(name, value, lines).value)
    decreases |lines|, 1
  {
    if lines == [] || !Continues(lines[0]) {
      SplitJoin(value, '\n');
      ParagraphOk(lines);
    } else {
      FieldFromOk(name, if Blank(lines[0]) then value else value + [lines[0]], lines[1..]);
    }
  }

  /** Whatever is read can be written and read again. */
  lemma ParsedIsOk(text: string)
    requires Parse(text).Ok?
    ensures AllFieldsOk(Parse(text).value)
  {
    ParagraphOk(SplitLines(text));
  }

  /** The lists of fields that survive being written and read are exactly the well-formed ones. */
  lemma RoundTripIff(fields: seq<Field>)
    ensures Parse(Serialize(fields)) == Ok(fields) <==> AllFieldsOk(fields)
  {
    if AllFieldsOk(fields) { RoundTrip(fields); }
    if Parse(Serialize(fields)) == Ok(fields) { ParsedIsOk(Serialize(fields)); }
  }
}
