/** Scene files as text and as sections: the parser, and the two serializers of the repository. */
module TscnTexts {
  import opened Texts

  datatype Section = Section(header: string, lines: seq<string>)
  datatype Ast = Ast(preamble: seq<string>, sections: seq<Section>)

  predicate IsHeader(line: string) {
    line != "" && line[0] == '['
  }

  /** Every CRLF replaced by LF, from the left. */
  function UnixLines(s: string): string {
    if s == "" then ""
    else if |s| >= 2 && s[0] == '\r' && s[1] == '\n' then "\n" + UnixLines(s[2..])
    else [s[0]] + UnixLines(s[1..])
  }

  /** Adds a final newline where there is none. */
  function Closed(s: string): string {
    if s != "" && s[|s| - 1] == '\n' then s else s + "\n"
  }

  function JoinLines(lines: seq<string>): string {
    if lines == [] then "" else Join(lines, '\n')
  }

  // ---- Parsing ----

  function AddLine(ast: Ast, line: string): Ast {
    if IsHeader(line) then ast.(sections := ast.sections + [Section(line, [])])
    else if ast.sections == [] then ast.(preamble := ast.preamble + [line])
    else
      var k := |ast.sections| - 1;
      ast.(sections := ast.sections[k := ast.sections[k].(lines := ast.sections[k].lines + [line])])
  }

  function ParseLines(lines: seq<string>): Ast {
    if lines == [] then Ast([], []) else AddLine(ParseLines(lines[..|lines| - 1]), lines[|lines| - 1])
  }

  function Parse(content: string): Ast {
    ParseLines(Split(UnixLines(content), '\n'))
  }

  /** Collects lines under the last header seen, and stores a section when the next one starts. */
  method ParseTscn(content: string) returns (ast: Ast)
    ensures ast == Parse(content)
  {
    var raw := Split(UnixLines(content), '\n');
    var preamble: seq<string> := [];
    var sections: seq<Section> := [];
    var open, header, lines := false, "", [];
    for i := 0 to |raw|
      invariant !open ==> sections == []
      invariant ParseLines(raw[..i]) == Ast(preamble, sections + if open then [Section(header, lines)] else [])
    {
      assert raw[..i + 1][..i] == raw[..i];
      var line := raw[i];
      if IsHeader(line) {
        if open {
          sections := sections + [Section(header, lines)];
        }
        open, header, lines := true, line, [];
      } else if open {
        lines := lines + [line];
      } else {
        preamble := preamble + [line];
      }
    }
    assert raw[..|raw|] == raw;
    if open {
      sections := sections + [Section(header, lines)];
    }
    ast := Ast(preamble, sections);
  }

  // ---- Printing ----

  function SectionLines(sections: seq<Section>): seq<string> {
    if sections == [] then []
    else SectionLines(sections[..|sections| - 1]) + [sections[|sections| - 1].header] + sections[|sections| - 1].lines
  }

  function AllLines(ast: Ast): seq<string> {
    ast.preamble + SectionLines(ast.sections)
  }

  function Serialize(ast: Ast): string {
    Closed(JoinLines(AllLines(ast)))
  }

  method SerializeTscn(ast: Ast) returns (text: string)
    ensures text == Serialize(ast)
  {
    var lines := ast.preamble;
    for i := 0 to |ast.sections|
      invariant lines == ast.preamble + SectionLines(ast.sections[..i])
    {
      assert ast.sections[..i + 1][..i] == ast.sections[..i];
      lines := lines + [ast.sections[i].header];
      lines := lines + ast.sections[i].lines;
    }
    assert ast.sections[..|ast.sections|] == ast.sections;
    text := JoinLines(lines);
    if !(text != "" && text[|text| - 1] == '\n') {
      text := text + "\n";
    }
  }

  lemma NoLines()
    ensures JoinLines([]) == ""
  {
  }

  /** The Go serializer: a line break before a line, unless nothing has been written so far. */
  method SerializeTscnGo(ast: Ast) returns (text: string)
    ensures text == GoSerialize(ast)
  {
    hide Join, JoinLines;
    NoLines();
    text := "";
    for i := 0 to |ast.preamble|
      invariant text == JoinLines(ast.preamble[..i])
    {
      JoinLinesAppend(ast.preamble[..i], ast.preamble[i]);
      assert ast.preamble[..i + 1] == ast.preamble[..i] + [ast.preamble[i]];
      if i > 0 {
        text := text + "\n";
      }
      text := text + ast.preamble[i];
    }
    assert ast.preamble[..|ast.preamble|] == ast.preamble;
    for i := 0 to |ast.sections|
      invariant text == GoSections(JoinLines(ast.preamble), ast.sections[..i])
    {
      assert ast.sections[..i + 1][..i] == ast.sections[..i];
      var s := ast.sections[i];
      if text != "" {
        text := text + "\n";
      }
      text := text + s.header;
      ghost var started := text;
      for j := 0 to |s.lines|
        invariant text == Appended(started, s.lines[..j])
      {
        assert s.lines[..j + 1][..j] == s.lines[..j];
        text := text + "\n";
        text := text + s.lines[j];
      }
      assert s.lines[..|s.lines|] == s.lines;
    }
    assert ast.sections[..|ast.sections|] == ast.sections;
    if !(text != "" && text[|text| - 1] == '\n') {
      text := text + "\n";
    }
  }

  /** Each line on a new line after the text. */
  function Appended(text: string, lines: seq<string>): string {
    if lines == [] then text else Appended(text, lines[..|lines| - 1]) + "\n" + lines[|lines| - 1]
  }

  function GoSections(text: string, sections: seq<Section>): string {
    if sections == [] then text
    else
      var before := GoSections(text, sections[..|sections| - 1]);
      var s := sections[|sections| - 1];
      Appended((if before == "" then "" else before + "\n") + s.header, s.lines)
  }

  function GoSerialize(ast: Ast): string {
    Closed(GoSections(JoinLines(ast.preamble), ast.sections))
  }

  // ---- Round trips ----

  lemma {:induction false} JoinAppend(lines: seq<string>, line: string)
    requires lines != []
    ensures Join(lines + [line], '\n') == Join(lines, '\n') + "\n" + line
  {
    if |lines| > 1 {
      JoinAppend(lines[1..], line);
      assert (lines + [line])[1..] == lines[1..] + [line];
    }
  }

  lemma JoinLinesAppend(lines: seq<string>, line: string)
    ensures JoinLines(lines + [line]) == if lines == [] then line else JoinLines(lines) + "\n" + line
  {
    if lines != [] {
      JoinAppend(lines, line);
    } else {
      assert lines + [line] == [line];
    }
  }

  lemma {:induction false} AppendedIsJoin(lines: seq<string>, more: seq<string>)
    requires lines != []
    ensures Appended(JoinLines(lines), more) == JoinLines(lines + more)
  {
    if more == [] {
      assert lines + more == lines;
    } else {
      var k := |more| - 1;
      AppendedIsJoin(lines, more[..k]);
      JoinLinesAppend(lines + more[..k], more[k]);
      assert lines + more == (lines + more[..k]) + [more[k]];
    }
  }

  lemma {:induction false} LinesOfParse(lines: seq<string>)
    ensures AllLines(ParseLines(lines)) == lines
  {
    if lines != [] {
      var k := |lines| - 1;
      LinesOfParse(lines[..k]);
      LinesOfAdded(ParseLines(lines[..k]), lines[k]);
      assert lines == lines[..k] + [lines[k]];
    }
  }

  lemma SectionLinesAppend(sections: seq<Section>, s: Section)
    ensures SectionLines(sections + [s]) == SectionLines(sections) + [s.header] + s.lines
  {
    assert (sections + [s])[..|sections|] == sections;
  }

  lemma LinesOfAdded(ast: Ast, line: string)
    ensures AllLines(AddLine(ast, line)) == AllLines(ast) + [line]
  {
    if IsHeader(line) {
      SectionLinesAppend(ast.sections, Section(line, []));
    } else if ast.sections != [] {
      var k := |ast.sections| - 1;
      var front, last := ast.sections[..k], ast.sections[k];
      var longer := last.(lines := last.lines + [line]);
      SectionLinesAppend(front, last);
      SectionLinesAppend(front, longer);
      hide SectionLines;
      assert ast.sections == front + [last] && AddLine(ast, line).sections == front + [longer];
    }
  }

  /** For every text, printing what was parsed gives it back with LF line ends and a final newline. */
  lemma SerializeOfParse(content: string)
    ensures Serialize(Parse(content)) == Closed(UnixLines(content))
  {
    LinesOfParse(Split(UnixLines(content), '\n'));
    JoinOfSplit(UnixLines(content), '\n');
  }

  /** What the parser produces: headers are headers, and no other line is one. */
  predicate IsParsed(ast: Ast) {
    (forall i | 0 <= i < |ast.preamble| :: !IsHeader(ast.preamble[i])) &&
    forall i | 0 <= i < |ast.sections| :: IsParsedSection(ast.sections[i])
  }

  predicate IsParsedSection(s: Section) {
    IsHeader(s.header) && forall j | 0 <= j < |s.lines| :: !IsHeader(s.lines[j])
  }

  lemma {:induction false} ParseIsParsed(lines: seq<string>)
    ensures IsParsed(ParseLines(lines))
  {
    if lines != [] {
      ParseIsParsed(lines[..|lines| - 1]);
    }
  }

  lemma BodyLineAdded(lines: seq<string>, preamble: seq<string>, front: seq<Section>, header: string,
                      body: seq<string>, line: string)
    requires !IsHeader(line) && ParseLines(lines) == Ast(preamble, front + [Section(header, body)])
    ensures ParseLines(lines + [line]) == Ast(preamble, front + [Section(header, body + [line])])
  {
    assert (lines + [line])[..|lines|] == lines;
  }

  lemma {:induction false} ParseOfBody(lines: seq<string>, preamble: seq<string>, front: seq<Section>, header: string,
                                       body: seq<string>)
    requires forall j | 0 <= j < |body| :: !IsHeader(body[j])
    requires ParseLines(lines) == Ast(preamble, front + [Section(header, [])])
    ensures ParseLines(lines + body) == Ast(preamble, front + [Section(header, body)])
  {
    hide ParseLines, IsHeader;
    if body == [] {
      assert lines + body == lines;
    } else {
      var n := |body| - 1;
      ParseOfBody(lines, preamble, front, header, body[..n]);
      BodyLineAdded(lines + body[..n], preamble, front, header, body[..n], body[n]);
      assert lines + body == (lines + body[..n]) + [body[n]] && body == body[..n] + [body[n]];
    }
  }

  lemma HeaderAdded(lines: seq<string>, header: string, ast: Ast)
    requires IsHeader(header) && ParseLines(lines) == ast
    ensures ParseLines(lines + [header]) == ast.(sections := ast.sections + [Section(header, [])])
  {
    assert (lines + [header])[..|lines|] == lines;
  }

  lemma {:induction false} ParseOfPreamble(lines: seq<string>)
    requires forall i | 0 <= i < |lines| :: !IsHeader(lines[i])
    ensures ParseLines(lines) == Ast(lines, [])
  {
    if lines != [] {
      ParseOfPreamble(lines[..|lines| - 1]);
    }
  }

  lemma LinesWithoutSections(preamble: seq<string>)
    ensures AllLines(Ast(preamble, [])) == preamble && SectionLines([]) == []
  {
  }

  lemma LinesWithLast(preamble: seq<string>, front: seq<Section>, s: Section)
    ensures AllLines(Ast(preamble, front + [s])) == (AllLines(Ast(preamble, front)) + [s.header]) + s.lines
  {
    SectionLinesAppend(front, s);
  }

  /** Parsing undoes listing the lines, for every syntax tree of the parser's form. */
  lemma {:induction false} ParseOfLines(ast: Ast)
    requires IsParsed(ast)
    ensures ParseLines(AllLines(ast)) == ast
    decreases |ast.sections|
  {
    hide ParseLines, AllLines;
    if ast.sections == [] {
      LinesWithoutSections(ast.preamble);
      ParseOfPreamble(ast.preamble);
    } else {
      var k := |ast.sections| - 1;
      var front, s := ast.sections[..k], ast.sections[k];
      assert ast.sections == front + [s] && IsParsedSection(s);
      var before := AllLines(Ast(ast.preamble, front));
      ParseOfLines(Ast(ast.preamble, front));
      HeaderAdded(before, s.header, Ast(ast.preamble, front));
      ParseOfBody(before + [s.header], ast.preamble, front, s.header, s.lines);
      LinesWithLast(ast.preamble, front, s);
    }
  }

  // ---- The two serializers ----

  lemma {:induction false} GoSectionsAreLines(lines: seq<string>, sections: seq<Section>)
    requires JoinLines(lines) != "" || lines == []
    requires forall i | 0 <= i < |sections| :: IsHeader(sections[i].header)
    ensures GoSections(JoinLines(lines), sections) == JoinLines(lines + SectionLines(sections))
    ensures sections != [] ==> GoSections(JoinLines(lines), sections) != ""
  {
    hide SectionLines, JoinLines, Appended, GoSections;
    if sections == [] {
      LinesWithoutSections(lines);
      GoWithoutSections(JoinLines(lines));
    } else {
      var k := |sections| - 1;
      var front, s := sections[..k], sections[k];
      assert sections == front + [s];
      GoSectionsAreLines(lines, front);
      var before := lines + SectionLines(front);
      GoSectionStep(lines, front, before);
      JoinLinesAppend(before, s.header);
      AppendedIsJoin(before + [s.header], s.lines);
      AppendedKeeps(JoinLines(before + [s.header]), s.lines);
      LinesWithLast(lines, front, s);
      GoSectionsLast(JoinLines(lines), front, s);
    }
  }

  lemma GoWithoutSections(text: string)
    ensures GoSections(text, []) == text
  {
  }

  lemma GoSectionsLast(text: string, front: seq<Section>, s: Section)
    ensures var before := GoSections(text, front);
            GoSections(text, front + [s]) ==
              Appended(if before == "" then s.header else before + "\n" + s.header, s.lines)
  {
    assert (front + [s])[..|front|] == front;
    assert "" + s.header == s.header;
  }

  lemma GoSectionStep(lines: seq<string>, front: seq<Section>, before: seq<string>)
    requires before == lines + SectionLines(front) && (JoinLines(lines) != "" || lines == [])
    requires GoSections(JoinLines(lines), front) == JoinLines(before)
    requires front != [] ==> JoinLines(before) != ""
    ensures JoinLines(before) == "" <==> before == []
  {
    if front == [] {
      assert before == lines;
    }
  }

  lemma {:induction false} AppendedKeeps(text: string, lines: seq<string>)
    ensures text <= Appended(text, lines)
  {
    if lines != [] {
      AppendedKeeps(text, lines[..|lines| - 1]);
    }
  }

  lemma {:induction false} JoinIsEmpty(lines: seq<string>)
    ensures JoinLines(lines) == "" <==> lines == [] || lines == [""]
  {
  }

  /** With a preamble of one empty line, the Go serializer starts with the first header, the other with that line. */
  lemma {:induction false} GoSkipsEmptyLine(sections: seq<Section>)
    requires sections != [] && forall i | 0 <= i < |sections| :: IsHeader(sections[i].header)
    ensures GoSections(JoinLines([""]), sections) != JoinLines([""] + SectionLines(sections))
    ensures Closed(GoSections(JoinLines([""]), sections)) != Closed(JoinLines([""] + SectionLines(sections)))
  {
    GoSectionsAreLines([], sections);
    var rest := SectionLines(sections);
    assert [] + rest == rest;
    StartsWithHeader(sections);
    assert ([""] + rest)[1..] == rest;
    assert JoinLines([""] + rest)[0] == '\n';
    assert JoinLines(rest)[0] == '[';
  }

  lemma {:induction false} StartsWithHeader(sections: seq<Section>)
    requires sections != [] && forall i | 0 <= i < |sections| :: IsHeader(sections[i].header)
    ensures SectionLines(sections) != [] && SectionLines(sections)[0] == sections[0].header
    ensures JoinLines(SectionLines(sections)) != "" && JoinLines(SectionLines(sections))[0] == '['
  {
    if |sections| > 1 {
      StartsWithHeader(sections[..|sections| - 1]);
    }
  }

  /** The two serializers print the same text for every parsed tree, except after a preamble of one empty line. */
  lemma SerializersAgreeExactly(ast: Ast)
    requires IsParsed(ast)
    ensures GoSerialize(ast) == Serialize(ast) <==> !(ast.preamble == [""] && ast.sections != [])
  {
    JoinIsEmpty(ast.preamble);
    if ast.sections == [] {
      assert AllLines(ast) == ast.preamble;
    } else if ast.preamble == [""] {
      GoSkipsEmptyLine(ast.sections);
    } else {
      GoSectionsAreLines(ast.preamble, ast.sections);
    }
  }
}
