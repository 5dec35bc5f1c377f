/** Merging the same patches twice, as syntax trees and as text. */
module TscnIdempotence {
  import opened Wrappers
  import opened Texts
  import opened TscnTexts
  import opened TscnHeaders
  import opened TscnProperties
  import opened TscnMerges

  /** Keys are identifiers, values are single lines. */
  predicate CleanProperties(p: NodePatch) {
    p.properties.Some? ==> WellFormed(p.properties.value)
  }

  /** Base paths that patches delete occur once. */
  predicate DeletesUnique(sections: seq<Section>, patches: seq<NodePatch>) {
    forall i | 0 <= i < |patches| && PatchPath(patches[i]).Some? && patches[i].delete ::
      CountAt(sections, PatchPath(patches[i]).value) <= 1
  }

  /** The patch changes nothing here. */
  predicate Done(sections: seq<Section>, p: NodePatch) {
    Apply(sections, p) == sections
  }

  lemma {:induction false} DoneByLookup(sections: seq<Section>, p: NodePatch, path: string)
    requires Lookup(sections, path) == Outcome(Lookup(sections, path), p, path)
    ensures ApplyAt(sections, p, path) == sections
  {
    hide IsAt, Created, SetProperties;
    if sections != [] {
      assert sections == [sections[0]] + sections[1..];
      if !IsAt(sections[0], path) {
        DoneByLookup(sections[1..], p, path);
      }
    }
  }

  lemma OutcomeTwice(found: Option<Section>, p: NodePatch, path: string)
    requires CleanProperties(p)
    ensures Outcome(Outcome(found, p, path), p, path) == Outcome(found, p, path)
  {
    hide SetProperties, HeaderFor, WellFormed;
    if p.properties.Some? {
      SetPropertiesTwice(if found.Some? then found.value.lines else [], p.properties.value);
    }
  }

  lemma AllDone(sections: seq<Section>, patches: seq<NodePatch>, i: nat)
    requires Proper(patches) && DeletesUnique(sections, patches) && i < |patches| && CleanProperties(patches[i])
    ensures Done(ApplyAll(sections, patches), patches[i])
  {
    hide PatchPath, Lookup, ApplyAll, CountAt, CleanProperties, ApplyAt, Outcome;
    if PatchPath(patches[i]).Some? {
      var path := PatchPath(patches[i]).value;
      forall j | 0 <= j < |patches| && j != i ensures Elsewhere(patches[j], path) {
        FoundIsElsewhere(patches[j], path);
      }
      MergeAddresses(sections, patches, i);
      OutcomeTwice(Lookup(sections, path), patches[i], path);
      DoneByLookup(ApplyAll(sections, patches), patches[i], path);
    }
  }

  lemma {:induction false} ApplyAllDone(sections: seq<Section>, patches: seq<NodePatch>)
    requires forall i | 0 <= i < |patches| :: Done(sections, patches[i])
    ensures ApplyAll(sections, patches) == sections
  {
    hide Apply;
    if patches != [] {
      ApplyAllDone(sections, patches[..|patches| - 1]);
    }
  }

  /** Merging twice is merging once. */
  lemma MergeTwice(base: Ast, patches: seq<NodePatch>)
    requires Proper(patches) && DeletesUnique(base.sections, patches)
    requires forall i | 0 <= i < |patches| :: CleanProperties(patches[i])
    ensures Merge(Merge(base, patches), patches) == Merge(base, patches)
  {
    hide Proper, DeletesUnique, CleanProperties, ApplyAll, Done;
    forall i | 0 <= i < |patches| ensures Done(ApplyAll(base.sections, patches), patches[i]) {
      AllDone(base.sections, patches, i);
    }
    ApplyAllDone(ApplyAll(base.sections, patches), patches);
  }

  /**
   * Without a node at the path, a second application of the same creating patch creates nothing more
   * exactly if the first one's node is found again.
   */
  lemma CreatesOnceExactly(sections: seq<Section>, p: NodePatch, path: string)
    requires PatchPath(p) == Some(path) && !p.delete && Lookup(sections, path).None?
    ensures |Apply(Apply(sections, p), p)| == |sections| + if FoundAgain(p) then 1 else 2
  {
    hide PatchPath, NodePath, HeaderFor, SetProperties;
    CreatedAtEnd(sections, p, path);
    if FoundAgain(p) {
      FoundAtEnd(sections, Created(p, path), path);
      SameLength(sections + [Created(p, path)], p, path);
    } else {
      MissedAtEnd(sections, Created(p, path), path);
      CreatedAtEnd(sections + [Created(p, path)], p, path);
    }
  }

  /** The path "./A" is an input for which it creates two: the header it prints stands for "A". */
  lemma DottedPathCreatesTwice()
    ensures var p := NodePatch(Some("./A"), None, None, None, None, false);
            PatchPath(p) == Some("./A") && |Apply(Apply([], p), p)| == 2
  {
    var p := NodePatch(Some("./A"), None, None, None, None, false);
    assert !IsCanonical("./A") by {
      assert "./A"[..2] == "./";
    }
    hide IsCanonical, FoundAgain, Apply;
    PlainPatchFoundExactly(p);
    CreatesOnceExactly([], p, "./A");
  }

  lemma {:induction false} CreatedAtEnd(sections: seq<Section>, p: NodePatch, path: string)
    requires !p.delete && Lookup(sections, path).None?
    ensures ApplyAt(sections, p, path) == sections + [Created(p, path)]
  {
    hide IsAt, Created;
    if sections != [] {
      CreatedAtEnd(sections[1..], p, path);
    }
  }

  lemma {:induction false} FoundAtEnd(sections: seq<Section>, s: Section, path: string)
    requires IsAt(s, path)
    ensures Lookup(sections + [s], path).Some?
  {
    hide IsAt;
    if sections != [] {
      assert (sections + [s])[1..] == sections[1..] + [s];
      FoundAtEnd(sections[1..], s, path);
    }
  }

  lemma {:induction false} MissedAtEnd(sections: seq<Section>, s: Section, path: string)
    requires !IsAt(s, path) && Lookup(sections, path).None?
    ensures Lookup(sections + [s], path).None?
  {
    hide IsAt;
    if sections == [] {
      assert [s][1..] == [] && sections + [s] == [s];
    } else {
      assert (sections + [s])[1..] == sections[1..] + [s];
      MissedAtEnd(sections[1..], s, path);
    }
  }

  lemma {:induction false} SameLength(sections: seq<Section>, p: NodePatch, path: string)
    requires !p.delete && Lookup(sections, path).Some?
    ensures |ApplyAt(sections, p, path)| == |sections|
  {
    hide IsAt, Created, Updated;
    if !IsAt(sections[0], path) {
      SameLength(sections[1..], p, path);
    }
  }

  // ---- Text ----

  predicate IsClean(line: string) {
    '\n' !in line && '\r' !in line
  }

  predicate CleanLines(lines: seq<string>) {
    forall i | 0 <= i < |lines| :: IsClean(lines[i])
  }

  predicate CleanSection(s: Section) {
    IsParsedSection(s) && IsClean(s.header) && CleanLines(s.lines)
  }

  predicate CleanSections(sections: seq<Section>) {
    forall i | 0 <= i < |sections| :: CleanSection(sections[i])
  }

  predicate CleanAst(ast: Ast) {
    CleanLines(ast.preamble) && (forall i | 0 <= i < |ast.preamble| :: !IsHeader(ast.preamble[i])) &&
    CleanSections(ast.sections)
  }

  /** The header of a created node is one line. */
  predicate CleanPatch(p: NodePatch) {
    CleanProperties(p) && (PatchPath(p).Some? && !p.delete ==> IsClean(HeaderFor(p, PatchPath(p).value)))
  }

  lemma {:induction false} CleanAdded(ast: Ast, line: string)
    requires CleanAst(ast) && IsClean(line)
    ensures CleanAst(AddLine(ast, line))
  {
    hide IsClean, IsHeader;
  }

  lemma {:induction false} CleanParse(lines: seq<string>)
    requires CleanLines(lines)
    ensures CleanAst(ParseLines(lines))
  {
    hide IsClean, AddLine, CleanAst;
    if lines == [] {
      NothingIsClean();
    } else {
      CleanParse(lines[..|lines| - 1]);
      CleanAdded(ParseLines(lines[..|lines| - 1]), lines[|lines| - 1]);
    }
  }

  lemma NothingIsClean()
    ensures CleanAst(Ast([], []))
  {
  }

  lemma {:induction false} CleanOthers(lines: seq<string>)
    ensures forall l | l in OtherLines(lines) :: l in lines
  {
    hide KeyOf, IsBlank;
    if lines != [] {
      CleanOthers(lines[..|lines| - 1]);
    }
  }

  lemma RenderedIsClean(p: Property)
    requires IsKey(p.key) && OneLine(p.value)
    ensures IsClean(Render(p)) && !IsHeader(Render(p))
  {
    var line := Render(p);
    forall i | 0 <= i < |line| ensures line[i] != '\n' && line[i] != '\r' {
      assert i < |p.key| ==> line[i] == p.key[i];
      assert i >= |p.key| + 3 ==> line[i] == p.value[i - |p.key| - 3];
    }
    assert line[0] == p.key[0];
  }

  lemma CleanProperty(lines: seq<string>, props: seq<Property>)
    requires WellFormed(props) && CleanLines(lines) && forall j | 0 <= j < |lines| :: !IsHeader(lines[j])
    ensures CleanLines(SetProperties(lines, props))
    ensures forall j | 0 <= j < |SetProperties(lines, props)| :: !IsHeader(SetProperties(lines, props)[j])
  {
    hide IsClean, IsHeader, IsKey, OneLine, Render, TableOf, SetEntries, OtherLines;
    var r := SetEntries(TableOf(lines), props);
    TableIsDistinct(lines);
    SetEntriesKeepForm(TableOf(lines), props);
    CleanOthers(lines);
    var out := SetProperties(lines, props);
    forall j | 0 <= j < |out| ensures IsClean(out[j]) && !IsHeader(out[j]) {
      if j < |r| {
        RenderedIsClean(r[j]);
      } else {
        assert out[j] == OtherLines(lines)[j - |r|];
        assert out[j] in lines;
      }
    }
  }

  lemma {:induction false} CleanApply(sections: seq<Section>, p: NodePatch, path: string)
    requires CleanSections(sections) && CleanPatch(p) && PatchPath(p) == Some(path)
    ensures CleanSections(ApplyAt(sections, p, path))
  {
    hide IsAt, PatchPath, HeaderFor, CleanLines, IsClean, SetProperties, IsHeader, WellFormed;
    if sections == [] {
      if !p.delete {
        CleanCreated(p, path);
      }
    } else if IsAt(sections[0], path) {
      if !p.delete {
        assert CleanSection(sections[0]);
        CleanUpdated(sections[0], p);
      }
    } else {
      CleanApply(sections[1..], p, path);
    }
  }

  lemma CleanCreated(p: NodePatch, path: string)
    requires CleanPatch(p) && PatchPath(p) == Some(path) && !p.delete
    ensures CleanSection(Created(p, path))
  {
    hide PatchPath, SetProperties, WellFormed;
    if p.properties.Some? {
      CleanProperty([], p.properties.value);
    }
  }

  lemma CleanUpdated(s: Section, p: NodePatch)
    requires CleanSection(s) && CleanProperties(p)
    ensures CleanSection(Updated(s, p))
  {
    hide SetProperties, WellFormed;
    if p.properties.Some? {
      CleanProperty(s.lines, p.properties.value);
    }
  }

  lemma {:induction false} CleanApplyAll(sections: seq<Section>, patches: seq<NodePatch>)
    requires CleanSections(sections) && forall i | 0 <= i < |patches| :: CleanPatch(patches[i])
    ensures CleanSections(ApplyAll(sections, patches))
  {
    hide CleanSections, CleanPatch, PatchPath, ApplyAt;
    if patches != [] {
      var n := |patches| - 1;
      CleanApplyAll(sections, patches[..n]);
      if PatchPath(patches[n]).Some? {
        CleanApply(ApplyAll(sections, patches[..n]), patches[n], PatchPath(patches[n]).value);
      }
    }
  }

  // ---- Printing and reading back ----

  lemma {:induction false} CleanSectionLines(sections: seq<Section>)
    requires CleanSections(sections)
    ensures CleanLines(SectionLines(sections))
  {
    hide IsClean, IsParsedSection;
    if sections != [] {
      var n := |sections| - 1;
      CleanSectionLines(sections[..n]);
      assert CleanSection(sections[n]);
    }
  }

  lemma {:induction false} JoinWithout(lines: seq<string>, c: char)
    requires |lines| > 0 && Plain(lines, c) && c != '\n'
    ensures c !in Join(lines, '\n')
  {
    if |lines| > 1 {
      JoinWithout(lines[1..], c);
    }
  }

  lemma {:induction false} UnixIdentity(s: string)
    requires '\r' !in s
    ensures UnixLines(s) == s
  {
    if s != "" {
      UnixIdentity(s[1..]);
      assert s == [s[0]] + s[1..];
    }
  }

  /** Text printed from clean lines is parsed back, with one blank line more if the last line was not empty. */
  lemma ParseOfPrinted(lines: seq<string>)
    requires CleanLines(lines) && lines != []
    ensures Parse(Closed(JoinLines(lines))) == ParseLines(lines) ||
            (Parse(Closed(JoinLines(lines))) == AddLine(ParseLines(lines), "") &&
             Closed(JoinLines(lines)) == JoinLines(lines + [""]))
  {
    hide UnixLines, ParseLines, AddLine;
    var text := JoinLines(lines);
    JoinWithout(lines, '\r');
    SplitOfJoin(lines, '\n');
    if Closed(text) == text {
      UnixIdentity(text);
    } else {
      JoinLinesAppend(lines, "");
      assert text + "\n" + "" == text + "\n";
      assert Plain(lines + [""], '\n');
      SplitOfJoin(lines + [""], '\n');
      UnixIdentity(text + "\n");
      BlankLineAdded(lines);
    }
  }

  lemma BlankLineAdded(lines: seq<string>)
    ensures ParseLines(lines + [""]) == AddLine(ParseLines(lines), "")
  {
    assert (lines + [""])[..|lines|] == lines;
  }

  /** The sections with a blank line after the last one. */
  function Trailed(sections: seq<Section>): seq<Section>
    requires sections != []
  {
    var k := |sections| - 1;
    sections[k := sections[k].(lines := sections[k].lines + [""])]
  }

  /** Where a patch is done, a trailing blank line is at most removed. */
  lemma {:induction false} TrailedApply(sections: seq<Section>, p: NodePatch, path: string)
    requires sections != [] && ApplyAt(sections, p, path) == sections
    ensures ApplyAt(Trailed(sections), p, path) == Trailed(sections) || ApplyAt(Trailed(sections), p, path) == sections
  {
    hide IsAt, SetProperties, NodePath, HeaderFor;
    if |sections| > 1 {
      var rest := sections[1..];
      assert Trailed(sections) == [sections[0]] + Trailed(rest) && sections == [sections[0]] + rest;
      if IsAt(sections[0], path) {
        assert ApplyAt(sections, p, path)[0] == sections[0];
        DoneAtHead(sections, p, path);
      } else {
        assert ApplyAt(rest, p, path) == ApplyAt(sections, p, path)[1..];
        TrailedApply(rest, p, path);
      }
    } else {
      TrailedLast(sections[0], p, path);
      assert sections == [sections[0]];
    }
  }

  lemma DoneAtHead(sections: seq<Section>, p: NodePatch, path: string)
    requires sections != [] && IsAt(sections[0], path) && ApplyAt(sections, p, path) == sections
    ensures !p.delete && Updated(sections[0], p) == sections[0]
  {
    hide IsAt, SetProperties;
    assert ApplyAt(sections, p, path)[0] == sections[0];
  }

  lemma TrailedLast(s: Section, p: NodePatch, path: string)
    requires ApplyAt([s], p, path) == [s]
    ensures var t := s.(lines := s.lines + [""]);
            ApplyAt([t], p, path) == [t] || ApplyAt([t], p, path) == [s]
  {
    hide SetProperties, NodePath, HeaderFor;
    var t := s.(lines := s.lines + [""]);
    assert [s][1..] == [] && [t][1..] == [];
    if IsAt(s, path) {
      DoneAtHead([s], p, path);
      if p.properties.Some? {
        SetPropertiesBlank(s.lines, p.properties.value);
      }
    } else {
      assert |ApplyAt([s], p, path)| == 1 + |ApplyAt([], p, path)|;
    }
  }

  lemma {:induction false} TrailedApplyAll(sections: seq<Section>, patches: seq<NodePatch>)
    requires sections != [] && forall i | 0 <= i < |patches| :: Done(sections, patches[i])
    ensures ApplyAll(Trailed(sections), patches) in [Trailed(sections), sections]
  {
    hide ApplyAt, PatchPath, Trailed;
    if patches != [] {
      var n := |patches| - 1;
      TrailedApplyAll(sections, patches[..n]);
      assert Done(sections, patches[n]);
      if PatchPath(patches[n]).Some? {
        TrailedApply(sections, patches[n], PatchPath(patches[n]).value);
      }
    }
  }

  lemma {:induction false} SplitWithout(s: string, c: char, d: char)
    requires d !in s
    ensures Plain(Split(s, c), d)
  {
    if s != "" {
      SplitWithout(s[1..], c, d);
      var rest := Split(s[1..], c);
      forall i | 0 <= i < |Split(s, c)| ensures d !in Split(s, c)[i] {
        if s[0] == c {
          assert i > 0 ==> Split(s, c)[i] == rest[i - 1];
        } else {
          assert i > 0 ==> Split(s, c)[i] == rest[i];
        }
      }
    }
  }

  lemma MergedIsClean(content: string, patches: seq<NodePatch>)
    requires '\r' !in content && forall i | 0 <= i < |patches| :: CleanPatch(patches[i])
    ensures CleanAst(Merge(Parse(content), patches))
  {
    UnixIdentity(content);
    SplitIsPlain(content, '\n');
    SplitWithout(content, '\n', '\r');
    hide CleanPatch, ApplyAll, ParseLines;
    CleanParse(Split(content, '\n'));
    CleanApplyAll(Parse(content).sections, patches);
  }

  /** Reading back what a finished merge printed, and merging again, prints the same. */
  lemma PrintedTwice(ast: Ast, patches: seq<NodePatch>)
    requires CleanAst(ast) && forall i | 0 <= i < |patches| :: Done(ast.sections, patches[i])
    ensures ApplyPatchText(Serialize(ast), patches) == Serialize(ast)
  {
    var lines, text := AllLines(ast), Serialize(ast);
    ApplyAllDone(ast.sections, patches);
    CleanSectionLines(ast.sections);
    ParseOfLines(ast);
    LinesOfAdded(ast, "");
    hide Done, ApplyAll, ParseLines, Parse, SectionLines;
    if lines == [] {
      PrintedNothing(ast, patches);
    } else {
      ParseOfPrinted(lines);
      if Parse(text) != ast {
        var longer := AddLine(ast, "");
        assert Serialize(longer) == text;
        if ast.sections != [] {
          TrailedApplyAll(ast.sections, patches);
          assert longer.sections == Trailed(ast.sections);
        }
      }
    }
  }

  lemma PrintedNothing(ast: Ast, patches: seq<NodePatch>)
    requires AllLines(ast) == [] && ApplyAll(ast.sections, patches) == ast.sections
    ensures ApplyPatchText(Serialize(ast), patches) == Serialize(ast)
  {
    hide ApplyAll, ParseLines;
    assert SectionLines(ast.sections) == [];
    assert ast.sections == [];
    UnixIdentity("\n");
    assert Split("\n", '\n') == ["", ""];
    ParseOfPreamble(["", ""]);
    assert AllLines(Ast(["", ""], [])) == ["", ""];
    assert ["", ""][1..] == [""];
    assert Join(["", ""], '\n') == "\n";
  }

  /**
   * Applying the same patches to a text a second time changes nothing: for patches with distinct
   * paths that are found again, with identifier keys and single-line values, and text without
   * carriage returns in which paths to be deleted occur once.
   */
  lemma ApplyTextTwice(content: string, patches: seq<NodePatch>)
    requires '\r' !in content && Proper(patches) && DeletesUnique(Parse(content).sections, patches)
    requires forall i | 0 <= i < |patches| :: CleanPatch(patches[i])
    ensures ApplyPatchText(ApplyPatchText(content, patches), patches) == ApplyPatchText(content, patches)
  {
    MergedIsClean(content, patches);
    hide Parse, Proper, DeletesUnique, CleanProperties, ApplyAll, Done, Serialize;
    forall i | 0 <= i < |patches| ensures Done(Merge(Parse(content), patches).sections, patches[i]) {
      assert CleanPatch(patches[i]);
      AllDone(Parse(content).sections, patches, i);
    }
    PrintedTwice(Merge(Parse(content), patches), patches);
  }
}
