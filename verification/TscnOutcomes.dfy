/** What a merge leaves at the path of a patch, in terms of the header's attributes and the property lines. */
module TscnOutcomes {
  import opened Wrappers
  import opened Texts
  import opened TscnTexts
  import opened TscnHeaders
  import opened TscnProperties
  import opened TscnMerges
  import opened TscnIdempotence

  /** The i-th patch is found again at its path, and the others stay away from it. */
  predicate Alone(patches: seq<NodePatch>, i: nat, path: string) {
    i < |patches| && PatchPath(patches[i]) == Some(path) && FoundAgain(patches[i]) &&
    forall j | 0 <= j < |patches| && j != i :: Elsewhere(patches[j], path)
  }

  /** A path cut at its last slash; below the root the parent is a dot. */
  predicate SplitsAs(path: string, parent: string, name: string) {
    if '/' in path then path == parent + "/" + name && '/' !in name else parent == "." && name == path
  }

  lemma PartsOf(path: string)
    ensures SplitsAs(path, ParentIn(path), NameIn(path))
  {
  }

  /** Name, type and parent of a new node: as given, else from the path, with "Node" for the type. */
  ghost predicate Describes(p: NodePatch, path: string, name: string, typ: string, parent: string) {
    exists above, last ::
      SplitsAs(path, above, last) &&
      name == (if p.name.Some? then p.name.value else last) &&
      parent == (if p.parent.Some? then p.parent.value else above) &&
      typ == (if p.typ.Some? then p.typ.value else "Node")
  }

  /** A patch with properties on lines: the properties are overridden, the other lines stay without blank ones. */
  predicate Overridden(before: seq<string>, after: seq<string>, props: Option<seq<Property>>) {
    match props
    case None => after == before
    case Some(ps) =>
      AsMap(TableOf(after)) == AsMap(TableOf(before)) + AsMap(StripValues(ps)) &&
      OtherLines(after) == OtherLines(before) && |after| == |TableOf(after)| + |OtherLines(before)|
  }

  lemma SetOverrides(lines: seq<string>, props: Option<seq<Property>>)
    requires props.Some? ==> WellFormed(props.value)
    ensures Overridden(lines, if props.Some? then SetProperties(lines, props.value) else lines, props)
  {
    hide AsMap, TableOf, OtherLines, SetProperties, WellFormed;
    if props.Some? {
      PropertiesOverridden(lines, props.value);
    }
  }

  /**
   * Where no node stood, a patch creates one: its header is a node's, reads back as name, type and parent
   * exactly if none of these has a quote, and its lines have the properties of the patch and nothing else.
   */
  lemma CreatesAsAsked(sections: seq<Section>, patches: seq<NodePatch>, i: nat, path: string)
    returns (name: string, typ: string, parent: string)
    requires Alone(patches, i, path) && !patches[i].delete && CleanProperties(patches[i])
    requires Lookup(sections, path).None?
    ensures Describes(patches[i], path, name, typ, parent)
    ensures var found := Lookup(ApplyAll(sections, patches), path);
            found.Some? && |found.value.header| >= 6 && found.value.header[..6] == "[node " &&
            (Attributes(found.value.header) == map["name" := name, "type" := typ, "parent" := parent] <==>
               '"' !in name && '"' !in typ && '"' !in parent) &&
            Overridden([], found.value.lines, patches[i].properties)
  {
    var p := patches[i];
    PartsOf(path);
    name, typ, parent := OrElse(p.name, NameIn(path)), OrElse(p.typ, "Node"), OrElse(p.parent, ParentIn(path));
    assert SplitsAs(path, ParentIn(path), NameIn(path));
    AttributesOfNodeHeader(name, typ, parent);
    NodeHeaderStart(name, typ, parent);
    SetOverrides([], p.properties);
    hide PatchPath, Lookup, CountAt, Attributes, NodeHeader, SplitsAs, Elsewhere, FoundAgain, SetProperties, Overridden;
    MergeAddresses(sections, patches, i);
  }

  lemma NodeHeaderStart(name: string, typ: string, parent: string)
    ensures |NodeHeader(name, typ, parent)| >= 6 && NodeHeader(name, typ, parent)[..6] == "[node "
  {
  }

  /** Where a node stands, a patch overrides the properties of the first one and leaves its header alone. */
  lemma UpdatesAsAsked(sections: seq<Section>, patches: seq<NodePatch>, i: nat, path: string)
    requires Alone(patches, i, path) && !patches[i].delete && CleanProperties(patches[i])
    requires Lookup(sections, path).Some?
    ensures var found := Lookup(ApplyAll(sections, patches), path);
            found.Some? && found.value.header == Lookup(sections, path).value.header &&
            Overridden(Lookup(sections, path).value.lines, found.value.lines, patches[i].properties)
  {
    SetOverrides(Lookup(sections, path).value.lines, patches[i].properties);
    hide PatchPath, Lookup, CountAt, Elsewhere, FoundAgain, SetProperties, Overridden;
    MergeAddresses(sections, patches, i);
  }

  /** A deleting patch leaves no node at a path that occurred once. */
  lemma DeletesAsAsked(sections: seq<Section>, patches: seq<NodePatch>, i: nat, path: string)
    requires Alone(patches, i, path) && patches[i].delete && CountAt(sections, path) <= 1
    ensures Lookup(ApplyAll(sections, patches), path).None?
  {
    hide PatchPath, Lookup, CountAt, Elsewhere, FoundAgain;
    MergeAddresses(sections, patches, i);
  }

  // ---- In the printed text ----

  lemma {:induction false} LookupTrailed(sections: seq<Section>, path: string)
    requires sections != []
    ensures var (a, b) := (Lookup(sections, path), Lookup(Trailed(sections), path));
            (a.Some? <==> b.Some?) &&
            (a.Some? ==> b.value.header == a.value.header && b.value.lines in [a.value.lines, a.value.lines + [""]])
  {
    hide NodePath;
    if |sections| > 1 {
      assert Trailed(sections) == [sections[0]] + Trailed(sections[1..]);
      assert Trailed(sections)[1..] == Trailed(sections[1..]);
      LookupTrailed(sections[1..], path);
    } else {
      assert Trailed(sections)[1..] == [] && sections[1..] == [];
    }
  }

  /** Reading a printed tree back finds the same headers, and the same lines up to a blank one at the end. */
  lemma PrintedIsFound(ast: Ast, path: string)
    requires CleanAst(ast)
    ensures var (a, b) := (Lookup(ast.sections, path), Lookup(Parse(Serialize(ast)).sections, path));
            (a.Some? <==> b.Some?) &&
            (a.Some? ==> b.value.header == a.value.header && b.value.lines in [a.value.lines, a.value.lines + [""]])
  {
    var lines := AllLines(ast);
    CleanSectionLines(ast.sections);
    ParseOfLines(ast);
    hide ParseLines, Parse, SectionLines, NodePath, Lookup, CleanAst;
    if lines == [] {
      PrintedEmpty(ast);
    } else {
      ParseOfPrinted(lines);
      if Parse(Serialize(ast)) != ast && ast.sections != [] {
        LookupTrailed(ast.sections, path);
        assert AddLine(ast, "").sections == Trailed(ast.sections);
      }
    }
  }

  lemma PrintedEmpty(ast: Ast)
    requires AllLines(ast) == []
    ensures ast.sections == [] && Parse(Serialize(ast)).sections == []
  {
    hide ParseLines;
    assert SectionLines(ast.sections) == [];
    assert ast.sections == [];
    UnixIdentity("\n");
    assert Split("\n", '\n') == ["", ""];
    ParseOfPreamble(["", ""]);
    assert AllLines(Ast(["", ""], [])) == ["", ""];
  }

  /**
   * In the text that comes out, a created node is found at its path with the name, type and parent asked for.
   */
  lemma TextCreatesAsAsked(content: string, patches: seq<NodePatch>, i: nat, path: string)
    returns (name: string, typ: string, parent: string)
    requires '\r' !in content && forall j | 0 <= j < |patches| :: CleanPatch(patches[j])
    requires Alone(patches, i, path) && !patches[i].delete && Lookup(Parse(content).sections, path).None?
    ensures Describes(patches[i], path, name, typ, parent)
    ensures var found := Lookup(Parse(ApplyPatchText(content, patches)).sections, path);
            found.Some? &&
            (Attributes(found.value.header) == map["name" := name, "type" := typ, "parent" := parent] <==>
               '"' !in name && '"' !in typ && '"' !in parent)
  {
    hide Parse, CleanAst, Lookup, ApplyAll, Serialize, Attributes, Describes, Overridden;
    hide Elsewhere, PatchPath, FoundAgain;
    assert CleanPatch(patches[i]);
    MergedIsClean(content, patches);
    name, typ, parent := CreatesAsAsked(Parse(content).sections, patches, i, path);
    PrintedIsFound(Merge(Parse(content), patches), path);
  }

  // ---- Patches by name and parent ----

  /** The path of a patch: the given one; else parent and name, where the parent is more than a dot; else the name. */
  lemma PatchPathExactly(p: NodePatch)
    ensures p.path.Some? ==> PatchPath(p) == if p.path.value == "" then None else p.path
    ensures p.path.None? && (p.name.None? || p.name.value == "") ==> PatchPath(p).None?
    ensures p.path.None? && p.name.Some? && p.name.value != "" ==>
              PatchPath(p) == Some(if p.parent.Some? && p.parent.value !in {"", "."}
                                   then p.parent.value + "/" + p.name.value else p.name.value)
  {
  }

  /** A creating patch by name and parent is found again exactly if neither has a quote and its path no leading "./". */
  lemma NamedPatchFoundExactly(p: NodePatch)
    requires p.path.None? && p.name.Some? && p.name.value != "" && p.parent.Some? && !p.delete
    requires '"' !in OrElse(p.typ, "Node")
    ensures FoundAgain(p) <==>
              '"' !in p.name.value && '"' !in p.parent.value &&
              (p.parent.value !in {"", "."} ==> !StartsWith(p.parent.value + "/" + p.name.value, "./"))
  {
    PatchPathExactly(p);
    var path := PatchPath(p).value;
    var (name, typ, parent) := (p.name.value, OrElse(p.typ, "Node"), p.parent.value);
    assert HeaderFor(p, path) == NodeHeader(name, typ, parent);
    if '"' in name || '"' in parent {
      PathsAreUnquoted(NodeHeader(name, typ, parent));
      assert '"' in path;
      hide NodePath, NodeHeader, PatchPath;
    } else {
      PathOfNodeHeader(name, typ, parent);
      hide NodePath, NodeHeader, PatchPath;
    }
  }
}
