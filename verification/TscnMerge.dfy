/** Merging node patches into a scene. */
module TscnMerges {
  import opened Wrappers
  import opened TscnTexts
  import opened TscnHeaders
  import opened TscnProperties

  /** A node patch with its properties in entry order, values as they are printed. */
  datatype NodePatch = NodePatch(
    path: Option<string>, name: Option<string>, parent: Option<string>, typ: Option<string>,
    properties: Option<seq<Property>>, delete: bool)

  function OrElse(a: Option<string>, b: string): string {
    if a.Some? then a.value else b
  }

  /** The path a patch speaks about: given, or made of parent and name; nothing if that is empty. */
  function PatchPath(p: NodePatch): Option<string> {
    var name, parent := OrElse(p.name, ""), OrElse(p.parent, "");
    var path :=
      if p.path.Some? then p.path.value
      else if parent != "" && name != "" && parent != "." then parent + "/" + name
      else name;
    if path == "" then None else Some(path)
  }

  predicate IsAt(s: Section, path: string) {
    NodePath(s.header) == Some(path)
  }

  function HeaderFor(p: NodePatch, path: string): string {
    NodeHeader(OrElse(p.name, NameIn(path)), OrElse(p.typ, "Node"), OrElse(p.parent, ParentIn(path)))
  }

  function Created(p: NodePatch, path: string): Section {
    Section(HeaderFor(p, path), if p.properties.Some? then SetProperties([], p.properties.value) else [])
  }

  function Updated(s: Section, p: NodePatch): Section {
    if p.properties.Some? then s.(lines := SetProperties(s.lines, p.properties.value)) else s
  }

  /** Deletes or updates the first node at the path; creates the node at the end if there is none. */
  function ApplyAt(sections: seq<Section>, p: NodePatch, path: string): seq<Section> {
    if sections == [] then (if p.delete then [] else [Created(p, path)])
    else if IsAt(sections[0], path) then
      if p.delete then sections[1..] else [Updated(sections[0], p)] + sections[1..]
    else [sections[0]] + ApplyAt(sections[1..], p, path)
  }

  function Apply(sections: seq<Section>, p: NodePatch): seq<Section> {
    if PatchPath(p).None? then sections else ApplyAt(sections, p, PatchPath(p).value)
  }

  function ApplyAll(sections: seq<Section>, patches: seq<NodePatch>): seq<Section> {
    if patches == [] then sections
    else Apply(ApplyAll(sections, patches[..|patches| - 1]), patches[|patches| - 1])
  }

  function Merge(base: Ast, patches: seq<NodePatch>): Ast {
    Ast(base.preamble, ApplyAll(base.sections, patches))
  }

  function ApplyPatchText(content: string, patches: seq<NodePatch>): string {
    Serialize(Merge(Parse(content), patches))
  }

  // ---- The loops ----

  method FindIndex(sections: seq<Section>, path: string) returns (k: nat)
    ensures k <= |sections| && forall i | 0 <= i < k :: !IsAt(sections[i], path)
    ensures k < |sections| ==> IsAt(sections[k], path)
  {
    k := 0;
    while k < |sections| && !IsAt(sections[k], path)
      invariant k <= |sections| && forall i | 0 <= i < k :: !IsAt(sections[i], path)
    {
      k := k + 1;
    }
  }

  lemma AtHead(sections: seq<Section>, p: NodePatch, path: string)
    requires sections != [] && IsAt(sections[0], path)
    ensures ApplyAt(sections, p, path) ==
              if p.delete then sections[1..] else [Updated(sections[0], p)] + sections[1..]
  {
    hide IsAt, Created, Updated;
  }

  lemma PastHead(sections: seq<Section>, p: NodePatch, path: string)
    requires sections != [] && !IsAt(sections[0], path)
    ensures ApplyAt(sections, p, path) == [sections[0]] + ApplyAt(sections[1..], p, path)
  {
    hide IsAt, Created, Updated;
  }

  /** The sections with the one at k deleted or updated, or with a new one at the end. */
  function AppliedAt(sections: seq<Section>, p: NodePatch, path: string, k: nat): seq<Section>
    requires k <= |sections|
  {
    if k == |sections| then sections + (if p.delete then [] else [Created(p, path)])
    else if p.delete then sections[..k] + sections[k + 1..]
    else sections[k := Updated(sections[k], p)]
  }

  lemma AppliedPastHead(sections: seq<Section>, p: NodePatch, path: string, k: nat)
    requires 0 < k <= |sections|
    ensures [sections[0]] + AppliedAt(sections[1..], p, path, k - 1) == AppliedAt(sections, p, path, k)
  {
    hide Created, Updated;
    if k < |sections| {
      assert sections[1..][k - 1] == sections[k];
    }
  }

  lemma AppliedAtHead(sections: seq<Section>, p: NodePatch, path: string)
    requires sections == [] || IsAt(sections[0], path)
    ensures ApplyAt(sections, p, path) == AppliedAt(sections, p, path, 0)
  {
    hide IsAt, Created, Updated;
  }

  lemma {:induction false} ApplyAtIndex(sections: seq<Section>, p: NodePatch, path: string, k: nat)
    requires k <= |sections| && forall i | 0 <= i < k :: !IsAt(sections[i], path)
    requires k < |sections| ==> IsAt(sections[k], path)
    ensures ApplyAt(sections, p, path) == AppliedAt(sections, p, path, k)
  {
    if k == 0 {
      AppliedAtHead(sections, p, path);
    } else {
      PastHead(sections, p, path);
      AppliedPastHead(sections, p, path, k);
      hide IsAt, AppliedAt, ApplyAt;
      ApplyAtIndex(sections[1..], p, path, k - 1);
    }
  }

  method MergeTscn(base: Ast, patches: seq<NodePatch>) returns (merged: Ast)
    ensures merged == Merge(base, patches)
  {
    hide PatchPath, IsAt, SetProperties, NodePath, HeaderFor;
    var sections := base.sections;
    for i := 0 to |patches|
      invariant sections == ApplyAll(base.sections, patches[..i])
    {
      assert patches[..i + 1][..i] == patches[..i];
      var p := patches[i];
      var path := PatchPath(p);
      if path.Some? {
        var k := FindIndex(sections, path.value);
        ApplyAtIndex(sections, p, path.value, k);
        if p.delete {
          if k < |sections| {
            sections := sections[..k] + sections[k + 1..];
          }
        } else if k < |sections| {
          if p.properties.Some? {
            var lines := SetPropertyLines(sections[k].lines, p.properties.value);
            sections := sections[k := sections[k].(lines := lines)];
          }
        } else {
          var lines := [];
          if p.properties.Some? {
            lines := SetPropertyLines([], p.properties.value);
          }
          sections := sections + [Section(HeaderFor(p, path.value), lines)];
        }
      }
    }
    assert patches[..|patches|] == patches;
    merged := Ast(base.preamble, sections);
  }

  method ApplyTscnPatch(content: string, patches: seq<NodePatch>) returns (text: string)
    ensures text == ApplyPatchText(content, patches)
  {
    var ast := ParseTscn(content);
    var merged := MergeTscn(ast, patches);
    text := SerializeTscn(merged);
  }

  // ---- Looking sections up ----

  /** The first section at a path. */
  function Lookup(sections: seq<Section>, path: string): Option<Section> {
    if sections == [] then None
    else if IsAt(sections[0], path) then Some(sections[0])
    else Lookup(sections[1..], path)
  }

  function CountAt(sections: seq<Section>, path: string): nat {
    if sections == [] then 0 else (if IsAt(sections[0], path) then 1 else 0) + CountAt(sections[1..], path)
  }

  /** A node created for the patch is found again at the patch's path. */
  predicate FoundAgain(p: NodePatch) {
    PatchPath(p).Some? && !p.delete ==> NodePath(HeaderFor(p, PatchPath(p).value)) == PatchPath(p)
  }

  /** With the path alone given, a creating patch is found again exactly if its path is canonical and has no quote. */
  lemma PlainPatchFoundExactly(p: NodePatch)
    requires p.path.Some? && p.name.None? && p.parent.None? && !p.delete && PatchPath(p).Some?
    requires '"' !in OrElse(p.typ, "Node")
    ensures FoundAgain(p) <==> IsCanonical(p.path.value) && '"' !in p.path.value
  {
    CreatedIsFoundExactly(p.path.value, OrElse(p.typ, "Node"));
    hide NodePath, NodeHeader, IsCanonical;
  }

  /** What a patch makes of the section found at its path. */
  function Outcome(found: Option<Section>, p: NodePatch, path: string): Option<Section> {
    if p.delete then None else Some(if found.Some? then Updated(found.value, p) else Created(p, path))
  }

  lemma {:induction false} ApplyElsewhere(sections: seq<Section>, p: NodePatch, path: string, other: string)
    requires path != other && (!p.delete ==> !IsAt(Created(p, path), other))
    ensures Lookup(ApplyAt(sections, p, path), other) == Lookup(sections, other)
    ensures CountAt(ApplyAt(sections, p, path), other) == CountAt(sections, other)
  {
    hide Created, NodePath, SetProperties;
    if sections == [] {
      if !p.delete {
        assert [Created(p, path)][1..] == [];
      }
    } else if IsAt(sections[0], path) {
      assert ([Updated(sections[0], p)] + sections[1..])[1..] == sections[1..];
    } else {
      ApplyElsewhere(sections[1..], p, path, other);
      assert ([sections[0]] + ApplyAt(sections[1..], p, path))[1..] == ApplyAt(sections[1..], p, path);
    }
  }

  lemma {:induction false} CountZero(sections: seq<Section>, path: string)
    ensures CountAt(sections, path) == 0 <==> Lookup(sections, path).None?
  {
    hide IsAt;
    if sections != [] {
      CountZero(sections[1..], path);
    }
  }

  lemma {:induction false} ApplyHere(sections: seq<Section>, p: NodePatch, path: string)
    requires if p.delete then CountAt(sections, path) <= 1 else IsAt(Created(p, path), path)
    ensures Lookup(ApplyAt(sections, p, path), path) == Outcome(Lookup(sections, path), p, path)
  {
    hide Created, NodePath, SetProperties;
    if sections == [] {
    } else if IsAt(sections[0], path) {
      CountZero(sections[1..], path);
      assert IsAt(Updated(sections[0], p), path);
    } else {
      ApplyHere(sections[1..], p, path);
      assert ([sections[0]] + ApplyAt(sections[1..], p, path))[1..] == ApplyAt(sections[1..], p, path);
    }
  }

  // ---- The merge as a framed upsert ----

  /** Every patch that creates is found again, and no two patches speak about one path. */
  predicate Proper(patches: seq<NodePatch>) {
    (forall i | 0 <= i < |patches| :: FoundAgain(patches[i])) &&
    forall i, j | 0 <= i < j < |patches| && PatchPath(patches[i]).Some? ::
      PatchPath(patches[i]) != PatchPath(patches[j])
  }

  /** The patch neither speaks about the path nor creates a node there. */
  predicate Elsewhere(p: NodePatch, path: string) {
    PatchPath(p).Some? ==>
      PatchPath(p).value != path && (!p.delete ==> NodePath(HeaderFor(p, PatchPath(p).value)) != Some(path))
  }

  lemma FoundIsElsewhere(p: NodePatch, path: string)
    requires FoundAgain(p) && PatchPath(p) != Some(path)
    ensures Elsewhere(p, path)
  {
    hide PatchPath, NodePath, HeaderFor;
  }

  lemma ApplyKeepsOthers(sections: seq<Section>, p: NodePatch, other: string)
    requires Elsewhere(p, other)
    ensures Lookup(Apply(sections, p), other) == Lookup(sections, other)
    ensures CountAt(Apply(sections, p), other) == CountAt(sections, other)
  {
    if PatchPath(p).Some? {
      hide PatchPath, NodePath, Lookup, CountAt, HeaderFor;
      ApplyElsewhere(sections, p, PatchPath(p).value, other);
    }
  }

  lemma {:induction false} MergeKeepsOthers(sections: seq<Section>, patches: seq<NodePatch>, path: string)
    requires forall i | 0 <= i < |patches| :: Elsewhere(patches[i], path)
    ensures Lookup(ApplyAll(sections, patches), path) == Lookup(sections, path)
    ensures CountAt(ApplyAll(sections, patches), path) == CountAt(sections, path)
  {
    hide Elsewhere, PatchPath, Apply, Lookup, CountAt;
    if patches != [] {
      var n := |patches| - 1;
      MergeKeepsOthers(sections, patches[..n], path);
      ApplyKeepsOthers(ApplyAll(sections, patches[..n]), patches[n], path);
    }
  }

  /**
   * A patch has its full effect, as if it were the only one: the node is deleted, updated or created. The
   * others may be anything that stays away from its path.
   */
  lemma {:induction false} MergeAddresses(sections: seq<Section>, patches: seq<NodePatch>, i: nat)
    requires i < |patches| && PatchPath(patches[i]).Some? && FoundAgain(patches[i])
    requires forall j | 0 <= j < |patches| && j != i :: Elsewhere(patches[j], PatchPath(patches[i]).value)
    requires patches[i].delete ==> CountAt(sections, PatchPath(patches[i]).value) <= 1
    ensures var path := PatchPath(patches[i]).value;
            Lookup(ApplyAll(sections, patches), path) == Outcome(Lookup(sections, path), patches[i], path)
  {
    hide PatchPath, Lookup, CountAt, Outcome, NodePath, Elsewhere;
    var n := |patches| - 1;
    var path := PatchPath(patches[i]).value;
    if i == n {
      MergeKeepsOthers(sections, patches[..n], path);
      var before := ApplyAll(sections, patches[..n]);
      ApplyHere(before, patches[n], path);
    } else {
      MergeAddresses(sections, patches[..n], i);
      ApplyKeepsOthers(ApplyAll(sections, patches[..n]), patches[n], path);
    }
  }

  predicate Addressed(s: Section, patches: seq<NodePatch>) {
    exists i | 0 <= i < |patches| :: PatchPath(patches[i]).Some? && IsAt(s, PatchPath(patches[i]).value)
  }

  /** The sections no patch speaks about, in order. */
  function Unaddressed(sections: seq<Section>, patches: seq<NodePatch>): seq<Section> {
    if sections == [] then []
    else (if Addressed(sections[0], patches) then [] else [sections[0]]) + Unaddressed(sections[1..], patches)
  }

  lemma UpdatedStays(s: Section, p: NodePatch, path: string)
    requires IsAt(s, path)
    ensures IsAt(Updated(s, p), path)
  {
    hide NodePath, SetProperties;
  }

  lemma AddressedByPatch(s: Section, patches: seq<NodePatch>, i: nat, path: string)
    requires i < |patches| && PatchPath(patches[i]) == Some(path) && IsAt(s, path)
    ensures Addressed(s, patches)
  {
    hide PatchPath, IsAt;
  }

  lemma UnaddressedHead(head: Section, rest: seq<Section>, patches: seq<NodePatch>)
    ensures Unaddressed([head] + rest, patches) ==
              (if Addressed(head, patches) then [] else [head]) + Unaddressed(rest, patches)
  {
    assert ([head] + rest)[1..] == rest;
  }

  /** One patch changes nothing among them, but for a node it creates at a path no patch speaks about. */
  lemma {:induction false} ApplyKeepsUnaddressed(
    sections: seq<Section>, patches: seq<NodePatch>, i: nat, path: string)
    requires i < |patches| && PatchPath(patches[i]) == Some(path)
    ensures var p := patches[i];
            var created := !p.delete && Lookup(sections, path).None? && !Addressed(Created(p, path), patches);
            Unaddressed(ApplyAt(sections, p, path), patches) ==
              Unaddressed(sections, patches) + if created then [Created(p, path)] else []
  {
    var p := patches[i];
    hide PatchPath, Addressed, IsAt, Created, Updated;
    if sections == [] {
      UnaddressedHead(Created(p, path), [], patches);
      assert [Created(p, path)] + [] == [Created(p, path)];
    } else if IsAt(sections[0], path) {
      hide ApplyAt;
      AtHead(sections, p, path);
      assert Lookup(sections, path).Some?;
      UpdatedStays(sections[0], p, path);
      AddressedByPatch(sections[0], patches, i, path);
      AddressedByPatch(Updated(sections[0], p), patches, i, path);
      UnaddressedHead(Updated(sections[0], p), sections[1..], patches);
    } else {
      PastHead(sections, p, path);
      ApplyKeepsUnaddressed(sections[1..], patches, i, path);
      hide ApplyAt;
      UnaddressedHead(sections[0], ApplyAt(sections[1..], p, path), patches);
    }
  }

  /**
   * The frame: sections no patch speaks about keep header, lines and relative order, and come before any
   * new ones; if every created node is found again, there are no new ones.
   */
  lemma {:induction false} MergeFrame(sections: seq<Section>, patches: seq<NodePatch>, n: nat)
    requires n <= |patches|
    ensures Unaddressed(sections, patches) <= Unaddressed(ApplyAll(sections, patches[..n]), patches)
    ensures (forall i | 0 <= i < |patches| :: FoundAgain(patches[i])) ==>
              Unaddressed(ApplyAll(sections, patches[..n]), patches) == Unaddressed(sections, patches)
    decreases n
  {
    hide FoundAgain, PatchPath, Unaddressed, ApplyAt, Addressed, Created;
    if n > 0 {
      MergeFrame(sections, patches, n - 1);
      assert patches[..n][..n - 1] == patches[..n - 1];
      if PatchPath(patches[n - 1]).Some? {
        var path := PatchPath(patches[n - 1]).value;
        ApplyKeepsUnaddressed(ApplyAll(sections, patches[..n - 1]), patches, n - 1, path);
        if FoundAgain(patches[n - 1]) && !patches[n - 1].delete {
          FoundIsAddressed(patches, n - 1, path);
        }
      }
    }
  }

  lemma FoundIsAddressed(patches: seq<NodePatch>, i: nat, path: string)
    requires i < |patches| && PatchPath(patches[i]) == Some(path) && FoundAgain(patches[i]) && !patches[i].delete
    ensures Addressed(Created(patches[i], path), patches)
  {
    hide PatchPath, NodePath, HeaderFor, SetProperties;
    assert IsAt(Created(patches[i], path), path);
  }
}
