/** Section headers: the attribute scanner, and the node path a header stands for. */
module TscnHeaders {
  import opened Wrappers

  predicate IsWordChar(c: char) {
    'a' <= c <= 'z' || 'A' <= c <= 'Z' || '0' <= c <= '9' || c == '_'
  }

  predicate IsWord(s: string) {
    forall i | 0 <= i < |s| :: IsWordChar(s[i])
  }

  /** How many word characters the text starts with. */
  function WordLength(s: string): (n: nat)
    ensures n <= |s| && IsWord(s[..n]) && (n == |s| || !IsWordChar(s[n]))
  {
    if s == "" || !IsWordChar(s[0]) then 0
    else
      assert forall i | 0 < i < |s| :: s[i] == s[1..][i - 1];
      1 + WordLength(s[1..])
  }

  function IndexOf(s: string, c: char): (n: nat)
    ensures n <= |s| && c !in s[..n] && (n == |s| || s[n] == c)
  {
    if s == "" || s[0] == c then 0 else 1 + IndexOf(s[1..], c)
  }

  datatype Attribute = Attribute(name: string, value: string, length: nat)

  /** The match of word="value" at the start of the text, if there is one. */
  function AttributeHere(s: string): (a: Option<Attribute>)
    ensures a.Some? ==> 0 < a.value.length <= |s|
  {
    var n := WordLength(s);
    if n == 0 || n + 2 > |s| || s[n] != '=' || s[n + 1] != '"' then None
    else
      var rest := s[n + 2..];
      var k := IndexOf(rest, '"');
      if k == |rest| then None else Some(Attribute(s[..n], rest[..k], n + 2 + k + 1))
  }

  /** All matches from left to right, none overlapping; a later one overrides an earlier one of the same name. */
  function Attributes(s: string): map<string, string> {
    if s == "" then map[]
    else
      var a := AttributeHere(s);
      if a.Some? then map[a.value.name := a.value.value] + Attributes(s[a.value.length..])
      else Attributes(s[1..])
  }

  lemma NextAttribute(s: string)
    requires s != ""
    ensures var a := AttributeHere(s);
            Attributes(s) == if a.Some? then map[a.value.name := a.value.value] + Attributes(s[a.value.length..])
                             else Attributes(s[1..])
  {
  }

  lemma OneMore(attrs: map<string, string>, name: string, value: string, rest: map<string, string>)
    ensures attrs[name := value] + rest == attrs + (map[name := value] + rest)
  {
  }

  method ParseHeaderAttrs(header: string) returns (attrs: map<string, string>)
    ensures attrs == Attributes(header)
  {
    hide AttributeHere;
    attrs := map[];
    var i := 0;
    while i < |header|
      invariant i <= |header|
      invariant attrs + Attributes(header[i..]) == Attributes(header)
    {
      var rest := header[i..];
      NextAttribute(rest);
      hide Attributes;
      var a := AttributeHere(rest);
      if a.Some? {
        assert rest[a.value.length..] == header[i + a.value.length..];
        OneMore(attrs, a.value.name, a.value.value, Attributes(header[i + a.value.length..]));
        attrs := attrs[a.value.name := a.value.value];
        i := i + a.value.length;
      } else {
        assert rest[1..] == header[i + 1..];
        i := i + 1;
      }
    }
    assert attrs + map[] == attrs;
  }

  predicate StartsWith(s: string, prefix: string) {
    |prefix| <= |s| && s[..|prefix|] == prefix
  }

  function Get(attrs: map<string, string>, name: string): string {
    if name in attrs then attrs[name] else ""
  }

  /** The path of a node: its name at the top of the scene, else its parent's path, a slash and its name. */
  function PathFrom(name: string, parent: string): Option<string> {
    if name == "" then None
    else if parent == "" || parent == "." then Some(name)
    else
      var path := parent + "/" + name;
      Some(if StartsWith(path, "./") then path[2..] else path)
  }

  function NodePath(header: string): Option<string> {
    if !StartsWith(header, "[node ") then None
    else PathFrom(Get(Attributes(header), "name"), Get(Attributes(header), "parent"))
  }

  function NodeHeader(name: string, typ: string, parent: string): string {
    "[node " + Printed("name", name) + " " + Printed("type", typ) + " " + Printed("parent", parent) + "]"
  }

  function Printed(name: string, value: string): string {
    name + "=\"" + value + "\""
  }

  // ---- Scanning printed headers ----

  lemma {:induction false} WordLengthIs(word: string, rest: string)
    requires IsWord(word) && rest != "" && !IsWordChar(rest[0])
    ensures WordLength(word + rest) == |word|
  {
    if word == "" {
      assert word + rest == rest;
    } else {
      assert (word + rest)[1..] == word[1..] + rest;
      WordLengthIs(word[1..], rest);
    }
  }

  lemma {:induction false} IndexOfIs(s: string, c: char, rest: string)
    requires c !in s
    ensures IndexOf(s + [c] + rest, c) == |s|
  {
    var all := s + [c] + rest;
    if s == "" {
      assert all[0] == c;
    } else {
      assert all[1..] == s[1..] + [c] + rest;
      IndexOfIs(s[1..], c, rest);
    }
  }

  /** A word that no equals sign follows holds no attribute. */
  lemma {:induction false} ScanPast(word: string, c: char, rest: string)
    requires IsWord(word) && !IsWordChar(c) && c != '='
    ensures Attributes(word + [c] + rest) == Attributes(rest)
  {
    var s := word + [c] + rest;
    assert s == word + ([c] + rest);
    WordLengthIs(word, [c] + rest);
    assert s[|word|] == c;
    if word == "" {
      assert s[1..] == rest;
    } else {
      assert s[1..] == word[1..] + [c] + rest;
      ScanPast(word[1..], c, rest);
    }
  }

  /** The scanner meets the printed attribute where it starts. */
  lemma AttributeThere(name: string, value: string, rest: string)
    requires name != "" && IsWord(name) && '"' !in value
    ensures AttributeHere(Printed(name, value) + rest) == Some(Attribute(name, value, |Printed(name, value)|))
  {
    var s := Printed(name, value) + rest;
    var tail := "=\"" + value + "\"" + rest;
    var after := value + ['"'] + rest;
    var n := |name|;
    assert s == name + tail && s[..n] == name;
    assert s[n] == tail[0] == '=' && s[n + 1] == tail[1] == '"' && s[n + 2..] == after && after[..|value|] == value;
    WordLengthIs(name, tail);
    IndexOfIs(value, '"', rest);
    hide WordLength, IndexOf, IsWord, Printed;
  }

  lemma ScanAttribute(name: string, value: string, rest: string)
    requires name != "" && IsWord(name) && '"' !in value
    ensures Attributes(Printed(name, value) + rest) == map[name := value] + Attributes(rest)
  {
    AttributeThere(name, value, rest);
    var p := Printed(name, value);
    assert p != "";
    hide AttributeHere, Printed, IsWord;
    assert (p + rest)[|p|..] == rest;
  }

  lemma PlainNodeHeader(name: string, typ: string, parent: string)
    requires '"' !in name && '"' !in typ && '"' !in parent
    ensures Attributes(NodeHeader(name, typ, parent)) == map["name" := name, "type" := typ, "parent" := parent]
  {
    hide Attributes, Printed;
    var afterType := " " + Printed("parent", parent) + "]";
    var afterName := " " + Printed("type", typ) + afterType;
    ScanPast("", '[', "node" + " " + (Printed("name", name) + afterName));
    ScanPast("node", ' ', Printed("name", name) + afterName);
    assert NodeHeader(name, typ, parent) == "" + "[" + ("node" + " " + (Printed("name", name) + afterName));
    ScanAttribute("name", name, afterName);
    ScanNext("type", typ, afterType);
    ScanNext("parent", parent, "]");
    ScanPast("", ']', "");
    assert "]" == "" + "]" + "";
    NoAttributes();
  }

  /** Nothing that is read from a header contains a quote. */
  lemma {:induction false} ReadValuesAreUnquoted(s: string)
    ensures forall k | k in Attributes(s) :: '"' !in Attributes(s)[k]
  {
    hide WordLength, IndexOf;
    if s != "" {
      var a := AttributeHere(s);
      ReadValuesAreUnquoted(if a.Some? then s[a.value.length..] else s[1..]);
    }
  }

  /** A printed header reads back as its three attributes exactly if none of them contains a quote. */
  lemma AttributesOfNodeHeader(name: string, typ: string, parent: string)
    ensures Attributes(NodeHeader(name, typ, parent)) == map["name" := name, "type" := typ, "parent" := parent] <==>
              '"' !in name && '"' !in typ && '"' !in parent
  {
    var read := map["name" := name, "type" := typ, "parent" := parent];
    if '"' !in name && '"' !in typ && '"' !in parent {
      PlainNodeHeader(name, typ, parent);
    } else {
      ReadValuesAreUnquoted(NodeHeader(name, typ, parent));
      hide Attributes, NodeHeader;
      assert read["name"] == name && read["type"] == typ && read["parent"] == parent;
    }
  }

  lemma ScanNext(name: string, value: string, rest: string)
    requires name != "" && IsWord(name) && '"' !in value
    ensures Attributes(" " + Printed(name, value) + rest) == map[name := value] + Attributes(rest)
  {
    assert " " + Printed(name, value) + rest == "" + " " + (Printed(name, value) + rest);
    ScanPast("", ' ', Printed(name, value) + rest);
    ScanAttribute(name, value, rest);
  }

  lemma NoAttributes()
    ensures Attributes("") == map[]
  {
  }

  /** A printed header stands for the path its name and parent make. */
  lemma PathOfNodeHeader(name: string, typ: string, parent: string)
    requires '"' !in name && '"' !in typ && '"' !in parent
    ensures NodePath(NodeHeader(name, typ, parent)) == PathFrom(name, parent)
  {
    PlainNodeHeader(name, typ, parent);
    var h := NodeHeader(name, typ, parent);
    assert h[..6] == "[node ";
  }

  /**
   * The path of any header: none unless it is a node with a name; the name alone if it has no parent, as the
   * root of every scene, or is right below the root; else parent, slash and name, without a leading "./".
   */
  lemma NodePathExactly(header: string)
    ensures var (name, parent) := (Get(Attributes(header), "name"), Get(Attributes(header), "parent"));
            (NodePath(header).Some? <==> |header| >= 6 && header[..6] == "[node " && name != "") &&
            (NodePath(header).Some? ==>
               (parent in {"", "."} ==> NodePath(header).value == name) &&
               (parent !in {"", "."} ==>
                  var path := parent + "/" + name;
                  if path[..2] == "./" then "./" + NodePath(header).value == path else NodePath(header).value == path))
  {
    hide Attributes;
    var (name, parent) := (Get(Attributes(header), "name"), Get(Attributes(header), "parent"));
    var path := parent + "/" + name;
    assert |path| >= 2 ==> path == path[..2] + path[2..];
  }

  /** The header of a scene root, which has no parent, stands for its name. */
  lemma RootPath(name: string, typ: string)
    requires name != "" && '"' !in name && '"' !in typ
    ensures NodePath("[node " + Printed("name", name) + " " + Printed("type", typ) + "]") == Some(name)
  {
    var h := "[node " + Printed("name", name) + " " + Printed("type", typ) + "]";
    RootAttributes(name, typ);
    assert h[..6] == "[node ";
    hide Attributes, Printed;
  }

  lemma RootAttributes(name: string, typ: string)
    requires '"' !in name && '"' !in typ
    ensures Attributes("[node " + Printed("name", name) + " " + Printed("type", typ) + "]") ==
              map["name" := name, "type" := typ]
  {
    hide Attributes, Printed;
    var afterName := " " + Printed("type", typ) + "]";
    ScanPast("", '[', "node" + " " + (Printed("name", name) + afterName));
    ScanPast("node", ' ', Printed("name", name) + afterName);
    assert "[node " + Printed("name", name) + " " + Printed("type", typ) + "]" ==
           "" + "[" + ("node" + " " + (Printed("name", name) + afterName));
    ScanAttribute("name", name, afterName);
    ScanNext("type", typ, "]");
    ScanPast("", ']', "");
    assert "]" == "" + "]" + "";
    NoAttributes();
  }

  // ---- Paths given whole ----

  function LastSlash(p: string): (n: nat)
    requires '/' in p
    ensures n < |p| && p[n] == '/' && '/' !in p[n + 1..]
  {
    if p[|p| - 1] == '/' then |p| - 1
    else
      assert p == p[..|p| - 1] + [p[|p| - 1]];
      LastSlash(p[..|p| - 1])
  }

  function NameIn(p: string): string {
    if '/' in p then p[LastSlash(p) + 1..] else p
  }

  function ParentIn(p: string): string {
    if '/' in p then p[..LastSlash(p)] else "."
  }

  /** Non-empty, not ending in a slash, not starting with "./", and not a name right below the root slash. */
  predicate IsCanonical(p: string) {
    p != "" && p[|p| - 1] != '/' && !StartsWith(p, "./") && !('/' in p && LastSlash(p) == 0)
  }

  /**
   * A node created for a path, its name and parent taken from the path, is found at that path exactly if
   * the path is canonical and has no quote.
   */
  lemma CreatedIsFoundExactly(p: string, typ: string)
    requires '"' !in typ
    ensures NodePath(NodeHeader(NameIn(p), typ, ParentIn(p))) == Some(p) <==> IsCanonical(p) && '"' !in p
  {
    if '"' in p {
      PathsAreUnquoted(NodeHeader(NameIn(p), typ, ParentIn(p)));
    } else {
      PathOfNodeHeader(NameIn(p), typ, ParentIn(p));
      hide NodePath, NodeHeader;
      PathOfParts(p);
    }
  }

  lemma PathsAreUnquoted(header: string)
    ensures NodePath(header).Some? ==> '"' !in NodePath(header).value
  {
    ReadValuesAreUnquoted(header);
    hide Attributes;
  }

  lemma PathOfParts(p: string)
    ensures PathFrom(NameIn(p), ParentIn(p)) == Some(p) <==> IsCanonical(p)
  {
    if '/' in p {
      var n := LastSlash(p);
      var parent, name := p[..n], p[n + 1..];
      assert p == parent + "/" + name;
      assert parent == "." <==> n == 1 && StartsWith(p, "./");
    } else if |p| >= 2 {
      assert p[1] in p;
    }
  }
}
