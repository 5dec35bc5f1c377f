/** Property lines of a node section, and overriding them. */
module TscnProperties {
  import opened Wrappers
  import opened TscnHeaders

  /** White space and line ends as regular expressions of the language see them. */
  predicate IsBlankChar(c: char) {
    var n := c as int;
    9 <= n <= 13 || n == 32 || n == 0xA0 || n == 0x1680 || 0x2000 <= n <= 0x200A || n == 0x2028 || n == 0x2029 ||
    n == 0x202F || n == 0x205F || n == 0x3000 || n == 0xFEFF
  }

  predicate IsLineEnd(c: char) {
    c == '\n' || c == '\r' || c as int == 0x2028 || c as int == 0x2029
  }

  predicate OneLine(s: string) {
    forall i | 0 <= i < |s| :: !IsLineEnd(s[i])
  }

  predicate IsBlank(s: string) {
    forall i | 0 <= i < |s| :: IsBlankChar(s[i])
  }

  function SkipBlank(s: string): (r: string)
    ensures r == "" || !IsBlankChar(r[0])
  {
    if s != "" && IsBlankChar(s[0]) then SkipBlank(s[1..]) else s
  }

  predicate IsKeyStart(c: char) {
    IsWordChar(c) && !('0' <= c <= '9')
  }

  predicate IsKeyChar(c: char) {
    IsWordChar(c) || c == '/'
  }

  predicate IsKey(s: string) {
    s != "" && IsKeyStart(s[0]) && forall i | 0 <= i < |s| :: IsKeyChar(s[i])
  }

  function RunLength(s: string): (n: nat)
    ensures n <= |s| && (n == |s| || !IsKeyChar(s[n]))
    ensures forall i | 0 <= i < n :: IsKeyChar(s[i])
  {
    if s == "" || !IsKeyChar(s[0]) then 0
    else
      assert forall i | 0 < i < |s| :: s[i] == s[1..][i - 1];
      1 + RunLength(s[1..])
  }

  /** The key of a line: an identifier at its start with an equals sign after it. */
  function KeyOf(line: string): (k: Option<string>)
    ensures k.Some? ==> IsKey(k.value) && k.value <= line
  {
    var n := if line != "" && IsKeyStart(line[0]) then RunLength(line) else 0;
    var rest := SkipBlank(line[n..]);
    if n > 0 && rest != "" && rest[0] == '=' then Some(line[..n]) else None
  }

  /** What follows the equals sign, without leading white space. */
  function ValueOf(line: string): (v: string)
    requires KeyOf(line).Some?
    ensures SkipBlank(v) == v
  {
    SkipBlank(SkipBlank(line[|KeyOf(line).value|..])[1..])
  }

  datatype Property = Property(key: string, value: string)

  /** A line that has a key but whose value spans line ends is no property. */
  function PropertyOf(line: string): Option<Property> {
    if KeyOf(line).Some? && OneLine(ValueOf(line)) then Some(Property(KeyOf(line).value, ValueOf(line))) else None
  }

  // ---- Ordered tables ----

  function SetEntry(t: seq<Property>, p: Property): seq<Property> {
    if t == [] then [p]
    else if t[0].key == p.key then [p] + t[1..]
    else [t[0]] + SetEntry(t[1..], p)
  }

  function SetEntries(t: seq<Property>, props: seq<Property>): seq<Property> {
    if props == [] then t
    else SetEntry(SetEntries(t, props[..|props| - 1]), props[|props| - 1])
  }

  function TableOf(lines: seq<string>): seq<Property> {
    if lines == [] then []
    else
      var t, p := TableOf(lines[..|lines| - 1]), PropertyOf(lines[|lines| - 1]);
      if p.Some? then SetEntry(t, p.value) else t
  }

  function Render(p: Property): string {
    p.key + " = " + p.value
  }

  function RenderAll(t: seq<Property>): (lines: seq<string>)
    ensures |lines| == |t| && forall i | 0 <= i < |t| :: lines[i] == Render(t[i])
  {
    seq(|t|, i requires 0 <= i < |t| => Render(t[i]))
  }

  /** Lines that neither have a key nor are blank. */
  function OtherLines(lines: seq<string>): seq<string> {
    if lines == [] then []
    else
      var line := lines[|lines| - 1];
      OtherLines(lines[..|lines| - 1]) + if KeyOf(line).Some? || IsBlank(line) then [] else [line]
  }

  function SetProperties(lines: seq<string>, props: seq<Property>): seq<string> {
    RenderAll(SetEntries(TableOf(lines), props)) + OtherLines(lines)
  }

  // ---- The loops, with a map and the order of its keys ----

  ghost predicate Tied(t: seq<Property>, values: map<string, string>, order: seq<string>) {
    |t| == |order| &&
    (forall i | 0 <= i < |t| :: t[i].key == order[i] && order[i] in values && values[order[i]] == t[i].value) &&
    (forall k | k in values :: k in order) &&
    forall i, j | 0 <= i < j < |order| :: order[i] != order[j]
  }

  lemma {:induction false} SetEntryAt(t: seq<Property>, p: Property, i: nat)
    requires forall j | 0 <= j < i && j < |t| :: t[j].key != p.key
    requires i <= |t| && (i < |t| ==> t[i].key == p.key)
    ensures SetEntry(t, p) == if i < |t| then t[i := p] else t + [p]
  {
    if i > 0 {
      SetEntryAt(t[1..], p, i - 1);
      assert t == [t[0]] + t[1..];
    }
  }

  method PutKey(values: map<string, string>, order: seq<string>, p: Property, ghost t: seq<Property>)
    returns (values': map<string, string>, order': seq<string>)
    requires Tied(t, values, order)
    ensures Tied(SetEntry(t, p), values', order')
  {
    order' := if p.key in values then order else order + [p.key];
    values' := values[p.key := p.value];
    if p.key in values {
      TiedUpdate(t, values, order, p);
    } else {
      TiedAppend(t, values, order, p);
    }
  }

  lemma TiedUpdate(t: seq<Property>, values: map<string, string>, order: seq<string>, p: Property)
    requires Tied(t, values, order) && p.key in values
    ensures Tied(SetEntry(t, p), values[p.key := p.value], order)
  {
    hide SetEntry;
    var i :| 0 <= i < |order| && order[i] == p.key;
    SetEntryAt(t, p, i);
  }

  lemma TiedAppend(t: seq<Property>, values: map<string, string>, order: seq<string>, p: Property)
    requires Tied(t, values, order) && p.key !in values
    ensures Tied(SetEntry(t, p), values[p.key := p.value], order + [p.key])
  {
    hide SetEntry;
    SetEntryAt(t, p, |t|);
  }

  lemma NothingTied()
    ensures Tied([], map[], [])
  {
  }

  lemma TiedLines(t: seq<Property>, values: map<string, string>, order: seq<string>)
    requires Tied(t, values, order)
    ensures |t| == |order|
    ensures forall i | 0 <= i < |order| :: order[i] in values && order[i] + " = " + values[order[i]] == Render(t[i])
  {
  }

  method SetPropertyLines(lines: seq<string>, props: seq<Property>) returns (out: seq<string>)
    ensures out == SetProperties(lines, props)
  {
    hide Tied, KeyOf, PropertyOf, IsBlank, SetEntry;
    var values: map<string, string> := map[];
    var order: seq<string> := [];
    NothingTied();
    ghost var t: seq<Property> := [];
    for i := 0 to |lines|
      invariant t == TableOf(lines[..i]) && Tied(t, values, order)
    {
      assert lines[..i + 1][..i] == lines[..i];
      var p := PropertyOf(lines[i]);
      if p.Some? {
        values, order := PutKey(values, order, p.value, t);
        t := SetEntry(t, p.value);
      }
    }
    assert lines[..|lines|] == lines;
    for i := 0 to |props|
      invariant t == SetEntries(TableOf(lines), props[..i]) && Tied(t, values, order)
    {
      assert props[..i + 1][..i] == props[..i];
      values, order := PutKey(values, order, props[i], t);
      t := SetEntry(t, props[i]);
    }
    assert props[..|props|] == props;
    out := [];
    TiedLines(t, values, order);
    for i := 0 to |order|
      invariant out == RenderAll(t)[..i]
    {
      out := out + [order[i] + " = " + values[order[i]]];
    }
    for i := 0 to |lines|
      invariant out == RenderAll(t) + OtherLines(lines[..i])
    {
      assert lines[..i + 1][..i] == lines[..i];
      if KeyOf(lines[i]).None? && !IsBlank(lines[i]) {
        out := out + [lines[i]];
      }
    }
  }

  // ---- Tables as maps ----

  predicate Distinct(t: seq<Property>) {
    forall i, j | 0 <= i < j < |t| :: t[i].key != t[j].key
  }

  function Keys(t: seq<Property>): (keys: seq<string>)
    ensures |keys| == |t| && forall i | 0 <= i < |t| :: keys[i] == t[i].key
  {
    seq(|t|, i requires 0 <= i < |t| => t[i].key)
  }

  /** The values of the keys; of several entries with one key the last counts. */
  function AsMap(t: seq<Property>): map<string, string> {
    if t == [] then map[] else AsMap(t[..|t| - 1])[t[|t| - 1].key := t[|t| - 1].value]
  }

  lemma {:induction false} MapOfDistinct(t: seq<Property>)
    requires Distinct(t)
    ensures forall i | 0 <= i < |t| :: t[i].key in AsMap(t) && AsMap(t)[t[i].key] == t[i].value
    ensures forall k | k in AsMap(t) :: k in Keys(t)
  {
    if t != [] {
      var n := |t| - 1;
      MapOfDistinct(t[..n]);
      hide Keys;
      assert Keys(t) == Keys(t[..n]) + [t[n].key];
    }
  }

  lemma TablesEqual(a: seq<Property>, b: seq<Property>)
    requires Distinct(a) && Keys(a) == Keys(b) && AsMap(a) == AsMap(b)
    ensures a == b
  {
    hide AsMap;
    assert Distinct(b) by {
      assert forall i | 0 <= i < |b| :: Keys(b)[i] == b[i].key;
    }
    MapOfDistinct(a);
    MapOfDistinct(b);
    forall i | 0 <= i < |a| ensures a[i] == b[i] {
      assert Keys(a)[i] == Keys(b)[i];
    }
  }

  lemma {:induction false} AsMapUpdated(t: seq<Property>, i: nat, p: Property)
    requires i < |t| && t[i].key == p.key && forall j | i < j < |t| :: t[j].key != p.key
    ensures AsMap(t[i := p]) == AsMap(t)[p.key := p.value]
  {
    var n := |t| - 1;
    if i == n {
      assert t[i := p][..n] == t[..n];
    } else {
      AsMapUpdated(t[..n], i, p);
      assert t[i := p][..n] == t[..n][i := p];
    }
  }

  predicate SetInto(t: seq<Property>, p: Property, r: seq<Property>) {
    Distinct(r) && AsMap(r) == AsMap(t)[p.key := p.value] &&
    Keys(r) == if p.key in Keys(t) then Keys(t) else Keys(t) + [p.key]
  }

  lemma SetEntryEffect(t: seq<Property>, p: Property)
    requires Distinct(t)
    ensures SetInto(t, p, SetEntry(t, p))
  {
    hide SetEntry, AsMap;
    if p.key in Keys(t) {
      var i :| 0 <= i < |t| && Keys(t)[i] == p.key;
      SetEntryAt(t, p, i);
      AsMapUpdated(t, i, p);
      assert Keys(t[i := p]) == Keys(t);
    } else {
      forall j | 0 <= j < |t| ensures t[j].key != p.key {
        assert Keys(t)[j] == t[j].key;
      }
      SetEntryAt(t, p, |t|);
      AsMapAppended(t, p);
      assert Keys(t + [p]) == Keys(t) + [p.key];
    }
  }

  lemma AsMapAppended(t: seq<Property>, p: Property)
    ensures AsMap(t + [p]) == AsMap(t)[p.key := p.value]
  {
    assert (t + [p])[..|t|] == t;
  }

  lemma {:induction false} SetEntriesMap(t: seq<Property>, props: seq<Property>)
    requires Distinct(t)
    ensures Distinct(SetEntries(t, props)) && AsMap(SetEntries(t, props)) == AsMap(t) + AsMap(props)
  {
    hide SetEntry, Keys, Distinct;
    if props == [] {
      assert AsMap(t) + map[] == AsMap(t);
    } else {
      var n := |props| - 1;
      SetEntriesMap(t, props[..n]);
      SetEntryEffect(SetEntries(t, props[..n]), props[n]);
      AddThenPut(AsMap(t), AsMap(props[..n]), props[n]);
    }
  }

  lemma AddThenPut(a: map<string, string>, b: map<string, string>, p: Property)
    ensures a + b[p.key := p.value] == (a + b)[p.key := p.value]
  {
  }

  predicate HasKeys(t: seq<Property>, props: seq<Property>) {
    forall i | 0 <= i < |props| :: props[i].key in Keys(t)
  }

  /** New keys go to the end; setting keys that are there keeps the order. */
  lemma {:induction false} SetEntriesKeys(t: seq<Property>, props: seq<Property>)
    requires Distinct(t)
    ensures Keys(t) <= Keys(SetEntries(t, props)) && HasKeys(SetEntries(t, props), props)
    ensures HasKeys(t, props) ==> Keys(SetEntries(t, props)) == Keys(t)
  {
    hide SetEntry, AsMap, Keys, Distinct;
    if props != [] {
      var n := |props| - 1;
      var before := SetEntries(t, props[..n]);
      SetEntriesMap(t, props[..n]);
      SetEntriesKeys(t, props[..n]);
      SetEntryEffect(before, props[n]);
      forall i | 0 <= i < |props| ensures props[i].key in Keys(SetEntries(t, props)) {
        if i < n {
          assert props[..n][i].key in Keys(before);
        }
      }
    }
  }

  predicate WellFormed(t: seq<Property>) {
    forall i | 0 <= i < |t| :: IsKey(t[i].key) && OneLine(t[i].value)
  }

  predicate ValuesTrimmed(t: seq<Property>) {
    forall i | 0 <= i < |t| :: SkipBlank(t[i].value) == t[i].value
  }

  lemma {:induction false} SetEntryMembers(t: seq<Property>, p: Property)
    ensures forall e | e in SetEntry(t, p) :: e == p || e in t
  {
    if t != [] && t[0].key != p.key {
      SetEntryMembers(t[1..], p);
    }
  }

  lemma SetEntryKeepsForm(t: seq<Property>, p: Property)
    ensures WellFormed(t) && IsKey(p.key) && OneLine(p.value) ==> WellFormed(SetEntry(t, p))
    ensures ValuesTrimmed(t) && SkipBlank(p.value) == p.value ==> ValuesTrimmed(SetEntry(t, p))
  {
    hide IsKey, OneLine, SkipBlank, SetEntry;
    SetEntryMembers(t, p);
    var r := SetEntry(t, p);
    forall i | 0 <= i < |r| ensures r[i] == p || r[i] in t {
      assert r[i] in r;
    }
  }

  lemma {:induction false} SetEntriesKeepForm(t: seq<Property>, props: seq<Property>)
    requires WellFormed(t) && WellFormed(props)
    ensures WellFormed(SetEntries(t, props))
  {
    hide IsKey, OneLine, SkipBlank, SetEntry;
    if props != [] {
      SetEntriesKeepForm(t, props[..|props| - 1]);
      SetEntryKeepsForm(SetEntries(t, props[..|props| - 1]), props[|props| - 1]);
    }
  }

  lemma {:induction false} TableIsDistinct(lines: seq<string>)
    ensures Distinct(TableOf(lines)) && WellFormed(TableOf(lines)) && ValuesTrimmed(TableOf(lines))
  {
    hide KeyOf, ValueOf, IsKey, OneLine, SkipBlank, SetEntry, AsMap, Keys;
    if lines != [] {
      TableIsDistinct(lines[..|lines| - 1]);
      var p := PropertyOf(lines[|lines| - 1]);
      if p.Some? {
        SetEntryEffect(TableOf(lines[..|lines| - 1]), p.value);
        SetEntryKeepsForm(TableOf(lines[..|lines| - 1]), p.value);
      }
    }
  }

  // ---- Reading rendered lines back ----

  lemma {:induction false} RunLengthIs(key: string, rest: string)
    requires (forall i | 0 <= i < |key| :: IsKeyChar(key[i])) && rest != "" && !IsKeyChar(rest[0])
    ensures RunLength(key + rest) == |key|
  {
    hide IsKeyChar;
    if key == "" {
      assert key + rest == rest;
    } else {
      assert (key + rest)[1..] == key[1..] + rest;
      RunLengthIs(key[1..], rest);
    }
  }

  lemma SkipOneBlank(s: string)
    ensures SkipBlank(" " + s) == SkipBlank(s)
    ensures s != "" && s[0] == '=' ==> SkipBlank(s) == s
  {
    assert (" " + s)[1..] == s;
  }

  lemma KeyOfRendered(p: Property)
    requires IsKey(p.key)
    ensures KeyOf(Render(p)) == Some(p.key) && SkipBlank(Render(p)[|p.key|..]) == "= " + p.value
  {
    var rest := " = " + p.value;
    var line := Render(p);
    assert line == p.key + rest;
    RunLengthIs(p.key, rest);
    assert line[..|p.key|] == p.key && line[|p.key|..] == rest;
    assert rest == " " + ("= " + p.value);
    SkipOneBlank("= " + p.value);
  }

  function Stripped(p: Property): Property {
    p.(value := SkipBlank(p.value))
  }

  lemma {:induction false} SkipBlankKeepsLine(s: string)
    requires OneLine(s)
    ensures OneLine(SkipBlank(s))
  {
    hide IsBlankChar, IsLineEnd;
    if s != "" && IsBlankChar(s[0]) {
      SkipBlankKeepsLine(s[1..]);
    }
  }

  lemma ValueOfRendered(p: Property)
    requires IsKey(p.key)
    ensures KeyOf(Render(p)) == Some(p.key) && ValueOf(Render(p)) == SkipBlank(p.value)
  {
    hide KeyOf, IsKey, SkipBlank, Render;
    KeyOfRendered(p);
    SkipOneBlank(p.value);
    assert KeyOf(Render(p)).value == p.key;
    var after := SkipBlank(Render(p)[|p.key|..]);
    assert after[1..] == " " + p.value;
  }

  /** A rendered property is read back with its value stripped of leading white space. */
  lemma PropertyOfRendered(p: Property)
    requires IsKey(p.key) && OneLine(p.value)
    ensures KeyOf(Render(p)).Some? && PropertyOf(Render(p)) == Some(Stripped(p))
  {
    hide KeyOf, ValueOf, IsKey, OneLine, SkipBlank, Render;
    ValueOfRendered(p);
    SkipBlankKeepsLine(p.value);
  }

  function StripValues(t: seq<Property>): (r: seq<Property>)
    ensures |r| == |t| && forall i | 0 <= i < |t| :: r[i] == Stripped(t[i])
  {
    seq(|t|, i requires 0 <= i < |t| => Stripped(t[i]))
  }

  lemma {:induction false} TableOfRendered(t: seq<Property>)
    requires WellFormed(t) && Distinct(t)
    ensures TableOf(RenderAll(t)) == StripValues(t) && OtherLines(RenderAll(t)) == []
  {
    hide KeyOf, PropertyOf, IsKey, OneLine, IsBlank, SkipBlank, SetEntry, RenderAll, StripValues, Render;
    if t != [] {
      var n := |t| - 1;
      TableOfRendered(t[..n]);
      assert RenderAll(t)[..n] == RenderAll(t[..n]);
      PropertyOfRendered(t[n]);
      SetEntryAt(StripValues(t[..n]), Stripped(t[n]), n);
      assert StripValues(t) == StripValues(t[..n]) + [Stripped(t[n])];
    }
  }

  lemma OneMoreLine(lines: seq<string>, line: string)
    ensures OtherLines(lines + [line]) == OtherLines(lines) + if KeyOf(line).Some? || IsBlank(line) then [] else [line]
    ensures KeyOf(line).None? ==> TableOf(lines + [line]) == TableOf(lines)
  {
    hide KeyOf, IsBlank, ValueOf;
    assert (lines + [line])[..|lines|] == lines;
  }

  lemma {:induction false} OthersAddNothing(lines: seq<string>, more: seq<string>)
    ensures TableOf(lines + OtherLines(more)) == TableOf(lines)
    ensures OtherLines(lines + OtherLines(more)) == OtherLines(lines) + OtherLines(more)
  {
    hide KeyOf, IsBlank, PropertyOf, TableOf, OtherLines;
    if more == [] {
      NoOtherLines();
      assert lines + [] == lines;
    } else {
      var n := |more| - 1;
      OthersAddNothing(lines, more[..n]);
      var kept, line := OtherLines(more[..n]), more[n];
      assert more == more[..n] + [line];
      OneMoreLine(more[..n], line);
      if KeyOf(line).Some? || IsBlank(line) {
        assert kept + [] == kept;
      } else {
        OneMoreLine(lines + kept, line);
        assert lines + (kept + [line]) == (lines + kept) + [line];
      }
    }
  }

  lemma NoOtherLines()
    ensures OtherLines([]) == []
  {
  }

  // ---- What setting properties means ----

  /**
   * The properties of the result are those of the lines overridden by the given ones, one line per
   * key; the remaining lines are kept in order, blank ones dropped.
   */
  lemma PropertiesOverridden(lines: seq<string>, props: seq<Property>)
    requires WellFormed(props)
    ensures var out := SetProperties(lines, props);
            AsMap(TableOf(out)) == AsMap(TableOf(lines)) + AsMap(StripValues(props)) &&
            Keys(TableOf(lines)) <= Keys(TableOf(out)) &&
            |out| == |TableOf(out)| + |OtherLines(lines)| && OtherLines(out) == OtherLines(lines)
  {
    hide AsMap, TableOf, SetEntries, OtherLines, SkipBlank, IsKey, OneLine, Render;
    var t := TableOf(lines);
    var r := SetEntries(t, props);
    TableIsDistinct(lines);
    SetEntriesMap(t, props);
    SetEntriesKeys(t, props);
    SetEntriesKeepForm(t, props);
    TableOfRendered(r);
    OthersAddNothing(RenderAll(r), lines);
    StripOfMap(r);
    StripOfMap(t);
    StripOfMap(props);
    assert StripValues(t) == t;
    assert Keys(StripValues(r)) == Keys(r);
    assert [] + OtherLines(lines) == OtherLines(lines);
  }

  function StripMap(m: map<string, string>): map<string, string> {
    map k | k in m :: SkipBlank(m[k])
  }

  lemma {:induction false} StripOfMap(t: seq<Property>)
    ensures AsMap(StripValues(t)) == StripMap(AsMap(t))
  {
    hide SkipBlank, StripValues;
    if t != [] {
      StripOfMap(t[..|t| - 1]);
      assert StripValues(t)[..|t| - 1] == StripValues(t[..|t| - 1]);
    }
  }

  /** Setting the same properties again changes nothing. */
  lemma SetPropertiesTwice(lines: seq<string>, props: seq<Property>)
    requires WellFormed(props)
    ensures SetProperties(SetProperties(lines, props), props) == SetProperties(lines, props)
  {
    hide AsMap, TableOf, SetEntries, OtherLines, SkipBlank, IsKey, OneLine, Render;
    var t := TableOf(lines);
    var r := SetEntries(t, props);
    TableIsDistinct(lines);
    SetEntriesMap(t, props);
    SetEntriesKeepForm(t, props);
    TableOfRendered(r);
    OthersAddNothing(RenderAll(r), lines);
    SetStrippedAgain(t, props);
    assert [] + OtherLines(lines) == OtherLines(lines);
  }

  lemma SetStrippedAgain(t: seq<Property>, props: seq<Property>)
    requires Distinct(t) && ValuesTrimmed(t)
    ensures SetEntries(StripValues(SetEntries(t, props)), props) == SetEntries(t, props)
  {
    hide AsMap, SetEntries, SkipBlank;
    var r := SetEntries(t, props);
    SetEntriesMap(t, props);
    SetEntriesKeys(t, props);
    StripOfMap(r);
    StripOfMap(t);
    assert StripValues(t) == t;
    assert Keys(StripValues(r)) == Keys(r);
    SetEntriesMap(StripValues(r), props);
    SetEntriesKeys(StripValues(r), props);
    StripThenOverride(AsMap(t), AsMap(props));
    TablesEqual(SetEntries(StripValues(r), props), r);
  }

  lemma StripThenOverride(a: map<string, string>, b: map<string, string>)
    requires StripMap(a) == a
    ensures StripMap(a + b) + b == a + b
  {
    hide SkipBlank;
    forall k | k in a && k !in b ensures StripMap(a + b)[k] == a[k] {
      assert StripMap(a)[k] == a[k];
    }
  }

  /** A trailing blank line makes no difference. */
  lemma SetPropertiesBlank(lines: seq<string>, props: seq<Property>)
    ensures SetProperties(lines + [""], props) == SetProperties(lines, props)
  {
    assert (lines + [""])[..|lines|] == lines;
  }
}
