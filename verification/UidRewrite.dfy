/** Rewriting of `uid://` tokens in project files. */
module UidRewrites {

  const SCHEME := "uid://"

  predicate IsBodyChar(c: char) {
    'a' <= c <= 'z' || 'A' <= c <= 'Z' || '0' <= c <= '9' || c == '_' || c == '-'
  }

  predicate IsToken(s: string) {
    |s| > 6 && s[..6] == SCHEME && forall i | 6 <= i < |s| :: IsBodyChar(s[i])
  }

  function BodyLength(s: string): (n: nat)
    ensures n <= |s| && (n == |s| || !IsBodyChar(s[n])) && forall i | 0 <= i < n :: IsBodyChar(s[i])
  {
    if s == "" || !IsBodyChar(s[0]) then 0
    else
      assert forall i | 0 < i < |s| :: s[i] == s[1..][i - 1];
      1 + BodyLength(s[1..])
  }

  /** Length of the longest token at the start of the text; 0 if there is none. */
  function TokenLength(s: string): (n: nat)
    ensures n <= |s| && (n > 0 ==> IsToken(s[..n]) && (n == |s| || !IsBodyChar(s[n])))
  {
    if |s| < 6 || s[..6] != SCHEME || BodyLength(s[6..]) == 0 then 0
    else
      var k := BodyLength(s[6..]);
      assert forall i | 6 <= i < |s| :: s[i] == s[6..][i - 6];
      6 + k
  }

  datatype Piece = Token(text: string) | Plain(c: char)

  /** The text cut into tokens, taken greedily from the left, and single other characters. */
  function Scan(s: string): seq<Piece> {
    if s == "" then []
    else
      var n := TokenLength(s);
      if n > 0 then [Token(s[..n])] + Scan(s[n..]) else [Plain(s[0])] + Scan(s[1..])
  }

  function TextOf(pieces: seq<Piece>): string {
    if pieces == [] then ""
    else (match pieces[0] case Token(t) => t case Plain(c) => [c]) + TextOf(pieces[1..])
  }

  /** Replacement of one token: an entry that is empty or the token itself counts for nothing. */
  function Next(m: map<string, string>, t: string): string {
    if t in m && m[t] != "" then m[t] else t
  }

  function Mapped(m: map<string, string>, pieces: seq<Piece>): seq<Piece> {
    if pieces == [] then []
    else [if pieces[0].Token? then Token(Next(m, pieces[0].text)) else pieces[0]] + Mapped(m, pieces[1..])
  }

  function Changed(m: map<string, string>, pieces: seq<Piece>): nat {
    if pieces == [] then 0
    else (if pieces[0].Token? && Next(m, pieces[0].text) != pieces[0].text then 1 else 0) + Changed(m, pieces[1..])
  }

  function Rewrite(m: map<string, string>, s: string): string {
    TextOf(Mapped(m, Scan(s)))
  }

  /** The replacement of the match at the start of the text, or its first character. */
  method NextPiece(rest: string, m: map<string, string>) returns (piece: string, n: nat, count: nat)
    requires rest != ""
    ensures 0 < n <= |rest| && Rewrite(m, rest) == piece + Rewrite(m, rest[n..])
    ensures Changed(m, Scan(rest)) == count + Changed(m, Scan(rest[n..]))
  {
    hide Rewrite, Scan, Changed, BodyLength, IsToken;
    n, count := TokenLength(rest), 0;
    if n > 0 {
      RewriteToken(m, rest);
      piece := rest[..n];
      var next := if piece in m then m[piece] else "";
      if next != "" && next != piece {
        piece, count := next, 1;
      }
    } else {
      RewritePlain(m, rest);
      piece, n := [rest[0]], 1;
    }
  }

  lemma Appended(a: string, b: string, c: string)
    ensures (a + b) + c == a + (b + c)
  {
  }

  /** Replaces match by match and counts the changes. */
  method RewriteUidsInText(content: string, m: map<string, string>) returns (text: string, count: nat)
    ensures text == Rewrite(m, content) && count == Changed(m, Scan(content))
  {
    hide Rewrite, Scan, Changed;
    text, count := "", 0;
    var i := 0;
    assert content[0..] == content && "" + Rewrite(m, content) == Rewrite(m, content);
    while i < |content|
      invariant i <= |content|
      invariant text + Rewrite(m, content[i..]) == Rewrite(m, content)
      invariant count + Changed(m, Scan(content[i..])) == Changed(m, Scan(content))
    {
      var piece, n, changed := NextPiece(content[i..], m);
      assert content[i..][n..] == content[i + n..];
      Appended(text, piece, Rewrite(m, content[i + n..]));
      text, count, i := text + piece, count + changed, i + n;
    }
    assert content[i..] == "";
    NothingToRewrite(m);
    assert text + "" == text;
  }

  // ---- What a rewrite does to the pieces ----

  predicate TokenValues(m: map<string, string>) {
    forall t | t in m && m[t] != "" :: IsToken(m[t])
  }

  lemma {:induction false} TextOfScan(s: string)
    ensures TextOf(Scan(s)) == s
  {
    if s != "" {
      var n := TokenLength(s);
      TextOfScan(if n > 0 then s[n..] else s[1..]);
    }
  }

  lemma RewriteToken(m: map<string, string>, s: string)
    requires TokenLength(s) > 0
    ensures Rewrite(m, s) == Next(m, s[..TokenLength(s)]) + Rewrite(m, s[TokenLength(s)..])
    ensures Changed(m, Scan(s)) ==
              (if Next(m, s[..TokenLength(s)]) != s[..TokenLength(s)] then 1 else 0) +
              Changed(m, Scan(s[TokenLength(s)..]))
  {
    hide TokenLength, Next;
    var n := TokenLength(s);
    assert ([Token(s[..n])] + Scan(s[n..]))[1..] == Scan(s[n..]);
    var out := Token(Next(m, s[..n]));
    assert ([out] + Mapped(m, Scan(s[n..])))[1..] == Mapped(m, Scan(s[n..]));
  }

  lemma RewritePlain(m: map<string, string>, s: string)
    requires s != "" && TokenLength(s) == 0
    ensures Rewrite(m, s) == [s[0]] + Rewrite(m, s[1..])
    ensures Changed(m, Scan(s)) == Changed(m, Scan(s[1..]))
  {
    hide TokenLength, Next;
    assert ([Plain(s[0])] + Scan(s[1..]))[1..] == Scan(s[1..]);
    assert ([Plain(s[0])] + Mapped(m, Scan(s[1..])))[1..] == Mapped(m, Scan(s[1..]));
  }

  function Start(s: string): string {
    if |s| < 6 then s else s[..6]
  }

  /** The first six characters survive a rewrite: a replacement starts like the token it replaces. */
  lemma {:induction false} StartSurvives(m: map<string, string>, s: string)
    requires TokenValues(m)
    ensures |Rewrite(m, s)| >= |Start(s)| && Start(Rewrite(m, s)) == Start(s)
  {
    hide Rewrite, TokenLength, TokenValues, Scan, Changed;
    if s == "" {
      NothingToRewrite(m);
    } else if TokenLength(s) > 0 {
      TokenStart(m, s);
    } else {
      RewritePlain(m, s);
      StartSurvives(m, s[1..]);
      assert |s| >= 6 ==> Start(s) == [s[0]] + Start(s[1..])[..5];
    }
  }

  lemma TokenStart(m: map<string, string>, s: string)
    requires TokenValues(m) && TokenLength(s) > 0
    ensures |Rewrite(m, s)| >= 6 && Start(Rewrite(m, s)) == Start(s) == SCHEME && |s| >= 6
  {
    RewriteToken(m, s);
    hide Rewrite, Scan, Changed;
    var v := Next(m, s[..TokenLength(s)]);
    assert IsToken(v) && s[..6] == s[..TokenLength(s)][..6];
    assert Rewrite(m, s)[..6] == v[..6];
  }

  lemma NothingToRewrite(m: map<string, string>)
    ensures Rewrite(m, "") == "" && Changed(m, Scan("")) == 0
  {
  }

  /** Where no token body starts, none does after the rewrite. */
  lemma HeadSurvives(m: map<string, string>, s: string)
    requires s == "" || !IsBodyChar(s[0])
    ensures Rewrite(m, s) == "" || !IsBodyChar(Rewrite(m, s)[0])
  {
    if s != "" {
      assert TokenLength(s) == 0 by {
        assert IsBodyChar(SCHEME[0]);
        if |s| >= 6 {
          assert s[..6][0] == s[0];
        }
      }
      RewritePlain(m, s);
    }
  }

  /** No token starts where none did. */
  lemma PlainSurvives(m: map<string, string>, s: string)
    requires TokenValues(m) && s != "" && TokenLength(s) == 0
    ensures TokenLength(Rewrite(m, s)) == 0
  {
    StartSurvives(m, s);
    if |s| >= 6 && s[..6] == SCHEME {
      SchemeAlone(m, s);
      HeadSurvives(m, s[6..]);
      hide Rewrite;
      assert Rewrite(m, s)[6..] == Rewrite(m, s[6..]);
    }
  }

  /** The scheme without a body is six plain characters. */
  lemma SchemeAlone(m: map<string, string>, s: string)
    requires |s| >= 6 && s[..6] == SCHEME && TokenLength(s) == 0
    ensures Rewrite(m, s) == SCHEME + Rewrite(m, s[6..])
  {
    hide Rewrite;
    assert s == SCHEME + s[6..];
    PlainPrefix(m, s, 6);
  }

  lemma NoTokenInScheme(s: string, k: nat)
    requires |s| >= 6 && s[..6] == SCHEME && TokenLength(s) == 0 && k < 6
    ensures TokenLength(s[k..]) == 0
  {
    hide BodyLength;
    if k == 0 {
      assert s[0..] == s;
    } else {
      assert s[k] == s[..6][k] && SCHEME[k] != 'u';
      if |s[k..]| >= 6 {
        assert s[k..][..6][0] == s[k];
      }
    }
  }

  lemma {:induction false} PlainPrefix(m: map<string, string>, s: string, n: nat)
    requires |s| >= 6 && s[..6] == SCHEME && TokenLength(s) == 0 && n <= 6
    ensures Rewrite(m, s) == s[..n] + Rewrite(m, s[n..])
  {
    hide Rewrite, TokenLength, Changed, Scan;
    if n == 0 {
      assert s[0..] == s && s[..0] + s == s;
      assert "" + Rewrite(m, s) == Rewrite(m, s);
    } else {
      var k := n - 1;
      PlainPrefix(m, s, k);
      NoTokenInScheme(s, k);
      RewritePlain(m, s[k..]);
      assert s[k..][1..] == s[n..] && s[k..][0] == s[k] && s[..n] == s[..k] + [s[k]];
      assert s[..k] + ([s[k]] + Rewrite(m, s[n..])) == (s[..k] + [s[k]]) + Rewrite(m, s[n..]);
    }
  }

  lemma TokenSurvives(m: map<string, string>, v: string, rest: string)
    requires IsToken(v) && (rest == "" || !IsBodyChar(rest[0]))
    ensures TokenLength(v + rest) == |v|
  {
    var s := v + rest;
    assert s[..6] == v[..6];
    BodyLengthIs(v[6..], rest);
    assert s[6..] == v[6..] + rest;
  }

  lemma {:induction false} BodyLengthIs(body: string, rest: string)
    requires (forall i | 0 <= i < |body| :: IsBodyChar(body[i])) && (rest == "" || !IsBodyChar(rest[0]))
    ensures BodyLength(body + rest) == |body|
  {
    if body == "" {
      assert body + rest == rest;
    } else {
      assert (body + rest)[1..] == body[1..] + rest;
      BodyLengthIs(body[1..], rest);
    }
  }

  /**
   * A rewrite maps the tokens in place: the output cuts into the input's pieces, each token replaced
   * and everything else as it was.
   */
  lemma {:induction false} RewriteIsMap(m: map<string, string>, s: string)
    requires TokenValues(m)
    ensures Scan(Rewrite(m, s)) == Mapped(m, Scan(s))
  {
    hide TokenLength;
    if s == "" {
    } else if TokenLength(s) > 0 {
      var n := TokenLength(s);
      var v := Next(m, s[..n]);
      RewriteIsMap(m, s[n..]);
      RewriteToken(m, s);
      HeadSurvives(m, s[n..]);
      TokenSurvives(m, v, Rewrite(m, s[n..]));
      hide Rewrite;
      assert (v + Rewrite(m, s[n..]))[..|v|] == v && (v + Rewrite(m, s[n..]))[|v|..] == Rewrite(m, s[n..]);
      assert ([Token(s[..n])] + Scan(s[n..]))[1..] == Scan(s[n..]);
    } else {
      RewriteIsMap(m, s[1..]);
      RewritePlain(m, s);
      PlainSurvives(m, s);
      hide Rewrite;
      assert ([s[0]] + Rewrite(m, s[1..]))[1..] == Rewrite(m, s[1..]);
      assert ([Plain(s[0])] + Scan(s[1..]))[1..] == Scan(s[1..]);
    }
  }

  lemma {:induction false} MappedAt(m: map<string, string>, pieces: seq<Piece>, i: nat)
    requires i < |pieces|
    ensures |Mapped(m, pieces)| == |pieces|
    ensures Mapped(m, pieces)[i] ==
              if pieces[i].Token? && pieces[i].text in m && m[pieces[i].text] != "" then Token(m[pieces[i].text])
              else pieces[i]
  {
    MappedLength(m, pieces);
    if i > 0 {
      MappedAt(m, pieces[1..], i - 1);
    }
  }

  lemma {:induction false} MappedLength(m: map<string, string>, pieces: seq<Piece>)
    ensures |Mapped(m, pieces)| == |pieces|
  {
    if pieces != [] {
      MappedLength(m, pieces[1..]);
    }
  }

  /** Piece by piece: a token with a non-empty replacement becomes that, and everything else stays. */
  lemma RewrittenAt(m: map<string, string>, s: string, i: nat)
    requires TokenValues(m) && i < |Scan(s)|
    ensures |Scan(Rewrite(m, s))| == |Scan(s)|
    ensures Scan(Rewrite(m, s))[i] ==
              if Scan(s)[i].Token? && Scan(s)[i].text in m && m[Scan(s)[i].text] != "" then Token(m[Scan(s)[i].text])
              else Scan(s)[i]
  {
    hide Scan, Rewrite, Mapped, TokenValues;
    RewriteIsMap(m, s);
    MappedAt(m, Scan(s), i);
  }

  /** Positions at which the two lists have different pieces. */
  function Differing(a: seq<Piece>, b: seq<Piece>): set<nat> {
    set i: nat | i < |a| && i < |b| && a[i] != b[i]
  }

  function Shifted(s: set<nat>): set<nat> {
    set i: nat | i in s :: i + 1
  }

  lemma {:induction false} ShiftedCount(s: set<nat>)
    ensures |Shifted(s)| == |s|
  {
    if s != {} {
      var x: nat :| x in s;
      ShiftedCount(s - {x});
      forall y: nat ensures y in Shifted(s) <==> y in Shifted(s - {x}) + {x + 1} {
        if y in Shifted(s) {
          var i: nat :| i in s && i + 1 == y;
          assert i != x ==> i in s - {x};
        }
      }
      assert Shifted(s) == Shifted(s - {x}) + {x + 1};
    }
  }

  lemma DifferingHead(a: seq<Piece>, b: seq<Piece>)
    requires a != [] && b != []
    ensures |Differing(a, b)| == |Differing(a[1..], b[1..])| + if a[0] != b[0] then 1 else 0
  {
    var later := Differing(a[1..], b[1..]);
    ShiftedCount(later);
    forall i: nat ensures i in Differing(a, b) <==> i in Shifted(later) || (i == 0 && a[0] != b[0]) {
      if i > 0 && i in Differing(a, b) {
        assert i - 1 in later && i - 1 + 1 == i;
      }
    }
    assert Differing(a, b) == Shifted(later) + if a[0] != b[0] then {0} else {};
  }

  /** The count is the number of pieces that have another text afterwards. */
  lemma {:induction false} ChangedCounts(m: map<string, string>, pieces: seq<Piece>)
    ensures Changed(m, pieces) == |Differing(pieces, Mapped(m, pieces))|
  {
    hide Differing, Next;
    if pieces == [] {
      NothingDiffers();
    } else {
      ChangedCounts(m, pieces[1..]);
      DifferingHead(pieces, Mapped(m, pieces));
      assert Mapped(m, pieces)[1..] == Mapped(m, pieces[1..]);
    }
  }

  lemma NothingDiffers()
    ensures Differing([], []) == {}
  {
  }

  /** Some token of the text is replaced by one that would be replaced in turn. */
  predicate Chains(m: map<string, string>, pieces: seq<Piece>) {
    exists i | 0 <= i < |pieces| :: pieces[i].Token? && Next(m, Next(m, pieces[i].text)) != Next(m, pieces[i].text)
  }

  lemma {:induction false} ChangedTwice(m: map<string, string>, pieces: seq<Piece>)
    ensures Changed(m, Mapped(m, pieces)) == 0 <==> !Chains(m, pieces)
    ensures Changed(m, pieces) == 0 ==> Mapped(m, pieces) == pieces
  {
    hide Next;
    if pieces != [] {
      ChangedTwice(m, pieces[1..]);
      var head := if pieces[0].Token? then Token(Next(m, pieces[0].text)) else pieces[0];
      assert ([head] + Mapped(m, pieces[1..]))[1..] == Mapped(m, pieces[1..]);
      ChainsFromHead(m, pieces);
    }
  }

  lemma ChainsFromHead(m: map<string, string>, pieces: seq<Piece>)
    requires pieces != []
    ensures Chains(m, pieces) <==>
              (pieces[0].Token? && Next(m, Next(m, pieces[0].text)) != Next(m, pieces[0].text)) ||
              Chains(m, pieces[1..])
  {
    hide Next;
    if Chains(m, pieces[1..]) {
      var i :| 0 <= i < |pieces[1..]| && pieces[1..][i].Token? &&
               Next(m, Next(m, pieces[1..][i].text)) != Next(m, pieces[1..][i].text);
      assert pieces[i + 1] == pieces[1..][i];
    }
    if Chains(m, pieces) {
      var i :| 0 <= i < |pieces| && pieces[i].Token? && Next(m, Next(m, pieces[i].text)) != Next(m, pieces[i].text);
      assert i > 0 ==> pieces[1..][i - 1] == pieces[i];
    }
  }

  /** A second pass changes nothing, exactly if no token of the text leads through two replacements. */
  lemma SecondPassIdleExactly(m: map<string, string>, s: string)
    requires TokenValues(m)
    ensures Changed(m, Scan(Rewrite(m, s))) == 0 <==> !Chains(m, Scan(s))
    ensures !Chains(m, Scan(s)) ==> Rewrite(m, Rewrite(m, s)) == Rewrite(m, s)
  {
    RewriteIsMap(m, s);
    ChangedTwice(m, Scan(s));
    ChangedTwice(m, Scan(Rewrite(m, s)));
    TextOfScan(Rewrite(m, s));
  }

  /** In particular if no new value is a key. */
  lemma NoChains(m: map<string, string>, pieces: seq<Piece>)
    requires forall t | t in m && m[t] != t :: m[t] !in m
    ensures !Chains(m, pieces)
  {
  }

  // ---- Whole projects ----

  /** Texts that change, in walking order, and the number of changes. */
  function Touched(m: map<string, string>, contents: map<string, string>, files: seq<string>): seq<string> {
    if files == [] then []
    else
      var f := files[|files| - 1];
      Touched(m, contents, files[..|files| - 1]) +
      if f in contents && Changed(m, Scan(contents[f])) > 0 then [f] else []
  }

  function TotalChanged(m: map<string, string>, contents: map<string, string>, files: seq<string>): nat {
    if files == [] then 0
    else
      var f := files[|files| - 1];
      TotalChanged(m, contents, files[..|files| - 1]) + if f in contents then Changed(m, Scan(contents[f])) else 0
  }

  /** The listed files rewritten, the others as they were. */
  function AllRewritten(m: map<string, string>, contents: map<string, string>,
                        files: seq<string>): map<string, string> {
    map f | f in contents :: if f in files then Rewrite(m, contents[f]) else contents[f]
  }

  lemma OneMoreFile(m: map<string, string>, contents: map<string, string>, files: seq<string>, f: string)
    requires f !in files
    ensures var before, after := AllRewritten(m, contents, files), AllRewritten(m, contents, files + [f]);
            (f in before <==> f in contents) &&
            (if f in contents then before[f] == contents[f] && after == before[f := Rewrite(m, contents[f])]
             else after == before)
    ensures (files + [f])[..|files|] == files
  {
    hide Rewrite;
  }

  lemma NoFileYet(m: map<string, string>, contents: map<string, string>)
    ensures AllRewritten(m, contents, []) == contents
  {
    hide Rewrite;
  }

  class ProjectFiles {
    /** The readable files; the walk may also list files that cannot be read. */
    var contents: map<string, string>

    constructor (contents: map<string, string>)
      ensures this.contents == contents
    {
      this.contents := contents;
    }

    /** Rewrites every listed file once; files without a change are not written. */
    method ApplyUidReplacements(files: seq<string>, m: map<string, string>) returns (touched: seq<string>, total: nat)
      requires forall i, j | 0 <= i < j < |files| :: files[i] != files[j]
      modifies this
      ensures contents == AllRewritten(m, old(contents), files)
      ensures touched == Touched(m, old(contents), files) && total == TotalChanged(m, old(contents), files)
    {
      hide Rewrite, Changed, Scan, AllRewritten;
      touched, total := [], 0;
      if m == map[] {
        NoReplacements(contents, files);
        return;
      }
      NoFileYet(m, contents);
      for i := 0 to |files|
        invariant contents == AllRewritten(m, old(contents), files[..i])
        invariant touched == Touched(m, old(contents), files[..i]) &&
                  total == TotalChanged(m, old(contents), files[..i])
      {
        var f := files[i];
        assert files[..i + 1] == files[..i] + [f];
        OneMoreFile(m, old(contents), files[..i], f);
        if f in contents {
          var text, count := RewriteUidsInText(contents[f], m);
          if count > 0 {
            contents := contents[f := text];
            touched := touched + [f];
            total := total + count;
          } else {
            UnchangedText(m, contents[f]);
          }
        }
      }
      assert files[..|files|] == files;
    }
  }

  lemma UnchangedText(m: map<string, string>, s: string)
    requires Changed(m, Scan(s)) == 0
    ensures Rewrite(m, s) == s
  {
    ChangedTwice(m, Scan(s));
    TextOfScan(s);
  }

  lemma {:induction false} NothingChanged(pieces: seq<Piece>)
    ensures Changed(map[], pieces) == 0
  {
    if pieces != [] {
      NothingChanged(pieces[1..]);
    }
  }

  lemma EmptyRewrite(s: string)
    ensures Changed(map[], Scan(s)) == 0 && Rewrite(map[], s) == s
  {
    NothingChanged(Scan(s));
    UnchangedText(map[], s);
  }

  lemma {:induction false} NoReplacements(contents: map<string, string>, files: seq<string>)
    ensures Touched(map[], contents, files) == [] && TotalChanged(map[], contents, files) == 0
    ensures AllRewritten(map[], contents, files) == contents
  {
    hide Changed, Scan, Rewrite;
    forall f | f in contents ensures Rewrite(map[], contents[f]) == contents[f] {
      EmptyRewrite(contents[f]);
    }
    if files != [] {
      NoReplacements(contents, files[..|files| - 1]);
      if files[|files| - 1] in contents {
        EmptyRewrite(contents[files[|files| - 1]]);
      }
    }
  }
}
