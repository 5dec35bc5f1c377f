/** The environment option of an authorized_keys line. */
module EnvRenders {
  import opened Wrappers
  import opened Sorting
  import opened Texts

  datatype Result = Ok(text: string) | Err(key: string)

  // ---- Sorting the keys in place ----

  /** All pairs up to n are in order, except those whose later element is at `hole`. */
  predicate SortedBut(s: seq<string>, n: nat, hole: int) {
    forall p, q | 0 <= p < q < n && q < |s| && q != hole :: AtMost(s[p], s[q])
  }

  lemma SwapDown(s: seq<string>, n: nat, j: nat)
    requires 0 < j < n <= |s| && SortedBut(s, n, j) && !AtMost(s[j - 1], s[j])
    ensures SortedBut(s[j - 1 := s[j]][j := s[j - 1]], n, j - 1)
    ensures multiset(s[j - 1 := s[j]][j := s[j - 1]]) == multiset(s)
  {
    AtMostTotal(s[j - 1], s[j]);
    var t := s[j - 1 := s[j]][j := s[j - 1]];
    forall p, q | 0 <= p < q < n && q != j - 1 ensures AtMost(t[p], t[q]) {
      assert p < j - 1 ==> AtMost(s[p], s[j - 1]);
    }
  }

  lemma HoleClosed(s: seq<string>, n: nat, j: nat)
    requires j < n <= |s| && SortedBut(s, n, j) && (j > 0 ==> AtMost(s[j - 1], s[j]))
    ensures SortedBut(s, n, -1)
  {
    forall p | 0 <= p < j ensures AtMost(s[p], s[j]) {
      if p < j - 1 {
        AtMostTransitive(s[p], s[j - 1], s[j]);
      }
    }
  }

  method InsertionSort(keys: array<string>)
    modifies keys
    ensures keys[..] == SortKeys(old(keys[..]))
  {
    var i := 1;
    while i < keys.Length
      invariant 1 <= i
      invariant SortedBut(keys[..], if i <= keys.Length then i else keys.Length, -1)
      invariant multiset(keys[..]) == multiset(old(keys[..]))
    {
      var j := i;
      while j > 0 && !AtMost(keys[j - 1], keys[j])
        invariant 0 <= j <= i < keys.Length && SortedBut(keys[..], i + 1, j)
        invariant multiset(keys[..]) == multiset(old(keys[..]))
      {
        ghost var s := keys[..];
        SwapDown(s, i + 1, j);
        keys[j - 1], keys[j] := keys[j], keys[j - 1];
        assert keys[..] == s[j - 1 := s[j]][j := s[j - 1]];
        j := j - 1;
      }
      HoleClosed(keys[..], i + 1, j);
      i := i + 1;
    }
    SortKeysSorted(old(keys[..]));
    SortedUnique(keys[..], SortKeys(old(keys[..])));
  }

  // ---- Rendering ----

  /** Letters and digits outside ASCII are given by the set. */
  predicate IsKey(s: string, letters: set<char>) {
    s != "" && forall i | 0 <= i < |s| ::
      'a' <= s[i] <= 'z' || 'A' <= s[i] <= 'Z' || '0' <= s[i] <= '9' || s[i] == '_' ||
      (s[i] in letters && s[i] !in "=,\"\n\r")
  }

  predicate IsValue(s: string) {
    '"' !in s && ',' !in s && '\n' !in s && '\r' !in s
  }

  predicate IsPair(k: string, v: string, letters: set<char>) {
    IsKey(k, letters) && IsValue(v)
  }

  function Pair(k: string, v: string): string {
    k + "=" + v
  }

  /** The pairs of the keys in order, or the first key whose pair is refused. */
  function Pairs(env: map<string, string>, keys: seq<string>, letters: set<char>): (seq<string>, Option<string>)
    requires forall k | k in keys :: k in env
  {
    if keys == [] then ([], None)
    else
      var k := keys[|keys| - 1];
      var before := Pairs(env, keys[..|keys| - 1], letters);
      if before.1.Some? then before
      else if IsPair(k, env[k], letters) then (before.0 + [Pair(k, env[k])], None)
      else (before.0, Some(k))
  }

  function Quoted(s: string): string {
    "environment=\"" + s + "\""
  }

  /** `order` is the order in which the map hands out its keys. */
  predicate Enumerates(env: map<string, string>, order: seq<string>) {
    multiset(order) == multiset(env.Keys)
  }

  lemma EnumeratedKeys(env: map<string, string>, order: seq<string>)
    requires Enumerates(env, order)
    ensures forall k :: k in order <==> k in env
    ensures forall k :: k in SortKeys(order) <==> k in env
  {
    forall k ensures k in order <==> k in env {
      assert k in order <==> k in multiset(order);
    }
    forall k ensures k in SortKeys(order) <==> k in env {
      assert k in SortKeys(order) <==> k in multiset(SortKeys(order));
    }
  }

  function Render(env: map<string, string>, order: seq<string>, letters: set<char>): Result
    requires Enumerates(env, order)
  {
    if env == map[] then Ok("")
    else
      EnumeratedKeys(env, order);
      var pairs := Pairs(env, SortKeys(order), letters);
      if pairs.1.Some? then Err(pairs.1.value) else Ok(Quoted(if pairs.0 == [] then "" else Join(pairs.0, ',')))
  }

  method RenderEnvironment(env: map<string, string>, order: seq<string>, letters: set<char>) returns (result: Result)
    requires Enumerates(env, order)
    ensures result == Render(env, order, letters)
  {
    hide SortKeys, IsKey, IsValue, Join, Enumerates;
    if env == map[] {
      return Ok("");
    }
    EnumeratedKeys(env, order);
    var keys := new string[|order|](i requires 0 <= i < |order| => order[i]);
    assert keys[..] == order;
    InsertionSort(keys);
    var parts: seq<string> := [];
    for i := 0 to keys.Length
      invariant keys[..] == SortKeys(order)
      invariant Pairs(env, SortKeys(order)[..i], letters) == (parts, None)
    {
      assert SortKeys(order)[..i + 1][..i] == SortKeys(order)[..i];
      var k := keys[i];
      assert k in SortKeys(order);
      if !IsKey(k, letters) || !IsValue(env[k]) {
        FirstRefused(env, SortKeys(order), letters, i);
        return Err(k);
      }
      parts := parts + [k + "=" + env[k]];
    }
    assert SortKeys(order)[..keys.Length] == SortKeys(order);
    result := Ok("environment=\"" + (if parts == [] then "" else Join(parts, ',')) + "\"");
  }

  lemma {:induction false} FirstRefused(env: map<string, string>, keys: seq<string>, letters: set<char>, i: nat)
    requires i < |keys| && (forall k | k in keys :: k in env)
    requires Pairs(env, keys[..i], letters).1.None? && !IsPair(keys[i], env[keys[i]], letters)
    ensures Pairs(env, keys, letters).1 == Some(keys[i])
    decreases |keys|
  {
    var n := |keys| - 1;
    if i == n {
    } else {
      assert keys[..n][..i] == keys[..i];
      FirstRefused(env, keys[..n], letters, i);
    }
  }

  // ---- Canonical and invertible ----

  /** The text does not depend on the order in which the map hands out its keys. */
  lemma RenderIsCanonical(env: map<string, string>, order: seq<string>, other: seq<string>, letters: set<char>)
    requires Enumerates(env, order) && Enumerates(env, other)
    ensures Render(env, order, letters) == Render(env, other, letters)
  {
    SortKeysForgetsOrder(order, other);
  }

  lemma {:induction false} PairsExactly(env: map<string, string>, keys: seq<string>, letters: set<char>)
    requires forall k | k in keys :: k in env
    ensures Pairs(env, keys, letters).1.None? <==> forall k | k in keys :: IsPair(k, env[k], letters)
    ensures Pairs(env, keys, letters).1.None? ==>
              |Pairs(env, keys, letters).0| == |keys| &&
              forall i | 0 <= i < |keys| :: Pairs(env, keys, letters).0[i] == Pair(keys[i], env[keys[i]])
    ensures Pairs(env, keys, letters).1.Some? ==>
              var k := Pairs(env, keys, letters).1.value;
              k in keys && !IsPair(k, env[k], letters)
  {
    hide IsPair, Pair;
    if keys != [] {
      PairsExactly(env, keys[..|keys| - 1], letters);
      assert keys == keys[..|keys| - 1] + [keys[|keys| - 1]];
    }
  }

  /** Rendering succeeds exactly if every key and every value is admissible. */
  lemma RendersExactly(env: map<string, string>, order: seq<string>, letters: set<char>)
    requires Enumerates(env, order)
    ensures Render(env, order, letters).Ok? <==> forall k | k in env :: IsPair(k, env[k], letters)
    ensures Render(env, order, letters).Err? ==>
              var k := Render(env, order, letters).key;
              k in env && !IsPair(k, env[k], letters)
  {
    hide IsPair, Pairs, SortKeys;
    EnumeratedKeys(env, order);
    PairsExactly(env, SortKeys(order), letters);
  }

  /** Where the first equals sign is. */
  function CutAt(pair: string): (n: nat)
    ensures n <= |pair|
  {
    if pair == "" || pair[0] == '=' then 0 else 1 + CutAt(pair[1..])
  }

  function FromPairs(pairs: seq<string>): map<string, string> {
    if pairs == [] then map[]
    else
      var pair := pairs[|pairs| - 1];
      var n := CutAt(pair);
      FromPairs(pairs[..|pairs| - 1])[pair[..n] := if n < |pair| then pair[n + 1..] else ""]
  }

  /** Reads the option back: the quoted text split at commas, each piece at its first equals sign. */
  function Decode(text: string): map<string, string> {
    if |text| < 14 then map[] else FromPairs(Split(text[13..|text| - 1], ','))
  }

  lemma {:induction false} CutAtKey(k: string, v: string)
    requires '=' !in k
    ensures CutAt(k + "=" + v) == |k|
  {
    var pair := k + "=" + v;
    if k != "" {
      assert pair[1..] == k[1..] + "=" + v;
      CutAtKey(k[1..], v);
    }
  }

  lemma KeyIsPlain(k: string, v: string, letters: set<char>)
    requires IsPair(k, v, letters)
    ensures '=' !in k && ',' !in Pair(k, v)
  {
    forall i | 0 <= i < |k| ensures k[i] != '=' && k[i] != ',' {
    }
  }

  lemma {:induction false} PairsDecode(env: map<string, string>, keys: seq<string>, letters: set<char>,
                                       pairs: seq<string>)
    requires |pairs| == |keys|
    requires forall i | 0 <= i < |keys| :: keys[i] in env && pairs[i] == Pair(keys[i], env[keys[i]])
    requires forall i | 0 <= i < |keys| :: IsPair(keys[i], env[keys[i]], letters)
    ensures FromPairs(pairs) == map k | k in keys :: env[k]
    ensures Plain(pairs, ',')
  {
    hide IsPair;
    if keys != [] {
      var n := |keys| - 1;
      var k, v := keys[n], env[keys[n]];
      PairsDecode(env, keys[..n], letters, pairs[..n]);
      KeyIsPlain(k, v, letters);
      CutAtKey(k, v);
      assert pairs[n][..|k|] == k && pairs[n][|k| + 1..] == v;
      hide CutAt;
      assert keys == keys[..n] + [k];
    }
  }

  /** Whenever rendering succeeds, decoding the text gives the map back. */
  lemma RenderRoundTrip(env: map<string, string>, order: seq<string>, letters: set<char>)
    requires Enumerates(env, order) && Render(env, order, letters).Ok?
    ensures Decode(Render(env, order, letters).text) == env
  {
    hide IsPair, Pair, Split, Join, SortKeys, FromPairs, Enumerates;
    if env != map[] {
      EnumeratedKeys(env, order);
      var keys := SortKeys(order);
      PairsExactly(env, keys, letters);
      var pairs := Pairs(env, keys, letters).0;
      PairsDecode(env, keys, letters, pairs);
      var k :| k in env;
      assert k in keys;
      var body := Join(pairs, ',');
      SplitOfJoin(pairs, ',');
      assert Quoted(body)[13..|Quoted(body)| - 1] == body;
      assert (map k | k in keys :: env[k]) == env;
    }
  }

  /** No line end, and no quote. */
  predicate IsInner(s: string) {
    '\n' !in s && '\r' !in s && '"' !in s
  }

  lemma {:induction false} JoinIsInner(parts: seq<string>)
    requires parts != [] && forall i | 0 <= i < |parts| :: IsInner(parts[i])
    ensures IsInner(Join(parts, ','))
  {
    if |parts| > 1 {
      JoinIsInner(parts[1..]);
    }
  }

  lemma PairIsInner(k: string, v: string, letters: set<char>)
    requires IsPair(k, v, letters)
    ensures IsInner(Pair(k, v))
  {
    forall i | 0 <= i < |k| ensures k[i] != '\n' && k[i] != '\r' && k[i] != '"' {
    }
  }

  /** A rendered text stays within its line and its quotes, whatever the values are. */
  lemma RenderIsContained(env: map<string, string>, order: seq<string>, letters: set<char>)
    requires Enumerates(env, order) && Render(env, order, letters).Ok? && env != map[]
    ensures exists inner ::
              IsInner(inner) && Render(env, order, letters).text == "environment=" + "\"" + inner + "\""
  {
    hide IsPair, Pair, Join, SortKeys, Enumerates, IsInner;
    EnumeratedKeys(env, order);
    var keys := SortKeys(order);
    PairsExactly(env, keys, letters);
    var pairs := Pairs(env, keys, letters).0;
    var k :| k in env;
    assert k in keys;
    forall i | 0 <= i < |pairs| ensures IsInner(pairs[i]) {
      PairIsInner(keys[i], env[keys[i]], letters);
    }
    JoinIsInner(pairs);
  }

  /** A pair is admissible exactly if its key is a word and its value has no character with a meaning there. */
  lemma AdmissibleExactly(k: string, v: string, letters: set<char>)
    requires letters !! {'=', ',', '"', '\n', '\r'}
    ensures IsPair(k, v, letters) <==>
              k != "" &&
              (forall c | c in k ::
                 'a' <= c <= 'z' || 'A' <= c <= 'Z' || '0' <= c <= '9' || c == '_' || c in letters) &&
              forall c | c in v :: c !in {'"', ',', '\n', '\r'}
  {
    forall i | 0 <= i < |k| ensures k[i] in k {
    }
  }
}
