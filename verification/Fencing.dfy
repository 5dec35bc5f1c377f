/** Composite fencing tokens `{instanceId}:{counter}`: printing, parsing and comparison. */
module Fencing {
  import opened Wrappers

  /** A minted token; the ledger and Redis hold its printed form. */
  datatype Token = Token(inst: string, counter: nat)

  predicate IsDigit(c: char) {
    '0' <= c <= '9'
  }

  predicate IsHex(c: char) {
    IsDigit(c) || 'a' <= c <= 'f' || 'A' <= c <= 'F'
  }

  function LowerChar(c: char): char {
    if 'A' <= c <= 'F' then c - 'A' + 'a' else c
  }

  function Lower(s: string): (r: string)
    ensures |r| == |s|
  {
    seq(|s|, i requires 0 <= i < |s| => LowerChar(s[i]))
  }

  /** Eight, four, four, four and twelve hex digits, separated by dashes. */
  predicate IsUuid(s: string) {
    |s| == 36 &&
    forall i | 0 <= i < 36 :: if i in {8, 13, 18, 23} then s[i] == '-' else IsHex(s[i])
  }

  /** What `randomUUID` and `instance_id::text` produce. */
  predicate IsInstanceId(s: string) {
    IsUuid(s) && Lower(s) == s
  }

  function Digit(d: nat): char
    requires d < 10
  {
    '0' + d as char
  }

  function DigitValue(c: char): nat
    requires IsDigit(c)
  {
    (c - '0') as nat
  }

  /** Decimal form without leading zeros, as INCR and template strings print it. */
  function Decimal(n: nat): (s: string)
    ensures |s| > 0 && forall i | 0 <= i < |s| :: IsDigit(s[i])
  {
    if n < 10 then [Digit(n)] else Decimal(n / 10) + [Digit(n % 10)]
  }

  function DecimalValue(s: string): nat
    requires forall i | 0 <= i < |s| :: IsDigit(s[i])
  {
    if s == [] then 0 else DecimalValue(s[..|s| - 1]) * 10 + DigitValue(s[|s| - 1])
  }

  lemma {:induction false} DecimalRoundTrip(n: nat)
    ensures DecimalValue(Decimal(n)) == n
  {
    var s := Decimal(n);
    if n < 10 {
      assert s[..0] == [];
    } else {
      assert s[..|s| - 1] == Decimal(n / 10);
      DecimalRoundTrip(n / 10);
    }
  }

  function Format(t: Token): string {
    t.inst + ":" + Decimal(t.counter)
  }

  /** The token expression: a UUID, a colon, then one or more digits up to the end. */
  predicate IsTokenText(s: string) {
    |s| > 37 && IsUuid(s[..36]) && s[36] == ':' && forall i | 37 <= i < |s| :: IsDigit(s[i])
  }

  function Parse(s: string): Option<Token> {
    if IsTokenText(s) then Some(Token(Lower(s[..36]), DecimalValue(s[37..]))) else None
  }

  /** Comparison of a presented and an expected token text. */
  predicate TokensMatch(presented: string, expected: string) {
    var a, b := Parse(presented), Parse(expected);
    if a.None? || b.None? then presented == expected else a.value == b.value
  }

  lemma FormatIsTokenText(t: Token)
    requires IsUuid(t.inst)
    ensures IsTokenText(Format(t)) && Format(t)[..36] == t.inst && Format(t)[37..] == Decimal(t.counter)
  {
    var s := Format(t);
    assert s[..36] == t.inst;
    assert s[37..] == Decimal(t.counter);
    forall i | 37 <= i < |s| ensures IsDigit(s[i]) {
      assert s[i] == Decimal(t.counter)[i - 37];
    }
  }

  /** Parsing a printed token gives it back with its instance id in lower case. */
  lemma ParseOfFormat(t: Token)
    requires IsUuid(t.inst)
    ensures Parse(Format(t)) == Some(Token(Lower(t.inst), t.counter))
  {
    FormatIsTokenText(t);
    DecimalRoundTrip(t.counter);
  }

  /** Printing is injective on the ids the service uses, so comparing texts compares tokens. */
  lemma FormatInjective(t: Token, u: Token)
    requires IsUuid(t.inst) && IsUuid(u.inst)
    ensures Format(t) == Format(u) <==> t == u
  {
    if Format(t) == Format(u) {
      FormatIsTokenText(t);
      FormatIsTokenText(u);
      DecimalRoundTrip(t.counter);
      DecimalRoundTrip(u.counter);
    }
  }

  /** The tolerant comparison and plain text equality agree on minted tokens. */
  lemma MatchIsEqualityOnMinted(t: Token, u: Token)
    requires IsInstanceId(t.inst) && IsInstanceId(u.inst)
    ensures TokensMatch(Format(t), Format(u)) <==> Format(t) == Format(u)
  {
    ParseOfFormat(t);
    ParseOfFormat(u);
    FormatInjective(t, u);
  }

  /** Parsing accepts nothing but a UUID, a colon and digits, and keeps what they say. */
  lemma ParseSound(s: string)
    requires Parse(s).Some?
    ensures exists id: string, digits: string ::
              IsUuid(id) && digits != [] && (forall i | 0 <= i < |digits| :: IsDigit(digits[i])) &&
              s == id + ":" + digits && Parse(s).value == Token(Lower(id), DecimalValue(digits))
  {
    var id, digits := s[..36], s[37..];
    assert s == id + ":" + digits;
    assert Parse(s).value == Token(Lower(id), DecimalValue(digits));
  }
}
