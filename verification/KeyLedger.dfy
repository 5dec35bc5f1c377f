/** Ephemeral key files and the ledger that lists them. */
module KeyLedgers {
  import opened Wrappers
  import opened Texts

  datatype Entry = Entry(keyId: string, jobId: string, path: string, maxSessions: int, sessionsUsed: int, expires: int)

  /** The ledger, and the key files with their line. */
  datatype State = State(entries: seq<Entry>, files: map<string, string>)

  /** `validKey` is the answer of the check on the public key, `line` the rendered authorized_keys line. */
  datatype Op =
    | Provision(jobId: string, keyId: string, ttl: int, sessions: int, singleUse: bool,
                validKey: bool, line: Option<string>, now: int, fails: bool)
    | Revoke(jobId: string, keyId: string, fails: bool)
    | Sweep(now: int, fails: bool)

  // ---- File names ----

  predicate IsHexDigit(c: char) {
    '0' <= c <= '9' || 'a' <= c <= 'f'
  }

  /** What the generator of key ids returns: sixteen bytes in lower-case hexadecimal. */
  predicate IsKeyId(s: string) {
    |s| == 32 && forall i | 0 <= i < |s| :: IsHexDigit(s[i])
  }

  /** Letters and digits outside ASCII are given by the set. */
  predicate IsNameChar(c: char, letters: set<char>) {
    'a' <= c <= 'z' || 'A' <= c <= 'Z' || '0' <= c <= '9' || c == '-' || c == '_' || c in letters
  }

  function Cleaned(s: string, letters: set<char>): (r: string)
    ensures |r| == |s|
  {
    seq(|s|, i requires 0 <= i < |s| => if IsNameChar(s[i], letters) then s[i] else '_')
  }

  function FileComponent(s: string, letters: set<char>): string {
    var out := Cleaned(Trim(s), letters);
    if out == "" then "x" else if |out| > 64 then out[..64] else out
  }

  method SafeFileComponent(s: string, letters: set<char>) returns (out: string)
    ensures out == FileComponent(s, letters)
  {
    var t := Trim(s);
    out := "";
    for i := 0 to |t|
      invariant out == Cleaned(t, letters)[..i]
    {
      out := out + if IsNameChar(t[i], letters) then [t[i]] else "_";
    }
    if out == "" {
      return "x";
    }
    if |out| > 64 {
      return out[..64];
    }
  }

  function FileName(jobId: string, keyId: string, letters: set<char>): string {
    "pgos-" + FileComponent(jobId, letters) + "-" + FileComponent(keyId, letters) + ".pub"
  }

  lemma KeyIdIsComponent(keyId: string, letters: set<char>)
    requires IsKeyId(keyId)
    ensures FileComponent(keyId, letters) == keyId
  {
    assert !IsSpace(keyId[0]) && !IsSpace(keyId[|keyId| - 1]);
    TrimOfTrimmed(keyId);
    assert Cleaned(keyId, letters) == keyId;
  }

  /** Keys with different ids have different files, whatever their jobs are called. */
  lemma FileNamesDiffer(a: string, b: string, job: string, other: string, letters: set<char>)
    requires IsKeyId(a) && IsKeyId(b) && a != b
    ensures FileName(job, a, letters) != FileName(other, b, letters)
  {
    KeyIdIsComponent(a, letters);
    KeyIdIsComponent(b, letters);
    var f, g := FileName(job, a, letters), FileName(other, b, letters);
    assert f[|f| - 36..|f| - 4] == a && g[|g| - 36..|g| - 4] == b;
  }

  // ---- The ledger ----

  function Active(entries: seq<Entry>, now: int): (r: seq<Entry>)
    ensures |r| <= |entries|
  {
    if entries == [] then []
    else
      var e := entries[|entries| - 1];
      Active(entries[..|entries| - 1], now) + if e.expires > now then [e] else []
  }

  function Expired(entries: seq<Entry>, now: int): seq<Entry> {
    if entries == [] then []
    else
      var e := entries[|entries| - 1];
      Expired(entries[..|entries| - 1], now) + if e.expires > now then [] else [e]
  }

  predicate IsFor(e: Entry, jobId: string, keyId: string) {
    e.jobId == jobId && e.keyId == keyId
  }

  function Without(entries: seq<Entry>, jobId: string, keyId: string): seq<Entry> {
    if entries == [] then []
    else
      Without(entries[..|entries| - 1], jobId, keyId) +
      if IsFor(entries[|entries| - 1], jobId, keyId) then [] else [entries[|entries| - 1]]
  }

  /** The last entry of a job and key. */
  function Find(entries: seq<Entry>, jobId: string, keyId: string): Option<Entry> {
    if entries == [] then None
    else if IsFor(entries[|entries| - 1], jobId, keyId) then Some(entries[|entries| - 1])
    else Find(entries[..|entries| - 1], jobId, keyId)
  }

  function UsableFor(entries: seq<Entry>, jobId: string): nat {
    if entries == [] then 0
    else
      var e := entries[|entries| - 1];
      UsableFor(entries[..|entries| - 1], jobId) + if e.jobId == jobId && e.sessionsUsed < e.maxSessions then 1 else 0
  }

  function Paths(entries: seq<Entry>): set<string> {
    set i | 0 <= i < |entries| :: entries[i].path
  }

  // ---- Requests ----

  datatype Answer = BadRequest | Conflict | Failure | Done

  function Sessions(op: Op): int
    requires op.Provision?
  {
    if op.singleUse then 1 else if op.sessions <= 0 then 8 else op.sessions
  }

  function AnswerTo(s: State, op: Op, limit: nat): Answer
    requires op.Provision?
  {
    if Trim(op.jobId) == "" || op.ttl <= 0 || op.ttl > 3600 || !op.validKey then BadRequest
    else if |Active(s.entries, op.now)| >= limit then Conflict
    else if UsableFor(Active(s.entries, op.now), op.jobId) >= Sessions(op) then Conflict
    else if op.line.None? then BadRequest
    else if op.fails then Failure
    else Done
  }

  function NewEntry(op: Op, letters: set<char>): Entry
    requires op.Provision?
  {
    Entry(op.keyId, op.jobId, FileName(op.jobId, op.keyId, letters), Sessions(op), 0, op.now + op.ttl)
  }

  /** The state after a request. A ledger that cannot be written leaves files and entries as they were. */
  function After(s: State, op: Op, limit: nat, letters: set<char>): State {
    match op
    case Provision(_, _, _, _, _, _, line, _, _) =>
      if AnswerTo(s, op, limit) != Done then s
      else
        var e := NewEntry(op, letters);
        State(s.entries + [e], s.files[e.path := if line.Some? then line.value else ""])
    case Revoke(jobId, keyId, fails) =>
      var e := Find(s.entries, jobId, keyId);
      if fails || e.None? then s else State(Without(s.entries, jobId, keyId), s.files - {e.value.path})
    case Sweep(now, fails) =>
      if fails then s else State(Active(s.entries, now), s.files - Paths(Expired(s.entries, now)))
  }

  function AfterAll(ops: seq<Op>, limit: nat, letters: set<char>): State {
    if ops == [] then State([], map[])
    else After(AfterAll(ops[..|ops| - 1], limit, letters), ops[|ops| - 1], limit, letters)
  }

  // ---- The handlers ----

  class Provisioner {
    const limit: nat
    const letters: set<char>
    var entries: seq<Entry>
    var files: map<string, string>

    function Current(): State
      reads this
    {
      State(entries, files)
    }

    constructor (limit: nat, letters: set<char>)
      ensures Current() == State([], map[]) && this.limit == limit && this.letters == letters
    {
      this.limit, this.letters, entries, files := limit, letters, [], map[];
    }

    method ActiveEntries(now: int) returns (out: seq<Entry>)
      ensures out == Active(entries, now)
    {
      out := [];
      for i := 0 to |entries|
        invariant out == Active(entries[..i], now)
      {
        assert entries[..i + 1][..i] == entries[..i];
        if entries[i].expires > now {
          out := out + [entries[i]];
        }
      }
      assert entries[..|entries|] == entries;
    }

    method CountActiveForJob(jobId: string, now: int) returns (n: nat)
      ensures n == UsableFor(Active(entries, now), jobId)
    {
      var active := ActiveEntries(now);
      n := 0;
      for i := 0 to |active|
        invariant n == UsableFor(active[..i], jobId)
      {
        assert active[..i + 1][..i] == active[..i];
        if active[i].jobId == jobId && active[i].sessionsUsed < active[i].maxSessions {
          n := n + 1;
        }
      }
      assert active[..|active|] == active;
    }

    /** `line` is the rendered authorized_keys line, if rendering succeeds; a failing ledger removes the file again. */
    method HandleProvision(op: Op) returns (answer: Answer)
      requires op.Provision? && (op.fails ==> FileName(op.jobId, op.keyId, letters) !in files)
      modifies this
      ensures answer == AnswerTo(old(Current()), op, limit) && Current() == After(old(Current()), op, limit, letters)
    {
      hide Trim, Active, UsableFor, FileName;
      if Trim(op.jobId) == "" || op.ttl <= 0 || op.ttl > 3600 {
        return BadRequest;
      }
      var maxSessions := if op.sessions <= 0 then 8 else op.sessions;
      if op.singleUse {
        maxSessions := 1;
      }
      if !op.validKey {
        return BadRequest;
      }
      var active := ActiveEntries(op.now);
      if |active| >= limit {
        return Conflict;
      }
      var jobCount := CountActiveForJob(op.jobId, op.now);
      if jobCount >= maxSessions {
        return Conflict;
      }
      if op.line.None? {
        return BadRequest;
      }
      var path := FileName(op.jobId, op.keyId, letters);
      files := files[path := op.line.value];
      if op.fails {
        files := files - {path};
        assert files == old(files);
        return Failure;
      }
      entries := entries + [Entry(op.keyId, op.jobId, path, maxSessions, 0, op.now + op.ttl)];
      return Done;
    }

    method HandleRevoke(jobId: string, keyId: string, fails: bool)
      modifies this
      ensures Current() == After(old(Current()), Revoke(jobId, keyId, fails), limit, letters)
    {
      var removed: Option<Entry> := None;
      var kept: seq<Entry> := [];
      for i := 0 to |entries|
        invariant removed == Find(entries[..i], jobId, keyId) && kept == Without(entries[..i], jobId, keyId)
      {
        assert entries[..i + 1][..i] == entries[..i];
        if IsFor(entries[i], jobId, keyId) {
          removed := Some(entries[i]);
        } else {
          kept := kept + [entries[i]];
        }
      }
      assert entries[..|entries|] == entries;
      if removed.None? || fails {
        return;
      }
      entries := kept;
      files := files - {removed.value.path};
    }

    method SweepOnce(now: int, fails: bool) returns (purged: nat)
      modifies this
      ensures Current() == After(old(Current()), Sweep(now, fails), limit, letters)
      ensures purged == if fails then 0 else |Expired(old(entries), now)|
    {
      var expired: seq<Entry> := [];
      var kept: seq<Entry> := [];
      for i := 0 to |entries|
        invariant kept == Active(entries[..i], now) && expired == Expired(entries[..i], now)
      {
        assert entries[..i + 1][..i] == entries[..i];
        if entries[i].expires > now {
          kept := kept + [entries[i]];
        } else {
          expired := expired + [entries[i]];
        }
      }
      assert entries[..|entries|] == entries;
      if fails {
        return 0;
      }
      entries := kept;
      for i := 0 to |expired|
        invariant entries == kept && files == old(files) - Paths(expired[..i])
      {
        files := files - {expired[i].path};
        PathsAppend(expired[..i], expired[i]);
        assert expired[..i + 1] == expired[..i] + [expired[i]];
      }
      assert expired[..|expired|] == expired;
      return |expired|;
    }
  }

  lemma PathsAppend(entries: seq<Entry>, e: Entry)
    ensures Paths(entries + [e]) == Paths(entries) + {e.path}
  {
    var all := entries + [e];
    forall p | p in Paths(entries) + {e.path} ensures p in Paths(all) {
      if p in Paths(entries) {
        var i :| 0 <= i < |entries| && entries[i].path == p;
        assert all[i].path == p;
      } else {
        assert all[|entries|].path == p;
      }
    }
  }

  // ---- What every run keeps ----

  function UsedIds(ops: seq<Op>): set<string> {
    set i | 0 <= i < |ops| && ops[i].Provision? :: ops[i].keyId
  }

  /** No request of the run was handled later than this. */
  predicate UpTo(ops: seq<Op>, t: int) {
    forall i | 0 <= i < |ops| && !ops[i].Revoke? :: ops[i].now <= t
  }

  /** The clock does not go back, and key ids are well-formed and never repeated. */
  predicate Proper(ops: seq<Op>) {
    ops == [] ||
    (var op, before := ops[|ops| - 1], ops[..|ops| - 1];
     Proper(before) && (op.Provision? ==> IsKeyId(op.keyId) && op.keyId !in UsedIds(before)) &&
     (!op.Revoke? ==> UpTo(before, op.now)))
  }

  predicate KeysDiffer(entries: seq<Entry>) {
    forall i, j | 0 <= i < j < |entries| :: entries[i].keyId != entries[j].keyId
  }

  predicate WellNamed(entries: seq<Entry>, letters: set<char>) {
    forall e | e in entries :: IsKeyId(e.keyId) && e.path == FileName(e.jobId, e.keyId, letters)
  }

  lemma MembersOf(entries: seq<Entry>, now: int, jobId: string, keyId: string)
    ensures forall e :: e in Active(entries, now) <==> e in entries && e.expires > now
    ensures forall e :: e in Expired(entries, now) <==> e in entries && e.expires <= now
    ensures forall e :: e in Without(entries, jobId, keyId) <==> e in entries && !IsFor(e, jobId, keyId)
    ensures Find(entries, jobId, keyId).Some? ==>
              Find(entries, jobId, keyId).value in entries && IsFor(Find(entries, jobId, keyId).value, jobId, keyId)
    ensures Find(entries, jobId, keyId).None? ==> forall e | e in entries :: !IsFor(e, jobId, keyId)
  {
    hide Active, Expired, Without, Find;
    ByExpiry(entries, now);
    ByName(entries, jobId, keyId);
  }

  lemma {:induction false} ByExpiry(entries: seq<Entry>, now: int)
    ensures forall e :: e in Active(entries, now) <==> e in entries && e.expires > now
    ensures forall e :: e in Expired(entries, now) <==> e in entries && e.expires <= now
  {
    if entries != [] {
      ByExpiry(entries[..|entries| - 1], now);
      assert entries == entries[..|entries| - 1] + [entries[|entries| - 1]];
    }
  }

  lemma {:induction false} ByName(entries: seq<Entry>, jobId: string, keyId: string)
    ensures forall e :: e in Without(entries, jobId, keyId) <==> e in entries && !IsFor(e, jobId, keyId)
    ensures Find(entries, jobId, keyId).Some? ==>
              Find(entries, jobId, keyId).value in entries && IsFor(Find(entries, jobId, keyId).value, jobId, keyId)
    ensures Find(entries, jobId, keyId).None? ==> forall e | e in entries :: !IsFor(e, jobId, keyId)
  {
    if entries != [] {
      ByName(entries[..|entries| - 1], jobId, keyId);
      assert entries == entries[..|entries| - 1] + [entries[|entries| - 1]];
    }
  }

  lemma OneMoreKey(entries: seq<Entry>, e: Entry)
    requires KeysDiffer(entries) && forall x | x in entries :: x.keyId != e.keyId
    ensures KeysDiffer(entries + [e])
  {
    forall i | 0 <= i < |entries| ensures entries[i].keyId != e.keyId {
      assert entries[i] in entries;
    }
  }

  lemma LastKeyDiffers(entries: seq<Entry>)
    requires entries != [] && KeysDiffer(entries)
    ensures KeysDiffer(entries[..|entries| - 1])
    ensures forall x | x in entries[..|entries| - 1] :: x.keyId != entries[|entries| - 1].keyId
  {
  }

  lemma {:induction false} KeysStayDifferent(entries: seq<Entry>, now: int, jobId: string, keyId: string)
    requires KeysDiffer(entries)
    ensures KeysDiffer(Active(entries, now)) && KeysDiffer(Without(entries, jobId, keyId))
  {
    hide KeysDiffer;
    if entries == [] {
      NoKeys();
    } else {
      var rest, e := entries[..|entries| - 1], entries[|entries| - 1];
      LastKeyDiffers(entries);
      KeysStayDifferent(rest, now, jobId, keyId);
      ByExpiry(rest, now);
      ByName(rest, jobId, keyId);
      OneMoreKey(Active(rest, now), e);
      OneMoreKey(Without(rest, jobId, keyId), e);
      assert Active(rest, now) + [] == Active(rest, now) &&
             Without(rest, jobId, keyId) + [] == Without(rest, jobId, keyId);
    }
  }

  lemma NoKeys()
    ensures KeysDiffer([])
  {
  }

  /** Fewer entries are active later, or after some are removed. */
  lemma {:induction false} ActiveShrinks(entries: seq<Entry>, now: int, later: int, jobId: string, keyId: string)
    requires now <= later
    ensures |Active(entries, later)| <= |Active(entries, now)|
    ensures |Active(Without(entries, jobId, keyId), now)| <= |Active(entries, now)|
    ensures |Active(Active(entries, now), later)| <= |Active(entries, later)|
  {
    if entries != [] {
      var rest, e := entries[..|entries| - 1], entries[|entries| - 1];
      ActiveShrinks(rest, now, later, jobId, keyId);
      assert (Active(rest, now) + [e])[..|Active(rest, now)|] == Active(rest, now);
      assert (Without(rest, jobId, keyId) + [e])[..|Without(rest, jobId, keyId)|] == Without(rest, jobId, keyId);
      assert Active(rest, now) + [] == Active(rest, now) &&
             Without(rest, jobId, keyId) + [] == Without(rest, jobId, keyId);
    }
  }

  lemma SamePathSameEntry(entries: seq<Entry>, letters: set<char>, a: Entry, b: Entry)
    requires KeysDiffer(entries) && WellNamed(entries, letters) && a in entries && b in entries && a.path == b.path
    ensures a == b
  {
    if a.keyId != b.keyId {
      FileNamesDiffer(a.keyId, b.keyId, a.jobId, b.jobId, letters);
    }
  }

  /** Removing the files of the removed entries leaves exactly the files of the kept ones. */
  lemma FilesFollow(entries: seq<Entry>, kept: seq<Entry>, removed: set<string>, letters: set<char>,
                    files: map<string, string>)
    requires KeysDiffer(entries) && WellNamed(entries, letters) && files.Keys == Paths(entries)
    requires forall e | e in kept :: e in entries && e.path !in removed
    requires forall e | e in entries && e !in kept :: e.path in removed
    ensures (files - removed).Keys == Paths(kept)
  {
    forall p ensures p in Paths(entries) && p !in removed <==> p in Paths(kept) {
      if p in Paths(entries) && p !in removed {
        var i :| 0 <= i < |entries| && entries[i].path == p;
        assert entries[i] in kept;
        var j :| 0 <= j < |kept| && kept[j] == entries[i];
      }
      if p in Paths(kept) {
        var j :| 0 <= j < |kept| && kept[j].path == p;
        assert kept[j] in kept;
        var i :| 0 <= i < |entries| && entries[i] == kept[j];
      }
    }
  }

  /** Files and ledger agree, keys are distinct and well named, and no more are active than allowed, now or later. */
  ghost predicate Consistent(s: State, ops: seq<Op>, limit: nat, letters: set<char>) {
    s.files.Keys == Paths(s.entries) && KeysDiffer(s.entries) && WellNamed(s.entries, letters) &&
    (forall e | e in s.entries :: e.keyId in UsedIds(ops)) &&
    forall t | UpTo(ops, t) :: |Active(s.entries, t)| <= limit
  }

  lemma UpToPrefix(ops: seq<Op>, t: int)
    requires ops != [] && UpTo(ops, t)
    ensures UpTo(ops[..|ops| - 1], t) && (!ops[|ops| - 1].Revoke? ==> ops[|ops| - 1].now <= t)
  {
    var before := ops[..|ops| - 1];
    forall i | 0 <= i < |before| && !before[i].Revoke? ensures before[i].now <= t {
      assert ops[i] == before[i];
    }
  }

  lemma UsedIdsAppend(ops: seq<Op>)
    requires ops != []
    ensures UsedIds(ops[..|ops| - 1]) <= UsedIds(ops)
    ensures ops[|ops| - 1].Provision? ==> ops[|ops| - 1].keyId in UsedIds(ops)
  {
    var before := ops[..|ops| - 1];
    forall k | k in UsedIds(before) ensures k in UsedIds(ops) {
      var i :| 0 <= i < |before| && before[i].Provision? && before[i].keyId == k;
      assert ops[i].Provision? && ops[i].keyId == k;
    }
  }

  /** What one request does to the entries. */
  lemma ActiveStep(s: State, op: Op, limit: nat, letters: set<char>, t: int)
    requires !op.Revoke? ==> op.now <= t
    requires |Active(s.entries, t)| <= limit
    ensures |Active(After(s, op, limit, letters).entries, t)| <= limit
  {
    match op
    case Provision(_, _, _, _, _, _, _, now, _) =>
      if AnswerTo(s, op, limit) == Done {
        ActiveShrinks(s.entries, now, t, "", "");
        var e := NewEntry(op, letters);
        assert (s.entries + [e])[..|s.entries|] == s.entries;
      }
    case Revoke(jobId, keyId, _) => ActiveShrinks(s.entries, t, t, jobId, keyId);
    case Sweep(now, _) => ActiveShrinks(s.entries, now, t, "", "");
  }

  lemma ProvisionConsistent(s: State, op: Op, limit: nat, letters: set<char>)
    requires op.Provision? && IsKeyId(op.keyId) && forall e | e in s.entries :: e.keyId != op.keyId
    requires s.files.Keys == Paths(s.entries) && KeysDiffer(s.entries) && WellNamed(s.entries, letters)
    ensures var s' := After(s, op, limit, letters);
            s'.files.Keys == Paths(s'.entries) && KeysDiffer(s'.entries) && WellNamed(s'.entries, letters) &&
            forall e | e in s'.entries :: e in s.entries || e.keyId == op.keyId
  {
    hide AnswerTo, FileName, Paths;
    if AnswerTo(s, op, limit) == Done {
      var e := NewEntry(op, letters);
      PathsAppend(s.entries, e);
      forall i | 0 <= i < |s.entries| ensures s.entries[i].keyId != op.keyId {
        assert s.entries[i] in s.entries;
      }
    }
  }

  lemma RemovalConsistent(s: State, op: Op, limit: nat, letters: set<char>)
    requires !op.Provision?
    requires s.files.Keys == Paths(s.entries) && KeysDiffer(s.entries) && WellNamed(s.entries, letters)
    ensures var s' := After(s, op, limit, letters);
            s'.files.Keys == Paths(s'.entries) && KeysDiffer(s'.entries) && WellNamed(s'.entries, letters) &&
            forall e | e in s'.entries :: e in s.entries
  {
    hide Paths, Active, Expired, Without, Find;
    var now := if op.Sweep? then op.now else 0;
    var jobId, keyId := if op.Revoke? then op.jobId else "", if op.Revoke? then op.keyId else "";
    MembersOf(s.entries, now, jobId, keyId);
    KeysStayDifferent(s.entries, now, jobId, keyId);
    if !op.fails {
      if op.Sweep? {
        SweptFiles(s.entries, now, letters, s.files);
      } else if Find(s.entries, jobId, keyId).Some? {
        RevokedFiles(s.entries, Find(s.entries, jobId, keyId).value, letters, s.files);
      }
    }
  }

  lemma SweptFiles(entries: seq<Entry>, now: int, letters: set<char>, files: map<string, string>)
    requires KeysDiffer(entries) && WellNamed(entries, letters) && files.Keys == Paths(entries)
    ensures (files - Paths(Expired(entries, now))).Keys == Paths(Active(entries, now))
  {
    hide Active, Expired;
    MembersOf(entries, now, "", "");
    var kept, expired := Active(entries, now), Expired(entries, now);
    forall e | e in kept ensures e.path !in Paths(expired) {
      forall i | 0 <= i < |expired| ensures expired[i].path != e.path {
        assert expired[i] in expired;
        if expired[i].path == e.path {
          SamePathSameEntry(entries, letters, e, expired[i]);
        }
      }
    }
    forall e | e in entries && e !in kept ensures e.path in Paths(expired) {
      assert e in expired;
      var i :| 0 <= i < |expired| && expired[i] == e;
    }
    FilesFollow(entries, kept, Paths(expired), letters, files);
  }

  lemma RevokedFiles(entries: seq<Entry>, e: Entry, letters: set<char>, files: map<string, string>)
    requires KeysDiffer(entries) && WellNamed(entries, letters) && files.Keys == Paths(entries) && e in entries
    ensures (files - {e.path}).Keys == Paths(Without(entries, e.jobId, e.keyId))
  {
    hide Without, Paths;
    MembersOf(entries, 0, e.jobId, e.keyId);
    var kept := Without(entries, e.jobId, e.keyId);
    forall k | k in kept ensures k.path != e.path {
      if k.path == e.path {
        SamePathSameEntry(entries, letters, k, e);
      }
    }
    forall k | k in entries && k !in kept ensures k.path == e.path {
      var i :| 0 <= i < |entries| && entries[i] == k;
      var j :| 0 <= j < |entries| && entries[j] == e;
      assert i == j;
    }
    FilesFollow(entries, kept, {e.path}, letters, files);
  }

  /**
   * Over every run of provisions, revocations and sweeps with fresh key ids and a clock that does not
   * go back, also when the ledger cannot be written: the key files are exactly those the ledger lists,
   * and never more keys are active than allowed.
   */
  lemma {:induction false} LedgerMatchesFiles(ops: seq<Op>, limit: nat, letters: set<char>)
    requires Proper(ops)
    ensures Consistent(AfterAll(ops, limit, letters), ops, limit, letters)
  {
    hide After, Paths, KeysDiffer, WellNamed, Active, UpTo, UsedIds;
    if ops == [] {
      EmptyConsistent(ops, limit, letters);
    } else {
      var before, op := ops[..|ops| - 1], ops[|ops| - 1];
      var s := AfterAll(before, limit, letters);
      LedgerMatchesFiles(before, limit, letters);
      UsedIdsAppend(ops);
      if op.Provision? {
        ProvisionConsistent(s, op, limit, letters);
      } else {
        RemovalConsistent(s, op, limit, letters);
      }
      forall t | UpTo(ops, t) ensures |Active(After(s, op, limit, letters).entries, t)| <= limit {
        UpToPrefix(ops, t);
        ActiveStep(s, op, limit, letters, t);
      }
    }
  }

  lemma EmptyConsistent(ops: seq<Op>, limit: nat, letters: set<char>)
    requires ops == []
    ensures Consistent(State([], map[]), ops, limit, letters)
  {
  }

  /** A sweep removes exactly the expired entries, and exactly their files. */
  lemma SweepIsExact(ops: seq<Op>, now: int, limit: nat, letters: set<char>, e: Entry)
    requires Proper(ops) && e in AfterAll(ops, limit, letters).entries
    ensures var swept := After(AfterAll(ops, limit, letters), Sweep(now, false), limit, letters);
            (e in swept.entries <==> e.expires > now) && (e.path in swept.files <==> e.expires > now)
  {
    hide Active, Expired, AfterAll, Paths, KeysDiffer, WellNamed;
    var s := AfterAll(ops, limit, letters);
    LedgerMatchesFiles(ops, limit, letters);
    ByExpiry(s.entries, now);
    SweptFiles(s.entries, now, letters, s.files);
    KeptPath(s.entries, now, letters, e);
  }

  lemma KeptPath(entries: seq<Entry>, now: int, letters: set<char>, e: Entry)
    requires KeysDiffer(entries) && WellNamed(entries, letters) && e in entries
    ensures e.path in Paths(Active(entries, now)) <==> e.expires > now
  {
    hide Active;
    ByExpiry(entries, now);
    var kept := Active(entries, now);
    forall i | 0 <= i < |kept| && kept[i].path == e.path ensures kept[i] == e {
      assert kept[i] in kept;
      SamePathSameEntry(entries, letters, e, kept[i]);
    }
    if e.expires > now {
      var i :| 0 <= i < |kept| && kept[i] == e;
    }
  }
}
