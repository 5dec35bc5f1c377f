/** Which keys are granted, for how long they stay, and how many a job can have. */
module KeyRuns {
  import opened Wrappers
  import opened Texts
  import opened KeyLedgers

  // ---- Answers ----

  /** Positions of the entries that have not expired. */
  function Unexpired(entries: seq<Entry>, now: int): set<nat> {
    set i: nat | i < |entries| && entries[i].expires > now
  }

  /** Of these, those of the job with sessions left. */
  function Usable(entries: seq<Entry>, jobId: string, now: int): set<nat> {
    set i: nat | i < |entries| && entries[i].expires > now && entries[i].jobId == jobId &&
                 entries[i].sessionsUsed < entries[i].maxSessions
  }

  lemma {:induction false} UnexpiredCount(entries: seq<Entry>, now: int)
    ensures |Active(entries, now)| == |Unexpired(entries, now)|
  {
    if entries != [] {
      var k := |entries| - 1;
      UnexpiredCount(entries[..k], now);
      assert Unexpired(entries, now) == Unexpired(entries[..k], now) + if entries[k].expires > now then {k} else {};
    }
  }

  lemma UsableOfMore(entries: seq<Entry>, e: Entry, t: int, job: string)
    ensures UsableFor(Active(entries + [e], t), job) ==
              UsableFor(Active(entries, t), job) +
              if IsUsable(e, job, t) then 1 else 0
  {
    assert (entries + [e])[..|entries|] == entries;
    assert (Active(entries, t) + [e])[..|Active(entries, t)|] == Active(entries, t);
    assert Active(entries, t) + [] == Active(entries, t);
  }

  predicate IsUsable(e: Entry, jobId: string, now: int) {
    e.expires > now && e.jobId == jobId && e.sessionsUsed < e.maxSessions
  }

  lemma LastUsable(entries: seq<Entry>, jobId: string, now: int)
    requires entries != []
    ensures var k := |entries| - 1;
            k !in Usable(entries[..k], jobId, now) &&
            Usable(entries, jobId, now) == Usable(entries[..k], jobId, now) +
                                           if IsUsable(entries[k], jobId, now) then {k} else {}
  {
  }

  lemma {:induction false} UsableCount(entries: seq<Entry>, jobId: string, now: int)
    ensures UsableFor(Active(entries, now), jobId) == |Usable(entries, jobId, now)|
  {
    if entries != [] {
      var k := |entries| - 1;
      UsableCount(entries[..k], jobId, now);
      assert entries == entries[..k] + [entries[k]];
      UsableOfMore(entries[..k], entries[k], now, jobId);
      LastUsable(entries, jobId, now);
      hide UsableFor, Active, Usable;
    }
  }

  /** The sessions of a key: one if it is single-use, else what was asked for, else eight. */
  predicate SessionsAre(op: Op, n: int)
    requires op.Provision?
  {
    if op.singleUse then n == 1 else n == if op.sessions > 0 then op.sessions else 8
  }

  /** The request itself is in order. */
  predicate WellMade(op: Op)
    requires op.Provision?
  {
    Trim(op.jobId) != "" && 1 <= op.ttl <= 3600 && op.validKey
  }

  /** Keys are left for all, and for the job. */
  predicate Room(s: State, op: Op, limit: nat)
    requires op.Provision?
  {
    |Unexpired(s.entries, op.now)| < limit && |Usable(s.entries, op.jobId, op.now)| < Sessions(op)
  }

  /** When a provision is granted, and which refusal it gets otherwise. */
  lemma AnswersExactly(s: State, op: Op, limit: nat)
    requires op.Provision?
    ensures SessionsAre(op, Sessions(op)) && Sessions(op) >= 1
    ensures AnswerTo(s, op, limit) == Done <==> WellMade(op) && Room(s, op, limit) && op.line.Some? && !op.fails
    ensures AnswerTo(s, op, limit) == Conflict <==> WellMade(op) && !Room(s, op, limit)
    ensures AnswerTo(s, op, limit) == BadRequest <==>
              !WellMade(op) || (Room(s, op, limit) && op.line.None?)
  {
    UnexpiredCount(s.entries, op.now);
    UsableCount(s.entries, op.jobId, op.now);
    hide Active, UsableFor, Unexpired, Usable, Trim;
  }

  /** A granted key: its line in its file, and an entry that expires after the time asked for. */
  predicate GrantedBy(op: Op, e: Entry, files: map<string, string>, letters: set<char>) {
    op.Provision? && WellMade(op) && op.line.Some? && !op.fails &&
    e.keyId == op.keyId && e.jobId == op.jobId && e.path == FileName(op.jobId, op.keyId, letters) &&
    SessionsAre(op, e.maxSessions) && e.sessionsUsed == 0 && e.expires == op.now + op.ttl &&
    e.path in files && files[e.path] == op.line.value
  }

  /** A provision adds this one entry and file if it is granted, and changes nothing otherwise. */
  lemma ProvisionIsExact(s: State, op: Op, limit: nat, letters: set<char>)
    requires op.Provision?
    ensures var s' := After(s, op, limit, letters);
            if AnswerTo(s, op, limit) != Done then s' == s
            else |s'.entries| == |s.entries| + 1 && s'.entries[..|s.entries|] == s.entries &&
                 GrantedBy(op, s'.entries[|s.entries|], s'.files, letters) &&
                 s'.files - {s'.entries[|s.entries|].path} == s.files - {s'.entries[|s.entries|].path}
  {
    AnswersExactly(s, op, limit);
    hide AnswerTo, FileName, Room, Trim;
  }

  // ---- Revocation ----

  /** A revocation removes exactly the entry of the job and key, and exactly its file. */
  lemma RevokeIsExact(ops: seq<Op>, jobId: string, keyId: string, limit: nat, letters: set<char>, e: Entry)
    requires Proper(ops) && e in AfterAll(ops, limit, letters).entries
    ensures var s := AfterAll(ops, limit, letters);
            var s' := After(s, Revoke(jobId, keyId, false), limit, letters);
            var named := e.jobId == jobId && e.keyId == keyId;
            (e in s'.entries <==> !named) && (e.path in s'.files <==> !named) &&
            (!named ==> e.path in s.files && s'.files[e.path] == s.files[e.path])
  {
    hide Find, Without, AfterAll, Paths, KeysDiffer, WellNamed;
    var s := AfterAll(ops, limit, letters);
    LedgerMatchesFiles(ops, limit, letters);
    ByName(s.entries, jobId, keyId);
    PathListed(s.entries, e);
    if Find(s.entries, jobId, keyId).Some? {
      var f := Find(s.entries, jobId, keyId).value;
      if e.path == f.path {
        SamePathSameEntry(s.entries, letters, e, f);
      } else if e.jobId == jobId && e.keyId == keyId {
        SameKeySameEntry(s.entries, e, f);
      }
    }
  }

  lemma PathListed(entries: seq<Entry>, e: Entry)
    requires e in entries
    ensures e.path in Paths(entries)
  {
    var i :| 0 <= i < |entries| && entries[i] == e;
  }

  lemma SameKeySameEntry(entries: seq<Entry>, a: Entry, b: Entry)
    requires KeysDiffer(entries) && a in entries && b in entries && a.keyId == b.keyId
    ensures a == b
  {
  }

  /** Revocations and sweeps that cannot write the ledger change nothing. */
  lemma FailureChangesNothing(s: State, op: Op, limit: nat, letters: set<char>)
    requires op.fails
    ensures After(s, op, limit, letters) == s
  {
    hide Trim, FileName, Active, UsableFor;
  }

  // ---- How long a key stays ----

  /** The operation takes the entry away: it revokes it, or sweeps it after its expiry. */
  predicate Removes(op: Op, e: Entry) {
    !op.fails &&
    match op
    case Revoke(jobId, keyId, _) => e.jobId == jobId && e.keyId == keyId
    case Sweep(now, _) => e.expires <= now
    case Provision(_, _, _, _, _, _, _, _, _) => false
  }

  lemma StayStep(s: State, op: Op, limit: nat, letters: set<char>, e: Entry)
    requires e in s.entries
    ensures e in After(s, op, limit, letters).entries <==> !Removes(op, e)
  {
    if op.Sweep? {
      ByExpiry(s.entries, op.now);
    } else if op.Revoke? {
      ByName(s.entries, op.jobId, op.keyId);
    }
    hide Active, Expired, Without, Find, AnswerTo, FileName;
  }

  lemma ComeStep(s: State, op: Op, limit: nat, letters: set<char>, e: Entry)
    requires e !in s.entries && e in After(s, op, limit, letters).entries
    ensures op.Provision? && e.keyId == op.keyId
  {
    if op.Sweep? {
      ByExpiry(s.entries, op.now);
    } else if op.Revoke? {
      ByName(s.entries, op.jobId, op.keyId);
    }
    hide Active, Expired, Without, Find, AnswerTo, FileName;
  }

  /** The entry that the i-th operation adds, if it is a provision that is granted. */
  predicate AddedAt(ops: seq<Op>, i: nat, limit: nat, letters: set<char>, e: Entry) {
    i < |ops| && ops[i].Provision? && AnswerTo(AfterAll(ops[..i], limit, letters), ops[i], limit) == Done &&
    e == NewEntry(ops[i], letters)
  }

  lemma AddedIsThere(ops: seq<Op>, i: nat, limit: nat, letters: set<char>, e: Entry)
    requires AddedAt(ops, i, limit, letters, e)
    ensures e in AfterAll(ops[..i + 1], limit, letters).entries
  {
    assert ops[..i + 1][..i] == ops[..i];
    hide AnswerTo, NewEntry;
    var s := AfterAll(ops[..i], limit, letters);
    assert (s.entries + [e])[|s.entries|] == e;
  }

  lemma IdIsUsed(ops: seq<Op>, i: nat)
    requires i < |ops| && ops[i].Provision?
    ensures ops[i].keyId in UsedIds(ops)
  {
  }

  lemma LastKeyId(ops: seq<Op>)
    requires Proper(ops) && ops != [] && ops[|ops| - 1].Provision?
    ensures IsKeyId(ops[|ops| - 1].keyId) && ops[|ops| - 1].keyId !in UsedIds(ops[..|ops| - 1])
  {
    hide UpTo, UsedIds, IsKeyId;
  }

  lemma ProperInit(ops: seq<Op>)
    requires Proper(ops) && ops != []
    ensures Proper(ops[..|ops| - 1])
  {
    hide UpTo, UsedIds, IsKeyId;
  }

  lemma {:induction false} LaterIdsDiffer(ops: seq<Op>, i: nat, k: nat)
    requires Proper(ops) && i < k < |ops| && ops[i].Provision? && ops[k].Provision?
    ensures ops[i].keyId != ops[k].keyId
    decreases |ops|
  {
    hide Proper, UsedIds, IsKeyId;
    var rest := ops[..|ops| - 1];
    assert rest[i] == ops[i];
    if k == |ops| - 1 {
      LastKeyId(ops);
      IdIsUsed(rest, i);
    } else {
      assert rest[k] == ops[k];
      ProperInit(ops);
      LaterIdsDiffer(rest, i, k);
    }
  }

  /**
   * A granted key is in the ledger at a later moment exactly if no revocation of it and no sweep after its
   * expiry succeeded in between.
   */
  lemma {:induction false} StaysExactly(ops: seq<Op>, i: nat, n: nat, limit: nat, letters: set<char>, e: Entry)
    requires Proper(ops) && AddedAt(ops, i, limit, letters, e) && i < n <= |ops|
    ensures e in AfterAll(ops[..n], limit, letters).entries <==> forall k | i < k < n :: !Removes(ops[k], e)
    decreases n
  {
    hide After, Removes, NewEntry, Proper;
    if n == i + 1 {
      AddedIsThere(ops, i, limit, letters, e);
    } else {
      var k := n - 1;
      StaysExactly(ops, i, k, limit, letters, e);
      assert ops[..n][..k] == ops[..k];
      var s := AfterAll(ops[..k], limit, letters);
      if e in s.entries {
        StayStep(s, ops[k], limit, letters, e);
      } else if e in After(s, ops[k], limit, letters).entries {
        ComeStep(s, ops[k], limit, letters, e);
        NewKeyId(ops[i], letters);
        LaterIdsDiffer(ops, i, k);
      }
    }
  }

  lemma NewKeyId(op: Op, letters: set<char>)
    requires op.Provision?
    ensures NewEntry(op, letters).keyId == op.keyId
  {
  }

  lemma EntryFacts(ops: seq<Op>, limit: nat, letters: set<char>, e: Entry)
    requires Proper(ops) && e in AfterAll(ops, limit, letters).entries
    ensures IsKeyId(e.keyId) && e.path == FileName(e.jobId, e.keyId, letters)
    ensures e.path in AfterAll(ops, limit, letters).files
  {
    LedgerMatchesFiles(ops, limit, letters);
    hide AfterAll, FileName, IsKeyId, Paths, Proper;
    PathListed(AfterAll(ops, limit, letters).entries, e);
  }

  /** An entry of before keeps its file through one more operation. */
  lemma OldEntry(ops: seq<Op>, limit: nat, letters: set<char>, e: Entry, i: nat)
    requires Proper(ops) && i < |ops| - 1
    requires var s := AfterAll(ops[..|ops| - 1], limit, letters);
             e in s.entries && GrantedBy(ops[i], e, s.files, letters)
    requires e in AfterAll(ops, limit, letters).entries
    ensures GrantedBy(ops[i], e, AfterAll(ops, limit, letters).files, letters)
  {
    var k := |ops| - 1;
    var s, op := AfterAll(ops[..k], limit, letters), ops[k];
    EntryFacts(ops, limit, letters, e);
    GrantFacts(ops[i], e, s.files, letters);
    hide After, AnswerTo, FileName, GrantedBy, IsKeyId;
    if op.Provision? {
      LaterIdsDiffer(ops, i, k);
      LastKeyId(ops);
      hide Proper;
      OtherFile(s, op, limit, letters, e);
    } else {
      FileKept(s, op, limit, letters, e.path);
    }
    hide AfterAll;
    SameFile(ops[i], e, s.files, AfterAll(ops, limit, letters).files, letters);
  }

  lemma GrantFacts(op: Op, e: Entry, files: map<string, string>, letters: set<char>)
    requires GrantedBy(op, e, files, letters)
    ensures op.Provision? && e.keyId == op.keyId && e.path in files
  {
  }

  lemma SameFile(op: Op, e: Entry, files: map<string, string>, files': map<string, string>, letters: set<char>)
    requires GrantedBy(op, e, files, letters) && e.path in files' && files'[e.path] == files[e.path]
    ensures GrantedBy(op, e, files', letters)
  {
  }

  lemma NewEntryGranted(s: State, op: Op, limit: nat, letters: set<char>, e: Entry)
    requires e !in s.entries && e in After(s, op, limit, letters).entries
    ensures GrantedBy(op, e, After(s, op, limit, letters).files, letters)
  {
    ComeStep(s, op, limit, letters, e);
    ProvisionIsExact(s, op, limit, letters);
    hide After, AnswerTo, GrantedBy;
    var s' := After(s, op, limit, letters);
    forall j | 0 <= j < |s.entries| ensures s'.entries[j] != e {
      assert s'.entries[j] == s'.entries[..|s.entries|][j] && s.entries[j] in s.entries;
    }
  }

  /** Every key in the ledger was granted by a request of the run, and its file has the line of that request. */
  lemma {:induction false} EntriesAreGranted(ops: seq<Op>, limit: nat, letters: set<char>, e: Entry) returns (i: nat)
    requires Proper(ops) && e in AfterAll(ops, limit, letters).entries
    ensures i < |ops| && GrantedBy(ops[i], e, AfterAll(ops, limit, letters).files, letters)
  {
    hide After, AnswerTo, GrantedBy, Paths;
    var k := |ops| - 1;
    var s := AfterAll(ops[..k], limit, letters);
    if e in s.entries {
      i := EntriesAreGranted(ops[..k], limit, letters, e);
      assert ops[..k][i] == ops[i];
      OldEntry(ops, limit, letters, e, i);
    } else {
      i := k;
      NewEntryGranted(s, ops[k], limit, letters, e);
    }
  }

  /** Removals leave the other files as they are. */
  lemma FileKept(s: State, op: Op, limit: nat, letters: set<char>, p: string)
    requires !op.Provision? && p in After(s, op, limit, letters).files
    ensures p in s.files && After(s, op, limit, letters).files[p] == s.files[p]
  {
    hide Active, Expired, Without, Find, Paths;
  }

  lemma OtherFile(s: State, op: Op, limit: nat, letters: set<char>, e: Entry)
    requires op.Provision? && IsKeyId(op.keyId) && IsKeyId(e.keyId) && e.keyId != op.keyId
    requires e.path == FileName(e.jobId, e.keyId, letters) && e.path in s.files
    ensures e.path in After(s, op, limit, letters).files
    ensures After(s, op, limit, letters).files[e.path] == s.files[e.path]
  {
    FileNamesDiffer(e.keyId, op.keyId, e.jobId, op.jobId, letters);
    hide AnswerTo, FileName;
  }

  // ---- Keys of one job ----

  lemma {:induction false} RevokedUsable(entries: seq<Entry>, job: string, t: int, jobId: string, keyId: string)
    ensures UsableFor(Active(Without(entries, jobId, keyId), t), job) <= UsableFor(Active(entries, t), job)
  {
    if entries != [] {
      var rest, e := entries[..|entries| - 1], entries[|entries| - 1];
      RevokedUsable(rest, job, t, jobId, keyId);
      assert rest + [e] == entries && Without(rest, jobId, keyId) + [] == Without(rest, jobId, keyId);
      UsableOfMore(rest, e, t, job);
      UsableOfMore(Without(rest, jobId, keyId), e, t, job);
      assert Without(entries, jobId, keyId) ==
             if IsFor(e, jobId, keyId) then Without(rest, jobId, keyId) else Without(rest, jobId, keyId) + [e];
      hide UsableFor, Active, Without, IsUsable;
    }
  }

  lemma {:induction false} SweptUsable(entries: seq<Entry>, job: string, t: int, now: int)
    ensures UsableFor(Active(Active(entries, now), t), job) <= UsableFor(Active(entries, t), job)
  {
    if entries != [] {
      var rest, e := entries[..|entries| - 1], entries[|entries| - 1];
      SweptUsable(rest, job, t, now);
      assert rest + [e] == entries && Active(rest, now) + [] == Active(rest, now);
      assert Active(entries, now) == Active(rest, now) + if e.expires > now then [e] else [];
      UsableOfMore(rest, e, t, job);
      UsableOfMore(Active(rest, now), e, t, job);
      hide UsableFor, Active, IsUsable;
    }
  }

  lemma {:induction false} LaterUsable(entries: seq<Entry>, job: string, t: int, now: int)
    requires now <= t
    ensures UsableFor(Active(entries, t), job) <= UsableFor(Active(entries, now), job)
  {
    if entries != [] {
      var rest, e := entries[..|entries| - 1], entries[|entries| - 1];
      LaterUsable(rest, job, t, now);
      assert rest + [e] == entries;
      UsableOfMore(rest, e, t, job);
      UsableOfMore(rest, e, now, job);
      hide UsableFor, Active, IsUsable;
    }
  }

  lemma JobStep(s: State, op: Op, limit: nat, letters: set<char>, t: int, job: string, m: int)
    requires (!op.Revoke? ==> op.now <= t) && UsableFor(Active(s.entries, t), job) <= m
    requires op.Provision? && op.jobId == job ==> Sessions(op) <= m
    ensures UsableFor(Active(After(s, op, limit, letters).entries, t), job) <= m
  {
    hide UsableFor, Active, Without, Expired, Find, Trim, FileName;
    match op
    case Provision(_, _, _, _, _, _, _, now, _) =>
      LaterUsable(s.entries, job, t, now);
      UsableOfMore(s.entries, NewEntry(op, letters), t, job);
    case Revoke(jobId, keyId, _) => RevokedUsable(s.entries, job, t, jobId, keyId);
    case Sweep(now, _) => SweptUsable(s.entries, job, t, now);
  }

  /**
   * If no request for the job asks for more than m sessions, the job never has more than m usable keys; with
   * single-use requests only, never more than one.
   */
  lemma {:induction false} JobBound(ops: seq<Op>, limit: nat, letters: set<char>, t: int, job: string, m: nat)
    requires Proper(ops) && UpTo(ops, t)
    requires forall i | 0 <= i < |ops| && ops[i].Provision? && ops[i].jobId == job :: Sessions(ops[i]) <= m
    ensures |Usable(AfterAll(ops, limit, letters).entries, job, t)| <= m
  {
    UsableCount(AfterAll(ops, limit, letters).entries, job, t);
    hide Usable;
    JobBoundCount(ops, limit, letters, t, job, m);
  }

  lemma {:induction false} JobBoundCount(ops: seq<Op>, limit: nat, letters: set<char>, t: int, job: string, m: nat)
    requires Proper(ops) && UpTo(ops, t)
    requires forall i | 0 <= i < |ops| && ops[i].Provision? && ops[i].jobId == job :: Sessions(ops[i]) <= m
    ensures UsableFor(Active(AfterAll(ops, limit, letters).entries, t), job) <= m
  {
    hide After, Sessions, UpTo;
    if ops != [] {
      var before := ops[..|ops| - 1];
      UpToPrefix(ops, t);
      forall i | 0 <= i < |before| && before[i].Provision? && before[i].jobId == job ensures Sessions(before[i]) <= m {
        assert before[i] == ops[i];
      }
      JobBoundCount(before, limit, letters, t, job, m);
      JobStep(AfterAll(before, limit, letters), ops[|ops| - 1], limit, letters, t, job, m);
    }
  }

  // ---- File names ----

  lemma ComponentIsSafe(s: string, letters: set<char>)
    ensures 1 <= |FileComponent(s, letters)| <= 64
    ensures forall c | c in FileComponent(s, letters) :: IsNameChar(c, letters)
  {
    hide Trim;
    var out := Cleaned(Trim(s), letters);
    forall i | 0 <= i < |out| ensures IsNameChar(out[i], letters) {
    }
  }

  /** Whatever a job is called, its key file is a plain name directly in the directory of keys. */
  lemma FileNameIsSafe(jobId: string, keyId: string, letters: set<char>)
    requires '/' !in letters && '.' !in letters
    ensures var f := FileName(jobId, keyId, letters);
            '/' !in f && 12 <= |f| <= 138 && f[|f| - 4..] == ".pub" && '.' !in f[..|f| - 4]
  {
    ComponentIsSafe(jobId, letters);
    ComponentIsSafe(keyId, letters);
    hide FileComponent;
    var f := FileName(jobId, keyId, letters);
    var stem := "pgos-" + FileComponent(jobId, letters) + "-" + FileComponent(keyId, letters);
    assert f == stem + ".pub" && f[..|f| - 4] == stem;
    forall c | c in stem ensures c != '/' && c != '.' {
      assert c in "pgos-" || c in FileComponent(jobId, letters) || c == '-' || c in FileComponent(keyId, letters);
    }
  }
}
