/** What each call of the lock service does to the stores, and who can hold a lock when. */
module LockGrants {
  import opened Wrappers
  import opened Fencing
  import opened LockModel
  import opened LockRuns

  /** A call finds an instance id in Redis: it is there, or the process has to put it there first. */
  predicate HasId(s: Service) {
    s.redis.instance.Some? || s.cached.None?
  }

  /** Another owner has the lock. */
  predicate HeldByOther(s: Service, key: string, owner: string) {
    key in s.redis.owner && s.redis.owner[key] != owner
  }

  /** The id that a call mints under. */
  function IdOf(s: Service): string
    requires HasId(s)
  {
    if s.redis.instance.Some? then s.redis.instance.value else s.db.instance
  }

  /** The service once the process knows an id: what it knew stays, else Redis decides, else Postgres. */
  lemma EnsureExactly(s: Service)
    ensures var r := EnsureInstance(s);
            r.db == s.db && (s.cached.Some? ==> r == s) &&
            (s.cached.None? ==>
               r.cached == Some(IdOf(s)) && r.redis == s.redis.(instance := Some(IdOf(s))))
  {
  }

  // ---- Acquiring ----

  /** A lock of another owner is denied, and nothing but the instance id is touched. */
  lemma AcquireDenied(s: Service, key: string, owner: string, jobId: Option<string>, pg: PgOutcome)
    requires HasId(s) && HeldByOther(s, key, owner)
    ensures var (s', r) := Acquire(s, key, owner, jobId, pg);
            r == Denied && s' == EnsureInstance(s)
  {
    hide InstanceColumn;
  }

  /** Without an id in Redis every request is refused with an error. */
  lemma AcquireWithoutId(s: Service, key: string, owner: string, jobId: Option<string>, pg: PgOutcome)
    requires !HasId(s)
    ensures Acquire(s, key, owner, jobId, pg) == (s, Error)
  {
    hide InstanceColumn;
  }

  /** The job id a pg_locks row gets: the given one, else the one it had. */
  function JobFor(s: Service, key: string, jobId: Option<string>): Option<string> {
    if jobId.Some? then jobId else if key in s.db.pgLocks then s.db.pgLocks[key].jobId else None
  }

  /** Nothing of Redis has changed but the entries of the key and the instance id. */
  predicate OnlyKey(r: Redis, r': Redis, key: string) {
    r'.owner - {key} == r.owner - {key} && r'.token - {key} == r.token - {key} &&
    r'.counter - {key} == r.counter - {key}
  }

  /** The ledger got this row, and the pg_locks row of the key names owner, token and job. */
  predicate Recorded(
    s: Service, s': Service, key: string, owner: string, t: Token, jobId: Option<string>, reason: Reason)
  {
    s'.db.ledger == s.db.ledger + [Row(key, owner, t, t.inst, reason)] &&
    s'.db.pgLocks == s.db.pgLocks[key := PgLock(owner, t, JobFor(s, key, jobId))] &&
    s'.db.released == s.db.released && s'.db.instance == s.db.instance
  }

  /** The script on a key that nobody else has: the token handed out, and what Redis holds afterwards. */
  lemma ScriptGrants(r: Redis, key: string, owner: string)
    requires r.instance.Some? && (key in r.owner ==> r.owner[key] == owner)
    ensures var (r', reply) := AcquireScript(r, key, owner);
            var minted := Token(r.instance.value, CounterOf(r, key) + 1);
            var t := if key in r.owner && key in r.token then r.token[key] else minted;
            reply == ScriptReply(if key in r.owner then 2 else 1, Some(t)) &&
            r' == Redis(r.owner[key := owner], r.token[key := t],
                        if key in r.owner && key in r.token then r.counter else r.counter[key := minted.counter],
                        r.instance)
  {
    hide CounterOf;
    if key in r.owner {
      assert r.owner[key := owner] == r.owner;
      if key in r.token {
        assert r.token[key := r.token[key]] == r.token;
      }
    }
  }

  lemma UpdatedElsewhere<V>(m: map<string, V>, key: string, v: V)
    ensures m[key := v] - {key} == m - {key}
  {
  }

  lemma ScriptTouches(r: Redis, key: string, owner: string)
    requires r.instance.Some? && (key in r.owner ==> r.owner[key] == owner)
    ensures OnlyKey(r, AcquireScript(r, key, owner).0, key)
  {
    ScriptGrants(r, key, owner);
    var r' := AcquireScript(r, key, owner).0;
    hide AcquireScript;
    UpdatedElsewhere(r.owner, key, owner);
    UpdatedElsewhere(r.token, key, r'.token[key]);
    UpdatedElsewhere(r.counter, key, CounterOf(r, key) + 1);
    hide CounterOf;
  }

  /** The release that follows a failed transaction. */
  lemma ScriptUndone(r: Redis, key: string, owner: string)
    requires r.instance.Some? && (key in r.owner ==> r.owner[key] == owner)
    ensures var r' := ReleaseScript(AcquireScript(r, key, owner).0, key, owner).0;
            r'.owner == r.owner - {key} && r'.instance == r.instance && key !in r'.token && OnlyKey(r, r', key)
  {
    ScriptGrants(r, key, owner);
    ScriptTouches(r, key, owner);
    UpdatedElsewhere(r.owner, key, owner);
    hide AcquireScript, CounterOf;
    var m := AcquireScript(r, key, owner).0;
    assert m.owner - {key} - {key} == m.owner - {key} && m.token - {key} - {key} == m.token - {key};
  }

  /** A committed acquire after the script. */
  lemma CommitRecords(
    s: Service, key: string, owner: string, jobId: Option<string>, t: Token, id: string, reason: Reason)
    requires IsInstanceId(t.inst)
    ensures Recorded(s, s.(db := AcquireCommit(s.db, key, owner, jobId, t, id, reason)), key, owner, t, jobId, reason)
  {
    InstanceColumnOfMinted(t, id);
    hide InstanceColumn, IsInstanceId;
  }

  /** A free lock goes to the caller, with the number after the last one. */
  lemma AcquireFree(s: Service, key: string, owner: string, jobId: Option<string>)
    requires HasId(s) && IsInstanceId(IdOf(s)) && key !in s.redis.owner
    ensures var (s', r) := Acquire(s, key, owner, jobId, Committed);
            var t := Token(IdOf(s), (if key in s.redis.counter then s.redis.counter[key] else 0) + 1);
            r == Acquired(t) &&
            s'.redis.owner == s.redis.owner[key := owner] && s'.redis.token == s.redis.token[key := t] &&
            s'.redis.counter == s.redis.counter[key := t.counter] && s'.redis.instance == Some(t.inst) &&
            Recorded(s, s', key, owner, t, jobId, ACQUIRED) &&
            s'.cached == if s.cached.Some? then s.cached else Some(t.inst)
  {
    var s1 := EnsureInstance(s);
    ScriptGrants(s1.redis, key, owner);
    var t := AcquireScript(s1.redis, key, owner).1.token.value;
    CommitRecords(s1, key, owner, jobId, t, s1.cached.value, ACQUIRED);
    hide InstanceColumn, IsInstanceId, AcquireScript, AcquireCommit;
  }

  /** The holder is let in again with the token it has; only a token that expired is minted anew. */
  lemma AcquireAgain(s: Service, key: string, owner: string, jobId: Option<string>)
    requires HasId(s) && IsInstanceId(IdOf(s)) && key in s.redis.owner && s.redis.owner[key] == owner
    requires key in s.redis.token ==> IsInstanceId(s.redis.token[key].inst)
    ensures var (s', r) := Acquire(s, key, owner, jobId, Committed);
            var counter := if key in s.redis.counter then s.redis.counter[key] else 0;
            var t := if key in s.redis.token then s.redis.token[key] else Token(IdOf(s), counter + 1);
            r == Reentrant(t) &&
            s'.redis.owner == s.redis.owner && s'.redis.token == s.redis.token[key := t] &&
            s'.redis.counter == (if key in s.redis.token then s.redis.counter else s.redis.counter[key := t.counter]) &&
            Recorded(s, s', key, owner, t, jobId, REENTRANT) &&
            s'.cached == if s.cached.Some? then s.cached else Some(IdOf(s))
  {
    var s1 := EnsureInstance(s);
    ScriptGrants(s1.redis, key, owner);
    var t := AcquireScript(s1.redis, key, owner).1.token.value;
    CommitRecords(s1, key, owner, jobId, t, s1.cached.value, REENTRANT);
    hide InstanceColumn, IsInstanceId, AcquireScript, AcquireCommit;
    assert s1.redis.owner[key := owner] == s1.redis.owner;
  }

  /** A failed transaction leaves the tables alone and gives the lock up, whoever had it before. */
  lemma AcquireRolledBack(s: Service, key: string, owner: string, jobId: Option<string>)
    requires HasId(s) && !HeldByOther(s, key, owner)
    ensures var (s', r) := Acquire(s, key, owner, jobId, RolledBack);
            r == Threw && s'.db == s.db && s'.redis.owner == s.redis.owner - {key} &&
            key !in s'.redis.token && OnlyKey(s.redis, s'.redis, key)
  {
    ScriptGrants(EnsureInstance(s).redis, key, owner);
    ScriptUndone(EnsureInstance(s).redis, key, owner);
    hide AcquireScript, AcquireCommit, CounterOf, ReleaseScript, OnlyKey;
    assert OnlyKey(s.redis, Acquire(s, key, owner, jobId, RolledBack).0.redis, key) by {
      SameEntries(s.redis, EnsureInstance(s).redis, Acquire(s, key, owner, jobId, RolledBack).0.redis, key);
    }
  }

  lemma SameEntries(r: Redis, r1: Redis, r2: Redis, key: string)
    requires OnlyKey(r1, r2, key) && r1.(instance := None) == r.(instance := None)
    ensures OnlyKey(r, r2, key)
  {
  }

  /** A process that dies before its transaction leaves the lock with the caller until it expires. */
  lemma AcquireDied(s: Service, key: string, owner: string, jobId: Option<string>)
    requires HasId(s) && !HeldByOther(s, key, owner)
    ensures var (s', r) := Acquire(s, key, owner, jobId, Died);
            r == Threw && s'.db == s.db && s'.redis.owner == s.redis.owner[key := owner] && s'.cached.None? &&
            OnlyKey(s.redis, s'.redis, key)
  {
    ScriptGrants(EnsureInstance(s).redis, key, owner);
    ScriptTouches(EnsureInstance(s).redis, key, owner);
    hide AcquireScript, AcquireCommit, CounterOf, ReleaseScript, OnlyKey;
    SameEntries(s.redis, EnsureInstance(s).redis, Acquire(s, key, owner, jobId, Died).0.redis, key);
  }

  predicate IsGrant(r: AcquireResult) {
    r.Acquired? || r.Reentrant?
  }

  /** An acquire is granted exactly if the transaction commits, Redis has an id, and no other owner has the lock. */
  lemma GrantedExactly(s: Service, key: string, owner: string, jobId: Option<string>, pg: PgOutcome)
    ensures IsGrant(Acquire(s, key, owner, jobId, pg).1) <==>
              pg == Committed && HasId(s) && !HeldByOther(s, key, owner)
  {
    hide InstanceColumn;
  }

  // ---- Releasing and reclaiming ----

  /** The holder gives the lock up: owner, cached token and its pg_locks row go, its ledger rows are marked. */
  lemma ReleaseExactly(s: Service, key: string, owner: string)
    ensures var (s', freed) := Release(s, key, owner);
            (freed <==> key in s.redis.owner && s.redis.owner[key] == owner) &&
            (!freed ==> s' == s) &&
            (freed ==>
               s'.redis == s.redis.(owner := s.redis.owner - {key}, token := s.redis.token - {key}) &&
               s'.db.ledger == s.db.ledger && s'.db.instance == s.db.instance && s'.cached == s.cached &&
               s'.db.pgLocks - {key} == s.db.pgLocks - {key} &&
               (key in s'.db.pgLocks <==> key in s.db.pgLocks && s.db.pgLocks[key].owner != owner) &&
               (key in s'.db.pgLocks ==> s'.db.pgLocks[key] == s.db.pgLocks[key]) &&
               forall i :: i in s'.db.released <==>
                             i in s.db.released ||
                             (0 <= i < |s.db.ledger| && s.db.ledger[i].lockKey == key && s.db.ledger[i].owner == owner))
  {
  }

  /** A reclaim spends a number and frees the lock; the tables follow if the transaction commits. */
  lemma ReclaimExactly(s: Service, key: string, reason: Reason, pg: PgOutcome)
    requires HasId(s) && IsInstanceId(IdOf(s))
    ensures var (s', r) := Reclaim(s, key, reason, pg);
            var t := Token(IdOf(s), (if key in s.redis.counter then s.redis.counter[key] else 0) + 1);
            s'.redis.owner == s.redis.owner - {key} && s'.redis.token == s.redis.token[key := t] &&
            s'.redis.counter == s.redis.counter[key := t.counter] &&
            (r == if pg == Committed then Some(t) else None) &&
            (pg != Committed ==> s'.db == s.db) &&
            (pg == Committed ==>
               s'.db.ledger == s.db.ledger + [Row(key, "system", t, t.inst, reason)] &&
               s'.db.pgLocks == s.db.pgLocks - {key} &&
               s'.db.released == s.db.released && s'.db.instance == s.db.instance)
  {
    var s1 := EnsureInstance(s);
    InstanceColumnOfMinted(NextToken(s1.redis, key), s1.cached.value);
    hide InstanceColumn, IsInstanceId;
  }

  lemma ReclaimWithoutId(s: Service, key: string, reason: Reason, pg: PgOutcome)
    requires !HasId(s)
    ensures Reclaim(s, key, reason, pg) == (s, None)
  {
    hide InstanceColumn;
  }

  /**
   * A whole rotation: all three places have the new id, the ledger only grows, by one FAILOVER row for each
   * active key and the sentinel, and pg_locks is emptied if it had rows. Owners, tokens and counters stay.
   */
  lemma RotationExactly(s: Service, newId: string, active: seq<string>)
    ensures var s' := RotateCache(RotateRedis(RotateCommit(s, newId, active), newId), newId);
            s'.db.instance == newId && s'.redis == s.redis.(instance := Some(newId)) && s'.cached == Some(newId) &&
            s'.db.pgLocks == (if active == [] then s.db.pgLocks else map[]) && s'.db.released == s.db.released &&
            s.db.ledger <= s'.db.ledger &&
            (forall r | r in s'.db.ledger[|s.db.ledger|..] ::
               r == Row(r.lockKey, "system", Token(newId, 0), newId, FAILOVER)) &&
            (forall key :: Row(key, "system", Token(newId, 0), newId, FAILOVER) in s'.db.ledger[|s.db.ledger|..] <==>
                             (key in active && key != "") || key == FAILOVER_SENTINEL_LOCK_KEY)
  {
    FailoverRowsCover(newId, active);
    hide BuildFailoverLedgerRows;
    var s' := RotateCache(RotateRedis(RotateCommit(s, newId, active), newId), newId);
    assert s'.db.ledger[|s.db.ledger|..] == BuildFailoverLedgerRows(newId, active);
    forall key
      ensures FailoverRow(key, newId) == Row(key, "system", Token(newId, 0), newId, FAILOVER)
    {
    }
  }

  // ---- Holders over runs ----

  function Holder(w: World, key: string): Option<string> {
    if key in w.svc.redis.owner then Some(w.svc.redis.owner[key]) else None
  }

  /** The step takes the lock away from this holder. */
  predicate Frees(w: World, a: Step, key: string, owner: string) {
    match a
    case ReleaseStep(k, o) => k == key && o == owner
    case ExpireLock(k) => k == key
    case ReclaimStep(k, _, _) => k == key && HasId(w.svc)
    case AcquireStep(k, o, _, pg) => k == key && o == owner && pg == RolledBack && HasId(w.svc)
    case LoseRedis => true
    case _ => false
  }

  /** What an acquire does to the holders: nothing, or the caller gets the key, or the key is free afterwards. */
  lemma AcquireOwner(s: Service, key: string, owner: string, jobId: Option<string>, pg: PgOutcome)
    ensures var s' := Acquire(s, key, owner, jobId, pg).0;
            s'.redis.owner == if !HasId(s) || HeldByOther(s, key, owner) then s.redis.owner
                              else if pg == RolledBack then s.redis.owner - {key}
                              else s.redis.owner[key := owner]
  {
    if !HasId(s) {
      AcquireWithoutId(s, key, owner, jobId, pg);
    } else if HeldByOther(s, key, owner) {
      AcquireDenied(s, key, owner, jobId, pg);
    } else {
      ScriptGrants(EnsureInstance(s).redis, key, owner);
      hide AcquireScript, AcquireCommit, CounterOf;
      assert s.redis.owner[key := owner] - {key} == s.redis.owner - {key};
    }
  }

  lemma ReclaimOwner(s: Service, key: string, reason: Reason, pg: PgOutcome)
    ensures Reclaim(s, key, reason, pg).0.redis.owner == if HasId(s) then s.redis.owner - {key} else s.redis.owner
  {
    hide InstanceColumn, CounterOf;
  }

  /** One step ends a holding exactly if it is of these; no other step, and no other owner, can. */
  lemma HolderStep(w: World, a: Step, key: string)
    requires Enabled(w, a) && Holder(w, key).Some?
    ensures Holder(Next(w, a), key) == if Frees(w, a, key, Holder(w, key).value) then None else Holder(w, key)
  {
    if a.AcquireStep? {
      AcquireOwner(w.svc, a.key, a.owner, a.jobId, a.pg);
    } else if a.ReclaimStep? {
      ReclaimOwner(w.svc, a.key, a.reason, a.pg);
    }
    hide Acquire, Reclaim, BuildFailoverLedgerRows, Age, IsInstanceId, Init;
  }

  /** A free lock is only taken by an acquire, and by its caller. */
  lemma TakerStep(w: World, a: Step, key: string)
    requires Enabled(w, a) && Holder(w, key).None?
    ensures Holder(Next(w, a), key).Some? <==> a.AcquireStep? && a.key == key && a.pg != RolledBack && HasId(w.svc)
    ensures Holder(Next(w, a), key).Some? ==> Holder(Next(w, a), key) == Some(a.owner)
  {
    if a.AcquireStep? {
      AcquireOwner(w.svc, a.key, a.owner, a.jobId, a.pg);
    } else if a.ReclaimStep? {
      ReclaimOwner(w.svc, a.key, a.reason, a.pg);
    }
    hide Acquire, Reclaim, BuildFailoverLedgerRows, Age, IsInstanceId, Init;
  }

  /** The step is an acquire of the key by this owner that is granted. */
  predicate Grants(w: World, a: Step, key: string, owner: string) {
    a.AcquireStep? && a.key == key && a.owner == owner && IsGrant(Acquire(w.svc, key, owner, a.jobId, a.pg).1)
  }

  /** Some step from m on and before n takes the lock away from the owner. */
  ghost predicate Freed(ws: seq<World>, steps: seq<Step>, m: nat, n: nat, key: string, owner: string)
    requires |ws| == |steps| + 1
  {
    exists k | m <= k < n && k < |steps| :: Frees(ws[k], steps[k], key, owner)
  }

  lemma {:induction false} HeldUntilFreed(ws: seq<World>, steps: seq<Step>, m: nat, n: nat, key: string, owner: string)
    requires Run(ws, steps) && m <= n < |ws| && Holder(ws[m], key) == Some(owner)
    ensures Freed(ws, steps, m, n, key, owner) || Holder(ws[n], key) == Some(owner)
    decreases n
  {
    hide Next, Enabled, Frees, Holder;
    if m < n {
      HeldUntilFreed(ws, steps, m, n - 1, key, owner);
      assert Frees(ws[n - 1], steps[n - 1], key, owner) ==> Freed(ws, steps, m, n, key, owner);
      if Holder(ws[n - 1], key) == Some(owner) {
        HolderStep(ws[n - 1], steps[n - 1], key);
      }
    }
  }

  lemma GrantHolds(w: World, a: Step, key: string, owner: string)
    requires Enabled(w, a) && Grants(w, a, key, owner)
    ensures Holder(Next(w, a), key) == Some(owner)
    ensures Holder(w, key) in {None, Some(owner)}
  {
    GrantedExactly(w.svc, key, owner, a.jobId, a.pg);
    AcquireOwner(w.svc, key, owner, a.jobId, a.pg);
    hide Acquire;
  }

  /**
   * Mutual exclusion of the locks, in every run with restarts, rotations and losses: between two grants of a
   * key to different owners the first one's lock was released by it, expired, was reclaimed, was given up by
   * a failed transaction of its own, or went with the content of Redis.
   */
  lemma OneHolderAtATime(
    ws: seq<World>, steps: seq<Step>, i: nat, j: nat, key: string, first: string, second: string)
    requires Run(ws, steps) && i < j < |steps| && first != second
    requires Grants(ws[i], steps[i], key, first) && Grants(ws[j], steps[j], key, second)
    ensures Freed(ws, steps, i + 1, j, key, first)
  {
    hide Next, Enabled, Frees, Holder, Grants;
    GrantHolds(ws[i], steps[i], key, first);
    GrantHolds(ws[j], steps[j], key, second);
    HeldUntilFreed(ws, steps, i + 1, j, key, first);
  }
}
