/** The fencing guarantees over whole runs, and where they stop. */
module LockTheorems {
  import opened Wrappers
  import opened Fencing
  import opened LockModel
  import opened LockRuns
  import LockProofs
  import opened LockSteps

  lemma InitInv(id: string)
    requires IsInstanceId(id)
    ensures Inv(Init(id))
  {
  }

  lemma {:induction false} AlwaysInv(ws: seq<World>, steps: seq<Step>, n: nat)
    requires SafeRun(ws, steps) && n < |ws|
    ensures Inv(ws[n])
  {
    hide Next, Inv;
    if n == 0 {
      var id :| IsInstanceId(id) && ws[0] == Init(id);
      InitInv(id);
    } else {
      AlwaysInv(ws, steps, n - 1);
      LockProofs.InvNext(ws[n - 1], steps[n - 1]);
    }
  }

  /** Redis without an instance id has not minted anything yet. */
  predicate Untouched(w: World) {
    w.svc.redis.instance.None? ==>
      w.svc.redis.token == map[] && forall i | 0 <= i < |w.svc.db.ledger| :: !Minted(w.svc.db.ledger[i])
  }

  predicate LosesId(a: Step) {
    a.LoseInstance? || a.LoseRedis?
  }

  lemma UntouchedIsSafe(w: World, a: Step)
    requires Untouched(w)
    ensures SafeStep(w, a)
  {
  }

  lemma CallsKeepId(s: Service, key: string, owner: string, jobId: Option<string>, reason: Reason, pg: PgOutcome)
    requires s.redis.instance.Some?
    ensures Acquire(s, key, owner, jobId, pg).0.redis.instance.Some? &&
            Reclaim(s, key, reason, pg).0.redis.instance.Some?
  {
    hide InstanceColumn, CounterOf, AcquireCommit;
  }

  lemma IdKept(w: World, a: Step)
    requires Enabled(w, a) && !LosesId(a) && w.svc.redis.instance.Some?
    ensures Next(w, a).svc.redis.instance.Some?
  {
    hide Acquire, Reclaim, IsInstanceId, Age, BuildFailoverLedgerRows, Init;
    if a.AcquireStep? {
      CallsKeepId(w.svc, a.key, a.owner, a.jobId, ADMIN_RECLAIM, a.pg);
    } else if a.ReclaimStep? {
      CallsKeepId(w.svc, a.key, "", None, a.reason, a.pg);
    }
  }

  lemma AcquireMintsNothing(s: Service, key: string, owner: string, jobId: Option<string>, pg: PgOutcome)
    ensures var s' := Acquire(s, key, owner, jobId, pg).0;
            s'.redis.instance.None? ==> s'.db == s.db && s'.redis.token == s.redis.token
  {
    hide InstanceColumn, CounterOf, AcquireCommit;
  }

  lemma ReclaimMintsNothing(s: Service, key: string, reason: Reason, pg: PgOutcome)
    ensures var s' := Reclaim(s, key, reason, pg).0;
            s'.redis.instance.None? ==> s'.db == s.db && s'.redis.token == s.redis.token
  {
    hide InstanceColumn, CounterOf;
  }

  /** A step after which Redis has no instance id writes no row but those of a rotation, and caches no token. */
  lemma NothingMinted(w: World, a: Step)
    requires Enabled(w, a) && w.svc.redis.instance.None? && Next(w, a).svc.redis.instance.None? && !a.CommitRotation?
    ensures Next(w, a).svc.db.ledger == w.svc.db.ledger && Next(w, a).svc.redis.token.Keys <= w.svc.redis.token.Keys
  {
    hide Acquire, Reclaim, IsInstanceId, Age, RotateCommit, Init;
    if a.AcquireStep? {
      AcquireMintsNothing(w.svc, a.key, a.owner, a.jobId, a.pg);
    } else if a.ReclaimStep? {
      ReclaimMintsNothing(w.svc, a.key, a.reason, a.pg);
    }
  }

  lemma UntouchedNext(w: World, a: Step)
    requires Untouched(w) && Enabled(w, a) && !LosesId(a)
    ensures SafeStep(w, a) && Untouched(Next(w, a))
  {
    UntouchedIsSafe(w, a);
    if a.CommitRotation? {
      FailoverRowsCover(a.newId, a.active);
      hide BuildFailoverLedgerRows;
    } else if w.svc.redis.instance.Some? {
      IdKept(w, a);
    } else if Next(w, a).svc.redis.instance.None? {
      NothingMinted(w, a);
      hide Next, SafeStep;
      assert Next(w, a).svc.redis.token == map[];
    }
  }

  /**
   * Runs in which Redis keeps its instance id need no condition on restores: acquires, releases,
   * key expiry, reclaims, restarts and rotations alone are always safe.
   */
  lemma {:induction false} RunsWithoutLossAreSafe(ws: seq<World>, steps: seq<Step>, n: nat)
    requires Run(ws, steps) && n < |ws| && forall i | 0 <= i < |steps| :: !LosesId(steps[i])
    ensures Untouched(ws[n]) && forall i | 0 <= i < n :: SafeStep(ws[i], steps[i])
    ensures n == |steps| ==> SafeRun(ws, steps)
  {
    hide Next, SafeStep, Enabled;
    if n == 0 {
      var id :| IsInstanceId(id) && ws[0] == Init(id);
    } else {
      RunsWithoutLossAreSafe(ws, steps, n - 1);
      UntouchedNext(ws[n - 1], steps[n - 1]);
    }
  }

  lemma NextGrows(w: World, a: Step)
    requires Enabled(w, a)
    ensures w.svc.db.ledger <= Next(w, a).svc.db.ledger
    ensures forall id | id in w.issued :: id in Next(w, a).issued && Next(w, a).issued[id] == w.issued[id]
  {
    hide BuildFailoverLedgerRows, InstanceColumn, ReleaseScript, Mint, IsInstanceId;
  }

  /** The ledger is append-only and ages never change. */
  lemma {:induction false} Grows(ws: seq<World>, steps: seq<Step>, m: nat, n: nat)
    requires Run(ws, steps) && m <= n < |ws|
    ensures ws[m].svc.db.ledger <= ws[n].svc.db.ledger
    ensures forall id | id in ws[m].issued :: id in ws[n].issued && ws[n].issued[id] == ws[m].issued[id]
    decreases n - m
  {
    hide Next, Inv;
    if m < n {
      Grows(ws, steps, m, n - 1);
      NextGrows(ws[n - 1], steps[n - 1]);
    }
  }

  lemma CurrentInUse(w: World)
    requires Base(w)
    ensures InUse(w.issued, w.floor, Some(Current(w)))
  {
  }

  /** An accepted text is the token of the newest row, minted under the current id. */
  lemma AcceptedIsLatest(w: World, key: string, owner: string, t: Token)
    requires Base(w) && IsUuid(t.inst) && Accepts(w.svc, key, owner, Format(t))
    ensures var i := LatestIndex(w.svc.db.ledger, key);
            i >= 0 && w.svc.db.ledger[i].token == t && Minted(w.svc.db.ledger[i]) &&
            w.svc.db.ledger[i].owner == owner && t.inst == Current(w)
  {
    var i := LatestIndex(w.svc.db.ledger, key);
    var latest := w.svc.db.ledger[i];
    assert latest.token.inst in w.issued;
    CurrentInUse(w);
    assert Lower(latest.inst) == latest.inst && Lower(Current(w)) == Current(w);
    FormatInjective(latest.token, t);
  }

  /** A row that outdates an earlier token, unless it is a FAILOVER row newer than the id still in use. */
  predicate Outdates(issued: map<string, nat>, current: string, row: Row) {
    Minted(row) || Age(issued, row.token.inst) <= Age(issued, current)
  }

  lemma OutdatedRejected(w: World, a: nat, b: nat, owner: string)
    requires Inv(w) && a < b < |w.svc.db.ledger|
    requires w.svc.db.ledger[a].lockKey == w.svc.db.ledger[b].lockKey
    requires w.svc.db.ledger[a].token != w.svc.db.ledger[b].token
    requires Outdates(w.issued, Current(w), w.svc.db.ledger[b])
    ensures !Accepts(w.svc, w.svc.db.ledger[a].lockKey, owner, Format(w.svc.db.ledger[a].token))
  {
    var ledger := w.svc.db.ledger;
    var ra := ledger[a];
    var l := LatestIndex(ledger, ra.lockKey);
    assert ra.token.inst in w.issued && (Minted(ra) <==> ra.token.counter > 0);
    OrderedAt(w, a, b);
    if b < l {
      OrderedAt(w, b, l);
    }
    InvIsBase(w);
    if Accepts(w.svc, ra.lockKey, owner, Format(ra.token)) {
      AcceptedIsLatest(w, ra.lockKey, owner, ra.token);
    }
  }

  lemma OrderedAt(w: World, i: nat, j: nat)
    requires Inv(w) && i < j < |w.svc.db.ledger| && w.svc.db.ledger[i].lockKey == w.svc.db.ledger[j].lockKey
    ensures Minted(w.svc.db.ledger[i]) ==>
              if Minted(w.svc.db.ledger[j]) then NoLater(w.issued, w.svc.db.ledger[i].token, w.svc.db.ledger[j].token)
              else Age(w.issued, w.svc.db.ledger[i].token.inst) < Age(w.issued, w.svc.db.ledger[j].token.inst)
  {
  }

  /**
   * Fencing never goes back: once a key has a later row with another token, the earlier token is
   * rejected in every later state, for every owner. A FAILOVER row takes effect at the latest
   * when the validating process has moved on to its id.
   */
  lemma NeverBack(ws: seq<World>, steps: seq<Step>, m: nat, n: nat, a: nat, b: nat, owner: string)
    requires SafeRun(ws, steps) && m <= n < |ws|
    requires a < b < |ws[m].svc.db.ledger|
    requires ws[m].svc.db.ledger[a].lockKey == ws[m].svc.db.ledger[b].lockKey
    requires ws[m].svc.db.ledger[a].token != ws[m].svc.db.ledger[b].token
    requires Outdates(ws[n].issued, Current(ws[n]), ws[m].svc.db.ledger[b])
    ensures !Accepts(ws[n].svc, ws[m].svc.db.ledger[a].lockKey, owner, Format(ws[m].svc.db.ledger[a].token))
  {
    AlwaysInv(ws, steps, n);
    Grows(ws, steps, m, n);
    var ledger := ws[n].svc.db.ledger;
    assert ledger[a] == ws[m].svc.db.ledger[a] && ledger[b] == ws[m].svc.db.ledger[b];
    OutdatedRejected(ws[n], a, b, owner);
  }

  /** Where no rotation is half-way, the exception of NeverBack is empty. */
  lemma SettledOutdatesAll(w: World, row: Row)
    requires Base(w) && row in w.svc.db.ledger && Current(w) == w.svc.db.instance
    ensures Outdates(w.issued, Current(w), row)
  {
  }

  /** Tokens are accepted in the order they were issued, whatever the timing of rotations. */
  lemma AcceptedInIssueOrder(ws: seq<World>, steps: seq<Step>, m: nat, n: nat, key: string, o1: string, t1: Token,
                             o2: string, t2: Token)
    requires SafeRun(ws, steps) && m <= n < |ws| && IsUuid(t1.inst) && IsUuid(t2.inst)
    requires Accepts(ws[m].svc, key, o1, Format(t1)) && Accepts(ws[n].svc, key, o2, Format(t2))
    ensures NoLater(ws[n].issued, t1, t2)
  {
    hide Next, Accepts, RowsCovered, CacheCovered, CacheNewest, RowsKnown;
    AlwaysInv(ws, steps, m);
    AlwaysInv(ws, steps, n);
    AlwaysBase(ws, steps, m);
    AlwaysBase(ws, steps, n);
    Grows(ws, steps, m, n);
    AcceptedIsLatest(ws[m], key, o1, t1);
    AcceptedIsLatest(ws[n], key, o2, t2);
    var i, j := LatestIndex(ws[m].svc.db.ledger, key), LatestIndex(ws[n].svc.db.ledger, key);
    assert ws[n].svc.db.ledger[i] == ws[m].svc.db.ledger[i];
    assert i <= j;
    if i < j {
      OrderedAt(ws[n], i, j);
    }
  }

  // ---- Failover ----

  lemma FloorStep(w: World, a: Step)
    requires Base(w) && Enabled(w, a)
    ensures w.floor <= Next(w, a).floor
  {
    hide Acquire, Reclaim, Release, BuildFailoverLedgerRows, IdsKnown, RowsKnown, TokensKnown;
  }

  lemma {:induction false} FloorRises(ws: seq<World>, steps: seq<Step>, m: nat, n: nat)
    requires Run(ws, steps) && m <= n < |ws|
    ensures ws[m].floor <= ws[n].floor
    decreases n - m
  {
    hide Next, Base;
    if m < n {
      FloorRises(ws, steps, m, n - 1);
      AlwaysBase(ws, steps, n - 1);
      FloorStep(ws[n - 1], steps[n - 1]);
    }
  }

  lemma CompletionRaisesFloor(w: World)
    requires Enabled(w, SetCachedInstance)
    ensures Next(w, SetCachedInstance).floor == Age(w.issued, w.rotation.newId)
  {
  }

  /**
   * In every run, also one in which Redis lost its content and counters started over: once a
   * rotation has completed, no token of an id generated before the new one is accepted in
   * any later state, for any key and owner, with or without a pg_locks row.
   */
  lemma FailoverInvalidates(ws: seq<World>, steps: seq<Step>, k: nat, n: nat, key: string, owner: string, t: Token)
    requires Run(ws, steps) && k < n < |ws| && steps[k].SetCachedInstance?
    requires t.inst in ws[k].issued && t.inst != ws[k].rotation.newId
    ensures !Accepts(ws[n].svc, key, owner, Format(t))
  {
    CompletionRaisesFloor(ws[k]);
    hide Next, Accepts, RowsKnown, TokensKnown;
    AlwaysBase(ws, steps, k);
    AlwaysBase(ws, steps, n);
    Grows(ws, steps, k, n);
    FloorRises(ws, steps, k + 1, n);
    if Accepts(ws[n].svc, key, owner, Format(t)) {
      AcceptedIsLatest(ws[n], key, owner, t);
      CurrentInUse(ws[n]);
    }
  }

  /** The Postgres half alone already rejects everything on the keys the query on pg_locks returned. */
  lemma FailoverRowsRejectAtOnce(w: World, newId: string, active: seq<string>, key: string, owner: string,
                                 presented: string)
    requires Enabled(w, CommitRotation(newId, active)) && key in active && key != ""
    ensures !Accepts(Next(w, CommitRotation(newId, active)).svc, key, owner, presented)
  {
    var rows := BuildFailoverLedgerRows(newId, active);
    FailoverRowsCover(newId, active);
    var ledger := w.svc.db.ledger + rows;
    assert FailoverRow(key, newId) in rows;
    var j :| 0 <= j < |rows| && rows[j] == FailoverRow(key, newId);
    assert ledger[|w.svc.db.ledger| + j].lockKey == key;
    var i := LatestIndex(ledger, key);
    assert i >= |w.svc.db.ledger| && ledger[i] in rows;
  }

  // ---- What one call grants or takes away ----

  /**
   * After a successful acquire exactly one owner and text are accepted for the key, and only if
   * the token carries the current id: a reentrant call after a rotation hands out a dead token.
   */
  lemma AcquireGrantsExactly(w: World, key: string, owner: string, jobId: Option<string>, o: string, presented: string)
    requires Base(w)
    ensures var (s', r) := Acquire(w.svc, key, owner, jobId, Committed);
            r.Acquired? || r.Reentrant? ==>
              (Accepts(s', key, o, presented) <==>
                 o == owner && presented == Format(r.token) && r.token.inst == s'.cached.value)
  {
    var (s', r) := Acquire(w.svc, key, owner, jobId, Committed);
    if r.Acquired? || r.Reentrant? {
      BaseNext(w, AcquireStep(key, owner, jobId, Committed));
      LatestDecides(w.(svc := s'), key, o, presented);
    }
  }

  /** Validation as a statement about the newest row of the key, when that row grants. */
  lemma LatestDecides(w: World, key: string, o: string, presented: string)
    requires Base(w) && w.svc.db.ledger != [] && w.svc.cached.Some?
    requires var r := w.svc.db.ledger[|w.svc.db.ledger| - 1]; r.lockKey == key && r.reason in {ACQUIRED, REENTRANT}
    ensures var r := w.svc.db.ledger[|w.svc.db.ledger| - 1];
            Accepts(w.svc, key, o, presented) <==>
              o == r.owner && presented == Format(r.token) && r.token.inst == w.svc.cached.value
  {
    hide RowsCovered, CacheCovered, CacheNewest, Ordered, Format;
    var r := w.svc.db.ledger[|w.svc.db.ledger| - 1];
    assert LatestIndex(w.svc.db.ledger, key) == |w.svc.db.ledger| - 1;
    assert r.token.inst in w.issued && w.svc.cached.value in w.issued;
    assert Lower(r.inst) == r.inst && Lower(w.svc.cached.value) == w.svc.cached.value;
  }

  /** After a committed reclaim nothing is accepted for the key, and its lock is free. */
  lemma ReclaimRejects(s: Service, key: string, reason: Reason, owner: string, presented: string)
    requires reason in {STALE_RECOVERED, ADMIN_RECLAIM}
    ensures var (s', t) := Reclaim(s, key, reason, Committed);
            t.Some? ==> !Accepts(s', key, owner, presented) && key !in s'.redis.owner && key !in s'.db.pgLocks
  {
    var (s', t) := Reclaim(s, key, reason, Committed);
    if t.Some? {
      assert LatestIndex(s'.db.ledger, key) == |s'.db.ledger| - 1;
    }
  }

  /** Releasing frees the key but withdraws no token: released_at plays no part in validation. */
  lemma ReleaseWithdrawsNothing(s: Service, key: string, owner: string, k: string, o: string, presented: string)
    ensures var (s', freed) := Release(s, key, owner);
            && (Accepts(s', k, o, presented) <==> Accepts(s, k, o, presented))
            && (freed <==> key in s.redis.owner && s.redis.owner[key] == owner)
            && (freed ==> key !in s'.redis.owner)
            && (!freed ==> s' == s)
  {
  }

  // ---- Where it fails ----

  lemma AppendStep(ws: seq<World>, steps: seq<Step>, a: Step) returns (ws': seq<World>, steps': seq<Step>)
    requires Run(ws, steps) && Enabled(ws[|steps|], a)
    ensures Run(ws', steps') && ws' == ws + [Next(ws[|steps|], a)] && steps' == steps + [a]
    ensures SafeRun(ws, steps) && SafeStep(ws[|steps|], a) ==> SafeRun(ws', steps')
  {
    ws', steps' := ws + [Next(ws[|steps|], a)], steps + [a];
    assert ws'[0] == ws[0];
  }

  /** The service after an acquire of a free key while process and Redis agree on the id. */
  function Granted(s: Service, key: string, owner: string, id: string, reason: Reason, redis: Redis): Service {
    var t := if key in redis.token then redis.token[key] else Token(id, 0);
    var jobId := if key in s.db.pgLocks then s.db.pgLocks[key].jobId else None;
    Service(redis,
            Db(s.db.ledger + [Row(key, owner, t, t.inst, reason)], s.db.released,
               s.db.pgLocks[key := PgLock(owner, t, jobId)], s.db.instance),
            s.cached)
  }

  function GrantedRedis(r: Redis, key: string, owner: string, id: string): Redis {
    var c := CounterOf(r, key) + 1;
    Redis(r.owner[key := owner], r.token[key := Token(id, c)], r.counter[key := c], r.instance)
  }

  lemma FreshAcquire(s: Service, key: string, owner: string, id: string)
    requires IsInstanceId(id) && s.cached == s.redis.instance == Some(id) && key !in s.redis.owner
    ensures Acquire(s, key, owner, None, Committed).0
            == Granted(s, key, owner, id, ACQUIRED, GrantedRedis(s.redis, key, owner, id))
  {
    InstanceColumnOfMinted(NextToken(s.redis, key), id);
  }

  lemma AppendFreshAcquire(ws: seq<World>, steps: seq<Step>, key: string, owner: string, id: string)
    returns (ws': seq<World>, steps': seq<Step>)
    requires Run(ws, steps) && IsInstanceId(id)
    requires ws[|steps|].svc.cached == ws[|steps|].svc.redis.instance == Some(id) && key !in ws[|steps|].svc.redis.owner
    ensures var w := ws[|steps|];
            Run(ws', steps') && (SafeRun(ws, steps) ==> SafeRun(ws', steps')) &&
            ws' == ws + [w.(svc := Granted(w.svc, key, owner, id, ACQUIRED, GrantedRedis(w.svc.redis, key, owner, id)))]
  {
    FreshAcquire(ws[|steps|].svc, key, owner, id);
    ws', steps' := AppendStep(ws, steps, AcquireStep(key, owner, None, Committed));
  }

  lemma AppendReentrantAcquire(ws: seq<World>, steps: seq<Step>, key: string, owner: string, id: string)
    returns (ws': seq<World>, steps': seq<Step>)
    requires Run(ws, steps) && ws[|steps|].svc.cached == ws[|steps|].svc.redis.instance == Some(id)
    requires var r := ws[|steps|].svc.redis;
             key in r.owner && r.owner[key] == owner && key in r.token && IsInstanceId(r.token[key].inst)
    ensures var w := ws[|steps|];
            Run(ws', steps') && (SafeRun(ws, steps) ==> SafeRun(ws', steps')) &&
            ws' == ws + [w.(svc := Granted(w.svc, key, owner, id, REENTRANT, w.svc.redis))]
  {
    InstanceColumnOfMinted(ws[|steps|].svc.redis.token[key], id);
    ws', steps' := AppendStep(ws, steps, AcquireStep(key, owner, None, Committed));
  }

  lemma Start(id: string) returns (ws: seq<World>, steps: seq<Step>)
    requires IsInstanceId(id)
    ensures SafeRun(ws, steps)
    ensures ws[|steps|] == World(Service(Redis(map[], map[], map[], Some(id)), Db([], {}, map[], id), Some(id)),
                                 map[id := 0], Idle, 0)
  {
    ws, steps := [Init(id)], [];
    ws, steps := AppendStep(ws, steps, EnsureStep);
  }

  lemma AppendCommitRotation(ws: seq<World>, steps: seq<Step>, key: string, newId: string)
    returns (ws': seq<World>, steps': seq<Step>, rows: seq<Row>, j: nat)
    requires Run(ws, steps) && Enabled(ws[|steps|], CommitRotation(newId, [key])) && key != ""
    ensures Run(ws', steps') && (SafeRun(ws, steps) ==> SafeRun(ws', steps'))
    ensures j < |rows| && rows[j] == FailoverRow(key, newId)
    ensures var w := ws[|steps|];
            ws' == ws + [World(w.svc.(db := Db(w.svc.db.ledger + rows, w.svc.db.released, map[], newId)),
                               w.issued[newId := |w.issued|], PgDone(newId), w.floor)]
  {
    rows := BuildFailoverLedgerRows(newId, [key]);
    FailoverRowsCover(newId, [key]);
    assert FailoverRow(key, newId) in rows;
    j :| 0 <= j < |rows| && rows[j] == FailoverRow(key, newId);
    ws', steps' := AppendStep(ws, steps, CommitRotation(newId, [key]));
  }

  /** A row accepted by its text: newest of its key, current id, and a reason that grants. */
  lemma LastRowAccepted(s: Service, key: string, owner: string, t: Token)
    requires s.db.ledger != [] && s.cached.Some? && s.cached.value == t.inst
    requires var r := s.db.ledger[|s.db.ledger| - 1];
             r.lockKey == key && r.owner == owner && r.token == t && r.inst == t.inst &&
             r.reason in {ACQUIRED, REENTRANT}
    ensures Accepts(s, key, owner, Format(t))
  {
    assert LatestIndex(s.db.ledger, key) == |s.db.ledger| - 1;
  }

  /**
   * Inside the rotation window the exception of NeverBack is real: the surviving Redis lock lets
   * its holder re-enter with the old token, whose row then outranks the FAILOVER row.
   */
  lemma RotationWindowReaccepts(id0: string, id1: string, key: string, owner: string)
    returns (ws: seq<World>, steps: seq<Step>)
    requires IsInstanceId(id0) && IsInstanceId(id1) && id0 != id1 && key != ""
    ensures SafeRun(ws, steps)
    ensures var w := ws[|steps|];
            var t := Token(id0, 1);
            Accepts(w.svc, key, owner, Format(t)) &&
            exists a, b | 0 <= a < b < |w.svc.db.ledger| - 1 ::
              w.svc.db.ledger[a].lockKey == w.svc.db.ledger[b].lockKey == key &&
              w.svc.db.ledger[a].token == t && w.svc.db.ledger[b].reason == FAILOVER
  {
    hide Next, Acquire, SafeRun, Run, Format, Accepts, SafeStep, IsUuid;
    var t := Token(id0, 1);
    ws, steps := Start(id0);
    ws, steps := AppendFreshAcquire(ws, steps, key, owner, id0);
    var rows, j;
    ws, steps, rows, j := AppendCommitRotation(ws, steps, key, id1);
    ws, steps := AppendReentrantAcquire(ws, steps, key, owner, id0);
    var w := ws[|steps|];
    var first := Row(key, owner, t, id0, ACQUIRED);
    assert w.svc.db.ledger == [first] + rows + [first.(reason := REENTRANT)];
    LastRowAccepted(w.svc, key, owner, t);
    assert w.svc.db.ledger[0] == first && w.svc.db.ledger[1 + j] == rows[j];
  }

  /** A concrete run: Redis restarts empty, the id is restored, and the first token comes back after the second. */
  lemma RestartWithoutPersistenceGoesBack(id: string, key: string) returns (ws: seq<World>, steps: seq<Step>)
    requires IsInstanceId(id)
    ensures Run(ws, steps)
    ensures var w := ws[|steps|];
            Accepts(w.svc, key, "job:c", Format(Token(id, 1))) &&
            exists a, b | 0 <= a < b < |w.svc.db.ledger| - 1 ::
              w.svc.db.ledger[a].lockKey == w.svc.db.ledger[b].lockKey == key &&
              w.svc.db.ledger[a].token == Token(id, 1) && w.svc.db.ledger[b].token == Token(id, 2)
  {
    hide Acquire, SafeRun, Run, Format, Accepts, SafeStep, IsUuid;
    ws, steps := Start(id);
    ws, steps := AppendFreshAcquire(ws, steps, key, "job:a", id);
    ws, steps := AppendStep(ws, steps, ReleaseStep(key, "job:a"));
    ws, steps := AppendFreshAcquire(ws, steps, key, "job:b", id);
    ws, steps := AppendStep(ws, steps, LoseRedis);
    ws, steps := AppendStep(ws, steps, RestoreInstance);
    ws, steps := AppendFreshAcquire(ws, steps, key, "job:c", id);
    var w := ws[|steps|];
    LastRowAccepted(w.svc, key, "job:c", Token(id, 1));
    assert w.svc.db.ledger[0].token == Token(id, 1) && w.svc.db.ledger[1].token == Token(id, 2);
  }
}
