/** What every step keeps without any condition, and what it does to the ledger and to validation. */
module LockSteps {
  import opened Wrappers
  import opened Fencing
  import opened LockModel
  import opened LockRuns

  lemma InitBase(id: string)
    requires IsInstanceId(id)
    ensures Base(Init(id))
  {
  }

  lemma InvIsBase(w: World)
    requires Inv(w)
    ensures Base(w)
  {
  }

  lemma EnsureKeepsBase(w: World)
    requires Base(w)
    ensures Base(w.(svc := EnsureInstance(w.svc)))
  {
  }

  lemma MintKeepsBase(w: World, key: string)
    requires Base(w) && w.svc.redis.instance.Some?
    ensures Base(w.(svc := w.svc.(redis := Mint(w.svc.redis, key))))
  {
  }

  /** Neither owners nor released tokens matter to the invariant. */
  lemma RedisKeepsBase(w: World, redis: Redis)
    requires Base(w) && redis.instance == w.svc.redis.instance
    requires forall k | k in redis.token :: k in w.svc.redis.token && redis.token[k] == w.svc.redis.token[k]
    ensures Base(w.(svc := w.svc.(redis := redis)))
  {
  }

  lemma AppendKeepsBase(w: World, row: Row, locks: map<string, PgLock>)
    requires Base(w) && Minted(row) && row.inst == row.token.inst && row.token.inst in w.issued && row.token.counter > 0
    ensures Base(w.(svc := w.svc.(db := w.svc.db.(ledger := w.svc.db.ledger + [row], pgLocks := locks))))
  {
  }

  lemma DeathKeepsBase(w: World)
    requires Base(w)
    ensures Base(Dead(w, w.svc))
  {
  }

  lemma AcquireScriptKeepsBase(w: World, key: string, owner: string)
    requires Base(w)
    ensures var (redis, reply) := AcquireScript(w.svc.redis, key, owner);
            && Base(w.(svc := w.svc.(redis := redis))) && redis.instance == w.svc.redis.instance
            && (reply.token.Some? ==> key in redis.token && redis.token[key] == reply.token.value)
  {
    var (redis, reply) := AcquireScript(w.svc.redis, key, owner);
    if reply.token.Some? && (key !in w.svc.redis.owner || key !in w.svc.redis.token) {
      MintKeepsBase(w, key);
      RedisKeepsBase(w.(svc := w.svc.(redis := Mint(w.svc.redis, key))), redis);
    }
  }

  lemma AcquireKeepsBase(w: World, key: string, owner: string, jobId: Option<string>, pg: PgOutcome)
    requires Base(w)
    ensures Base(Next(w, AcquireStep(key, owner, jobId, pg)))
  {
    hide Base, InstanceColumn, AcquireScript, ReleaseScript;
    EnsureKeepsBase(w);
    var w1 := w.(svc := EnsureInstance(w.svc));
    AcquireScriptKeepsBase(w1, key, owner);
    var (redis, reply) := AcquireScript(w1.svc.redis, key, owner);
    var w2 := w1.(svc := w1.svc.(redis := redis));
    if reply.token.Some? {
      var t := reply.token.value;
      match pg {
        case Committed =>
          TokenIsKnown(w2, key);
          InstanceColumnOfMinted(t, w1.svc.cached.value);
          var reason := if reply.code == 1 then ACQUIRED else REENTRANT;
          var db := AcquireCommit(w1.svc.db, key, owner, jobId, t, w1.svc.cached.value, reason);
          AppendKeepsBase(w2, db.ledger[|db.ledger| - 1], db.pgLocks);
          assert Next(w, AcquireStep(key, owner, jobId, pg)) ==
                 w2.(svc := w2.svc.(db := w2.svc.db.(ledger := w2.svc.db.ledger + [db.ledger[|db.ledger| - 1]],
                                                     pgLocks := db.pgLocks)));
        case RolledBack =>
          ReleaseScriptKeepsBase(w2, key, owner);
        case Died =>
          DeathKeepsBase(w2);
      }
    }
  }

  lemma TokenIsKnown(w: World, key: string)
    requires Base(w) && key in w.svc.redis.token
    ensures var t := w.svc.redis.token[key]; t.inst in w.issued && IsInstanceId(t.inst) && t.counter > 0
  {
  }

  lemma ReleaseScriptKeepsBase(w: World, key: string, owner: string)
    requires Base(w)
    ensures Base(w.(svc := w.svc.(redis := ReleaseScript(w.svc.redis, key, owner).0)))
  {
    RedisKeepsBase(w, ReleaseScript(w.svc.redis, key, owner).0);
  }

  lemma ReclaimKeepsBase(w: World, key: string, reason: Reason, pg: PgOutcome)
    requires Base(w) && Enabled(w, ReclaimStep(key, reason, pg))
    ensures Base(Next(w, ReclaimStep(key, reason, pg)))
  {
    hide Base, InstanceColumn;
    EnsureKeepsBase(w);
    var w1 := w.(svc := EnsureInstance(w.svc));
    if w1.svc.redis.instance.Some? {
      MintKeepsBase(w1, key);
      var redis := BumpScript(w1.svc.redis, key).0;
      var w2 := w1.(svc := w1.svc.(redis := redis));
      RedisKeepsBase(w1.(svc := w1.svc.(redis := Mint(w1.svc.redis, key))), redis);
      match pg {
        case Committed =>
          var t := redis.token[key];
          TokenIsKnown(w2, key);
          InstanceColumnOfMinted(t, w1.svc.cached.value);
          var row := Row(key, "system", t, InstanceColumn(t, w1.svc.cached.value), reason);
          AppendKeepsBase(w2, row, w1.svc.db.pgLocks - {key});
        case RolledBack =>
        case Died =>
          DeathKeepsBase(w2);
      }
    }
  }

  lemma CommitRotationKeepsBase(w: World, newId: string, active: seq<string>)
    requires Base(w) && Enabled(w, CommitRotation(newId, active))
    ensures Base(Next(w, CommitRotation(newId, active)))
  {
    var w' := Next(w, CommitRotation(newId, active));
    var rows := BuildFailoverLedgerRows(newId, active);
    FailoverRowsCover(newId, active);
    hide BuildFailoverLedgerRows;
    var before, ledger := w.svc.db.ledger, w'.svc.db.ledger;
    assert forall i | 0 <= i < |before| :: ledger[i] == before[i];
    forall i | |before| <= i < |ledger| ensures ledger[i] == FailoverRow(ledger[i].lockKey, newId) {
      assert ledger[i] in rows;
    }
  }

  /** No step whatever needs a condition to keep the base facts. */
  lemma BaseNext(w: World, a: Step)
    requires Base(w) && Enabled(w, a)
    ensures Base(Next(w, a))
  {
    match a {
      case AcquireStep(key, owner, jobId, pg) => AcquireKeepsBase(w, key, owner, jobId, pg);
      case ReleaseStep(key, owner) => ReleaseScriptKeepsBase(w, key, owner);
      case ReclaimStep(key, reason, pg) => ReclaimKeepsBase(w, key, reason, pg);
      case EnsureStep => EnsureKeepsBase(w);
      case ExpireLock(key) =>
      case ExpireToken(key) =>
      case LoseInstance =>
      case LoseRedis =>
      case RestoreInstance =>
      case CommitRotation(newId, active) => CommitRotationKeepsBase(w, newId, active);
      case SetRedisInstance =>
      case SetCachedInstance =>
      case Restart => DeathKeepsBase(w);
    }
  }

  lemma {:induction false} AlwaysBase(ws: seq<World>, steps: seq<Step>, n: nat)
    requires Run(ws, steps) && n < |ws|
    ensures Base(ws[n])
  {
    hide Next, Base, Enabled;
    if n == 0 {
      var id :| IsInstanceId(id) && ws[0] == Init(id);
      InitBase(id);
    } else {
      AlwaysBase(ws, steps, n - 1);
      BaseNext(ws[n - 1], steps[n - 1]);
    }
  }
}
