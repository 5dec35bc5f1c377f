/** What every run of the lock service keeps, and what follows for fencing. */
module LockProofs {
  import opened Wrappers
  import opened Fencing
  import opened LockModel
  import opened LockRuns

  // ---- Single stores ----

  lemma EnsureKeepsInv(w: World)
    requires Inv(w)
    requires w.svc.redis.instance.None? && w.svc.cached.None? ==> RestoreCovers(w.svc) && RestoreCoversCache(w.svc)
    ensures Inv(w.(svc := EnsureInstance(w.svc)))
  {
    if w.svc.cached.None? && w.svc.redis.instance.None? {
      RestoreKeepsInv(w);
    }
  }

  lemma RestoreKeepsInv(w: World)
    requires Inv(w) && w.svc.redis.instance.None? && RestoreCovers(w.svc) && RestoreCoversCache(w.svc)
    ensures Inv(w.(svc := w.svc.(redis := w.svc.redis.(instance := Some(w.svc.db.instance)))))
  {
    var (r, db) := (w.svc.redis, w.svc.db);
    assert RowsCovered(w.issued, Some(db.instance), db.instance, r.counter, db.ledger);
    assert CacheCovered(w.issued, Some(db.instance), db.instance, r.counter, r.token);
  }

  lemma MintKeepsInv(w: World, key: string)
    requires Inv(w) && w.svc.redis.instance.Some?
    ensures Inv(w.(svc := w.svc.(redis := Mint(w.svc.redis, key))))
  {
    var (r, db) := (w.svc.redis, w.svc.db);
    var r' := Mint(r, key);
    assert RowsCovered(w.issued, r.instance, db.instance, r'.counter, db.ledger) by {
      forall i | 0 <= i < |db.ledger| && Minted(db.ledger[i])
        ensures Covered(w.issued, r.instance, db.instance, r'.counter, db.ledger[i].lockKey, db.ledger[i].token)
      {
        assert Covered(w.issued, r.instance, db.instance, r.counter, db.ledger[i].lockKey, db.ledger[i].token);
      }
    }
    assert CacheNewest(w.issued, r'.token, db.ledger) by {
      forall i | 0 <= i < |db.ledger| && Minted(db.ledger[i]) && db.ledger[i].lockKey in r'.token
        ensures NoLater(w.issued, db.ledger[i].token, r'.token[db.ledger[i].lockKey])
      {
        assert Covered(w.issued, r.instance, db.instance, r.counter, db.ledger[i].lockKey, db.ledger[i].token);
      }
    }
  }

  /** Recording the token Redis caches for the key. */
  lemma AppendKeepsInv(w: World, row: Row, locks: map<string, PgLock>)
    requires Inv(w) && Minted(row) && row.inst == row.token.inst
    requires row.lockKey in w.svc.redis.token && w.svc.redis.token[row.lockKey] == row.token
    ensures Inv(w.(svc := w.svc.(db := w.svc.db.(ledger := w.svc.db.ledger + [row], pgLocks := locks))))
  {
    hide IdsKnown, Forward;
    var (r, db) := (w.svc.redis, w.svc.db);
    var ledger := db.ledger + [row];
    assert RowsKnown(w.issued, ledger);
    assert RowsCovered(w.issued, r.instance, db.instance, r.counter, ledger);
    assert CacheNewest(w.issued, r.token, ledger);
    assert Ordered(w.issued, ledger);
  }

  lemma KnownColumn(w: World, t: Token, fallback: string)
    requires Inv(w) && t.inst in w.issued
    ensures InstanceColumn(t, fallback) == t.inst
  {
    InstanceColumnOfMinted(t, fallback);
  }

  lemma OwnerChangeKeepsInv(w: World, owner: map<string, string>)
    requires Inv(w)
    ensures Inv(w.(svc := w.svc.(redis := w.svc.redis.(owner := owner))))
  {
  }

  lemma DropTokenKeepsInv(w: World, key: string)
    requires Inv(w)
    ensures Inv(w.(svc := w.svc.(redis := w.svc.redis.(token := w.svc.redis.token - {key}))))
  {
  }

  lemma DeathKeepsInv(w: World)
    requires Inv(w)
    ensures Inv(Dead(w, w.svc))
  {
  }

  lemma ReleaseScriptKeepsInv(w: World, key: string, owner: string)
    requires Inv(w)
    ensures Inv(w.(svc := w.svc.(redis := ReleaseScript(w.svc.redis, key, owner).0)))
  {
    DropTokenKeepsInv(w, key);
    OwnerChangeKeepsInv(w.(svc := w.svc.(redis := w.svc.redis.(token := w.svc.redis.token - {key}))),
                        w.svc.redis.owner - {key});
  }

  // ---- Steps ----

  lemma AcquireScriptKeepsInv(w: World, key: string, owner: string)
    requires Inv(w)
    ensures var (redis, reply) := AcquireScript(w.svc.redis, key, owner);
            && Inv(w.(svc := w.svc.(redis := redis)))
            && (reply.token.Some? ==> key in redis.token && redis.token[key] == reply.token.value)
  {
    var (redis, reply) := AcquireScript(w.svc.redis, key, owner);
    if reply.token.Some? {
      if key !in w.svc.redis.owner {
        MintKeepsInv(w, key);
        OwnerChangeKeepsInv(w.(svc := w.svc.(redis := Mint(w.svc.redis, key))), redis.owner);
      } else if key !in w.svc.redis.token {
        MintKeepsInv(w, key);
      }
    }
  }

  lemma AcquireKeepsInv(w: World, key: string, owner: string, jobId: Option<string>, pg: PgOutcome)
    requires Inv(w) && SafeStep(w, AcquireStep(key, owner, jobId, pg))
    ensures Inv(Next(w, AcquireStep(key, owner, jobId, pg)))
  {
    hide IdsKnown, RowsKnown, RowsCovered, CacheNewest, Ordered, Forward, InstanceColumn, AcquireScript, ReleaseScript;
    EnsureKeepsInv(w);
    var w1 := w.(svc := EnsureInstance(w.svc));
    AcquireScriptKeepsInv(w1, key, owner);
    var (redis, reply) := AcquireScript(w1.svc.redis, key, owner);
    var w2 := w1.(svc := w1.svc.(redis := redis));
    if reply.token.Some? {
      var t := reply.token.value;
      match pg {
        case Committed =>
          KnownColumn(w2, t, w1.svc.cached.value);
          var reason := if reply.code == 1 then ACQUIRED else REENTRANT;
          var db := AcquireCommit(w1.svc.db, key, owner, jobId, t, w1.svc.cached.value, reason);
          AppendKeepsInv(w2, db.ledger[|db.ledger| - 1], db.pgLocks);
          assert Next(w, AcquireStep(key, owner, jobId, pg)) ==
                 w2.(svc := w2.svc.(db := w2.svc.db.(ledger := w2.svc.db.ledger + [db.ledger[|db.ledger| - 1]],
                                                     pgLocks := db.pgLocks)));
        case RolledBack =>
          ReleaseScriptKeepsInv(w2, key, owner);
        case Died =>
          DeathKeepsInv(w2);
      }
    }
  }

  lemma ReclaimKeepsInv(w: World, key: string, reason: Reason, pg: PgOutcome)
    requires Inv(w) && Enabled(w, ReclaimStep(key, reason, pg)) && SafeStep(w, ReclaimStep(key, reason, pg))
    ensures Inv(Next(w, ReclaimStep(key, reason, pg)))
  {
    hide IdsKnown, RowsKnown, RowsCovered, CacheNewest, Ordered, InstanceColumn;
    EnsureKeepsInv(w);
    var w1 := w.(svc := EnsureInstance(w.svc));
    if w1.svc.redis.instance.Some? {
      MintKeepsInv(w1, key);
      var (redis, reply) := BumpScript(w1.svc.redis, key);
      var w2 := w1.(svc := w1.svc.(redis := redis));
      OwnerChangeKeepsInv(w1.(svc := w1.svc.(redis := Mint(w1.svc.redis, key))), redis.owner);
      match pg {
        case Committed =>
          var t := reply.token.value;
          KnownColumn(w2, t, w1.svc.cached.value);
          var row := Row(key, "system", t, InstanceColumn(t, w1.svc.cached.value), reason);
          AppendKeepsInv(w2, row, w1.svc.db.pgLocks - {key});
        case RolledBack =>
        case Died =>
          DeathKeepsInv(w2);
      }
    }
  }

  lemma CommitRotationKeepsInv(w: World, newId: string, active: seq<string>)
    requires Inv(w) && Enabled(w, CommitRotation(newId, active))
    ensures Inv(Next(w, CommitRotation(newId, active)))
  {
    var w' := Next(w, CommitRotation(newId, active));
    var rows := BuildFailoverLedgerRows(newId, active);
    FailoverRowsCover(newId, active);
    var before, ledger := w.svc.db.ledger, w'.svc.db.ledger;
    assert IdsKnown(w'.issued);
    assert forall i | 0 <= i < |before| :: ledger[i] == before[i];
    forall i | |before| <= i < |ledger| ensures ledger[i] == FailoverRow(ledger[i].lockKey, newId) {
      assert ledger[i] in rows;
    }
    assert RowsKnown(w'.issued, ledger);
    RotationKeepsOrder(w, w', newId);
  }

  /** The FAILOVER rows carry the newest id, so they come after every token before them. */
  lemma RotationKeepsOrder(w: World, w': World, newId: string)
    requires Inv(w) && newId !in w.issued && w'.issued == w.issued[newId := |w.issued|]
    requires w.svc.db.ledger <= w'.svc.db.ledger && w'.svc.redis == w.svc.redis && w'.svc.db.instance == newId
    requires forall i | |w.svc.db.ledger| <= i < |w'.svc.db.ledger| ::
               w'.svc.db.ledger[i] == FailoverRow(w'.svc.db.ledger[i].lockKey, newId)
    ensures RowsCovered(w'.issued, w'.svc.redis.instance, newId, w'.svc.redis.counter, w'.svc.db.ledger)
    ensures CacheCovered(w'.issued, w'.svc.redis.instance, newId, w'.svc.redis.counter, w'.svc.redis.token)
    ensures CacheNewest(w'.issued, w'.svc.redis.token, w'.svc.db.ledger)
    ensures Ordered(w'.issued, w'.svc.db.ledger)
  {
    var before, ledger := w.svc.db.ledger, w'.svc.db.ledger;
    var (r, db) := (w.svc.redis, w.svc.db);
    assert forall i | 0 <= i < |before| :: ledger[i] == before[i];
    assert forall id | id in w.issued :: Age(w'.issued, id) == Age(w.issued, id) < |w.issued|;
    forall i | 0 <= i < |ledger| && Minted(ledger[i])
      ensures Covered(w'.issued, r.instance, newId, r.counter, ledger[i].lockKey, ledger[i].token)
    {
      assert Covered(w.issued, r.instance, db.instance, r.counter, before[i].lockKey, before[i].token);
    }
  }

  lemma SetRedisKeepsInv(w: World)
    requires Inv(w) && Enabled(w, SetRedisInstance) && SafeStep(w, SetRedisInstance)
    ensures Inv(Next(w, SetRedisInstance))
  {
    if w.svc.redis.instance.None? {
      RestoreKeepsInv(w);
    }
  }

  lemma InvNext(w: World, a: Step)
    requires Inv(w) && Enabled(w, a) && SafeStep(w, a)
    ensures Inv(Next(w, a))
  {
    match a {
      case AcquireStep(key, owner, jobId, pg) => AcquireKeepsInv(w, key, owner, jobId, pg);
      case ReleaseStep(key, owner) => ReleaseScriptKeepsInv(w, key, owner);
      case ReclaimStep(key, reason, pg) => ReclaimKeepsInv(w, key, reason, pg);
      case EnsureStep => EnsureKeepsInv(w);
      case ExpireLock(key) => OwnerChangeKeepsInv(w, w.svc.redis.owner - {key});
      case ExpireToken(key) => DropTokenKeepsInv(w, key);
      case LoseInstance =>
      case LoseRedis =>
      case RestoreInstance => RestoreKeepsInv(w);
      case CommitRotation(newId, active) => CommitRotationKeepsInv(w, newId, active);
      case SetRedisInstance => SetRedisKeepsInv(w);
      case SetCachedInstance =>
      case Restart => DeathKeepsInv(w);
    }
  }
}
