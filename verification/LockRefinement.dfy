/** The locks of the job model are those of the lock service: each call keeps the two in step. */
module LockRefinement {
  import opened Wrappers
  import opened Fencing
  import L = LockModel
  import J = JobModel
  import G = LockGrants
  import Gates = DependencyGates

  /** How project and job ids are written. */
  datatype Naming = Naming(project: Gates.ProjectId -> string, job: Gates.JobId -> string)

  ghost predicate Distinct(n: Naming) {
    (forall a, b | n.project(a) == n.project(b) :: a == b) && forall a, b | n.job(a) == n.job(b) :: a == b
  }

  function KeyText(n: Naming, key: J.LockKey): string {
    match key
    case Generation(p) => "project:" + n.project(p) + ":generation"
    case TargetPath(p) => "project:" + n.project(p) + ":target-path"
  }

  function OwnerText(n: Naming, j: Gates.JobId): string {
    "job:" + n.job(j)
  }

  lemma KeysDiffer(n: Naming, a: J.LockKey, b: J.LockKey)
    requires Distinct(n) && KeyText(n, a) == KeyText(n, b)
    ensures a == b
  {
    var s, t := KeyText(n, a), KeyText(n, b);
    assert s[|s| - 1] == if a.Generation? then 'n' else 'h';
    assert t[|t| - 1] == if b.Generation? then 'n' else 'h';
    var p, q := n.project(a.project), n.project(b.project);
    assert s[8..8 + |p|] == p && t[8..8 + |q|] == q;
  }

  lemma OwnersDiffer(n: Naming, a: Gates.JobId, b: Gates.JobId)
    requires Distinct(n) && OwnerText(n, a) == OwnerText(n, b)
    ensures a == b
  {
    assert OwnerText(n, a)[4..] == n.job(a) && OwnerText(n, b)[4..] == n.job(b);
  }

  /** Both sides agree on who has the key, and on the job that its pg_locks row names. */
  predicate Agree(n: Naming, s: L.Service, sys: J.Sys, key: J.LockKey) {
    var k := KeyText(n, key);
    (k in s.redis.owner <==> key in sys.owner) &&
    (k in s.redis.owner ==> s.redis.owner[k] == OwnerText(n, sys.owner[key])) &&
    (k in s.db.pgLocks <==> key in sys.pgJob) &&
    (k in s.db.pgLocks ==>
       s.db.pgLocks[k].owner == OwnerText(n, sys.pgJob[key]) && s.db.pgLocks[k].jobId == Some(n.job(sys.pgJob[key])))
  }

  ghost predicate InStep(n: Naming, s: L.Service, sys: J.Sys) {
    forall key: J.LockKey :: Agree(n, s, sys, key)
  }

  /** The lock call a dispatch makes. */
  function Call(n: Naming, s: L.Service, key: J.LockKey, j: Gates.JobId, pg: L.PgOutcome)
    : (L.Service, L.AcquireResult)
  {
    L.Acquire(s, KeyText(n, key), OwnerText(n, j), Some(n.job(j)), pg)
  }

  predicate Usable(n: Naming, s: L.Service, key: J.LockKey) {
    G.HasId(s) && IsInstanceId(G.IdOf(s)) &&
    (KeyText(n, key) in s.redis.token ==> IsInstanceId(s.redis.token[KeyText(n, key)].inst))
  }

  lemma HeldByOtherJob(n: Naming, s: L.Service, sys: J.Sys, key: J.LockKey, j: Gates.JobId)
    requires Distinct(n) && InStep(n, s, sys)
    ensures G.HeldByOther(s, KeyText(n, key), OwnerText(n, j)) <==> key in sys.owner && sys.owner[key] != j
  {
    assert Agree(n, s, sys, key);
    hide KeyText, OwnerText;
    if key in sys.owner && sys.owner[key] != j && OwnerText(n, sys.owner[key]) == OwnerText(n, j) {
      OwnersDiffer(n, sys.owner[key], j);
      assert false;
    }
  }

  /** Changing one key on both sides keeps the others in step. */
  lemma OneKey(n: Naming, s: L.Service, s': L.Service, sys: J.Sys, sys': J.Sys, key: J.LockKey)
    requires Distinct(n) && InStep(n, s, sys) && Agree(n, s', sys', key)
    requires s'.redis.owner - {KeyText(n, key)} == s.redis.owner - {KeyText(n, key)}
    requires s'.db.pgLocks - {KeyText(n, key)} == s.db.pgLocks - {KeyText(n, key)}
    requires sys'.owner - {key} == sys.owner - {key} && sys'.pgJob - {key} == sys.pgJob - {key}
    ensures InStep(n, s', sys')
  {
    forall other: J.LockKey ensures Agree(n, s', sys', other) {
      if other != key {
        if KeyText(n, other) == KeyText(n, key) {
          KeysDiffer(n, other, key);
          assert false;
        }
        assert Agree(n, s, sys, other);
        hide KeyText, OwnerText;
        SameElsewhere(s'.redis.owner, s.redis.owner, KeyText(n, key), KeyText(n, other));
        SameElsewhere(s'.db.pgLocks, s.db.pgLocks, KeyText(n, key), KeyText(n, other));
        SameElsewhere(sys'.owner, sys.owner, key, other);
        SameElsewhere(sys'.pgJob, sys.pgJob, key, other);
      }
    }
  }

  lemma SameElsewhere<K, V>(a: map<K, V>, b: map<K, V>, key: K, other: K)
    requires a - {key} == b - {key} && other != key
    ensures (other in a <==> other in b) && (other in a ==> a[other] == b[other])
  {
    assert other in a <==> other in a - {key};
    assert other in b <==> other in b - {key};
  }

  lemma GrantInStep(
    n: Naming, s: L.Service, s': L.Service, sys: J.Sys, key: J.LockKey, j: Gates.JobId, t: Token)
    requires Distinct(n) && InStep(n, s, sys)
    requires s'.redis.owner == s.redis.owner[KeyText(n, key) := OwnerText(n, j)]
    requires s'.db.pgLocks == s.db.pgLocks[KeyText(n, key) := L.PgLock(OwnerText(n, j), t, Some(n.job(j)))]
    ensures InStep(n, s', sys.(owner := sys.owner[key := j], pgJob := sys.pgJob[key := j]))
  {
    hide KeyText, OwnerText;
    var sys' := sys.(owner := sys.owner[key := j], pgJob := sys.pgJob[key := j]);
    OneKey(n, s, s', sys, sys', key);
  }

  /** What a committed acquire on a lock that no other owner has writes. */
  lemma GrantWrites(n: Naming, s: L.Service, key: J.LockKey, j: Gates.JobId) returns (t: Token)
    requires Usable(n, s, key) && !G.HeldByOther(s, KeyText(n, key), OwnerText(n, j))
    ensures var (s', r) := Call(n, s, key, j, L.Committed);
            G.IsGrant(r) && s'.redis.owner == s.redis.owner[KeyText(n, key) := OwnerText(n, j)] &&
            s'.db.pgLocks == s.db.pgLocks[KeyText(n, key) := L.PgLock(OwnerText(n, j), t, Some(n.job(j)))]
  {
    var (k, o) := (KeyText(n, key), OwnerText(n, j));
    t := Call(n, s, key, j, L.Committed).1.token;
    if k in s.redis.owner {
      G.AcquireAgain(s, k, o, Some(n.job(j)));
      assert s.redis.owner[k := o] == s.redis.owner;
    } else {
      G.AcquireFree(s, k, o, Some(n.job(j)));
    }
    hide KeyText, OwnerText, L.Acquire;
  }

  /** A job gets the lock in one model exactly if it gets it in the other, with the same effect. */
  lemma AcquireInStep(n: Naming, s: L.Service, sys: J.Sys, key: J.LockKey, j: Gates.JobId)
    requires Distinct(n) && InStep(n, s, sys) && Usable(n, s, key)
    ensures var (s', r) := Call(n, s, key, j, L.Committed);
            (G.IsGrant(r) <==> (key in sys.owner ==> sys.owner[key] == j)) &&
            (!G.IsGrant(r) ==> r == L.Denied && InStep(n, s', sys)) &&
            (G.IsGrant(r) ==> InStep(n, s', sys.(owner := sys.owner[key := j], pgJob := sys.pgJob[key := j])))
  {
    HeldByOtherJob(n, s, sys, key, j);
    var (k, o) := (KeyText(n, key), OwnerText(n, j));
    var s' := Call(n, s, key, j, L.Committed).0;
    if G.HeldByOther(s, k, o) {
      G.AcquireDenied(s, k, o, Some(n.job(j)), L.Committed);
      G.EnsureExactly(s);
      SameTables(n, s, s', sys);
    } else {
      var t := GrantWrites(n, s, key, j);
      GrantInStep(n, s, s', sys, key, j, t);
    }
    hide KeyText, OwnerText, L.Acquire, InStep;
  }

  lemma SameTables(n: Naming, s: L.Service, s': L.Service, sys: J.Sys)
    requires InStep(n, s, sys) && s'.redis.owner == s.redis.owner && s'.db.pgLocks == s.db.pgLocks
    ensures InStep(n, s', sys)
  {
    forall key: J.LockKey ensures Agree(n, s', sys, key) {
      assert Agree(n, s, sys, key);
    }
  }

  /** A transaction that fails gives the lock up, as the job model's DropOwner does. */
  lemma RolledBackInStep(n: Naming, s: L.Service, sys: J.Sys, key: J.LockKey, j: Gates.JobId)
    requires Distinct(n) && InStep(n, s, sys) && G.HasId(s) && (key in sys.owner ==> sys.owner[key] == j)
    ensures var (s', r) := Call(n, s, key, j, L.RolledBack);
            r == L.Threw && InStep(n, s', sys.(owner := sys.owner - {key}))
  {
    HeldByOtherJob(n, s, sys, key, j);
    var (k, o) := (KeyText(n, key), OwnerText(n, j));
    var s' := Call(n, s, key, j, L.RolledBack).0;
    G.AcquireRolledBack(s, k, o, Some(n.job(j)));
    assert Agree(n, s, sys, key);
    hide KeyText, OwnerText, L.Acquire;
    assert s.redis.owner - {k} - {k} == s.redis.owner - {k};
    assert sys.owner - {key} - {key} == sys.owner - {key};
    OneKey(n, s, s', sys, sys.(owner := sys.owner - {key}), key);
  }

  /** Releases free the same locks and delete the same pg_locks rows. */
  lemma ReleaseInStep(n: Naming, s: L.Service, sys: J.Sys, key: J.LockKey, j: Gates.JobId)
    requires Distinct(n) && InStep(n, s, sys)
    ensures var (s', freed) := L.Release(s, KeyText(n, key), OwnerText(n, j));
            (freed <==> J.Owns(sys, key, j)) && InStep(n, s', J.Released(sys, key, j))
  {
    HeldByOtherJob(n, s, sys, key, j);
    var (k, o) := (KeyText(n, key), OwnerText(n, j));
    var (s', freed) := L.Release(s, k, o);
    G.ReleaseExactly(s, k, o);
    assert Agree(n, s, sys, key);
    if key in sys.pgJob && OwnerText(n, sys.pgJob[key]) == o {
      OwnersDiffer(n, sys.pgJob[key], j);
    }
    hide KeyText, OwnerText, L.Release;
    if freed {
      var sys' := J.Released(sys, key, j);
      assert s.redis.owner - {k} - {k} == s.redis.owner - {k};
      assert sys.owner - {key} - {key} == sys.owner - {key} && sys.pgJob - {key} - {key} == sys.pgJob - {key};
      OneKey(n, s, s', sys, sys', key);
    }
  }

  /** A reclaim frees the lock; its pg_locks row goes if the transaction commits. */
  lemma ReclaimInStep(n: Naming, s: L.Service, sys: J.Sys, key: J.LockKey, reason: L.Reason, pg: L.PgOutcome)
    requires Distinct(n) && InStep(n, s, sys) && G.HasId(s) && IsInstanceId(G.IdOf(s))
    ensures var (s', r) := L.Reclaim(s, KeyText(n, key), reason, pg);
            InStep(n, s', sys.(owner := sys.owner - {key},
                               pgJob := if r.Some? then sys.pgJob - {key} else sys.pgJob))
  {
    var k := KeyText(n, key);
    var (s', r) := L.Reclaim(s, k, reason, pg);
    G.ReclaimExactly(s, k, reason, pg);
    assert Agree(n, s, sys, key);
    hide KeyText, OwnerText, L.Reclaim;
    var sys' := sys.(owner := sys.owner - {key}, pgJob := if r.Some? then sys.pgJob - {key} else sys.pgJob);
    assert s.redis.owner - {k} - {k} == s.redis.owner - {k} && s.db.pgLocks - {k} - {k} == s.db.pgLocks - {k};
    assert sys.owner - {key} - {key} == sys.owner - {key} && sys.pgJob - {key} - {key} == sys.pgJob - {key};
    OneKey(n, s, s', sys, sys', key);
  }

  /** A rotation empties pg_locks on both sides, if it had rows. */
  lemma RotationInStep(n: Naming, s: L.Service, sys: J.Sys, newId: string, active: seq<string>)
    requires InStep(n, s, sys) && (active == [] ==> s.db.pgLocks == map[])
    ensures InStep(n, L.RotateCommit(s, newId, active), sys.(pgJob := map[]))
  {
    hide L.BuildFailoverLedgerRows;
    forall key: J.LockKey ensures Agree(n, L.RotateCommit(s, newId, active), sys.(pgJob := map[]), key) {
      assert Agree(n, s, sys, key);
    }
  }

  // ---- In terms of the job model's actions ----

  /** A lock call of a dispatch is the action AcquireLock; a denial is no action at all. */
  lemma AcquireIsAction(n: Naming, s: L.Service, sys: J.Sys, key: J.LockKey, j: Gates.JobId)
    requires Distinct(n) && InStep(n, s, sys) && Usable(n, s, key)
    requires j < |sys.jobs| && sys.jobs[j].status.QUEUED? && key.project == sys.jobs[j].project
    ensures var (s', r) := Call(n, s, key, j, L.Committed);
            if J.Enabled(sys, J.AcquireLock(key, j))
            then G.IsGrant(r) && InStep(n, s', J.Effect(sys, J.AcquireLock(key, j)))
            else r == L.Denied && InStep(n, s', sys)
  {
    hide InStep, Call, KeyText, Usable;
    AcquireInStep(n, s, sys, key, j);
  }

  /** If its transaction fails, it is the action DropOwner. */
  lemma RollbackIsAction(n: Naming, s: L.Service, sys: J.Sys, key: J.LockKey, j: Gates.JobId)
    requires Distinct(n) && InStep(n, s, sys) && Usable(n, s, key)
    requires J.Enabled(sys, J.AcquireLock(key, j))
    ensures J.Enabled(sys, J.DropOwner(key, j))
    ensures InStep(n, Call(n, s, key, j, L.RolledBack).0, J.Effect(sys, J.DropOwner(key, j)))
  {
    hide InStep, Call, KeyText;
    RolledBackInStep(n, s, sys, key, j);
    assert key !in sys.owner ==> sys.owner - {key} == sys.owner;
  }

  /** A release is the action ReleaseLock. */
  lemma ReleaseIsAction(n: Naming, s: L.Service, sys: J.Sys, key: J.LockKey, j: Gates.JobId)
    requires Distinct(n) && InStep(n, s, sys) && J.Enabled(sys, J.ReleaseLock(key, j))
    ensures InStep(n, L.Release(s, KeyText(n, key), OwnerText(n, j)).0, J.Effect(sys, J.ReleaseLock(key, j)))
  {
    hide InStep, KeyText, OwnerText, L.Release;
    ReleaseInStep(n, s, sys, key, j);
  }

  /** A reclaim is the action Reclaim or, if its transaction fails, LoseOwner. */
  lemma ReclaimIsAction(n: Naming, s: L.Service, sys: J.Sys, key: J.LockKey, reason: L.Reason, committed: bool)
    requires Distinct(n) && InStep(n, s, sys) && G.HasId(s) && IsInstanceId(G.IdOf(s))
    ensures InStep(n, L.Reclaim(s, KeyText(n, key), reason, if committed then L.Committed else L.RolledBack).0,
                   J.Effect(sys, if committed then J.Reclaim(key, None) else J.LoseOwner(key)))
  {
    hide InStep, KeyText, OwnerText, L.Reclaim, IsInstanceId;
    var pg := if committed then L.Committed else L.RolledBack;
    ReclaimInStep(n, s, sys, key, reason, pg);
    G.ReclaimExactly(s, KeyText(n, key), reason, pg);
  }
}
