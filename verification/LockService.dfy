/** The lock service in its imperative form, tied to the steps of the model. */
module LockServices {
  import opened Wrappers
  import opened Fencing
  import opened LockModel
  import Sorting

  class LockService {
    // Redis keys
    var lockOwner: map<string, string>
    var lockToken: map<string, Token>
    var lockCounter: map<string, nat>
    var redisInstance: Option<string>
    // Postgres tables
    var ledger: seq<Row>
    var released: set<nat>
    var pgLocks: map<string, PgLock>
    var pgInstance: string
    // Process memory
    var instanceId: Option<string>

    function State(): Service
      reads this
    {
      Service(Redis(lockOwner, lockToken, lockCounter, redisInstance), Db(ledger, released, pgLocks, pgInstance),
              instanceId)
    }

    constructor (pgId: string)
      ensures State() == Service(Redis(map[], map[], map[], None), Db([], {}, map[], pgId), None)
    {
      lockOwner, lockToken, lockCounter, redisInstance := map[], map[], map[], None;
      ledger, released, pgLocks, pgInstance := [], {}, map[], pgId;
      instanceId := None;
    }

    method EnsureInstanceId() returns (id: string)
      modifies this
      ensures State() == EnsureInstance(old(State()))
      ensures instanceId == Some(id)
    {
      if instanceId.Some? {
        return instanceId.value;
      }
      if redisInstance.None? {
        redisInstance := Some(pgInstance);
      }
      id := redisInstance.value;
      instanceId := Some(id);
    }

    /** INCR, then cache the new token under the key. */
    method MintToken(key: string) returns (t: Token)
      requires redisInstance.Some?
      modifies this
      ensures State() == old(State()).(redis := Mint(old(State()).redis, key))
      ensures t == NextToken(old(State()).redis, key)
    {
      var c := if key in lockCounter then lockCounter[key] + 1 else 1;
      lockCounter := lockCounter[key := c];
      t := Token(redisInstance.value, c);
      lockToken := lockToken[key := t];
    }

    method RunAcquireScript(key: string, owner: string) returns (reply: ScriptReply)
      modifies this
      ensures var (redis, r) := AcquireScript(old(State()).redis, key, owner);
              State() == old(State()).(redis := redis) && reply == r
    {
      if redisInstance.None? {
        return ScriptReply(-1, None);
      }
      if key !in lockOwner {
        var t := MintToken(key);
        lockOwner := lockOwner[key := owner];
        return ScriptReply(1, Some(t));
      } else if lockOwner[key] == owner {
        var t;
        if key in lockToken {
          t := lockToken[key];
        } else {
          t := MintToken(key);
        }
        return ScriptReply(2, Some(t));
      }
      return ScriptReply(0, None);
    }

    method RunReleaseScript(key: string, owner: string) returns (freed: bool)
      modifies this
      ensures var (redis, f) := ReleaseScript(old(State()).redis, key, owner);
              State() == old(State()).(redis := redis) && freed == f
    {
      freed := key in lockOwner && lockOwner[key] == owner;
      if freed {
        lockOwner := lockOwner - {key};
        lockToken := lockToken - {key};
      }
    }

    method AcquireLock(key: string, owner: string, jobId: Option<string>, pg: PgOutcome) returns (r: AcquireResult)
      modifies this
      ensures var (s, result) := Acquire(old(State()), key, owner, jobId, pg);
              State() == s && r == result
      ensures key in old(lockOwner) && old(lockOwner)[key] != owner ==>
                (r.Denied? || r.Error?) && lockOwner == old(lockOwner) && lockToken == old(lockToken) &&
                lockCounter == old(lockCounter) && ledger == old(ledger) && pgLocks == old(pgLocks)
    {
      var _ := EnsureInstanceId();
      var reply := RunAcquireScript(key, owner);
      if reply.token.None? {
        return if reply.code == -1 then Error else Denied;
      }
      var t := reply.token.value;
      match pg
      case Committed =>
        var column := InstanceColumn(t, instanceId.value);
        var reason := if reply.code == 1 then ACQUIRED else REENTRANT;
        ledger := ledger + [Row(key, owner, t, column, reason)];
        var job := if jobId.None? && key in pgLocks then pgLocks[key].jobId else jobId;
        pgLocks := pgLocks[key := PgLock(owner, t, job)];
        r := if reply.code == 1 then Acquired(t) else Reentrant(t);
      case RolledBack =>
        var _ := RunReleaseScript(key, owner);
        r := Threw;
      case Died =>
        instanceId := None;
        r := Threw;
    }

    method ReleaseLock(key: string, owner: string) returns (freed: bool)
      modifies this
      ensures var (s, f) := Release(old(State()), key, owner);
              State() == s && freed == f
    {
      freed := RunReleaseScript(key, owner);
      if freed {
        released := released + set i | 0 <= i < |ledger| && ledger[i].lockKey == key && ledger[i].owner == owner;
        if key in pgLocks && pgLocks[key].owner == owner {
          pgLocks := pgLocks - {key};
        }
      }
    }

    method ReclaimLock(key: string, reason: Reason, pg: PgOutcome) returns (r: Option<Token>)
      modifies this
      ensures var (s, t) := Reclaim(old(State()), key, reason, pg);
              State() == s && r == t
    {
      var id := EnsureInstanceId();
      if redisInstance.None? {
        return None;
      }
      var t := MintToken(key);
      lockOwner := lockOwner - {key};
      match pg
      case Committed =>
        var column := InstanceColumn(t, id);
        ledger := ledger + [Row(key, "system", t, column, reason)];
        pgLocks := pgLocks - {key};
        r := Some(t);
      case RolledBack =>
        r := None;
      case Died =>
        instanceId := None;
        r := None;
    }

    method InsertFailoverRows(newId: string, active: seq<string>)
      modifies this`ledger
      ensures ledger == old(ledger) + BuildFailoverLedgerRows(newId, active)
    {
      hide FailoverKeys;
      var keys := Sorting.SortKeys(FailoverKeys(active));
      ghost var rows := BuildFailoverLedgerRows(newId, active);
      for i := 0 to |keys|
        invariant ledger == old(ledger) + rows[..i]
      {
        assert rows[..i + 1] == rows[..i] + [FailoverRow(keys[i], newId)];
        ledger := ledger + [FailoverRow(keys[i], newId)];
      }
      assert rows[..|keys|] == rows;
    }

    /** The whole rotation without interleaving; `active` is what the query on pg_locks returned. */
    method RotateInstanceIdOnFailover(newId: string, active: seq<string>)
      modifies this
      ensures State() == RotateCache(RotateRedis(RotateCommit(old(State()), newId, active), newId), newId)
    {
      hide BuildFailoverLedgerRows;
      pgInstance := newId;
      InsertFailoverRows(newId, active);
      if |active| > 0 {
        pgLocks := map[];
      }
      redisInstance := Some(newId);
      instanceId := Some(newId);
    }

    method ValidateFencingToken(key: string, owner: string, presented: string) returns (ok: bool)
      modifies this
      ensures State() == old(State()) || State() == EnsureInstance(old(State()))
      ensures ok == Accepts(old(State()), key, owner, presented)
    {
      var i := LatestIndex(ledger, key);
      if i < 0 {
        return false;
      }
      var latest := ledger[i];
      var current := EnsureInstanceId();
      if Lower(latest.inst) != Lower(current) {
        return false;
      }
      if latest.reason == STALE_RECOVERED || latest.reason == ADMIN_RECLAIM || latest.reason == FAILOVER {
        return false;
      }
      if latest.owner != owner {
        return false;
      }
      return Format(latest.token) == presented;
    }
  }
}
