/**
 * The lock service as steps on its stores: the Redis keys, the Postgres tables and the
 * process's cached instance id. Each function is one script call, transaction or handler half.
 */
module LockModel {
  import opened Wrappers
  import opened Fencing
  import Sorting

  const FAILOVER_SENTINEL_LOCK_KEY := "pgos:system:redis-failover"

  datatype Reason = ACQUIRED | REENTRANT | STALE_RECOVERED | ADMIN_RECLAIM | FAILOVER

  /** A row of lock_fencing_seq; its position in the ledger stands for acquired_at. */
  datatype Row = Row(lockKey: string, owner: string, token: Token, inst: string, reason: Reason)

  datatype PgLock = PgLock(owner: string, token: Token, jobId: Option<string>)

  /** The keys the Lua scripts touch: lock owners, cached tokens, counters and the instance id. */
  datatype Redis = Redis(
    owner: map<string, string>, token: map<string, Token>, counter: map<string, nat>, instance: Option<string>)

  /** `released` holds the ledger positions whose released_at is set. */
  datatype Db = Db(ledger: seq<Row>, released: set<nat>, pgLocks: map<string, PgLock>, instance: string)

  datatype Service = Service(redis: Redis, db: Db, cached: Option<string>)

  /** How the Postgres half of a call ends: committed, rolled back, or the process died before it. */
  datatype PgOutcome = Committed | RolledBack | Died

  datatype AcquireResult = Acquired(token: Token) | Reentrant(token: Token) | Denied | Error | Threw

  // ---- Lua scripts ----

  function CounterOf(r: Redis, key: string): nat {
    if key in r.counter then r.counter[key] else 0
  }

  /** INCR on the key's counter, paired with the current instance id. */
  function NextToken(r: Redis, key: string): Token
    requires r.instance.Some?
  {
    Token(r.instance.value, CounterOf(r, key) + 1)
  }

  function Mint(r: Redis, key: string): Redis
    requires r.instance.Some?
  {
    r.(counter := r.counter[key := CounterOf(r, key) + 1], token := r.token[key := NextToken(r, key)])
  }

  datatype ScriptReply = ScriptReply(code: int, token: Option<Token>)

  function AcquireScript(r: Redis, key: string, owner: string): (Redis, ScriptReply) {
    if r.instance.None? then
      (r, ScriptReply(-1, None))
    else if key !in r.owner then
      (Mint(r, key).(owner := r.owner[key := owner]), ScriptReply(1, Some(NextToken(r, key))))
    else if r.owner[key] == owner then
      if key in r.token then (r, ScriptReply(2, Some(r.token[key])))
      else (Mint(r, key), ScriptReply(2, Some(NextToken(r, key))))
    else
      (r, ScriptReply(0, None))
  }

  function ReleaseScript(r: Redis, key: string, owner: string): (Redis, bool) {
    if key in r.owner && r.owner[key] == owner then
      (r.(owner := r.owner - {key}, token := r.token - {key}), true)
    else
      (r, false)
  }

  function BumpScript(r: Redis, key: string): (Redis, ScriptReply) {
    if r.instance.None? then
      (r, ScriptReply(-1, None))
    else
      (Mint(r, key).(owner := r.owner - {key}), ScriptReply(1, Some(NextToken(r, key))))
  }

  // ---- Service operations ----

  /** The cached id, else the one in Redis, else the Postgres one written back to Redis. */
  function EnsureInstance(s: Service): (r: Service)
    ensures r.cached.Some?
  {
    if s.cached.Some? then s
    else if s.redis.instance.Some? then s.(cached := s.redis.instance)
    else s.(redis := s.redis.(instance := Some(s.db.instance)), cached := Some(s.db.instance))
  }

  /** The instance_id column: what the token text parses to, with the service's id as fallback. */
  function InstanceColumn(t: Token, fallback: string): string {
    match Parse(Format(t))
    case Some(p) => p.inst
    case None => fallback
  }

  function AcquireCommit(db: Db, key: string, owner: string, jobId: Option<string>, t: Token, fallback: string,
                         reason: Reason): Db {
    var job := if jobId.None? && key in db.pgLocks then db.pgLocks[key].jobId else jobId;
    db.(ledger := db.ledger + [Row(key, owner, t, InstanceColumn(t, fallback), reason)],
        pgLocks := db.pgLocks[key := PgLock(owner, t, job)])
  }

  function Acquire(s0: Service, key: string, owner: string, jobId: Option<string>, pg: PgOutcome)
    : (Service, AcquireResult)
  {
    var s := EnsureInstance(s0);
    var (redis, reply) := AcquireScript(s.redis, key, owner);
    var s' := s.(redis := redis);
    match reply.token
    case None => (s', if reply.code == -1 then Error else Denied)
    case Some(t) =>
      match pg
      case Committed =>
        var reason := if reply.code == 1 then ACQUIRED else REENTRANT;
        (s'.(db := AcquireCommit(s.db, key, owner, jobId, t, s.cached.value, reason)),
         if reply.code == 1 then Acquired(t) else Reentrant(t))
      case RolledBack => (s'.(redis := ReleaseScript(redis, key, owner).0), Threw)
      case Died => (s'.(cached := None), Threw)
  }

  function Release(s: Service, key: string, owner: string): (Service, bool) {
    var (redis, freed) := ReleaseScript(s.redis, key, owner);
    if !freed then (s, false)
    else
      var marked := set i | 0 <= i < |s.db.ledger| && s.db.ledger[i].lockKey == key && s.db.ledger[i].owner == owner;
      var owns := key in s.db.pgLocks && s.db.pgLocks[key].owner == owner;
      var locks := if owns then s.db.pgLocks - {key} else s.db.pgLocks;
      (s.(redis := redis, db := s.db.(released := s.db.released + marked, pgLocks := locks)), true)
  }

  function Reclaim(s0: Service, key: string, reason: Reason, pg: PgOutcome): (Service, Option<Token>) {
    var s := EnsureInstance(s0);
    var (redis, reply) := BumpScript(s.redis, key);
    match reply.token
    case None => (s, None)
    case Some(t) =>
      match pg
      case Committed =>
        var row := Row(key, "system", t, InstanceColumn(t, s.cached.value), reason);
        (s.(redis := redis, db := s.db.(ledger := s.db.ledger + [row], pgLocks := s.db.pgLocks - {key})), Some(t))
      case RolledBack => (s.(redis := redis), None)
      case Died => (s.(redis := redis, cached := None), None)
  }

  // ---- Failover rotation ----

  /** Keys of the FAILOVER rows: the non-empty active keys and the sentinel, each once. */
  function FailoverKeys(active: seq<string>): (r: seq<string>)
    ensures forall k :: k in r <==> (k in active && k != "") || k == FAILOVER_SENTINEL_LOCK_KEY
    ensures forall i, j | 0 <= i < j < |r| :: r[i] != r[j]
  {
    if active == [] then [FAILOVER_SENTINEL_LOCK_KEY]
    else
      var rest := FailoverKeys(active[1..]);
      if active[0] == "" || active[0] in rest then rest else [active[0]] + rest
  }

  function FailoverRow(key: string, newId: string): Row {
    Row(key, "system", Token(newId, 0), newId, FAILOVER)
  }

  function BuildFailoverLedgerRows(newId: string, active: seq<string>): (rows: seq<Row>) {
    var keys := Sorting.SortKeys(FailoverKeys(active));
    seq(|keys|, i requires 0 <= i < |keys| => FailoverRow(keys[i], newId))
  }

  function RotateCommit(s: Service, newId: string, active: seq<string>): Service {
    s.(db := s.db.(
       instance := newId,
       ledger := s.db.ledger + BuildFailoverLedgerRows(newId, active),
       pgLocks := if active != [] then map[] else s.db.pgLocks))
  }

  function RotateRedis(s: Service, newId: string): Service {
    s.(redis := s.redis.(instance := Some(newId)))
  }

  function RotateCache(s: Service, newId: string): Service {
    s.(cached := Some(newId))
  }

  // ---- Validation ----

  /** Position of the newest ledger row of a key, or -1. */
  function LatestIndex(ledger: seq<Row>, key: string): (i: int)
    ensures -1 <= i < |ledger|
    ensures i >= 0 ==> ledger[i].lockKey == key
    ensures forall j | i < j < |ledger| :: ledger[j].lockKey != key
  {
    if ledger == [] then -1
    else if ledger[|ledger| - 1].lockKey == key then |ledger| - 1
    else LatestIndex(ledger[..|ledger| - 1], key)
  }

  /** The decision of validateFencingToken, once the process's instance id is known. */
  predicate Accepts(s: Service, key: string, owner: string, presented: string) {
    var i := LatestIndex(s.db.ledger, key);
    i >= 0 &&
    var latest := s.db.ledger[i];
    Lower(latest.inst) == Lower(EnsureInstance(s).cached.value) &&
    latest.reason !in {STALE_RECOVERED, ADMIN_RECLAIM, FAILOVER} &&
    latest.owner == owner &&
    Format(latest.token) == presented
  }

  /** The rows depend on which keys are active, not on the order the query returned them in. */
  lemma FailoverRowsForgetOrder(newId: string, a: seq<string>, b: seq<string>)
    requires forall k :: k in a <==> k in b
    ensures BuildFailoverLedgerRows(newId, a) == BuildFailoverLedgerRows(newId, b)
  {
    var x, y := FailoverKeys(a), FailoverKeys(b);
    DistinctMultiset(x);
    DistinctMultiset(y);
    assert forall k :: k in x <==> k in y;
    assert multiset(x) == multiset(y);
    Sorting.SortKeysForgetsOrder(x, y);
  }

  lemma {:induction false} DistinctMultiset(s: seq<string>)
    requires forall i, j | 0 <= i < j < |s| :: s[i] != s[j]
    ensures forall k :: multiset(s)[k] == if k in s then 1 else 0
  {
    if s != [] {
      DistinctMultiset(s[1..]);
      assert s == [s[0]] + s[1..];
    }
  }

  /** One FAILOVER row for every active key and for the sentinel, and for nothing else. */
  lemma FailoverRowsCover(newId: string, active: seq<string>)
    ensures var rows := BuildFailoverLedgerRows(newId, active);
            && (forall r | r in rows :: r == FailoverRow(r.lockKey, newId))
            && (forall k :: FailoverRow(k, newId) in rows <==>
                              (k in active && k != "") || k == FAILOVER_SENTINEL_LOCK_KEY)
  {
    var ks := FailoverKeys(active);
    var keys := Sorting.SortKeys(ks);
    var rows := BuildFailoverLedgerRows(newId, active);
    forall k ensures k in keys <==> k in ks {
      assert k in keys <==> k in multiset(keys);
      assert k in ks <==> k in multiset(ks);
    }
    forall k ensures FailoverRow(k, newId) in rows <==> k in keys {
      if k in keys {
        var i :| 0 <= i < |keys| && keys[i] == k;
        assert rows[i] == FailoverRow(k, newId);
      }
    }
  }

  lemma InstanceColumnOfMinted(t: Token, fallback: string)
    requires IsInstanceId(t.inst)
    ensures InstanceColumn(t, fallback) == t.inst
  {
    ParseOfFormat(t);
  }
}
