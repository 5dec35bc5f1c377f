/**
 * Runs of the lock service: every interleaving of its steps, with process restarts, Redis key
 * expiry, loss of the whole Redis content, and a failover rotation in three separate steps.
 */
module LockRuns {
  import opened Wrappers
  import opened Fencing
  import opened LockModel

  /** Where a rotation stands: Postgres committed, or Redis set as well. */
  datatype Rotation = Idle | PgDone(newId: string) | RedisDone(newId: string)

  /** The service, the instance ids generated so far with their ages, and the age of the newest fully rotated-in one. */
  datatype World = World(svc: Service, issued: map<string, nat>, rotation: Rotation, floor: nat)

  /** The keys given to CommitRotation are those an earlier query on pg_locks returned, so they may be out of date. */
  datatype Step =
    | AcquireStep(key: string, owner: string, jobId: Option<string>, pg: PgOutcome)
    | ReleaseStep(key: string, owner: string)
    | ReclaimStep(key: string, reason: Reason, pg: PgOutcome)
    | EnsureStep
    | ExpireLock(key: string)
    | ExpireToken(key: string)
    | LoseInstance
    | LoseRedis
    | RestoreInstance
    | CommitRotation(newId: string, active: seq<string>)
    | SetRedisInstance
    | SetCachedInstance
    | Restart

  ghost predicate Enabled(w: World, a: Step) {
    match a
    case ReclaimStep(_, reason, _) => reason in {STALE_RECOVERED, ADMIN_RECLAIM}
    case RestoreInstance => w.svc.redis.instance.None?
    case CommitRotation(newId, _) =>
      w.rotation.Idle? && IsInstanceId(newId) && newId !in w.issued
    case SetRedisInstance => w.rotation.PgDone?
    case SetCachedInstance => w.rotation.RedisDone?
    case _ => true
  }

  /** A process death forgets the cached id and abandons a rotation under way. */
  function Dead(w: World, s: Service): World {
    w.(svc := s.(cached := None), rotation := Idle)
  }

  ghost function Next(w: World, a: Step): World
    requires Enabled(w, a)
  {
    var s := w.svc;
    match a
    case AcquireStep(key, owner, jobId, pg) =>
      var s' := Acquire(s, key, owner, jobId, pg).0;
      if s'.cached.None? then Dead(w, s') else w.(svc := s')
    case ReleaseStep(key, owner) => w.(svc := Release(s, key, owner).0)
    case ReclaimStep(key, reason, pg) =>
      var s' := Reclaim(s, key, reason, pg).0;
      if s'.cached.None? then Dead(w, s') else w.(svc := s')
    case EnsureStep => w.(svc := EnsureInstance(s))
    case ExpireLock(key) => w.(svc := s.(redis := s.redis.(owner := s.redis.owner - {key})))
    case ExpireToken(key) => w.(svc := s.(redis := s.redis.(token := s.redis.token - {key})))
    case LoseInstance => w.(svc := s.(redis := s.redis.(instance := None)))
    case LoseRedis => w.(svc := s.(redis := Redis(map[], map[], map[], None)))
    case RestoreInstance => w.(svc := s.(redis := s.redis.(instance := Some(s.db.instance))))
    case CommitRotation(newId, active) =>
      w.(svc := RotateCommit(s, newId, active), issued := w.issued[newId := |w.issued|], rotation := PgDone(newId))
    case SetRedisInstance => w.(svc := RotateRedis(s, w.rotation.newId), rotation := RedisDone(w.rotation.newId))
    case SetCachedInstance =>
      w.(svc := RotateCache(s, w.rotation.newId), rotation := Idle, floor := Age(w.issued, w.rotation.newId))
    case Restart => Dead(w, s)
  }

  function Init(id: string): World {
    World(Service(Redis(map[], map[], map[], None), Db([], {}, map[], id), None), map[id := 0], Idle, 0)
  }

  /** A run of steps from the first world to a last one. */
  ghost predicate Run(ws: seq<World>, steps: seq<Step>) {
    |ws| == |steps| + 1 &&
    (exists id :: IsInstanceId(id) && ws[0] == Init(id)) &&
    forall i | 0 <= i < |steps| :: Enabled(ws[i], steps[i]) && ws[i + 1] == Next(ws[i], steps[i])
  }

  // ---- Order of issue ----

  /** Age of an instance id: how many ids were generated before it. */
  function Age(issued: map<string, nat>, id: string): nat {
    if id in issued then issued[id] else 0
  }

  /** Token a was issued no later than token b: older id, or the same id and no larger counter. */
  predicate NoLater(issued: map<string, nat>, a: Token, b: Token) {
    Age(issued, a.inst) < Age(issued, b.inst) || (a.inst == b.inst && a.counter <= b.counter)
  }

  /** A token handed out by a counter, as opposed to the zero token of a FAILOVER row. */
  predicate Minted(r: Row) {
    r.reason != FAILOVER
  }

  // ---- Invariant ----

  predicate IdsKnown(issued: map<string, nat>) {
    (forall id | id in issued :: IsInstanceId(id) && issued[id] < |issued|) &&
    forall a, b | a in issued && b in issued && issued[a] == issued[b] :: a == b
  }

  predicate RowsKnown(issued: map<string, nat>, ledger: seq<Row>) {
    forall i | 0 <= i < |ledger| ::
      ledger[i].token.inst in issued && ledger[i].inst == ledger[i].token.inst &&
      (Minted(ledger[i]) <==> ledger[i].token.counter > 0)
  }

  /** An id in use lies between the last fully rotated-in one and the Postgres one. */
  predicate InUse(issued: map<string, nat>, floor: nat, id: Option<string>) {
    id.Some? ==> id.value in issued && floor <= issued[id.value]
  }

  /** Ids only move forward: Postgres holds the newest, Redis and the cache follow it. */
  predicate Forward(issued: map<string, nat>, floor: nat, pg: string, redis: Option<string>, cached: Option<string>,
                    rotation: Rotation) {
    pg in issued && issued[pg] + 1 == |issued| && floor <= issued[pg] &&
    InUse(issued, floor, redis) && InUse(issued, floor, cached) &&
    (rotation.PgDone? ==> rotation.newId == pg) &&
    (rotation.RedisDone? ==> rotation.newId == pg && redis in {None, Some(pg)})
  }

  /** The newest instance id a token can come from. */
  function MintId(redis: Option<string>, pg: string): string {
    if redis.Some? then redis.value else pg
  }

  /** Cached tokens were minted, and under a known id. */
  predicate TokensKnown(issued: map<string, nat>, token: map<string, Token>) {
    forall k | k in token :: token[k].counter > 0 && token[k].inst in issued
  }

  /** What holds in every run, also after counters were lost. */
  predicate Base(w: World) {
    var (r, db) := (w.svc.redis, w.svc.db);
    IdsKnown(w.issued) && RowsKnown(w.issued, db.ledger) && TokensKnown(w.issued, r.token) &&
    Forward(w.issued, w.floor, db.instance, r.instance, w.svc.cached, w.rotation)
  }

  /** The id a validation compares against. */
  function Current(w: World): string {
    EnsureInstance(w.svc).cached.value
  }

  /** A token no newer than what the counters say has been issued for the key. */
  predicate Covered(issued: map<string, nat>, redis: Option<string>, pg: string, counter: map<string, nat>,
                    key: string, t: Token) {
    t.inst in issued &&
    Age(issued, t.inst) <= Age(issued, MintId(redis, pg)) &&
    (redis == Some(t.inst) ==> t.counter <= if key in counter then counter[key] else 0)
  }

  predicate RowsCovered(issued: map<string, nat>, redis: Option<string>, pg: string, counter: map<string, nat>,
                        ledger: seq<Row>) {
    forall i | 0 <= i < |ledger| && Minted(ledger[i]) ::
      Covered(issued, redis, pg, counter, ledger[i].lockKey, ledger[i].token)
  }

  predicate CacheCovered(issued: map<string, nat>, redis: Option<string>, pg: string, counter: map<string, nat>,
                         token: map<string, Token>) {
    forall k | k in token :: token[k].counter > 0 && Covered(issued, redis, pg, counter, k, token[k])
  }

  /** No ledger token of a key is newer than the one Redis caches for it. */
  predicate CacheNewest(issued: map<string, nat>, token: map<string, Token>, ledger: seq<Row>) {
    forall i | 0 <= i < |ledger| && Minted(ledger[i]) && ledger[i].lockKey in token ::
      NoLater(issued, ledger[i].token, token[ledger[i].lockKey])
  }

  /** Minted rows of a key follow issue order; a FAILOVER row is newer than every token before it. */
  predicate Ordered(issued: map<string, nat>, ledger: seq<Row>) {
    forall i, j | 0 <= i < j < |ledger| && ledger[i].lockKey == ledger[j].lockKey && Minted(ledger[i]) ::
      if Minted(ledger[j]) then NoLater(issued, ledger[i].token, ledger[j].token)
      else Age(issued, ledger[i].token.inst) < Age(issued, ledger[j].token.inst)
  }

  predicate Inv(w: World) {
    var (r, db) := (w.svc.redis, w.svc.db);
    IdsKnown(w.issued) &&
    RowsKnown(w.issued, db.ledger) &&
    Forward(w.issued, w.floor, db.instance, r.instance, w.svc.cached, w.rotation) &&
    RowsCovered(w.issued, r.instance, db.instance, r.counter, db.ledger) &&
    CacheCovered(w.issued, r.instance, db.instance, r.counter, r.token) &&
    CacheNewest(w.issued, r.token, db.ledger) &&
    Ordered(w.issued, db.ledger)
  }

  /**
   * Writing the Postgres id back into an empty Redis is harmless when the counters are at least
   * as large as every counter the ledger records under that id.
   */
  predicate RestoreCovers(s: Service) {
    forall i | 0 <= i < |s.db.ledger| && Minted(s.db.ledger[i]) && s.db.ledger[i].token.inst == s.db.instance ::
      s.db.ledger[i].token.counter <= CounterOf(s.redis, s.db.ledger[i].lockKey)
  }

  /** The same for the tokens Redis itself still caches. */
  predicate RestoreCoversCache(s: Service) {
    forall k | k in s.redis.token && s.redis.token[k].inst == s.db.instance ::
      s.redis.token[k].counter <= CounterOf(s.redis, k)
  }

  /** Steps that find no instance id in Redis and write the Postgres one there. */
  predicate Restores(w: World, a: Step) {
    w.svc.redis.instance.None? &&
    (a.RestoreInstance? || a.SetRedisInstance? ||
     (w.svc.cached.None? && (a.EnsureStep? || a.AcquireStep? || a.ReclaimStep?)))
  }

  predicate SafeStep(w: World, a: Step) {
    Restores(w, a) ==> RestoreCovers(w.svc) && RestoreCoversCache(w.svc)
  }

  ghost predicate SafeRun(ws: seq<World>, steps: seq<Step>) {
    Run(ws, steps) && forall i | 0 <= i < |steps| :: SafeStep(ws[i], steps[i])
  }
}
