/**
 * Putting the Postgres instance id back into an emptied Redis: exactly when no continuation, without
 * further losses and rotations, makes validation go back.
 */
module LockRestore {
  import opened Wrappers
  import opened Fencing
  import opened LockModel
  import opened LockRuns
  import opened LockSteps
  import opened LockExactness

  /** Redis holds the id that validation uses, perhaps some counters, but no lock and no cached token. */
  predicate Emptied(w: World, id: string) {
    w.svc.redis.owner == map[] && w.svc.redis.token == map[] && w.svc.redis.instance == Some(id) &&
    w.svc.cached in {None, Some(id)} && w.rotation.Idle?
  }

  /** That is the state after a restart of Redis without persistence and the restore of the health check. */
  lemma EmptiedByRestore(w: World)
    requires Base(w) && w.rotation.Idle? && w.svc.cached in {None, Some(w.svc.db.instance)}
    ensures Enabled(w, LoseRedis) && Enabled(Next(w, LoseRedis), RestoreInstance)
    ensures var w' := Next(Next(w, LoseRedis), RestoreInstance);
            Base(w') && Emptied(w', w.svc.db.instance) && w'.svc.db == w.svc.db && w'.svc.redis.counter == map[]
  {
  }

  /** Acquires, releases, reclaims, expiry and restarts. */
  predicate Quiet(a: Step) {
    !(a.LoseInstance? || a.LoseRedis? || a.CommitRotation? || a.SetRedisInstance? || a.SetCachedInstance?)
  }

  /** A quiet run that starts in the given world. */
  ghost predicate Continues(w: World, ws: seq<World>, steps: seq<Step>) {
    |ws| == |steps| + 1 && ws[0] == w &&
    forall i | 0 <= i < |steps| :: Quiet(steps[i]) && Enabled(ws[i], steps[i]) && ws[i + 1] == Next(ws[i], steps[i])
  }

  ghost predicate StaysForward(w: World) {
    forall ws, steps | Continues(w, ws, steps) :: !WentBack(ws[|steps|])
  }

  /**
   * The ledger holds a number of the key under the id that Redis will count up to again after others; or
   * the next number, if another row already followed it.
   */
  predicate Gap(ledger: seq<Row>, id: string, counter: nat, key: string) {
    exists a | 0 <= a < |ledger| ::
      ledger[a].lockKey == key && ledger[a].token.inst == id &&
      (ledger[a].token.counter > counter + 1 ||
       (ledger[a].token.counter == counter + 1 && Outdated(ledger, key, ledger[a].token)))
  }

  // ---- Without a gap nothing goes back ----

  /** No number of the key above the bound occurs under the id. */
  predicate UpTo(ledger: seq<Row>, id: string, bound: nat, key: string) {
    forall a | 0 <= a < |ledger| && ledger[a].lockKey == key && ledger[a].token.inst == id ::
      ledger[a].token.counter <= bound
  }

  predicate KeyTame(ledger: seq<Row>, id: string, counter: nat, token: Option<Token>, key: string) {
    if token.Some? then
      token.value == Token(id, counter) && UpTo(ledger, id, counter, key) && !Outdated(ledger, key, token.value)
    else !Gap(ledger, id, counter, key)
  }

  function CachedToken(r: Redis, key: string): Option<Token> {
    if key in r.token then Some(r.token[key]) else None
  }

  ghost predicate AllTame(ledger: seq<Row>, r: Redis, id: string) {
    forall key :: KeyTame(ledger, id, CounterOf(r, key), CachedToken(r, key), key)
  }

  /** The process and Redis agree on the id, and every key is tame. */
  ghost predicate Tame(s: Service, id: string) {
    s.redis.instance == Some(id) && s.cached in {None, Some(id)} && AllTame(s.db.ledger, s.redis, id)
  }

  /** The number minted next is not outdated, and from then on it is the highest one. */
  lemma MintIsTame(ledger: seq<Row>, id: string, counter: nat, token: Option<Token>, key: string)
    requires KeyTame(ledger, id, counter, token, key)
    ensures KeyTame(ledger, id, counter + 1, Some(Token(id, counter + 1)), key)
  {
    var t := Token(id, counter + 1);
    forall a | 0 <= a < |ledger| && ledger[a].lockKey == key && ledger[a].token == t
      ensures !Outdated(ledger, key, t)
    {
      assert ledger[a].token.counter == counter + 1;
    }
  }

  /** A key whose cached token is dropped keeps its counter ahead. */
  lemma DropIsTame(ledger: seq<Row>, id: string, counter: nat, token: Option<Token>, key: string)
    requires KeyTame(ledger, id, counter, token, key)
    ensures KeyTame(ledger, id, counter, None, key)
  {
  }

  lemma RecordIsTame(ledger: seq<Row>, id: string, counter: nat, token: Option<Token>, key: string, row: Row)
    requires KeyTame(ledger, id, counter, token, key) && (row.lockKey == key ==> token == Some(row.token))
    ensures KeyTame(ledger + [row], id, counter, token, key)
  {
    var after := ledger + [row];
    if row.lockKey == key {
      SameTokenAppended(ledger, after, key, row.token);
    } else {
      forall t ensures Outdated(after, key, t) <==> Outdated(ledger, key, t) {
        SameTokenAppended(ledger, after, key, t);
      }
      hide Outdated;
      forall a | 0 <= a < |after| && after[a].lockKey == key && after[a].token.inst == id
        ensures a < |ledger| && after[a] == ledger[a]
      {
      }
    }
  }

  lemma MintAll(ledger: seq<Row>, r: Redis, id: string, key: string)
    requires AllTame(ledger, r, id) && r.instance == Some(id)
    ensures AllTame(ledger, Mint(r, key), id)
  {
    hide KeyTame;
    MintIsTame(ledger, id, CounterOf(r, key), CachedToken(r, key), key);
    forall k ensures KeyTame(ledger, id, CounterOf(Mint(r, key), k), CachedToken(Mint(r, key), k), k) {
      assert KeyTame(ledger, id, CounterOf(r, k), CachedToken(r, k), k);
    }
  }

  /** Owners do not matter, and tokens may go. */
  lemma DropAll(ledger: seq<Row>, r: Redis, after: Redis, id: string)
    requires AllTame(ledger, r, id) && after.counter == r.counter
    requires forall k | k in after.token :: k in r.token && after.token[k] == r.token[k]
    ensures AllTame(ledger, after, id)
  {
    hide KeyTame;
    forall k ensures KeyTame(ledger, id, CounterOf(after, k), CachedToken(after, k), k) {
      assert KeyTame(ledger, id, CounterOf(r, k), CachedToken(r, k), k);
      if k !in after.token {
        DropIsTame(ledger, id, CounterOf(r, k), CachedToken(r, k), k);
      }
    }
  }

  lemma RecordAll(ledger: seq<Row>, r: Redis, id: string, row: Row)
    requires AllTame(ledger, r, id) && CachedToken(r, row.lockKey) == Some(row.token)
    ensures AllTame(ledger + [row], r, id)
  {
    hide KeyTame;
    forall k ensures KeyTame(ledger + [row], id, CounterOf(r, k), CachedToken(r, k), k) {
      assert KeyTame(ledger, id, CounterOf(r, k), CachedToken(r, k), k);
      RecordIsTame(ledger, id, CounterOf(r, k), CachedToken(r, k), k, row);
    }
  }

  lemma AcquireScriptAll(ledger: seq<Row>, r: Redis, id: string, key: string, owner: string)
    requires AllTame(ledger, r, id) && r.instance == Some(id)
    ensures var (after, reply) := AcquireScript(r, key, owner);
            after.instance == Some(id) && AllTame(ledger, after, id) &&
            (reply.token.Some? ==> CachedToken(after, key) == reply.token)
  {
    hide AllTame;
    var (after, reply) := AcquireScript(r, key, owner);
    if reply.token.Some? && (key !in r.owner || key !in r.token) {
      MintAll(ledger, r, id, key);
      DropAll(ledger, Mint(r, key), after, id);
    }
  }

  lemma CachedIsLive(ledger: seq<Row>, r: Redis, id: string, key: string)
    requires AllTame(ledger, r, id) && CachedToken(r, key).Some?
    ensures !Outdated(ledger, key, CachedToken(r, key).value)
  {
    assert KeyTame(ledger, id, CounterOf(r, key), CachedToken(r, key), key);
  }

  lemma AcquireTame(s: Service, id: string, key: string, owner: string, jobId: Option<string>, pg: PgOutcome)
    requires Tame(s, id)
    ensures var (s', r) := Acquire(s, key, owner, jobId, pg);
            Tame(s', id) && (r.Acquired? || r.Reentrant? ==> !Outdated(s.db.ledger, key, r.token))
  {
    hide AllTame, Outdated, AcquireScript, ReleaseScript, InstanceColumn;
    var (redis, reply) := AcquireScript(s.redis, key, owner);
    AcquireScriptAll(s.db.ledger, s.redis, id, key, owner);
    if reply.token.Some? {
      CachedIsLive(s.db.ledger, redis, id, key);
      var row := Row(key, owner, reply.token.value, InstanceColumn(reply.token.value, id),
                     if reply.code == 1 then ACQUIRED else REENTRANT);
      RecordAll(s.db.ledger, redis, id, row);
      ReleaseScriptAll(s.db.ledger, redis, id, key, owner);
    }
  }

  lemma ReleaseScriptAll(ledger: seq<Row>, r: Redis, id: string, key: string, owner: string)
    requires AllTame(ledger, r, id)
    ensures AllTame(ledger, ReleaseScript(r, key, owner).0, id) && ReleaseScript(r, key, owner).0.instance == r.instance
  {
    DropAll(ledger, r, ReleaseScript(r, key, owner).0, id);
  }

  lemma ReclaimTame(s: Service, id: string, key: string, reason: Reason, pg: PgOutcome)
    requires Tame(s, id)
    ensures Tame(Reclaim(s, key, reason, pg).0, id)
  {
    hide AllTame, InstanceColumn;
    var redis := BumpScript(s.redis, key).0;
    MintAll(s.db.ledger, s.redis, id, key);
    DropAll(s.db.ledger, Mint(s.redis, key), redis, id);
    var t := NextToken(s.redis, key);
    RecordAll(s.db.ledger, redis, id, Row(key, "system", t, InstanceColumn(t, id), reason));
  }

  /** Quiet steps keep every key tame, so none of them brings an outdated token back. */
  lemma TameNext(w: World, a: Step, id: string)
    requires Tame(w.svc, id) && Quiet(a) && Enabled(w, a)
    ensures Tame(Next(w, a).svc, id) && !Revives(w, a)
  {
    hide AllTame, Outdated, Acquire, Reclaim, ReleaseScript, KeyTame;
    match a {
      case AcquireStep(key, owner, jobId, pg) => AcquireTame(w.svc, id, key, owner, jobId, pg);
      case ReleaseStep(key, owner) => ReleaseScriptAll(w.svc.db.ledger, w.svc.redis, id, key, owner);
      case ReclaimStep(key, reason, pg) => ReclaimTame(w.svc, id, key, reason, pg);
      case EnsureStep =>
      case ExpireLock(key) => DropAll(w.svc.db.ledger, w.svc.redis, Next(w, a).svc.redis, id);
      case ExpireToken(key) => DropAll(w.svc.db.ledger, w.svc.redis, Next(w, a).svc.redis, id);
      case Restart =>
      case LoseInstance =>
      case LoseRedis =>
      case RestoreInstance =>
      case CommitRotation(_, _) =>
      case SetRedisInstance =>
      case SetCachedInstance =>
    }
    assert IdAfter(w, a) == id == Current(w);
  }

  lemma {:induction false} TameStays(w: World, id: string, ws: seq<World>, steps: seq<Step>, n: nat)
    requires Base(w) && Tame(w.svc, id) && !WentBack(w) && Continues(w, ws, steps) && n < |ws|
    ensures Base(ws[n]) && Tame(ws[n].svc, id) && !WentBack(ws[n])
  {
    hide Base, Tame, WentBack, Next, Enabled, Revives, Quiet;
    if n > 0 {
      TameStays(w, id, ws, steps, n - 1);
      BaseNext(ws[n - 1], steps[n - 1]);
      TameNext(ws[n - 1], steps[n - 1], id);
      BackStepExactly(ws[n - 1], steps[n - 1]);
    }
  }

  // ---- With a gap something can go back ----

  /** Nobody holds the key and no token is cached for it. */
  predicate Free(w: World, id: string, key: string) {
    w.svc.redis.instance == Some(id) && w.svc.cached in {None, Some(id)} &&
    key !in w.svc.redis.owner && key !in w.svc.redis.token
  }

  const OWNER := "job:o"

  function Take(key: string): Step {
    AcquireStep(key, OWNER, None, Committed)
  }

  /** An acquire of the free key mints the next number and records it. */
  lemma TakeMints(w: World, id: string, key: string)
    requires Free(w, id, key)
    ensures var (w', t) := (Next(w, Take(key)), Token(id, CounterOf(w.svc.redis, key) + 1));
            && Granted(w, Take(key), key) == Some(t) && Current(w) == id
            && w'.svc.redis.owner == w.svc.redis.owner[key := OWNER] && w'.svc.redis.instance == Some(id)
            && w'.svc.cached == Some(id) && CounterOf(w'.svc.redis, key) == t.counter
            && w.svc.db.ledger <= w'.svc.db.ledger && |w'.svc.db.ledger| == |w.svc.db.ledger| + 1
            && w'.svc.db.ledger[|w.svc.db.ledger|].lockKey == key && w'.svc.db.ledger[|w.svc.db.ledger|].token == t
  {
    hide InstanceColumn;
  }

  lemma GiveBack(w: World, id: string, key: string)
    requires w.svc.redis.instance == Some(id) && w.svc.cached == Some(id)
    requires key in w.svc.redis.owner && w.svc.redis.owner[key] == OWNER
    ensures var w' := Next(w, ReleaseStep(key, OWNER));
            Free(w', id, key) && CounterOf(w'.svc.redis, key) == CounterOf(w.svc.redis, key) &&
            w'.svc.db.ledger == w.svc.db.ledger
  {
  }

  lemma Extend(w: World, ws: seq<World>, steps: seq<Step>, a: Step) returns (ws': seq<World>, steps': seq<Step>)
    requires Continues(w, ws, steps) && Quiet(a) && Enabled(ws[|steps|], a)
    ensures Continues(w, ws', steps') && ws'[|steps'|] == Next(ws[|steps|], a)
  {
    hide Next, Enabled, Quiet;
    ws', steps' := ws + [Next(ws[|steps|], a)], steps + [a];
  }

  /** n acquires and releases raise the counter by n; the first records the number after the initial one. */
  lemma {:induction false} CountUp(w: World, id: string, key: string, n: nat) returns (ws: seq<World>, steps: seq<Step>)
    requires Base(w) && Free(w, id, key)
    ensures Continues(w, ws, steps)
    ensures var v := ws[|steps|];
            Base(v) && Free(v, id, key) && CounterOf(v.svc.redis, key) == CounterOf(w.svc.redis, key) + n &&
            w.svc.db.ledger <= v.svc.db.ledger && (n == 0 ==> v == w) &&
            (n > 0 ==> |v.svc.db.ledger| > |w.svc.db.ledger| &&
                       v.svc.db.ledger[|w.svc.db.ledger|].lockKey == key &&
                       v.svc.db.ledger[|w.svc.db.ledger|].token == Token(id, CounterOf(w.svc.redis, key) + 1))
  {
    hide Base, Next, Continues, CounterOf;
    if n == 0 {
      ws, steps := [w], [];
      assert Continues(w, ws, steps) by { NoSteps(w); }
    } else {
      ws, steps := CountUp(w, id, key, n - 1);
      var v := LastOf(w, ws, steps);
      TakeMints(v, id, key);
      BaseNext(v, Take(key));
      ws, steps := Extend(w, ws, steps, Take(key));
      var v1 := LastOf(w, ws, steps);
      GiveBack(v1, id, key);
      BaseNext(v1, ReleaseStep(key, OWNER));
      ws, steps := Extend(w, ws, steps, ReleaseStep(key, OWNER));
    }
  }

  lemma NoSteps(w: World)
    ensures Continues(w, [w], [])
  {
  }

  lemma LastOf(w: World, ws: seq<World>, steps: seq<Step>) returns (v: World)
    requires Continues(w, ws, steps)
    ensures |ws| == |steps| + 1 && v == ws[|steps|]
  {
    v := ws[|steps|];
  }

  /** Minting a number that another row already followed brings it back. */
  lemma TakeGoesBack(w: World, id: string, key: string)
    requires Base(w) && Free(w, id, key) && !WentBack(w)
    requires Outdated(w.svc.db.ledger, key, Token(id, CounterOf(w.svc.redis, key) + 1))
    ensures WentBack(Next(w, Take(key)))
  {
    TakeMints(w, id, key);
    hide Next, Base, Granted, Outdated, WentBack, Current;
    assert Newly(w, Take(key), key) == Granted(w, Take(key), key);
    BackStepExactly(w, Take(key));
  }

  lemma GapGoesBack(w: World, id: string, key: string) returns (ws: seq<World>, steps: seq<Step>)
    requires Base(w) && Emptied(w, id) && Gap(w.svc.db.ledger, id, CounterOf(w.svc.redis, key), key)
    ensures Continues(w, ws, steps) && WentBack(ws[|steps|])
  {
    hide Base, Next, Continues, WentBack, Outdated, CounterOf;
    var ledger, k := w.svc.db.ledger, CounterOf(w.svc.redis, key);
    var a :| 0 <= a < |ledger| && ledger[a].lockKey == key && ledger[a].token.inst == id &&
      (ledger[a].token.counter > k + 1 || (ledger[a].token.counter == k + 1 && Outdated(ledger, key, ledger[a].token)));
    var t := ledger[a].token;
    ws, steps := CountUp(w, id, key, t.counter - 1 - k);
    var v := LastOf(w, ws, steps);
    StillOutdated(ledger, v.svc.db.ledger, key, a);
    if !WentBack(v) {
      TakeGoesBack(v, id, key);
      ws, steps := Extend(w, ws, steps, Take(key));
    }
  }

  lemma StillOutdated(before: seq<Row>, after: seq<Row>, key: string, a: nat)
    requires before <= after && a < |before| && before[a].lockKey == key
    requires Outdated(before, key, before[a].token) ||
             (|before| < |after| && after[|before|].lockKey == key && after[|before|].token != before[a].token)
    ensures Outdated(after, key, before[a].token)
  {
    var t := before[a].token;
    assert after[a] == before[a];
    if Outdated(before, key, t) {
      var i, j :| 0 <= i < j < |before| && before[i].lockKey == key && before[j].lockKey == key &&
        before[i].token == t && before[j].token != t;
      assert after[i] == before[i] && after[j] == before[j];
    }
  }

  /**
   * When putting the id back is harmless: validation has not gone back yet, and no key has a number in the
   * ledger that Redis will mint again after another one. A last number that Redis repeats at once is
   * harmless, a gap of two or more is not.
   */
  lemma RestoreHarmlessExactly(w: World, id: string)
    requires Base(w) && Emptied(w, id)
    ensures StaysForward(w) <==>
              !WentBack(w) && forall key :: !Gap(w.svc.db.ledger, id, CounterOf(w.svc.redis, key), key)
  {
    hide Base, WentBack, Gap, Next, Enabled, Quiet;
    if !WentBack(w) && forall key :: !Gap(w.svc.db.ledger, id, CounterOf(w.svc.redis, key), key) {
      assert Tame(w.svc, id);
      forall ws, steps | Continues(w, ws, steps) ensures !WentBack(ws[|steps|]) {
        var last := LastOf(w, ws, steps);
        TameStays(w, id, ws, steps, |steps|);
      }
    }
    forall key | Gap(w.svc.db.ledger, id, CounterOf(w.svc.redis, key), key) ensures !StaysForward(w) {
      var ws, steps := GapGoesBack(w, id, key);
      assert !(Continues(w, ws, steps) ==> !WentBack(ws[|steps|]));
    }
    NoSteps(w);
  }
}
