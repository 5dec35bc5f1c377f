/** Exactly when validation goes back to an earlier token, and exactly when tokens are accepted out of order. */
module LockExactness {
  import opened Wrappers
  import opened Fencing
  import opened LockModel
  import opened LockRuns
  import opened LockSteps
  import LockProofs
  import LockTheorems

  // ---- The one token a key accepts ----

  predicate Grants(r: Row) {
    r.reason == ACQUIRED || r.reason == REENTRANT
  }

  /** The token of the newest row, if that row grants and carries the given id. */
  function Live(ledger: seq<Row>, id: string, key: string): Option<Token> {
    var i := LatestIndex(ledger, key);
    if i >= 0 && Grants(ledger[i]) && ledger[i].token.inst == id then Some(ledger[i].token) else None
  }

  /** The token a key accepts. */
  function AcceptedToken(w: World, key: string): Option<Token> {
    Live(w.svc.db.ledger, Current(w), key)
  }

  /** What validation accepts for a key is this one token, from the owner of the newest row. */
  lemma AcceptedExactly(w: World, key: string, owner: string, presented: string)
    requires Base(w)
    ensures Accepts(w.svc, key, owner, presented) <==>
              AcceptedToken(w, key).Some? && presented == Format(AcceptedToken(w, key).value) &&
              owner == w.svc.db.ledger[LatestIndex(w.svc.db.ledger, key)].owner
  {
    hide Format, LatestIndex;
    LockTheorems.CurrentInUse(w);
    var i := LatestIndex(w.svc.db.ledger, key);
    if i >= 0 {
      var r := w.svc.db.ledger[i];
      assert r.token.inst in w.issued && r.inst == r.token.inst;
      assert Lower(r.inst) == r.inst && Lower(Current(w)) == Current(w);
    }
  }

  // ---- What a step does to it ----

  /** The token an acquire hands out and records for the key. */
  function Granted(w: World, a: Step, key: string): Option<Token> {
    if a.AcquireStep? && a.pg == Committed && a.key == key then
      match Acquire(w.svc, key, a.owner, a.jobId, Committed).1
      case Acquired(t) => Some(t)
      case Reentrant(t) => Some(t)
      case _ => None
    else None
  }

  /** The id validation compares against after the step. */
  ghost function IdAfter(w: World, a: Step): string
    requires Enabled(w, a)
  {
    Current(Next(w, a))
  }

  /**
   * A token the step makes acceptable: the one it hands out, if it carries the current id; or the newest
   * one of a key, if the step moves validation on to its id.
   */
  ghost function Newly(w: World, a: Step, key: string): Option<Token>
    requires Enabled(w, a)
  {
    if Granted(w, a, key).Some? then
      (if Granted(w, a, key).value.inst == Current(w) then Granted(w, a, key) else None)
    else if IdAfter(w, a) != Current(w) then Live(w.svc.db.ledger, IdAfter(w, a), key)
    else None
  }

  /** The ledger after an acquire that hands out a token. */
  lemma GrantAppends(w: World, a: Step, key: string)
    requires Base(w) && Enabled(w, a) && Granted(w, a, key).Some?
    ensures var t := Granted(w, a, key).value;
            IdAfter(w, a) == Current(w) && |Next(w, a).svc.db.ledger| == |w.svc.db.ledger| + 1 &&
            w.svc.db.ledger <= Next(w, a).svc.db.ledger &&
            var r := Next(w, a).svc.db.ledger[|w.svc.db.ledger|];
            r.lockKey == key && r.token == t && Grants(r)
  {
    hide InstanceColumn, CounterOf, Base, Format;
  }

  /** What other steps append grants nothing, and if they append something, no known row carries a new current id. */
  lemma OthersAppend(w: World, a: Step)
    requires Base(w) && Enabled(w, a) && (a.AcquireStep? ==> Granted(w, a, a.key).None?)
    ensures w.svc.db.ledger <= Next(w, a).svc.db.ledger
    ensures forall i | |w.svc.db.ledger| <= i < |Next(w, a).svc.db.ledger| :: !Grants(Next(w, a).svc.db.ledger[i])
    ensures Next(w, a).svc.db.ledger == w.svc.db.ledger || IdAfter(w, a) == Current(w) || IdAfter(w, a) !in w.issued
  {
    hide Base, IsInstanceId;
    match a {
      case AcquireStep(key, owner, jobId, pg) => AcquireAppends(w.svc, key, owner, jobId, pg);
      case ReclaimStep(key, reason, pg) => ReclaimAppends(w.svc, key, reason, pg);
      case CommitRotation(newId, active) => RotationAppends(w, newId, active);
      case _ =>
    }
    hide Acquire, Reclaim, BuildFailoverLedgerRows;
  }

  lemma AcquireAppends(s: Service, key: string, owner: string, jobId: Option<string>, pg: PgOutcome)
    ensures var (s', r) := Acquire(s, key, owner, jobId, pg);
            (pg == Committed && (r.Acquired? || r.Reentrant?)) || s'.db == s.db
  {
    hide InstanceColumn, CounterOf, AcquireCommit;
  }

  lemma ReclaimAppends(s: Service, key: string, reason: Reason, pg: PgOutcome)
    requires reason in {STALE_RECOVERED, ADMIN_RECLAIM}
    ensures var s' := Reclaim(s, key, reason, pg).0;
            s.db.ledger <= s'.db.ledger &&
            (forall i | |s.db.ledger| <= i < |s'.db.ledger| :: !Grants(s'.db.ledger[i])) &&
            (s'.db.ledger == s.db.ledger || (s'.cached.Some? && s'.cached == EnsureInstance(s).cached))
  {
    hide InstanceColumn, CounterOf;
  }

  lemma RotationAppends(w: World, newId: string, active: seq<string>)
    requires Enabled(w, CommitRotation(newId, active))
    ensures var w' := Next(w, CommitRotation(newId, active));
            w.svc.db.ledger <= w'.svc.db.ledger && (Current(w') == Current(w) || Current(w') == newId) &&
            forall i | |w.svc.db.ledger| <= i < |w'.svc.db.ledger| :: !Grants(w'.svc.db.ledger[i])
  {
    FailoverRowsCover(newId, active);
    hide BuildFailoverLedgerRows;
    var rows := BuildFailoverLedgerRows(newId, active);
    var ledger := w.svc.db.ledger + rows;
    forall i | |w.svc.db.ledger| <= i < |ledger| ensures !Grants(ledger[i]) {
      assert ledger[i] in rows;
    }
  }

  lemma {:induction false} LatestOfBoth(a: seq<Row>, b: seq<Row>, key: string)
    ensures LatestIndex(a + b, key) ==
              if LatestIndex(b, key) >= 0 then |a| + LatestIndex(b, key) else LatestIndex(a, key)
  {
    if b == [] {
      assert a + b == a;
    } else {
      assert (a + b)[..|a + b| - 1] == a + b[..|b| - 1];
      LatestOfBoth(a, b[..|b| - 1], key);
    }
  }

  lemma LatestOfGrown(a: seq<Row>, b: seq<Row>, key: string)
    requires a <= b
    ensures if LatestIndex(b, key) < |a| then LatestIndex(b, key) == LatestIndex(a, key) else LatestIndex(b, key) >= 0
  {
    LatestOfBoth(a, b[|a|..], key);
    assert b == a + b[|a|..];
  }

  /**
   * What a key accepts after a step is what the step makes acceptable, or what it accepted before; and what
   * the step makes acceptable is accepted.
   */
  lemma AcceptanceStep(w: World, a: Step, key: string)
    requires Base(w) && Enabled(w, a)
    ensures var now := AcceptedToken(Next(w, a), key);
            (Newly(w, a, key).Some? ==> now == Newly(w, a, key)) &&
            (now.Some? ==> now == Newly(w, a, key) ||
                           (now == AcceptedToken(w, key) &&
                            LatestIndex(Next(w, a).svc.db.ledger, key) == LatestIndex(w.svc.db.ledger, key)))
  {
    var before, after := w.svc.db.ledger, Next(w, a).svc.db.ledger;
    if a.AcquireStep? && Granted(w, a, a.key).Some? {
      GrantAppends(w, a, a.key);
      hide Next, Granted, Base, Current;
      if key == a.key {
        LiveOfAppended(before, after, IdAfter(w, a), key);
      } else {
        LiveElsewhere(before, after, IdAfter(w, a), key);
      }
    } else {
      OthersAppend(w, a);
      RowsAreKnown(w);
      NotLiveUnknown(before, w.issued, IdAfter(w, a), key);
      hide Next, Base, Current, Outdated;
      LiveOfOthers(before, after, IdAfter(w, a), key);
    }
  }

  lemma LiveOfAppended(before: seq<Row>, after: seq<Row>, id: string, key: string)
    requires |after| == |before| + 1 && after[|before|].lockKey == key && Grants(after[|before|])
    ensures Live(after, id, key) == if after[|before|].token.inst == id then Some(after[|before|].token) else None
  {
  }

  lemma LiveElsewhere(before: seq<Row>, after: seq<Row>, id: string, key: string)
    requires before <= after && |after| == |before| + 1 && after[|before|].lockKey != key
    ensures Live(after, id, key) == Live(before, id, key) && LatestIndex(after, key) == LatestIndex(before, key)
  {
    assert after[..|before|] == before;
  }

  lemma LiveOfOthers(before: seq<Row>, after: seq<Row>, id: string, key: string)
    requires before <= after && forall i | |before| <= i < |after| :: !Grants(after[i])
    ensures Live(after, id, key).Some? ==>
              Live(after, id, key) == Live(before, id, key) && LatestIndex(after, key) == LatestIndex(before, key)
    ensures after == before ==> Live(after, id, key) == Live(before, id, key)
  {
    LatestOfGrown(before, after, key);
    hide LatestIndex;
  }

  lemma NotLiveUnknown(ledger: seq<Row>, issued: map<string, nat>, id: string, key: string)
    requires forall i | 0 <= i < |ledger| :: ledger[i].token.inst in issued
    ensures Live(ledger, id, key).Some? ==> id in issued
  {
    hide LatestIndex;
  }

  lemma RowsAreKnown(w: World)
    requires Base(w)
    ensures forall i | 0 <= i < |w.svc.db.ledger| :: w.svc.db.ledger[i].token.inst in w.issued
  {
  }

  // ---- Going back ----

  /** A row with the token is followed by a row of the key with another one. */
  predicate Outdated(ledger: seq<Row>, key: string, t: Token) {
    exists a, b | 0 <= a < b < |ledger| ::
      ledger[a].lockKey == key && ledger[b].lockKey == key && ledger[a].token == t && ledger[b].token != t
  }

  /** Some key accepts a token that a later row with another token had outdated. */
  predicate AcceptsOutdated(w: World, key: string) {
    AcceptedToken(w, key).Some? && Outdated(w.svc.db.ledger, key, AcceptedToken(w, key).value)
  }

  ghost predicate WentBack(w: World) {
    exists key :: AcceptsOutdated(w, key)
  }

  /** In terms of validation calls: an earlier token is accepted although a later row has another one. */
  lemma WentBackMeans(w: World)
    requires Base(w)
    ensures WentBack(w) <==>
              exists a, b, owner :: 0 <= a < b < |w.svc.db.ledger| &&
                w.svc.db.ledger[a].lockKey == w.svc.db.ledger[b].lockKey &&
                w.svc.db.ledger[a].token != w.svc.db.ledger[b].token &&
                Accepts(w.svc, w.svc.db.ledger[a].lockKey, owner, Format(w.svc.db.ledger[a].token))
  {
    hide Accepts, Format, Live, LatestIndex, Base;
    var ledger := w.svc.db.ledger;
    if key :| AcceptsOutdated(w, key) {
      var t := AcceptedToken(w, key).value;
      var a, b :| 0 <= a < b < |ledger| && ledger[a].lockKey == key && ledger[b].lockKey == key &&
          ledger[a].token == t && ledger[b].token != t;
      AcceptedExactly(w, key, LatestOwner(w, key), Format(t));
    }
    forall a, b, owner | 0 <= a < b < |ledger| && ledger[a].lockKey == ledger[b].lockKey &&
                         ledger[a].token != ledger[b].token &&
                         Accepts(w.svc, ledger[a].lockKey, owner, Format(ledger[a].token))
      ensures AcceptsOutdated(w, ledger[a].lockKey)
    {
      AcceptedExactly(w, ledger[a].lockKey, owner, Format(ledger[a].token));
      SamePrinted(w, a, ledger[a].lockKey);
    }
  }

  function LatestOwner(w: World, key: string): string {
    var i := LatestIndex(w.svc.db.ledger, key);
    if i >= 0 then w.svc.db.ledger[i].owner else ""
  }

  lemma SamePrinted(w: World, a: nat, key: string)
    requires Base(w) && a < |w.svc.db.ledger| && AcceptedToken(w, key).Some?
    requires Format(w.svc.db.ledger[a].token) == Format(AcceptedToken(w, key).value)
    ensures w.svc.db.ledger[a].token == AcceptedToken(w, key).value
  {
    hide Format, LatestIndex;
    RowsAreKnown(w);
    FormatInjective(w.svc.db.ledger[a].token, AcceptedToken(w, key).value);
  }

  /** The step makes a token acceptable that is outdated already. */
  ghost predicate Revives(w: World, a: Step)
    requires Enabled(w, a)
  {
    exists key :: Newly(w, a, key).Some? && Outdated(w.svc.db.ledger, key, Newly(w, a, key).value)
  }

  /** Rows of the granted token itself outdate nothing that was not outdated before. */
  lemma OutdatedAfter(w: World, a: Step, key: string)
    requires Base(w) && Enabled(w, a) && AcceptedToken(Next(w, a), key).Some?
    ensures var t := AcceptedToken(Next(w, a), key).value;
            Outdated(Next(w, a).svc.db.ledger, key, t) <==> Outdated(w.svc.db.ledger, key, t)
  {
    var t := AcceptedToken(Next(w, a), key).value;
    var before, after := w.svc.db.ledger, Next(w, a).svc.db.ledger;
    if a.AcquireStep? && Granted(w, a, a.key).Some? {
      GrantAppends(w, a, a.key);
    } else {
      OthersAppend(w, a);
    }
    hide Next, Granted, Base;
    SameTokenAppended(before, after, key, t);
  }

  lemma SameTokenAppended(before: seq<Row>, after: seq<Row>, key: string, t: Token)
    requires before <= after && forall i | |before| <= i < |after| && after[i].lockKey == key :: after[i].token == t
    ensures Outdated(after, key, t) <==> Outdated(before, key, t)
  {
    if Outdated(before, key, t) {
      var a, b :| 0 <= a < b < |before| && before[a].lockKey == key && before[b].lockKey == key &&
          before[a].token == t && before[b].token != t;
      assert after[a] == before[a] && after[b] == before[b];
    }
    if Outdated(after, key, t) {
      var a, b :| 0 <= a < b < |after| && after[a].lockKey == key && after[b].lockKey == key && after[a].token == t &&
          after[b].token != t;
      assert after[a] == before[a] && after[b] == before[b];
    }
  }

  /** As long as counters cover the ledger, a freshly minted token is not outdated. */
  lemma FreshIsNeverOutdated(w: World, key: string, owner: string, jobId: Option<string>)
    requires Inv(w) && SafeStep(w, AcquireStep(key, owner, jobId, Committed))
    ensures var r := Acquire(w.svc, key, owner, jobId, Committed).1;
            r.Acquired? || (r.Reentrant? && key !in w.svc.redis.token) ==> !Outdated(w.svc.db.ledger, key, r.token)
  {
    LockProofs.EnsureKeepsInv(w);
    var w1 := w.(svc := EnsureInstance(w.svc));
    var r := Acquire(w.svc, key, owner, jobId, Committed).1;
    if r.Acquired? || (r.Reentrant? && key !in w.svc.redis.token) {
      var ledger := w.svc.db.ledger;
      var redis := w1.svc.redis;
      assert r.token == NextToken(redis, key);
      forall i | 0 <= i < |ledger| && ledger[i].lockKey == key ensures ledger[i].token != r.token {
        assert Minted(ledger[i]) ==>
               Covered(w.issued, redis.instance, w1.svc.db.instance, redis.counter, key, ledger[i].token);
      }
      hide Acquire, Inv, RowsCovered;
    }
  }

  /** A committed acquire by the holder, whose cached token carries the current id and is outdated. */
  predicate ReentersOutdated(w: World, a: Step) {
    var redis := EnsureInstance(w.svc).redis;
    a.AcquireStep? && a.pg == Committed && redis.instance.Some? &&
    a.key in redis.owner && redis.owner[a.key] == a.owner && a.key in redis.token &&
    redis.token[a.key].inst == Current(w) && Outdated(w.svc.db.ledger, a.key, redis.token[a.key])
  }

  /** While counters cover the ledger and the current id stays, this is the only way back. */
  lemma OnlyReentryRevives(w: World, a: Step)
    requires Inv(w) && Enabled(w, a) && SafeStep(w, a) && IdAfter(w, a) == Current(w)
    ensures Revives(w, a) <==> ReentersOutdated(w, a)
  {
    hide Next, Inv, InstanceColumn, AcquireCommit, CounterOf, Outdated, SafeStep;
    if a.AcquireStep? && a.pg == Committed {
      FreshIsNeverOutdated(w, a.key, a.owner, a.jobId);
      assert Newly(w, a, a.key).Some? ==> Newly(w, a, a.key) == Granted(w, a, a.key);
    }
  }

  /** One step makes validation go back exactly if it makes an outdated token acceptable. */
  lemma BackStepExactly(w: World, a: Step)
    requires Base(w) && Enabled(w, a) && !WentBack(w)
    ensures WentBack(Next(w, a)) <==> Revives(w, a)
  {
    hide Next, Base, Newly, AcceptedToken, Outdated;
    var w' := Next(w, a);
    if key :| AcceptsOutdated(w', key) {
      AcceptanceStep(w, a, key);
      OutdatedAfter(w, a, key);
      assert !AcceptsOutdated(w, key);
    }
    if Revives(w, a) {
      var key :| Newly(w, a, key).Some? && Outdated(w.svc.db.ledger, key, Newly(w, a, key).value);
      AcceptanceStep(w, a, key);
      OutdatedAfter(w, a, key);
      assert AcceptsOutdated(w', key);
    }
  }

  ghost predicate NeverWentBack(ws: seq<World>) {
    forall n | 0 <= n < |ws| :: !WentBack(ws[n])
  }

  ghost predicate NeverRevives(ws: seq<World>, steps: seq<Step>)
    requires Run(ws, steps)
  {
    forall i | 0 <= i < |steps| :: !Revives(ws[i], steps[i])
  }

  /**
   * Fencing over whole runs, with rotations, restarts, expiry and loss of Redis: no outdated token is ever
   * accepted exactly if no acquire hands out an outdated token under the current id, and no change of the
   * id in use reaches a key whose newest row repeats an outdated token under the new one.
   */
  lemma NeverBackExactly(ws: seq<World>, steps: seq<Step>)
    requires Run(ws, steps)
    ensures NeverWentBack(ws) <==> NeverRevives(ws, steps)
  {
    hide Next, Base, Enabled, WentBack, Revives;
    if NeverWentBack(ws) {
      forall i | 0 <= i < |steps| ensures !Revives(ws[i], steps[i]) {
        AlwaysBase(ws, steps, i);
        BackStepExactly(ws[i], steps[i]);
        assert ws[i + 1] == Next(ws[i], steps[i]);
      }
    }
    if NeverRevives(ws, steps) {
      forall n | 0 <= n < |ws| ensures !WentBack(ws[n]) {
        NotYetBack(ws, steps, n);
      }
    }
  }

  lemma {:induction false} NotYetBack(ws: seq<World>, steps: seq<Step>, n: nat)
    requires Run(ws, steps) && NeverRevives(ws, steps) && n < |ws|
    ensures !WentBack(ws[n])
  {
    hide Next, Base, Enabled, WentBack, Revives;
    if n == 0 {
      NothingAccepted(ws, steps);
    } else {
      NotYetBack(ws, steps, n - 1);
      AlwaysBase(ws, steps, n - 1);
      BackStepExactly(ws[n - 1], steps[n - 1]);
    }
  }

  lemma NothingAccepted(ws: seq<World>, steps: seq<Step>)
    requires Run(ws, steps)
    ensures !WentBack(ws[0]) && forall key :: AcceptedToken(ws[0], key).None?
  {
    hide Next, Enabled;
    var id :| IsInstanceId(id) && ws[0] == Init(id);
  }

  // ---- Order of acceptance ----

  /** Of two tokens a key accepts in a run, the one accepted later was issued no earlier. */
  ghost predicate AcceptedInOrder(ws: seq<World>) {
    forall m, n, key | 0 <= m <= n < |ws| && AcceptedToken(ws[m], key).Some? && AcceptedToken(ws[n], key).Some? ::
      NoLater(ws[n].issued, AcceptedToken(ws[m], key).value, AcceptedToken(ws[n], key).value)
  }

  /** A step makes a token acceptable that is older than one the key accepted up to then. */
  ghost predicate Reverses(ws: seq<World>, steps: seq<Step>, i: nat)
    requires Run(ws, steps) && i < |steps|
  {
    exists key, m :: 0 <= m <= i && Newly(ws[i], steps[i], key).Some? && AcceptedToken(ws[m], key).Some? &&
      !NoLater(ws[i].issued, AcceptedToken(ws[m], key).value, Newly(ws[i], steps[i], key).value)
  }

  lemma AcceptedIsKnown(w: World, key: string)
    requires Base(w) && AcceptedToken(w, key).Some?
    ensures AcceptedToken(w, key).value.inst in w.issued
  {
    RowsAreKnown(w);
    hide LatestIndex;
  }

  lemma NewlyIsKnown(w: World, a: Step, key: string)
    requires Base(w) && Enabled(w, a) && Newly(w, a, key).Some?
    ensures Newly(w, a, key).value.inst in w.issued
  {
    LockTheorems.CurrentInUse(w);
    RowsAreKnown(w);
    NotLiveUnknown(w.svc.db.ledger, w.issued, IdAfter(w, a), key);
    hide Next, Base, Granted, Current;
    if Granted(w, a, key).None? {
      LiveHasId(w.svc.db.ledger, IdAfter(w, a), key);
    }
  }

  lemma LiveHasId(ledger: seq<Row>, id: string, key: string)
    ensures Live(ledger, id, key).Some? ==> Live(ledger, id, key).value.inst == id
  {
  }

  /** The order of two known tokens does not change when later ids are issued. */
  lemma OrderIsStable(ws: seq<World>, steps: seq<Step>, m: nat, n: nat, t: Token, u: Token)
    requires Run(ws, steps) && m <= n < |ws| && t.inst in ws[m].issued && u.inst in ws[m].issued
    ensures NoLater(ws[m].issued, t, u) <==> NoLater(ws[n].issued, t, u)
  {
    hide Run;
    LockTheorems.Grows(ws, steps, m, n);
  }

  lemma {:induction false} InOrderUpTo(ws: seq<World>, steps: seq<Step>, m: nat, n: nat, key: string)
    requires Run(ws, steps) && m <= n < |ws| && forall i | 0 <= i < |steps| :: !Reverses(ws, steps, i)
    requires AcceptedToken(ws[m], key).Some? && AcceptedToken(ws[n], key).Some?
    ensures NoLater(ws[n].issued, AcceptedToken(ws[m], key).value, AcceptedToken(ws[n], key).value)
    decreases n
  {
    hide Next, Base, Enabled, Newly, AcceptedToken;
    if m < n {
      var k := n - 1;
      var t, u := AcceptedToken(ws[m], key).value, AcceptedToken(ws[n], key).value;
      AlwaysBase(ws, steps, m);
      AlwaysBase(ws, steps, k);
      AcceptedIsKnown(ws[m], key);
      LockTheorems.Grows(ws, steps, m, k);
      AcceptanceStep(ws[k], steps[k], key);
      assert !Reverses(ws, steps, k);
      if Newly(ws[k], steps[k], key) == Some(u) {
        NewlyIsKnown(ws[k], steps[k], key);
      } else {
        InOrderUpTo(ws, steps, m, k, key);
        AcceptedIsKnown(ws[k], key);
      }
      OrderIsStable(ws, steps, k, n, t, u);
    }
  }

  /** Tokens are accepted in issue order all through a run exactly if no step makes an older token acceptable. */
  lemma AcceptedInOrderExactly(ws: seq<World>, steps: seq<Step>)
    requires Run(ws, steps)
    ensures AcceptedInOrder(ws) <==> forall i | 0 <= i < |steps| :: !Reverses(ws, steps, i)
  {
    hide Next, Base, Enabled, Newly, AcceptedToken, NoLater;
    if forall i | 0 <= i < |steps| :: !Reverses(ws, steps, i) {
      forall m, n, key | 0 <= m <= n < |ws| && AcceptedToken(ws[m], key).Some? && AcceptedToken(ws[n], key).Some?
        ensures NoLater(ws[n].issued, AcceptedToken(ws[m], key).value, AcceptedToken(ws[n], key).value)
      {
        InOrderUpTo(ws, steps, m, n, key);
      }
    }
    forall i | 0 <= i < |steps| && Reverses(ws, steps, i) ensures !AcceptedInOrder(ws) {
      ReversalShows(ws, steps, i);
    }
  }

  lemma ReversalShows(ws: seq<World>, steps: seq<Step>, i: nat)
    requires Run(ws, steps) && i < |steps| && Reverses(ws, steps, i)
    ensures !AcceptedInOrder(ws)
  {
    hide Next, Base, Enabled, Newly, AcceptedToken, NoLater;
    var key, m :| 0 <= m <= i && Newly(ws[i], steps[i], key).Some? && AcceptedToken(ws[m], key).Some? &&
      !NoLater(ws[i].issued, AcceptedToken(ws[m], key).value, Newly(ws[i], steps[i], key).value);
    AlwaysBase(ws, steps, i);
    AlwaysBase(ws, steps, m);
    AcceptanceStep(ws[i], steps[i], key);
    NewlyIsKnown(ws[i], steps[i], key);
    AcceptedIsKnown(ws[m], key);
    LockTheorems.Grows(ws, steps, m, i);
    OrderIsStable(ws, steps, i, i + 1, AcceptedToken(ws[m], key).value, Newly(ws[i], steps[i], key).value);
    assert ws[i + 1] == Next(ws[i], steps[i]);
  }
}
