/** The sliding-window rate limiter, and the hook that asks two windows. */
module RateLimits {

  /** How many of the times fall into the half-open interval (to - window, to]. */
  function InWindow(times: seq<int>, window: nat, to: int): nat {
    if times == [] then 0
    else InWindow(times[..|times| - 1], window, to) + if to - window < times[|times| - 1] <= to then 1 else 0
  }

  predicate NonDecreasing(times: seq<int>) {
    forall i, j | 0 <= i < j < |times| :: times[i] <= times[j]
  }

  /** A request is accepted if fewer than the maximum were accepted within the window before it. */
  predicate Admits(accepted: seq<int>, window: nat, max: nat, now: int) {
    InWindow(accepted, window, now) < max
  }

  /** The accepted ones among requests at the given times. */
  function Accepted(requests: seq<int>, window: nat, max: nat): seq<int> {
    if requests == [] then []
    else
      var before, now := Accepted(requests[..|requests| - 1], window, max), requests[|requests| - 1];
      if Admits(before, window, max, now) then before + [now] else before
  }

  lemma {:induction false} InWindowAppend(times: seq<int>, t: int, window: nat, to: int)
    ensures InWindow(times + [t], window, to) == InWindow(times, window, to) + if to - window < t <= to then 1 else 0
  {
    assert (times + [t])[..|times|] == times;
  }

  lemma {:induction false} AcceptedInOrder(requests: seq<int>, window: nat, max: nat)
    requires NonDecreasing(requests)
    ensures NonDecreasing(Accepted(requests, window, max))
    ensures forall t | t in Accepted(requests, window, max) :: t in requests
  {
    if requests != [] {
      var n := |requests| - 1;
      var before := Accepted(requests[..n], window, max);
      AcceptedInOrder(requests[..n], window, max);
      hide InWindow;
      forall i | 0 <= i < |before| ensures before[i] <= requests[n] {
        assert before[i] in before;
      }
    }
  }

  /** A later window holds no more of the times up to now than the window ending now. */
  lemma {:induction false} LaterWindowHoldsLess(times: seq<int>, window: nat, now: int, to: int)
    requires now <= to && forall i | 0 <= i < |times| :: times[i] <= now
    ensures InWindow(times, window, to) <= InWindow(times, window, now)
  {
    if times != [] {
      LaterWindowHoldsLess(times[..|times| - 1], window, now, to);
    }
  }

  /**
   * For every sequence of requests with a clock that never goes back, every interval of the window's
   * length holds at most the maximum of accepted requests.
   */
  lemma {:induction false} WindowBound(requests: seq<int>, window: nat, max: nat, to: int)
    requires NonDecreasing(requests)
    ensures InWindow(Accepted(requests, window, max), window, to) <= max
  {
    if requests != [] {
      var n := |requests| - 1;
      var before, now := Accepted(requests[..n], window, max), requests[n];
      WindowBound(requests[..n], window, max, to);
      if Admits(before, window, max, now) {
        InWindowAppend(before, now, window, to);
        AcceptedInOrder(requests[..n], window, max);
        if to - window < now <= to {
          forall i | 0 <= i < |before| ensures before[i] <= now {
            assert before[i] in before;
          }
          LaterWindowHoldsLess(before, window, now, to);
        }
      }
    }
  }

  /** The i-th request is refused: the accepted ones are as before it. */
  predicate Refused(requests: seq<int>, window: nat, max: nat, i: nat)
    requires i < |requests|
  {
    Accepted(requests[..i + 1], window, max) == Accepted(requests[..i], window, max)
  }

  /** A request is refused exactly if the window before it is full: it holds the maximum of accepted requests. */
  lemma RefusedExactly(requests: seq<int>, window: nat, max: nat, i: nat)
    requires NonDecreasing(requests) && i < |requests|
    ensures Refused(requests, window, max, i) <==>
              InWindow(Accepted(requests[..i], window, max), window, requests[i]) == max
    ensures !Refused(requests, window, max, i) ==>
              Accepted(requests[..i + 1], window, max) == Accepted(requests[..i], window, max) + [requests[i]]
  {
    assert requests[..i + 1][..i] == requests[..i];
    WindowBound(requests[..i], window, max, requests[i]);
  }

  // ---- The sorted set ----

  /** What ZREMRANGEBYSCORE leaves. */
  function Trimmed(entries: seq<int>, limit: int): seq<int> {
    if entries == [] then []
    else
      var e := entries[|entries| - 1];
      Trimmed(entries[..|entries| - 1], limit) + if e <= limit then [] else [e]
  }

  /** Trimming what was trimmed at an earlier limit is trimming at once. */
  lemma {:induction false} TrimmedAgain(times: seq<int>, limit: int, later: int)
    requires limit <= later
    ensures Trimmed(Trimmed(times, limit), later) == Trimmed(times, later)
  {
    if times != [] {
      var n := |times| - 1;
      TrimmedAgain(times[..n], limit, later);
      var kept := Trimmed(times[..n], limit);
      if times[n] > limit {
        assert (kept + [times[n]])[..|kept|] == kept;
      } else {
        assert kept + [] == kept;
      }
    }
  }

  lemma {:induction false} TrimmedCounts(times: seq<int>, window: nat, now: int)
    requires forall i | 0 <= i < |times| :: times[i] <= now
    ensures |Trimmed(times, now - window)| == InWindow(times, window, now)
  {
    if times != [] {
      TrimmedCounts(times[..|times| - 1], window, now);
    }
  }

  lemma {:induction false} TrimmedAppend(times: seq<int>, t: int, limit: int)
    requires t > limit
    ensures Trimmed(times + [t], limit) == Trimmed(times, limit) + [t]
  {
    assert (times + [t])[..|times|] == times;
  }

  lemma {:induction false} TrimmedAll(times: seq<int>, limit: int)
    requires forall i | 0 <= i < |times| :: times[i] <= limit
    ensures Trimmed(times, limit) == []
  {
    if times != [] {
      TrimmedAll(times[..|times| - 1], limit);
    }
  }

  /** One sorted set of a limiter: the scores of its members, in order. */
  class SlidingWindow {
    const window: nat
    const max: nat
    var entries: seq<int>
    ghost var requests: seq<int>
    ghost var clock: int
    ghost var limit: int

    /** The set holds the accepted requests after some limit that no later window reaches back to. */
    ghost predicate Valid()
      reads this
    {
      window > 0 && NonDecreasing(requests) && (forall i | 0 <= i < |requests| :: requests[i] <= clock) &&
      limit <= clock - window && entries == Trimmed(Accepted(requests, window, max), limit)
    }

    constructor (window: nat, max: nat)
      requires window > 0
      ensures Valid() && requests == [] && clock == 0 && this.window == window && this.max == max
    {
      this.window, this.max, entries, requests, clock, limit := window, max, [], [], 0, 0 - window;
    }

    /** The script: trim, count, and add the request unless the set is full. */
    method Hit(now: int) returns (allowed: bool, count: nat)
      requires Valid() && 0 <= now && clock <= now
      modifies this
      ensures Valid() && requests == old(requests) + [now] && clock == now
      ensures allowed <==> Admits(Accepted(old(requests), window, max), window, max, now)
      ensures count == InWindow(Accepted(requests, window, max), window, now)
    {
      hide InWindow, Accepted, Trimmed;
      StepOf(requests, window, max, limit, now);
      entries := Trimmed(entries, now - window);
      count := |entries|;
      limit, clock := now - window, now;
      requests := requests + [now];
      if count >= max {
        return false, count;
      }
      entries := entries + [now];
      return true, count + 1;
    }

    /** The key lives for one window after the last accepted request. */
    method Expire(now: int)
      requires Valid() && clock <= now
      requires forall i | 0 <= i < |Accepted(requests, window, max)| ::
                 Accepted(requests, window, max)[i] + window <= now
      modifies this`entries, this`limit, this`clock
      ensures Valid() && entries == [] && clock == now
    {
      TrimmedAll(Accepted(requests, window, max), now - window);
      entries := [];
      limit, clock := now - window, now;
    }
  }

  lemma StepOf(requests: seq<int>, window: nat, max: nat, limit: int, now: int)
    requires window > 0 && NonDecreasing(requests) && limit <= now - window
    requires forall i | 0 <= i < |requests| :: requests[i] <= now
    ensures var before, after := Accepted(requests, window, max), Accepted(requests + [now], window, max);
            var kept := Trimmed(Trimmed(before, limit), now - window);
            kept == Trimmed(before, now - window) && |kept| == InWindow(before, window, now) &&
            after == (if Admits(before, window, max, now) then before + [now] else before) &&
            Trimmed(before + [now], now - window) == kept + [now] &&
            InWindow(before + [now], window, now) == InWindow(before, window, now) + 1
  {
    var before := Accepted(requests, window, max);
    AllUpTo(requests, window, max, now);
    TrimmedAgain(before, limit, now - window);
    TrimmedCounts(before, window, now);
    InWindowAppend(before, now, window, now);
    TrimmedAppend(before, now, now - window);
    assert (requests + [now])[..|requests|] == requests;
  }

  lemma AllUpTo(requests: seq<int>, window: nat, max: nat, now: int)
    requires NonDecreasing(requests) && forall i | 0 <= i < |requests| :: requests[i] <= now
    ensures NonDecreasing(requests + [now])
    ensures forall i | 0 <= i < |Accepted(requests, window, max)| :: Accepted(requests, window, max)[i] <= now
  {
    AcceptedInOrder(requests, window, max);
    var accepted := Accepted(requests, window, max);
    forall i | 0 <= i < |accepted| ensures accepted[i] <= now {
      assert accepted[i] in accepted;
    }
  }

  // ---- The hook ----

  const MINUTE: nat := 60_000
  const BURST: nat := 10_000

  /** The requests that both windows accept. Each window counts on its own, whatever the other answers. */
  function Passed(requests: seq<int>, perMinute: nat, burst: nat): seq<int> {
    if requests == [] then []
    else
      var before, now := requests[..|requests| - 1], requests[|requests| - 1];
      Passed(before, perMinute, burst) +
      if Admits(Accepted(before, MINUTE, perMinute), MINUTE, perMinute, now) &&
         Admits(Accepted(before, BURST, burst), BURST, burst, now)
      then [now] else []
  }

  lemma NoneInWindow(window: nat, to: int)
    ensures InWindow([], window, to) == 0
  {
  }

  lemma {:induction false} PassedWithin(requests: seq<int>, perMinute: nat, burst: nat, window: nat, to: int)
    ensures InWindow(Passed(requests, perMinute, burst), window, to) <=
              InWindow(Accepted(requests, MINUTE, perMinute), window, to)
    ensures InWindow(Passed(requests, perMinute, burst), window, to) <=
              InWindow(Accepted(requests, BURST, burst), window, to)
  {
    hide InWindow;
    if requests == [] {
      NoneInWindow(window, to);
    } else {
      var before, now := requests[..|requests| - 1], requests[|requests| - 1];
      PassedWithin(before, perMinute, burst, window, to);
      InWindowAppend(Passed(before, perMinute, burst), now, window, to);
      InWindowAppend(Accepted(before, MINUTE, perMinute), now, window, to);
      InWindowAppend(Accepted(before, BURST, burst), now, window, to);
      assert Passed(before, perMinute, burst) + [] == Passed(before, perMinute, burst);
    }
  }

  /** For one identity, at most the minute limit passes in any minute and the burst limit in any ten seconds. */
  lemma HookBounds(requests: seq<int>, perMinute: nat, burst: nat, to: int)
    requires NonDecreasing(requests)
    ensures InWindow(Passed(requests, perMinute, burst), MINUTE, to) <= perMinute
    ensures InWindow(Passed(requests, perMinute, burst), BURST, to) <= burst
  {
    PassedWithin(requests, perMinute, burst, MINUTE, to);
    PassedWithin(requests, perMinute, burst, BURST, to);
    WindowBound(requests, MINUTE, perMinute, to);
    WindowBound(requests, BURST, burst, to);
  }

  /** The hook stops a request exactly if one of its windows is full. */
  lemma StoppedExactly(requests: seq<int>, perMinute: nat, burst: nat, i: nat)
    requires NonDecreasing(requests) && i < |requests|
    ensures Passed(requests[..i + 1], perMinute, burst) == Passed(requests[..i], perMinute, burst) <==>
              InWindow(Accepted(requests[..i], MINUTE, perMinute), MINUTE, requests[i]) == perMinute ||
              InWindow(Accepted(requests[..i], BURST, burst), BURST, requests[i]) == burst
  {
    assert requests[..i + 1][..i] == requests[..i];
    WindowBound(requests[..i], MINUTE, perMinute, requests[i]);
    WindowBound(requests[..i], BURST, burst, requests[i]);
    hide InWindow, Accepted;
    var before := Passed(requests[..i], perMinute, burst);
    assert |before + [requests[i]]| != |before| && before + [] == before;
  }

  /** The hook for one identity: both scripts run on every request, and both must accept. */
  class RateLimiter {
    const sustained: SlidingWindow
    const burst: SlidingWindow

    ghost predicate Valid()
      reads this, sustained, burst
    {
      sustained != burst && sustained.Valid() && burst.Valid() && sustained.window == MINUTE && burst.window == BURST &&
      sustained.requests == burst.requests && sustained.clock == burst.clock
    }

    constructor (perMinute: nat, burstMax: nat)
      ensures Valid() && fresh(sustained) && fresh(burst) && sustained.requests == []
      ensures sustained.max == perMinute && burst.max == burstMax
    {
      sustained := new SlidingWindow(MINUTE, perMinute);
      burst := new SlidingWindow(BURST, burstMax);
    }

    method OnRequest(now: int) returns (passes: bool)
      requires Valid() && 0 <= now && sustained.clock <= now
      modifies sustained, burst
      ensures Valid() && sustained.requests == old(sustained.requests) + [now]
      ensures Passed(sustained.requests, sustained.max, burst.max) ==
                Passed(old(sustained.requests), sustained.max, burst.max) + if passes then [now] else []
    {
      hide InWindow, Accepted;
      assert (sustained.requests + [now])[..|sustained.requests|] == sustained.requests;
      var inMinute, n := sustained.Hit(now);
      var inBurst, k := burst.Hit(now);
      passes := inMinute && inBurst;
    }
  }
}
