/** The fixed-window API-key rate limiter, for every arrival sequence of one key. */
module RateLimit {
  import opened Wrappers

  /** The Redis counter of one key: requests since it was created, and when it expires. */
  datatype Counter = Counter(count: nat, expireAt: int)

  /** INCR, and EXPIRE when this was the first request of a new window, as one step. */
  function Hit(c: Option<Counter>, now: int, ttl: nat): Counter {
    if c.None? || now >= c.value.expireAt then Counter(1, now + ttl)
    else c.value.(count := c.value.count + 1)
  }

  predicate Sorted(ts: seq<int>) {
    forall i, j | 0 <= i <= j < |ts| :: ts[i] <= ts[j]
  }

  /** How many of the arrivals in [a, b) are let through, from counter state c on. */
  function Passed(c: Option<Counter>, ts: seq<int>, limit: nat, ttl: nat, a: int, b: int): nat
    decreases |ts|
  {
    if ts == [] then 0
    else
      var k := Hit(c, ts[0], ttl);
      (if a <= ts[0] < b && k.count <= limit then 1 else 0) + Passed(Some(k), ts[1..], limit, ttl, a, b)
  }

  function Left(limit: nat, count: nat): nat {
    if count <= limit then limit - count else 0
  }

  lemma {:induction false} NothingPastTheEnd(c: Option<Counter>, ts: seq<int>, limit: nat, ttl: nat, a: int, b: int)
    requires Sorted(ts) && (ts != [] ==> b <= ts[0])
    ensures Passed(c, ts, limit, ttl, a, b) == 0
    decreases |ts|
  {
    if ts != [] {
      NothingPastTheEnd(Some(Hit(c, ts[0], ttl)), ts[1..], limit, ttl, a, b);
    }
  }

  /** While the current window covers the rest of the span only what it has left gets through. */
  lemma {:induction false} WithinOneWindow(k: Counter, ts: seq<int>, limit: nat, ttl: nat, a: int, b: int)
    requires Sorted(ts) && b <= k.expireAt
    ensures Passed(Some(k), ts, limit, ttl, a, b) <= Left(limit, k.count)
    decreases |ts|
  {
    if ts != [] {
      if ts[0] < b {
        WithinOneWindow(Hit(Some(k), ts[0], ttl), ts[1..], limit, ttl, a, b);
      } else {
        NothingPastTheEnd(Some(k), ts, limit, ttl, a, b);
      }
    }
  }

  /** A span of at most ttl that starts inside a window meets one more window at most. */
  lemma {:induction false} AcrossOneBoundary(k: Counter, ts: seq<int>, limit: nat, ttl: nat, a: int, b: int)
    requires Sorted(ts) && (ts != [] ==> a <= ts[0]) && b <= a + ttl
    ensures Passed(Some(k), ts, limit, ttl, a, b) <= Left(limit, k.count) + limit
    decreases |ts|
  {
    if ts != [] {
      var k' := Hit(Some(k), ts[0], ttl);
      if ts[0] < k.expireAt {
        AcrossOneBoundary(k', ts[1..], limit, ttl, a, b);
      } else {
        WithinOneWindow(k', ts[1..], limit, ttl, a, b);
      }
    }
  }

  /** At most limit requests get through in a window, whichever request opens it. */
  lemma AtMostLimitPerWindow(c: Option<Counter>, ts: seq<int>, limit: nat, ttl: nat)
    requires Sorted(ts) && ts != [] && (c.Some? ==> c.value.expireAt <= ts[0])
    ensures Passed(c, ts, limit, ttl, ts[0], ts[0] + ttl) <= limit
  {
    WithinOneWindow(Hit(c, ts[0], ttl), ts[1..], limit, ttl, ts[0], ts[0] + ttl);
  }

  /** From a used or absent counter, at most 2 * limit - 1 requests get through in any half-open span of
      ttl: the second of two windows can only open ttl after a request that precedes the span. */
  lemma {:induction false} AtMostTwiceLimitLessOne(c: Option<Counter>, ts: seq<int>, limit: nat, ttl: nat, a: int)
    requires Sorted(ts) && (c.Some? ==> c.value.count >= 1) && limit >= 1
    ensures Passed(c, ts, limit, ttl, a, a + ttl) <= 2 * limit - 1
    decreases |ts|
  {
    if ts != [] {
      var k := Hit(c, ts[0], ttl);
      if ts[0] < a {
        AtMostTwiceLimitLessOne(Some(k), ts[1..], limit, ttl, a);
      } else if k.count == 1 {
        WithinOneWindow(k, ts[1..], limit, ttl, a, a + ttl);
      } else {
        AcrossOneBoundary(k, ts[1..], limit, ttl, a, a + ttl);
      }
    }
  }

  lemma {:induction false} LimitZeroPassesNothing(c: Option<Counter>, ts: seq<int>, ttl: nat, a: int, b: int)
    ensures Passed(c, ts, 0, ttl, a, b) == 0
    decreases |ts|
  {
    if ts != [] {
      LimitZeroPassesNothing(Some(Hit(c, ts[0], ttl)), ts[1..], ttl, a, b);
    }
  }

  // ---------------------------------------------------------------- The bound is reached

  function Repeat(t: int, n: nat): (ts: seq<int>)
    ensures |ts| == n && forall i | 0 <= i < n :: ts[i] == t
  {
    seq(n, _ => t)
  }

  /** n requests at one instant of an open window: what is left gets through, then the rest follow. */
  lemma {:induction false} Burst(k: Counter, t: int, n: nat, rest: seq<int>, limit: nat, ttl: nat, a: int, b: int)
    requires a <= t < b && t < k.expireAt && k.count + n <= limit
    ensures Passed(Some(k), Repeat(t, n) + rest, limit, ttl, a, b)
            == n + Passed(Some(Counter(k.count + n, k.expireAt)), rest, limit, ttl, a, b)
    decreases n
  {
    if n == 0 {
      assert Repeat(t, 0) + rest == rest;
    } else {
      assert (Repeat(t, n) + rest)[1..] == Repeat(t, n - 1) + rest;
      Burst(Counter(k.count + 1, k.expireAt), t, n - 1, rest, limit, ttl, a, b);
    }
  }

  /** One request at 0, limit - 1 just before the window closes, limit as the next one opens. */
  function WorstCase(limit: nat, ttl: nat): seq<int>
    requires limit >= 1
  {
    [0] + (Repeat(ttl - 1, limit - 1) + ([ttl] + Repeat(ttl, limit - 1)))
  }

  lemma WorstCaseSorted(limit: nat, ttl: nat)
    requires limit >= 1 && ttl >= 1
    ensures Sorted(WorstCase(limit, ttl))
  {
    var ts := WorstCase(limit, ttl);
    assert forall i | 0 <= i < |ts| :: ts[i] == if i == 0 then 0 else if i < limit then ttl - 1 else ttl;
  }

  /** For every limit of at least 1 and every ttl of at least two instants the bound is attained. For limits
      of 2 and more it is above the limit itself. */
  lemma BoundIsAttained(limit: nat, ttl: nat)
    requires limit >= 1 && ttl >= 2
    ensures Sorted(WorstCase(limit, ttl))
    ensures Passed(None, WorstCase(limit, ttl), limit, ttl, ttl - 1, (ttl - 1) + ttl) == 2 * limit - 1
  {
    WorstCaseSorted(limit, ttl);
    var a, b := ttl - 1, (ttl - 1) + ttl;
    var tail := Repeat(ttl, limit - 1);
    var second := [ttl] + tail;
    SecondWindow(limit, ttl, a, b);
    Burst(Counter(1, ttl), ttl - 1, limit - 1, second, limit, ttl, a, b);
    var ts := WorstCase(limit, ttl);
    assert ts[0] == 0 && ts[1..] == Repeat(ttl - 1, limit - 1) + second;
    assert Hit(None, 0, ttl) == Counter(1, ttl);
    hide Repeat, WorstCase, Sorted;
    assert Passed(None, ts, limit, ttl, a, b) == 0 + Passed(Some(Counter(1, ttl)), ts[1..], limit, ttl, a, b);
  }

  lemma SecondWindow(limit: nat, ttl: nat, a: int, b: int)
    requires limit >= 1 && ttl >= 1 && a <= ttl < b
    ensures Passed(Some(Counter(limit, ttl)), [ttl] + Repeat(ttl, limit - 1), limit, ttl, a, b) == limit
  {
    var tail := Repeat(ttl, limit - 1);
    Burst(Counter(1, ttl + ttl), ttl, limit - 1, [], limit, ttl, a, b);
    assert ([ttl] + tail)[1..] == tail && tail + [] == tail;
    assert Hit(Some(Counter(limit, ttl)), ttl, ttl) == Counter(1, ttl + ttl);
  }

  // ---------------------------------------------------------------- Any span

  function PassedInSpan(ts: seq<int>, limit: nat, ttl: nat, a: int): nat {
    Passed(None, ts, limit, ttl, a, a + ttl)
  }

  /** A window of one instant is over before the next arrival that differs. */
  lemma {:induction false} OneInstantWindows(c: Option<Counter>, ts: seq<int>, limit: nat, a: int)
    requires Sorted(ts)
    ensures Passed(c, ts, limit, 1, a, a + 1) <= limit
    decreases |ts|
  {
    if ts != [] {
      var k := Hit(c, ts[0], 1);
      if ts[0] < a {
        OneInstantWindows(Some(k), ts[1..], limit, a);
      } else if ts[0] == a {
        WithinOneWindow(k, ts[1..], limit, 1, a, a + 1);
      } else {
        NothingPastTheEnd(Some(k), ts[1..], limit, 1, a, a + 1);
      }
    }
  }

  lemma {:induction false} EmptySpan(c: Option<Counter>, ts: seq<int>, limit: nat, ttl: nat, a: int)
    ensures Passed(c, ts, limit, ttl, a, a) == 0
    decreases |ts|
  {
    if ts != [] {
      EmptySpan(Some(Hit(c, ts[0], ttl)), ts[1..], limit, ttl, a);
    }
  }

  /** At most limit requests in any span of ttl, as documented: that holds exactly for a limit of at most 1,
      or windows of at most one instant. */
  lemma LimitHoldsInAnySpanExactlyWhen(limit: nat, ttl: nat)
    ensures (forall ts, a | Sorted(ts) :: PassedInSpan(ts, limit, ttl, a) <= limit) <==> limit <= 1 || ttl <= 1
  {
    if limit <= 1 || ttl <= 1 {
      forall ts, a | Sorted(ts)
        ensures PassedInSpan(ts, limit, ttl, a) <= limit
      {
        if limit == 0 {
          LimitZeroPassesNothing(None, ts, ttl, a, a + ttl);
        } else if limit == 1 {
          AtMostTwiceLimitLessOne(None, ts, limit, ttl, a);
        } else if ttl == 0 {
          EmptySpan(None, ts, limit, ttl, a);
        } else {
          OneInstantWindows(None, ts, limit, a);
        }
      }
    } else {
      BoundIsAttained(limit, ttl);
      assert PassedInSpan(WorstCase(limit, ttl), limit, ttl, ttl - 1) > limit;
    }
  }

  // ---------------------------------------------------------------- The guard

  class ApiKeyRateLimitGuard {
    var counters: map<string, Counter>
    const limit: nat
    const ttl: nat

    function CounterOf(id: string): Option<Counter>
      reads this
    {
      if id in counters then Some(counters[id]) else None
    }

    predicate Valid()
      reads this
    {
      forall id | id in counters :: counters[id].count >= 1
    }

    constructor (limit: nat, ttl: nat)
      ensures Valid() && this.limit == limit && this.ttl == ttl && counters == map[]
    {
      this.limit, this.ttl, counters := limit, ttl, map[];
    }

    /** False stands for the 429 response. Without a key id the guard does not count. */
    method CanActivate(apiKeyId: Option<string>, now: int) returns (through: bool)
      requires Valid()
      modifies this
      ensures Valid()
      ensures apiKeyId.None? ==> through && counters == old(counters)
      ensures apiKeyId.Some? ==>
                var k := Hit(old(CounterOf(apiKeyId.value)), now, ttl);
                counters == old(counters)[apiKeyId.value := k] && (through <==> k.count <= limit)
    {
      if apiKeyId.None? {
        return true;
      }
      var id := apiKeyId.value;
      var live := id in counters && now < counters[id].expireAt;
      var count := if live then counters[id].count + 1 else 1;
      if count == 1 {
        counters := counters[id := Counter(1, now + ttl)];
      } else {
        counters := counters[id := Counter(count, counters[id].expireAt)];
      }
      through := count <= limit;
    }
  }
}
