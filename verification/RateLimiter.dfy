/**
 The sliding-window limiter of customers in Redis, and the fixed-window one in memory that stands in for it
 (src/services/customer_rate_limiter.ts).
 */
module RateLimiter {
  import opened Redis

  // ---------- the sliding window: what a list of requests should be granted ----------

  /** The grants that still count at `now`: those in (now - window, ...]. */
  function Recent(grants: seq<int>, now: int, window: nat): seq<int>
  {
    if grants == [] then []
    else
      var last := grants[|grants| - 1];
      Recent(grants[..|grants| - 1], now, window) + if last > now - window then [last] else []
  }

  /** A request is granted when fewer than `limit` grants count. `requests` are the Redis times of all requests. */
  function Grants(requests: seq<int>, window: nat, limit: nat): seq<int>
  {
    if requests == [] then []
    else
      var before := Grants(requests[..|requests| - 1], window, limit);
      var now := requests[|requests| - 1];
      if |Recent(before, now, window)| < limit then before + [now] else before
  }

  predicate Sorted(times: seq<int>) { forall i, j :: 0 <= i < j < |times| ==> times[i] <= times[j] }

  /** How many grants lie in (t - window, t]. */
  function InWindow(grants: seq<int>, t: int, window: nat): nat
  {
    if grants == [] then 0
    else
      var last := grants[|grants| - 1];
      InWindow(grants[..|grants| - 1], t, window) + if t - window < last <= t then 1 else 0
  }

  lemma LastAndRest(times: seq<int>)
    requires times != []
    ensures var (rest, last) := (times[..|times| - 1], times[|times| - 1]);
            && times == rest + [last] && last in times && (forall x :: x in times <==> x in rest || x == last)
            && (Sorted(times) ==> Sorted(rest) && forall x :: x in rest ==> x <= last)
  {
    assert times == times[..|times| - 1] + [times[|times| - 1]];
  }

  lemma SortedAppend(times: seq<int>, last: int)
    requires Sorted(times) && forall x :: x in times ==> x <= last
    ensures Sorted(times + [last])
  {
    forall i | 0 <= i < |times| ensures times[i] <= last {
      assert times[i] in times;
    }
  }

  lemma {:induction false} RecentIsLater(grants: seq<int>, now: int, window: nat)
    ensures forall x :: x in Recent(grants, now, window) ==> x in grants && x > now - window
    ensures forall x :: x in grants && x > now - window ==> x in Recent(grants, now, window)
    ensures Sorted(grants) ==> Sorted(Recent(grants, now, window))
  {
    if grants != [] {
      var shorter, last := grants[..|grants| - 1], grants[|grants| - 1];
      LastAndRest(grants);
      RecentIsLater(shorter, now, window);
      if Sorted(grants) {
        SortedAppend(Recent(shorter, now, window), last);
      }
    }
  }

  /** Pruning earlier loses nothing that counts later. */
  lemma {:induction false} RecentLater(grants: seq<int>, now: int, later: int, window: nat)
    requires now <= later
    ensures Recent(Recent(grants, now, window), later, window) == Recent(grants, later, window)
    ensures |Recent(grants, later, window)| <= |Recent(grants, now, window)|
  {
    if grants != [] {
      var shorter, last := grants[..|grants| - 1], grants[|grants| - 1];
      RecentLater(shorter, now, later, window);
      var kept := Recent(shorter, now, window);
      OneMoreGrant(kept, last, later, window);
      assert kept + [] == kept && Recent(shorter, later, window) + [] == Recent(shorter, later, window);
    }
  }

  lemma {:induction false} GrantsAreRequests(requests: seq<int>, window: nat, limit: nat)
    requires Sorted(requests)
    ensures Sorted(Grants(requests, window, limit))
    ensures forall x :: x in Grants(requests, window, limit) ==> x in requests
  {
    if requests != [] {
      var shorter, now := requests[..|requests| - 1], requests[|requests| - 1];
      LastAndRest(requests);
      GrantsAreRequests(shorter, window, limit);
      SortedAppend(Grants(shorter, window, limit), now);
    }
  }

  /** Counting up to a time after all grants is counting the recent ones. */
  lemma {:induction false} InWindowIsRecent(grants: seq<int>, t: int, window: nat)
    requires forall x :: x in grants ==> x <= t
    ensures InWindow(grants, t, window) == |Recent(grants, t, window)|
  {
    if grants != [] {
      var shorter, last := grants[..|grants| - 1], grants[|grants| - 1];
      LastAndRest(grants);
      InWindowIsRecent(shorter, t, window);
    }
  }

  lemma OneMoreGrant(grants: seq<int>, now: int, t: int, window: nat)
    ensures InWindow(grants + [now], t, window) == InWindow(grants, t, window) + if t - window < now <= t then 1 else 0
    ensures Recent(grants + [now], t, window) == Recent(grants, t, window) + if now > t - window then [now] else []
  {
    assert (grants + [now])[..|grants|] == grants;
  }

  /** However requests come, as long as the clock does not run back, no window of time has more than `limit` grants. */
  lemma {:induction false} AtMostLimit(requests: seq<int>, window: nat, limit: nat, t: int)
    requires Sorted(requests)
    ensures InWindow(Grants(requests, window, limit), t, window) <= limit
  {
    if requests != [] {
      var shorter, now := requests[..|requests| - 1], requests[|requests| - 1];
      LastAndRest(requests);
      var before := Grants(shorter, window, limit);
      AtMostLimit(shorter, window, limit, t);
      GrantsAreRequests(shorter, window, limit);
      OneMoreGrant(before, now, t, window);
      if now <= t {
        InWindowIsRecent(before, t, window);
        RecentLater(before, now, t, window);
      }
    }
  }

  /** `retry_after_ms` of a denial, with the oldest grant that counts. */
  function RetryAfter(recent: seq<int>, now: int, window: nat): int
  {
    if recent == [] then window else Max(1, window - (now - recent[0]))
  }

  /**
   The retry time of a denial is exact: if nothing else is granted meanwhile, a request `wait` later is granted if and
   only if it waits that long.
   */
  lemma RetryIsExact(requests: seq<int>, now: int, window: nat, limit: nat, wait: nat)
    requires Sorted(requests + [now]) && limit >= 1
    requires |Recent(Grants(requests, window, limit), now, window)| >= limit
    ensures var grants := Grants(requests, window, limit);
            |Recent(grants, now + wait, window)| < limit <==> wait >= RetryAfter(Recent(grants, now, window), now, window)
  {
    LastAndRest(requests + [now]);
    assert (requests + [now])[..|requests|] == requests;
    var grants := Grants(requests, window, limit);
    var recent := Recent(grants, now, window);
    GrantsAreRequests(requests, window, limit);
    AtMostLimit(requests, window, limit, now);
    InWindowIsRecent(grants, now, window);
    OldestDecides(grants, now, window, wait);
  }

  /** Nothing more stops counting before the oldest does. */
  lemma OldestDecides(grants: seq<int>, now: int, window: nat, wait: nat)
    requires Sorted(grants) && Recent(grants, now, window) != []
    ensures var recent := Recent(grants, now, window);
            |Recent(grants, now + wait, window)| < |recent| <==> wait >= RetryAfter(recent, now, window)
  {
    hide Recent;
    var recent := Recent(grants, now, window);
    RecentIsLater(grants, now, window);
    RecentLater(grants, now, now + wait, window);
    var first := recent[0];
    assert first in recent;
    assert RetryAfter(recent, now, window) == window - (now - first);
    FirstIsLeast(recent);
    if wait < RetryAfter(recent, now, window) {
      RecentAll(recent, now + wait, window);
    } else {
      FirstIsGone(recent, now + wait, window);
    }
  }

  lemma FirstIsLeast(times: seq<int>)
    requires Sorted(times) && times != []
    ensures forall x :: x in times ==> x >= times[0]
  {
  }

  lemma {:induction false} RecentAll(grants: seq<int>, now: int, window: nat)
    requires forall x :: x in grants ==> x > now - window
    ensures Recent(grants, now, window) == grants
  {
    if grants != [] {
      var shorter, last := grants[..|grants| - 1], grants[|grants| - 1];
      LastAndRest(grants);
      RecentAll(shorter, now, window);
    }
  }

  lemma {:induction false} FirstIsGone(grants: seq<int>, now: int, window: nat)
    requires grants != [] && grants[0] <= now - window
    ensures |Recent(grants, now, window)| < |grants|
  {
    if |grants| > 1 {
      FirstIsGone(grants[..|grants| - 1], now, window);
    }
  }

  /** Milliseconds in seconds, rounded up. */
  function CeilSeconds(ms: nat): nat { (ms + 999) / 1000 }

  /** The whole seconds told to the customer are the least that suffice. */
  lemma RetrySecondsAreLeast(requests: seq<int>, now: int, window: nat, limit: nat, seconds: nat)
    requires Sorted(requests + [now]) && limit >= 1
    requires |Recent(Grants(requests, window, limit), now, window)| >= limit
    ensures var grants := Grants(requests, window, limit);
            |Recent(grants, now + 1000 * seconds, window)| < limit <==>
              seconds >= CeilSeconds(Max(0, RetryAfter(Recent(grants, now, window), now, window)))
  {
    RetryIsExact(requests, now, window, limit, 1000 * seconds);
  }

  // ---------- the sliding window: the script ----------

  /** One key of the limiter. `requests` is the history of the times it was asked. */
  class SlidingWindow {
    const window: nat
    const limit: nat
    var scores: seq<int>        // the sorted set, lowest score first; its members are fresh
    var expiresAt: int
    ghost var requests: seq<int>

    ghost predicate Valid()
      reads this
    {
      Serves(scores, expiresAt, requests, window, limit)
    }

    constructor (window: nat, limit: nat, now: int)
      ensures Valid() && requests == [] && this.window == window && this.limit == limit
    {
      this.window, this.limit := window, limit;
      scores, expiresAt, requests := [], now, [];
    }

    /** `ZREMRANGEBYSCORE key -inf now - window`, on a key that may have expired. */
    method Prune(now: int)
      requires Sorted(scores)
      modifies this`scores
      ensures scores == if now < expiresAt then Recent(old(scores), now, window) else []
    {
      if now >= expiresAt {
        scores := [];
        return;
      }
      var first := 0;
      while first < |scores| && scores[first] <= now - window
        invariant 0 <= first <= |scores|
        invariant forall i :: 0 <= i < first ==> scores[i] <= now - window
      {
        first := first + 1;
      }
      RecentIsSuffix(scores, first, now, window);
      scores := scores[first..];
    }

    /**
     consume_rate_limit_script: it grants exactly what the list of all requests says, although the sorted set is
     pruned and the whole key may have expired.
     */
    method Consume(now: int) returns (allowed: bool, remaining: int, retryAfterMs: int)
      requires Valid() && NotBefore(now, requests)
      modifies this
      ensures Valid() && requests == old(requests) + [now]
      ensures var recent := Recent(Grants(old(requests), window, limit), now, window);
              && (allowed <==> |recent| < limit)
              && remaining == (if allowed then limit - |recent| - 1 else 0)
              && retryAfterMs == (if allowed then 0 else RetryAfter(recent, now, window))
      ensures allowed ==> Grants(requests, window, limit) == Grants(old(requests), window, limit) + [now]
    {
      Preparation(scores, expiresAt, requests, now, window, limit);
      hide Recent, Grants, Sorted, Serves, NotBefore, RetryAfter;
      ghost var recent := Recent(Grants(requests, window, limit), now, window);
      Prune(now);
      assert scores == recent;
      requests := requests + [now];
      var count := |scores|;
      allowed := count < limit;
      if allowed {
        scores := scores + [now];
        expiresAt := now + window;
        remaining, retryAfterMs := limit - count - 1, 0;
      } else {
        remaining := 0;
        retryAfterMs := RetryOfOldest(now);
      }
    }

    /** The script's answer to a request that it denies. */
    method RetryOfOldest(now: int) returns (retryAfterMs: int)
      ensures retryAfterMs == RetryAfter(scores, now, window)
    {
      retryAfterMs := window;
      if scores != [] {
        retryAfterMs := Max(1, window - (now - scores[0]));
      }
    }
  }

  /** The sorted set and the key's expiry are right for the requests so far. */
  ghost predicate Serves(scores: seq<int>, expiresAt: int, requests: seq<int>, window: nat, limit: nat)
  {
    && Sorted(requests) && Sorted(scores)
    && Outlives(expiresAt, Grants(requests, window, limit), window)
    && Agrees(scores, Grants(requests, window, limit), requests, window)
  }

  /** What the script may rely on: what it will see, and what the sorted set will be worth in either case. */
  lemma Preparation(scores: seq<int>, expiresAt: int, requests: seq<int>, now: int, window: nat, limit: nat)
    requires Serves(scores, expiresAt, requests, window, limit) && NotBefore(now, requests)
    ensures Sorted(scores)
    ensures var grants := Grants(requests, window, limit);
            var recent := Recent(grants, now, window);
            && (if now < expiresAt then Recent(scores, now, window) else []) == recent
            && (if |recent| < limit
                then Serves(recent + [now], now + window, requests + [now], window, limit) &&
                     Grants(requests + [now], window, limit) == grants + [now]
                else Serves(recent, expiresAt, requests + [now], window, limit))
  {
    var grants := Grants(requests, window, limit);
    SeenIsRecent(scores, expiresAt, grants, requests, now, window);
    GrantsAreRequests(requests, window, limit);
    SortedAppend(requests, now);
    AskedAgain(requests, now, window, limit);
    PrunedAgrees(grants, requests, now, window);
    GrantAgrees(grants, requests, now, window);
    hide Recent, Grants, Sorted, Agrees, Outlives, NotBefore;
  }

  /** The key lives at least as long as any of its grants counts. */
  ghost predicate Outlives(expiresAt: int, grants: seq<int>, window: nat)
  {
    forall x :: x in grants ==> x + window <= expiresAt
  }

  ghost predicate NotBefore(now: int, requests: seq<int>) { forall x :: x in requests ==> x <= now }

  /** From now on the sorted set counts as the list of all grants does. */
  ghost predicate Agrees(scores: seq<int>, grants: seq<int>, requests: seq<int>, window: nat)
  {
    forall now :: NotBefore(now, requests) ==> Recent(scores, now, window) == Recent(grants, now, window)
  }

  /** What is left after expiry and pruning is what counts: a key expires only when nothing in it does. */
  lemma SeenIsRecent(scores: seq<int>, expiresAt: int, grants: seq<int>, requests: seq<int>, now: int, window: nat)
    requires Agrees(scores, grants, requests, window) && Outlives(expiresAt, grants, window) && NotBefore(now, requests)
    ensures (if now < expiresAt then Recent(scores, now, window) else []) == Recent(grants, now, window)
  {
    RecentIsLater(grants, now, window);
    var recent := Recent(grants, now, window);
    assert Recent(scores, now, window) == recent;
    if recent != [] {
      var first := recent[0];
      assert first in Recent(grants, now, window);
    }
  }

  lemma {:induction false} RecentConcat(a: seq<int>, b: seq<int>, now: int, window: nat)
    ensures Recent(a + b, now, window) == Recent(a, now, window) + Recent(b, now, window)
  {
    if b == [] {
      assert a + b == a;
    } else {
      assert (a + b)[..|a + b| - 1] == a + b[..|b| - 1];
      RecentConcat(a, b[..|b| - 1], now, window);
    }
  }

  lemma {:induction false} RecentNone(grants: seq<int>, now: int, window: nat)
    requires forall i :: 0 <= i < |grants| ==> grants[i] <= now - window
    ensures Recent(grants, now, window) == []
  {
    if grants != [] {
      RecentNone(grants[..|grants| - 1], now, window);
    }
  }

  lemma RecentIsSuffix(scores: seq<int>, first: nat, now: int, window: nat)
    requires Sorted(scores) && first <= |scores|
    requires forall i :: 0 <= i < first ==> scores[i] <= now - window
    requires first < |scores| ==> scores[first] > now - window
    ensures Recent(scores, now, window) == scores[first..]
  {
    hide Recent;
    RecentNone(scores[..first], now, window);
    RecentAll(scores[first..], now, window);
    RecentConcat(scores[..first], scores[first..], now, window);
    assert scores == scores[..first] + scores[first..];
  }

  lemma AskedAgain(requests: seq<int>, now: int, window: nat, limit: nat)
    ensures var grants := Grants(requests, window, limit);
            Grants(requests + [now], window, limit) ==
              if |Recent(grants, now, window)| < limit then grants + [now] else grants
  {
    assert (requests + [now])[..|requests|] == requests;
  }

  lemma LaterStill(requests: seq<int>, now: int, later: int)
    requires NotBefore(later, requests + [now])
    ensures now <= later && NotBefore(later, requests)
  {
    assert now in requests + [now];
    assert forall x :: x in requests ==> x in requests + [now];
  }

  lemma PrunedAgrees(grants: seq<int>, requests: seq<int>, now: int, window: nat)
    requires NotBefore(now, requests) && Sorted(grants)
    ensures Agrees(Recent(grants, now, window), grants, requests + [now], window)
    ensures Sorted(Recent(grants, now, window))
  {
    RecentIsLater(grants, now, window);
    var recent := Recent(grants, now, window);
    forall later | NotBefore(later, requests + [now])
      ensures Recent(recent, later, window) == Recent(grants, later, window)
    {
      LaterStill(requests, now, later);
      RecentLater(grants, now, later, window);
    }
  }

  lemma GrantAgrees(grants: seq<int>, requests: seq<int>, now: int, window: nat)
    requires NotBefore(now, requests) && Sorted(grants) && forall x :: x in grants ==> x in requests
    ensures var recent := Recent(grants, now, window);
            && Sorted(recent + [now]) && Agrees(recent + [now], grants + [now], requests + [now], window)
            && Outlives(now + window, grants + [now], window)
  {
    RecentIsLater(grants, now, window);
    var recent := Recent(grants, now, window);
    SortedAppend(recent, now);
    forall later | NotBefore(later, requests + [now])
      ensures Recent(recent + [now], later, window) == Recent(grants + [now], later, window)
    {
      LaterStill(requests, now, later);
      RecentLater(grants, now, later, window);
      OneMoreGrant(grants, now, later, window);
      OneMoreGrant(recent, now, later, window);
    }
  }

  // ---------- the fixed windows in memory ----------

  const MAXIMUM_LOCAL_SCOPES := 10000
  const INSPECTED := 1000

  datatype Window = Window(count: nat, resetAt: int)

  predicate Over(windows: map<string, Window>, scope: string, now: int)
  {
    scope in windows && windows[scope].resetAt <= now
  }

  /** The first loop of `trim_local_windows`: inspect at most `budget` scopes, drop at most `excess` that are over. */
  function Swept(order: seq<string>, windows: map<string, Window>, now: int, budget: nat, excess: nat): seq<string>
    decreases |order|
  {
    if order == [] || budget == 0 || excess == 0 then order
    else if Over(windows, order[0], now) then Swept(order[1..], windows, now, budget - 1, excess - 1)
    else [order[0]] + Swept(order[1..], windows, now, budget - 1, excess)
  }

  /** Its second loop: drop the oldest until the rest fits. */
  function Fitting(order: seq<string>): seq<string>
  {
    if |order| > MAXIMUM_LOCAL_SCOPES then order[|order| - MAXIMUM_LOCAL_SCOPES..] else order
  }

  function Trimmed(order: seq<string>, windows: map<string, Window>, now: int): seq<string>
  {
    if |order| <= MAXIMUM_LOCAL_SCOPES then order
    else Fitting(Swept(order, windows, now, INSPECTED, |order| - MAXIMUM_LOCAL_SCOPES))
  }

  function Without(order: seq<string>, k: nat): seq<string>
    requires k < |order|
  {
    order[..k] + order[k + 1..]
  }

  /** The first of the inspected scopes whose window is over, if there is one. */
  ghost predicate FirstOver(order: seq<string>, windows: map<string, Window>, now: int, budget: nat, k: nat)
  {
    && k < |order| && k < budget && Over(windows, order[k], now)
    && forall j :: 0 <= j < k ==> !Over(windows, order[j], now)
  }

  lemma {:induction false} SweepRemovesOne(order: seq<string>, windows: map<string, Window>, now: int, budget: nat)
    returns (over: Option<nat>)
    ensures over.Some? ==> FirstOver(order, windows, now, budget, over.value)
    ensures over.Some? ==> Swept(order, windows, now, budget, 1) == Without(order, over.value)
    ensures over.None? ==> forall j :: 0 <= j < |order| && j < budget ==> !Over(windows, order[j], now)
    ensures over.None? ==> Swept(order, windows, now, budget, 1) == order
    decreases |order|
  {
    over := None;
    if order != [] && budget > 0 {
      var rest := order[1..];
      assert order == [order[0]] + rest;
      if Over(windows, order[0], now) {
        over := Some(0);
        assert Without(order, 0) == rest;
      } else {
        var later := SweepRemovesOne(rest, windows, now, budget - 1);
        if later.Some? {
          over := Some(later.value + 1);
          assert Without(order, later.value + 1) == [order[0]] + Without(rest, later.value);
        }
      }
    }
  }

  /**
   One scope too many costs one scope: the first of the thousand oldest whose window is over, and the oldest if there
   is none. The newest scope stays if its window is not over.
   */
  lemma TrimRemovesOne(order: seq<string>, windows: map<string, Window>, now: int) returns (k: nat)
    requires |order| == MAXIMUM_LOCAL_SCOPES + 1
    ensures k < MAXIMUM_LOCAL_SCOPES && Trimmed(order, windows, now) == Without(order, k)
    ensures if exists j :: 0 <= j < INSPECTED && order[j] in windows && windows[order[j]].resetAt <= now
            then k < INSPECTED && order[k] in windows && windows[order[k]].resetAt <= now &&
                 forall j :: 0 <= j < k && order[j] in windows ==> windows[order[j]].resetAt > now
            else k == 0
  {
    var over := SweepRemovesOne(order, windows, now, INSPECTED);
    k := if over.Some? then over.value else 0;
    assert Trimmed(order, windows, now) == Without(order, k);
  }

  // ---------- the object ----------

  class LocalLimiter {
    const windowMs: nat
    const limit: nat
    var order: seq<string>                  // the map's insertion order
    var windows: map<string, Window>

    ghost predicate Valid()
      reads this
    {
      && Listed(order, windows) && |order| <= MAXIMUM_LOCAL_SCOPES
      && forall scope :: scope in windows ==> windows[scope].count <= limit
    }

    constructor (windowMs: nat, limit: nat)
      requires windowMs > 0 && limit > 0
      ensures Valid() && windows == map[] && this.windowMs == windowMs && this.limit == limit
    {
      this.windowMs, this.limit, order, windows := windowMs, limit, [], map[];
    }

    /** `Map.delete` */
    method Delete(k: nat)
      requires k < |order| && Listed(order, windows)
      modifies this
      ensures order == Without(old(order), k) && windows == old(windows) - {old(order)[k]}
      ensures Listed(order, windows)
    {
      WithoutListed(order, windows, k);
      windows := windows - {order[k]};
      order := order[..k] + order[k + 1..];
    }

    method TrimLocalWindows(now: int)
      requires Listed(order, windows)
      modifies this
      ensures order == Trimmed(old(order), old(windows), now) && Listed(order, windows)
      ensures Kept(old(windows), windows)
    {
      SizeIsLength(order, windows);
      if |windows| <= MAXIMUM_LOCAL_SCOPES {
        return;
      }
      hide Swept, Listed;
      InspectOldest(now);
      EvictOldest();
    }

    method InspectOldest(now: int)
      requires Listed(order, windows) && |order| > MAXIMUM_LOCAL_SCOPES
      modifies this
      ensures order == Swept(old(order), old(windows), now, INSPECTED, |old(order)| - MAXIMUM_LOCAL_SCOPES)
      ensures Listed(order, windows) && Kept(old(windows), windows)
    {
      hide Swept, Listed;
      ghost var all := windows;
      var inspected, at := 0, 0;
      assert order[..0] + Swept(order[0..], all, now, INSPECTED, |order| - MAXIMUM_LOCAL_SCOPES)
          == Swept(order, all, now, INSPECTED, |order| - MAXIMUM_LOCAL_SCOPES) by {
        assert order[0..] == order;
      }
      while at < |order| && inspected < INSPECTED && |order| > MAXIMUM_LOCAL_SCOPES
        invariant 0 <= at <= |order| && 0 <= inspected <= INSPECTED && |order| >= MAXIMUM_LOCAL_SCOPES
        invariant Listed(order, windows) && Kept(all, windows)
        invariant order[..at] + Swept(order[at..], all, now, INSPECTED - inspected, |order| - MAXIMUM_LOCAL_SCOPES)
               == Swept(old(order), all, now, INSPECTED, |old(order)| - MAXIMUM_LOCAL_SCOPES)
        decreases |order| - at
      {
        IsListed(order, windows, at);
        if Over(windows, order[at], now) {
          SweptDrop(order, all, now, at, INSPECTED - inspected, |order| - MAXIMUM_LOCAL_SCOPES);
          Delete(at);
        } else {
          SweptKeep(order, all, now, at, INSPECTED - inspected, |order| - MAXIMUM_LOCAL_SCOPES);
          at := at + 1;
        }
        inspected := inspected + 1;
      }
      SweptStop(order, all, now, at, INSPECTED - inspected, |order| - MAXIMUM_LOCAL_SCOPES);
    }

    method EvictOldest()
      requires Listed(order, windows)
      modifies this
      ensures order == Fitting(old(order)) && Listed(order, windows) && Kept(old(windows), windows)
    {
      hide Listed;
      while |order| > MAXIMUM_LOCAL_SCOPES
        invariant Listed(order, windows) && Kept(old(windows), windows)
        invariant Fitting(order) == Fitting(old(order))
      {
        Delete(0);
      }
    }

    /** `consume_local`; what a run of such calls grants is below, in `AtMostLimitPerWindow`. */
    method ConsumeLocal(scope: string, now: int) returns (allowed: bool, remaining: nat, retryAfterSeconds: nat)
      requires Valid() && limit > 0 && windowMs > 0
      modifies this
      ensures Valid() && scope in windows && windows[scope].resetAt > now
      ensures Answered(old(windows), windows, Ask(scope, now), windowMs, limit)
      ensures allowed <==> GrantsNow(old(windows), Ask(scope, now), windowMs, limit)
      ensures if scope !in old(windows) || old(windows)[scope].resetAt <= now
              then allowed && windows[scope] == Window(1, now + windowMs)
              else windows[scope].resetAt == old(windows)[scope].resetAt && (allowed <==> old(windows)[scope].count < limit)
      ensures remaining == limit - windows[scope].count && (allowed ==> retryAfterSeconds == 0)
      ensures !allowed ==> now + 1000 * retryAfterSeconds >= windows[scope].resetAt > now + 1000 * (retryAfterSeconds - 1)
    {
      var current := if scope in windows && windows[scope].resetAt > now then windows[scope]
                     else Window(0, now + windowMs);
      if current.count >= limit {
        DenialAnswers(windows, Ask(scope, now), windowMs, limit);
        return false, 0, Max(1, CeilSeconds(current.resetAt - now));
      }
      current := current.(count := current.count + 1);
      MoveToEnd(scope, current);
      NewestStays(order, windows, now);
      hide Listed, Trimmed, Kept;
      TrimLocalWindows(now);
      IsListed(order, windows, |order| - 1);
      GrantAnswers(old(windows), windows, Ask(scope, now), windowMs, limit);
      return true, limit - current.count, 0;
    }

    /** `Map.delete`, then `Map.set` */
    method MoveToEnd(scope: string, window: Window)
      requires Listed(order, windows)
      modifies this
      ensures windows == old(windows)[scope := window] && Listed(order, windows)
      ensures order != [] && order[|order| - 1] == scope && |order| <= |old(order)| + 1
    {
      if scope in windows {
        var k := 0;
        while order[k] != scope
          invariant 0 <= k < |order| && scope in order[k..]
          decreases |order| - k
        {
          k := k + 1;
        }
        Delete(k);
      }
      order := order + [scope];
      windows := windows[scope := window];
    }
  }

  // ---------- runs of the local limiter ----------

  datatype Ask = Ask(scope: string, now: int)

  /** The window that a request is counted in: the remembered one until it resets, then a new one. */
  function CurrentWindow(windows: map<string, Window>, a: Ask, windowMs: nat): Window
  {
    if a.scope in windows && windows[a.scope].resetAt > a.now then windows[a.scope] else Window(0, a.now + windowMs)
  }

  predicate GrantsNow(windows: map<string, Window>, a: Ask, windowMs: nat, limit: nat)
  {
    CurrentWindow(windows, a, windowMs).count < limit
  }

  /** One call: the window of its scope has counted it if it was granted; of the others some may have been evicted. */
  ghost predicate Answered(before: map<string, Window>, after: map<string, Window>, a: Ask, windowMs: nat, limit: nat)
  {
    var current := CurrentWindow(before, a, windowMs);
    && a.scope in after && after[a.scope].resetAt == current.resetAt
    && after[a.scope].count == current.count + (if GrantsNow(before, a, windowMs, limit) then 1 else 0)
    && Kept(before[a.scope := after[a.scope]], after)
  }

  /** `states[k]` and `states[k + 1]` are the remembered windows around request `k`. */
  ghost predicate Trace(states: seq<map<string, Window>>, asks: seq<Ask>, windowMs: nat, limit: nat)
  {
    |states| == |asks| + 1 && forall k :: 0 <= k < |asks| ==> Answered(states[k], states[k + 1], asks[k], windowMs, limit)
  }

  ghost predicate Remembers(windows: map<string, Window>, scope: string, resetAt: int)
  {
    scope in windows && windows[scope].resetAt == resetAt
  }

  /** How many of the requests `n` to `m - 1` were granted to `scope`. */
  function GrantsTo(states: seq<map<string, Window>>, asks: seq<Ask>, scope: string, windowMs: nat, limit: nat, n: nat, m: nat)
    : nat
    requires n <= m <= |asks| < |states|
    decreases m
  {
    if n == m then 0
    else
      GrantsTo(states, asks, scope, windowMs, limit, n, m - 1) +
      if asks[m - 1].scope == scope && GrantsNow(states[m - 1], asks[m - 1], windowMs, limit) then 1 else 0
  }

  /**
   Whatever other scopes do, from the request that gives a scope a new window until that window resets or is evicted at
   most `limit` requests of the scope are granted, its count says how many, and one that comes before the reset is denied
   only when there have been that many. The reset is one window length after that first request.
   */
  lemma {:induction false} AtMostLimitPerWindow(
    states: seq<map<string, Window>>, asks: seq<Ask>, windowMs: nat, limit: nat, scope: string, resetAt: int, n: nat, m: nat)
    requires Trace(states, asks, windowMs, limit) && limit > 0 && windowMs > 0 && n < m <= |asks|
    requires !Remembers(states[n], scope, resetAt) && forall k :: n < k <= m ==> Remembers(states[k], scope, resetAt)
    ensures scope in states[m] &&
            states[m][scope].count == GrantsTo(states, asks, scope, windowMs, limit, n, m) <= limit
    ensures asks[n].scope == scope && resetAt == asks[n].now + windowMs
    ensures m < |asks| && asks[m].scope == scope && asks[m].now < resetAt ==>
              (GrantsNow(states[m], asks[m], windowMs, limit) <==>
               GrantsTo(states, asks, scope, windowMs, limit, n, m) < limit)
    decreases m
  {
    assert Answered(states[m - 1], states[m], asks[m - 1], windowMs, limit);
    assert Remembers(states[m], scope, resetAt);
    if m == n + 1 {
      FirstOfWindow(states[n], states[m], asks[n], windowMs, limit, scope, resetAt);
      assert GrantsTo(states, asks, scope, windowMs, limit, n, n) == 0;
    } else {
      AtMostLimitPerWindow(states, asks, windowMs, limit, scope, resetAt, n, m - 1);
      assert Remembers(states[m - 1], scope, resetAt);
      NextOfWindow(states[m - 1], states[m], asks[m - 1], windowMs, limit, scope, resetAt);
    }
    hide Answered, Kept;
  }

  lemma DenialAnswers(windows: map<string, Window>, a: Ask, windowMs: nat, limit: nat)
    requires limit > 0 && !GrantsNow(windows, a, windowMs, limit)
    ensures Answered(windows, windows, a, windowMs, limit)
  {
  }

  lemma GrantAnswers(before: map<string, Window>, after: map<string, Window>, a: Ask, windowMs: nat, limit: nat)
    requires GrantsNow(before, a, windowMs, limit) && a.scope in after
    requires var current := CurrentWindow(before, a, windowMs);
             Kept(before[a.scope := Window(current.count + 1, current.resetAt)], after)
    ensures Answered(before, after, a, windowMs, limit)
    ensures after[a.scope] == Window(CurrentWindow(before, a, windowMs).count + 1, CurrentWindow(before, a, windowMs).resetAt)
    ensures (forall scope :: scope in before ==> before[scope].count <= limit) ==>
              forall scope :: scope in after ==> after[scope].count <= limit
  {
  }

  lemma FirstOfWindow(
    before: map<string, Window>, after: map<string, Window>, a: Ask, windowMs: nat, limit: nat, scope: string, resetAt: int)
    requires Answered(before, after, a, windowMs, limit) && limit > 0
    requires !Remembers(before, scope, resetAt) && Remembers(after, scope, resetAt)
    ensures a.scope == scope && GrantsNow(before, a, windowMs, limit) && after[scope].count == 1
    ensures resetAt == a.now + windowMs
  {
  }

  lemma NextOfWindow(
    before: map<string, Window>, after: map<string, Window>, a: Ask, windowMs: nat, limit: nat, scope: string, resetAt: int)
    requires Answered(before, after, a, windowMs, limit) && limit > 0 && windowMs > 0
    requires Remembers(before, scope, resetAt) && Remembers(after, scope, resetAt)
    ensures after[scope].count == before[scope].count +
              if a.scope == scope && GrantsNow(before, a, windowMs, limit) then 1 else 0
    ensures a.scope == scope && GrantsNow(before, a, windowMs, limit) ==> before[scope].count < limit
  {
  }

  /** Whatever windows are left are as they were. */
  ghost predicate Kept(before: map<string, Window>, after: map<string, Window>)
  {
    forall scope :: scope in after ==> scope in before && after[scope] == before[scope]
  }

  lemma IsListed(order: seq<string>, windows: map<string, Window>, k: nat)
    requires k < |order| && Listed(order, windows)
    ensures order[k] in windows
  {
  }

  lemma SweptDrop(order: seq<string>, windows: map<string, Window>, now: int, at: nat, budget: nat, excess: nat)
    requires at < |order| && budget > 0 && excess > 0 && Over(windows, order[at], now)
    ensures order[..at] + Swept(order[at..], windows, now, budget, excess)
         == Without(order, at)[..at] + Swept(Without(order, at)[at..], windows, now, budget - 1, excess - 1)
  {
    assert order[at..][1..] == order[at + 1..] == Without(order, at)[at..];
  }

  lemma SweptKeep(order: seq<string>, windows: map<string, Window>, now: int, at: nat, budget: nat, excess: nat)
    requires at < |order| && budget > 0 && excess > 0 && !Over(windows, order[at], now)
    ensures order[..at] + Swept(order[at..], windows, now, budget, excess)
         == order[..at + 1] + Swept(order[at + 1..], windows, now, budget - 1, excess)
  {
    assert order[at..][1..] == order[at + 1..];
    assert order[..at] + [order[at]] == order[..at + 1];
  }

  lemma SweptStop(order: seq<string>, windows: map<string, Window>, now: int, at: nat, budget: nat, excess: nat)
    requires at <= |order| && (at == |order| || budget == 0 || excess == 0)
    ensures order[..at] + Swept(order[at..], windows, now, budget, excess) == order
  {
    assert order[..at] + order[at..] == order;
  }

  /** The scope that was just served is the newest, and trimming does not evict it. */
  lemma NewestStays(order: seq<string>, windows: map<string, Window>, now: int)
    requires order != [] && |order| <= MAXIMUM_LOCAL_SCOPES + 1 && Listed(order, windows)
    ensures var trimmed := Trimmed(order, windows, now);
            0 < |trimmed| <= MAXIMUM_LOCAL_SCOPES && trimmed[|trimmed| - 1] == order[|order| - 1]
  {
    if |order| > MAXIMUM_LOCAL_SCOPES {
      var k := TrimRemovesOne(order, windows, now);
    }
  }

  /** `order` lists the keys of `windows`, each once. */
  ghost predicate Listed(order: seq<string>, windows: map<string, Window>)
  {
    && (forall i, j :: 0 <= i < j < |order| ==> order[i] != order[j])
    && (forall scope :: scope in windows <==> scope in order)
  }

  lemma WithoutListed(order: seq<string>, windows: map<string, Window>, k: nat)
    requires k < |order| && Listed(order, windows)
    ensures Listed(Without(order, k), windows - {order[k]})
  {
    assert order == order[..k] + [order[k]] + order[k + 1..];
    var rest := Without(order, k);
    forall scope ensures scope in windows - {order[k]} <==> scope in rest {
      if scope in order[..k] {
        var i :| 0 <= i < k && order[i] == scope;
      }
      if scope in order[k + 1..] {
        var i :| k < i < |order| && order[i] == scope;
      }
    }
  }

  lemma OneKeyLess(windows: map<string, Window>, scope: string)
    requires scope in windows
    ensures |windows| == |windows - {scope}| + 1
  {
    assert windows.Keys == (windows - {scope}).Keys + {scope};
  }

  lemma {:induction false} SizeIsLength(order: seq<string>, windows: map<string, Window>)
    requires Listed(order, windows)
    ensures |windows| == |order|
  {
    if order != [] {
      WithoutListed(order, windows, 0);
      assert Without(order, 0) == order[1..] && order[0] in windows;
      hide Listed, Without;
      SizeIsLength(order[1..], windows - {order[0]});
      OneKeyLess(windows, order[0]);
    } else {
      assert windows.Keys == {};
    }
  }
}
