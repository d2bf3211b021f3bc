/** The deterministic state of the scraper's anti-bot helper
    (`src/anti_bot.py`): a round-robin index over a proxy list and a sticky
    "rate limit seen" flag that doubles the polite delay between requests. */
module AntiBot {
  import opened Wrappers

  /** HTTP status that signals "Too Many Requests". */
  const TooManyRequests := 429

  /** Default delay bounds of `intelligent_delay`, in seconds. */
  const DefaultMinDelay := 5
  const DefaultMaxDelay := 10

  /** Upper bound of the back-off after a 429, in seconds. */
  const MaxBackoff := 60.0

  /** The index after one rotation step over a list of `n` proxies: the
      source's `(i + 1) % n`, for an index inside the list. */
  function NextIndex(i: nat, n: nat): (r: nat)
    requires i < n
    ensures r < n
    ensures r == (i + 1) % n
    ensures i < n - 1 ==> r == i + 1
    ensures i == n - 1 ==> r == 0
  {
    if i + 1 == n then 0 else i + 1
  }

  class AntiBot {
    var proxyList: seq<string>
    var currentProxyIndex: nat
    var requestCount: nat
    var rateLimitEncountered: bool

    /** The index is 0 while there is no proxy, and a position of the list
        otherwise. */
    ghost predicate Valid()
      reads this
    {
      if proxyList == [] then currentProxyIndex == 0 else currentProxyIndex < |proxyList|
    }

    /** A fresh helper: rotation starts at the first proxy, nothing has been
        counted and no rate limit has been seen. */
    constructor (proxies: seq<string>)
      ensures Valid()
      ensures proxyList == proxies
      ensures currentProxyIndex == 0 && requestCount == 0 && !rateLimitEncountered
    {
      proxyList := proxies;
      currentProxyIndex := 0;
      requestCount := 0;
      rateLimitEncountered := false;
    }

    /** `get_next_proxy`: no proxy and no change for an empty list; otherwise
        the proxy at the current index, and the index moves on by one,
        wrapping around at the end of the list. */
    method GetNextProxy() returns (proxy: Option<string>)
      requires Valid()
      modifies this
      ensures Valid()
      ensures proxyList == old(proxyList) && requestCount == old(requestCount)
      ensures rateLimitEncountered == old(rateLimitEncountered)
      ensures old(proxyList) == [] ==> proxy.None? && currentProxyIndex == old(currentProxyIndex)
      ensures old(proxyList) != [] ==>
                proxy == Some(proxyList[old(currentProxyIndex)])
                && currentProxyIndex == NextIndex(old(currentProxyIndex), |proxyList|)
    {
      if proxyList == [] {
        return None;
      }
      proxy := Some(proxyList[currentProxyIndex]);
      currentProxyIndex := (currentProxyIndex + 1) % |proxyList|;
    }

    /** The deterministic part of `handle_rate_limiting`: a 429 is reported
        and remembered; any other status changes nothing. */
    method HandleRateLimiting(responseStatus: int) returns (limited: bool)
      requires Valid()
      modifies this
      ensures Valid()
      ensures limited <==> responseStatus == TooManyRequests
      ensures rateLimitEncountered == (old(rateLimitEncountered) || responseStatus == TooManyRequests)
      ensures proxyList == old(proxyList) && currentProxyIndex == old(currentProxyIndex)
      ensures requestCount == old(requestCount)
    {
      if responseStatus == TooManyRequests {
        rateLimitEncountered := true;
        return true;
      }
      return false;
    }

    /** The bounds `intelligent_delay` draws its delay from: twice the base
        bounds once a rate limit has been seen, the base bounds before. */
    method IntelligentDelay(baseMin: int := DefaultMinDelay, baseMax: int := DefaultMaxDelay)
      returns (minDelay: int, maxDelay: int)
      ensures rateLimitEncountered ==> minDelay == 2 * baseMin && maxDelay == 2 * baseMax
      ensures !rateLimitEncountered ==> minDelay == baseMin && maxDelay == baseMax
      ensures baseMin <= baseMax ==> minDelay <= maxDelay
    {
      var multiplier := if rateLimitEncountered then 2 else 1;
      minDelay := baseMin * multiplier;
      maxDelay := baseMax * multiplier;
    }
  }

  // ---------------------------------------------------------------------------
  // Rotation over several calls

  /** The index after `k` calls of `get_next_proxy` from index `start`. */
  function IndexAfter(start: nat, n: nat, k: nat): (r: nat)
    requires start < n
    ensures r < n
  {
    if k == 0 then start else NextIndex(IndexAfter(start, n, k - 1), n)
  }

  /** Within one round, `k` calls move the index `k` places on, wrapping
      once past the end of the list. */
  lemma {:induction false} IndexAfterWithinRound(start: nat, n: nat, k: nat)
    requires start < n && k <= n
    ensures IndexAfter(start, n, k) == if start + k < n then start + k else start + k - n
  {
    if k > 0 {
      IndexAfterWithinRound(start, n, k - 1);
    }
  }

  /** The proxies served by `k` calls from index `start`, in order. */
  function Served(list: seq<string>, start: nat, k: nat): (r: seq<string>)
    requires start < |list|
    ensures |r| == k
  {
    if k == 0 then [] else Served(list, start, k - 1) + [list[IndexAfter(start, |list|, k - 1)]]
  }

  lemma {:induction false} ServedAt(list: seq<string>, start: nat, k: nat, j: nat)
    requires start < |list| && j < k
    ensures Served(list, start, k)[j] == list[IndexAfter(start, |list|, j)]
  {
    if j < k - 1 {
      ServedAt(list, start, k - 1, j);
    }
  }

  /** A full round of `len(proxy_list)` calls from any valid index serves
      every proxy exactly once, in list order starting at that index, and
      brings the index back to where it started. */
  lemma FullRound(list: seq<string>, start: nat)
    requires start < |list|
    ensures Served(list, start, |list|) == list[start..] + list[..start]
    ensures IndexAfter(start, |list|, |list|) == start
  {
    var n := |list|;
    var s := Served(list, start, n);
    var t := list[start..] + list[..start];
    forall j | 0 <= j < n
      ensures s[j] == t[j]
    {
      ServedAt(list, start, n, j);
      IndexAfterWithinRound(start, n, j);
    }
    IndexAfterWithinRound(start, n, n);
  }

  // ---------------------------------------------------------------------------
  // The rate-limit flag over several responses

  /** The flag after handling `statuses` in order, starting from `flag`. */
  function FlagAfter(flag: bool, statuses: seq<int>): bool
    decreases |statuses|
  {
    if statuses == [] then flag
    else FlagAfter(flag || statuses[0] == TooManyRequests, statuses[1..])
  }

  /** The flag is sticky: it is set after a run of responses exactly when it
      was set before or one of them was a 429. */
  lemma {:induction false} FlagAfterSticky(flag: bool, statuses: seq<int>)
    ensures FlagAfter(flag, statuses) <==> flag || TooManyRequests in statuses
    decreases |statuses|
  {
    if statuses != [] {
      FlagAfterSticky(flag || statuses[0] == TooManyRequests, statuses[1..]);
      assert statuses == [statuses[0]] + statuses[1..];
    }
  }

  // ---------------------------------------------------------------------------
  // Back-off after a 429

  function Pow2(k: nat): (r: nat)
    ensures r >= 1
  {
    if k == 0 then 1 else 2 * Pow2(k - 1)
  }

  /** `min(60, 2 ** attempt * u)` for a draw `u` from [1, 3]: never above
      a minute, and between `2 ** attempt` and three times that while
      those stay under the cap. */
  function Backoff(attempt: nat, u: real): (r: real)
    requires 1.0 <= u <= 3.0
    ensures 0.0 < r <= MaxBackoff
    ensures r == MaxBackoff || (Pow2(attempt) as real <= r <= 3.0 * Pow2(attempt) as real)
  {
    Capped(Pow2(attempt) as real, u)
  }

  function Capped(p: real, u: real): (r: real)
    requires 1.0 <= p && 1.0 <= u <= 3.0
    ensures 0.0 < r <= MaxBackoff
    ensures r == MaxBackoff || (p <= r <= 3.0 * p)
  {
    var t := p * u;
    ScaledDraw(p, u, t);
    if t < MaxBackoff then t else MaxBackoff
  }

  lemma ScaledDraw(p: real, u: real, t: real)
    requires 1.0 <= p && 1.0 <= u <= 3.0 && t == p * u
    ensures p <= t <= 3.0 * p
  {
    assert t - p == p * (u - 1.0);
    assert 3.0 * p - t == p * (3.0 - u);
  }
}
