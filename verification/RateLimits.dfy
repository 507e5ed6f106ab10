/** What all rate-limit stores answer (src/common/interfaces/rate-limit.interface.ts), and
    how the answers of a run are counted against its never-pruned history of hits. */
module RateLimits {
  import opened Basics

  datatype RateLimitResult =
    RateLimitResult(allowed: bool, remaining: int, resetTime: int, totalHits: int, windowStart: int)

  /** n hits in the same millisecond. */
  function Repeat(t: int, n: nat): (times: seq<int>)
    ensures |times| == n && forall i :: 0 <= i < n ==> times[i] == t
  {
    seq(n, _ => t)
  }

  /** The number of hits with lo <= time < hi. */
  function CountIn(times: seq<int>, lo: int, hi: int): nat {
    if times == [] then 0
    else
      var n := |times| - 1;
      CountIn(times[..n], lo, hi) + (if lo <= times[n] < hi then 1 else 0)
  }

  /** The number of allowed hits with lo <= time < hi. */
  function AllowedIn(times: seq<int>, results: seq<RateLimitResult>, lo: int, hi: int): nat
    requires |times| == |results|
  {
    if times == [] then 0
    else
      var n := |times| - 1;
      AllowedIn(times[..n], results[..n], lo, hi)
      + (if lo <= times[n] < hi && results[n].allowed then 1 else 0)
  }

  lemma {:induction false} AllowedAtMostCount(times: seq<int>, results: seq<RateLimitResult>, lo: int, hi: int)
    requires |times| == |results|
    ensures AllowedIn(times, results, lo, hi) <= CountIn(times, lo, hi)
  {
    if times != [] {
      AllowedAtMostCount(times[..|times| - 1], results[..|times| - 1], lo, hi);
    }
  }

  /** A wider interval counts at least as many hits; only bounds that cut the history matter. */
  lemma {:induction false} CountWiden(times: seq<int>, lo: int, hi: int, lo': int, hi': int)
    requires lo' <= lo
    requires hi <= hi' || forall i :: 0 <= i < |times| ==> times[i] < hi'
    ensures CountIn(times, lo, hi) <= CountIn(times, lo', hi')
  {
    if times != [] {
      CountWiden(times[..|times| - 1], lo, hi, lo', hi');
    }
  }

  lemma {:induction false} AllowedNone(times: seq<int>, results: seq<RateLimitResult>, lo: int, hi: int)
    requires |times| == |results|
    requires forall i :: 0 <= i < |times| ==> !(lo <= times[i] < hi)
    ensures AllowedIn(times, results, lo, hi) == 0
  {
    if times != [] {
      AllowedNone(times[..|times| - 1], results[..|times| - 1], lo, hi);
    }
  }

  /** Moving the right end past the last hit does not change the count. */
  lemma {:induction false} AllowedSameEnd(times: seq<int>, results: seq<RateLimitResult>, lo: int, hi: int, hi': int)
    requires |times| == |results|
    requires hi <= hi' && forall i :: 0 <= i < |times| ==> times[i] < hi
    ensures AllowedIn(times, results, lo, hi) == AllowedIn(times, results, lo, hi')
  {
    if times != [] {
      AllowedSameEnd(times[..|times| - 1], results[..|times| - 1], lo, hi, hi');
    }
  }

  lemma {:induction false} AllowedSplit(times: seq<int>, results: seq<RateLimitResult>, lo: int, mid: int, hi: int)
    requires |times| == |results| && lo <= mid <= hi
    ensures AllowedIn(times, results, lo, hi)
            == AllowedIn(times, results, lo, mid) + AllowedIn(times, results, mid, hi)
  {
    if times != [] {
      AllowedSplit(times[..|times| - 1], results[..|times| - 1], lo, mid, hi);
    }
  }

  /** If each of the hits lies in [lo, hi) and is allowed, all of them count. */
  lemma {:induction false} AllowedAll(times: seq<int>, results: seq<RateLimitResult>, lo: int, hi: int)
    requires |times| == |results|
    requires forall i :: 0 <= i < |times| ==> lo <= times[i] < hi && results[i].allowed
    ensures AllowedIn(times, results, lo, hi) == |times|
  {
    if times != [] {
      AllowedAll(times[..|times| - 1], results[..|times| - 1], lo, hi);
    }
  }

  // ---------- runs with rejected cache accesses ----------

  /** A hit, and whether the cache accepts its accesses. */
  datatype Attempt = Attempt(at: int, up: bool)

  function TimesOf(attempts: seq<Attempt>): (times: seq<int>)
    ensures |times| == |attempts| && forall i :: 0 <= i < |attempts| ==> times[i] == attempts[i].at
  {
    seq(|attempts|, i requires 0 <= i < |attempts| => attempts[i].at)
  }

  /** The hits that reach the cache. */
  function Reached(attempts: seq<Attempt>): seq<int> {
    if attempts == [] then []
    else
      var n := |attempts| - 1;
      Reached(attempts[..n]) + (if attempts[n].up then [attempts[n].at] else [])
  }

  /** The number of hits with lo <= time < hi that do not. */
  function FailedIn(attempts: seq<Attempt>, lo: int, hi: int): nat {
    if attempts == [] then 0
    else
      var n := |attempts| - 1;
      FailedIn(attempts[..n], lo, hi) + (if lo <= attempts[n].at < hi && !attempts[n].up then 1 else 0)
  }

  /** A run in which no access is rejected, unless that may happen. */
  predicate Permitted(attempts: seq<Attempt>, mayFail: bool) {
    mayFail || forall i :: 0 <= i < |attempts| ==> attempts[i].up
  }

  function AllUp(times: seq<int>): (attempts: seq<Attempt>)
    ensures |attempts| == |times| && forall i :: 0 <= i < |times| ==> attempts[i] == Attempt(times[i], true)
  {
    seq(|times|, i requires 0 <= i < |times| => Attempt(times[i], true))
  }

  function FailuresAt(t: int, m: nat): (attempts: seq<Attempt>)
    ensures |attempts| == m && forall i :: 0 <= i < m ==> attempts[i] == Attempt(t, false)
  {
    seq(m, _ => Attempt(t, false))
  }

  lemma {:induction false} ReachedInOrder(attempts: seq<Attempt>, t: int)
    requires NonDecreasing(TimesOf(attempts)) && forall i :: 0 <= i < |attempts| ==> attempts[i].at <= t
    ensures NonDecreasing(Reached(attempts))
    ensures forall i :: 0 <= i < |Reached(attempts)| ==> Reached(attempts)[i] <= t
  {
    if attempts != [] {
      var n := |attempts| - 1;
      assert TimesOf(attempts)[n] == attempts[n].at;
      assert forall i :: 0 <= i < n ==> TimesOf(attempts[..n])[i] == TimesOf(attempts)[i];
      assert forall i :: 0 <= i < n ==> TimesOf(attempts)[i] <= TimesOf(attempts)[n];
      ReachedInOrder(attempts[..n], attempts[n].at);
    }
  }

  lemma ReachedOrdered(attempts: seq<Attempt>)
    requires NonDecreasing(TimesOf(attempts))
    ensures NonDecreasing(Reached(attempts))
  {
    if attempts != [] {
      var n := |attempts| - 1;
      assert forall i :: 0 <= i < n ==> TimesOf(attempts)[i] <= TimesOf(attempts)[n];
      ReachedInOrder(attempts, attempts[n].at);
    }
  }

  lemma {:induction false} AllReached(attempts: seq<Attempt>)
    requires Permitted(attempts, false)
    ensures Reached(attempts) == TimesOf(attempts)
  {
    if attempts != [] {
      var n := |attempts| - 1;
      AllReached(attempts[..n]);
      assert TimesOf(attempts) == TimesOf(attempts[..n]) + [attempts[n].at];
    }
  }

  lemma {:induction false} NoneFailed(attempts: seq<Attempt>, lo: int, hi: int)
    requires Permitted(attempts, false)
    ensures FailedIn(attempts, lo, hi) == 0
  {
    if attempts != [] {
      NoneFailed(attempts[..|attempts| - 1], lo, hi);
    }
  }

  /** What failures after a run leave of it. */
  lemma {:induction false} ThenFailures(times: seq<int>, t: int, m: nat, lo: int, hi: int)
    requires lo <= t < hi
    ensures Reached(AllUp(times) + FailuresAt(t, m)) == times
    ensures FailedIn(AllUp(times) + FailuresAt(t, m), lo, hi) == m
  {
    var all := AllUp(times) + FailuresAt(t, m);
    if m == 0 {
      assert all == AllUp(times);
      AllReached(all);
      NoneFailed(all, lo, hi);
      assert TimesOf(all) == times;
    } else {
      ThenFailures(times, t, m - 1, lo, hi);
      assert all[..|all| - 1] == AllUp(times) + FailuresAt(t, m - 1);
    }
  }

  function CeilDiv(a: nat, d: Millis): nat {
    (a + d - 1) / d
  }

  /** How long a cache keeps an entry whose TTL is the window in seconds, rounded up, when it
      reads TTLs in units of `unitMs` milliseconds. */
  function Lifetime(windowMs: Millis, unitMs: Millis): Millis {
    DivMonotone(1000, windowMs + 999, 1000);
    assert CeilDiv(windowMs, 1000) >= 1;
    MulAtLeast(CeilDiv(windowMs, 1000), unitMs);
    CeilDiv(windowMs, 1000) * unitMs
  }

  /** Read in seconds, the TTL covers every window; read in milliseconds, only a 1 ms window. */
  lemma LifetimeCovers(windowMs: Millis)
    ensures Lifetime(windowMs, 1000) >= windowMs
    ensures Lifetime(windowMs, 1) >= windowMs <==> windowMs == 1
  {
  }
}
