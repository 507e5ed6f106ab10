/** The sliding-window limiter, src/common/stores/sliding-window-rate-limit.store.ts.
    Each key keeps a list of timestamps that is pruned at every hit and lives in a cache
    that drops it some lifetime after its last write. The reference is the full history. */
module SlidingWindow {
  import opened Basics
  import opened RateLimits

  datatype Entry = Entry(timestamps: seq<int>, expiresAt: int)

  /** The timestamps after the start of the window, in their order. */
  function Pruned(timestamps: seq<int>, windowStart: int): seq<int> {
    if timestamps == [] then []
    else
      var n := |timestamps| - 1;
      Pruned(timestamps[..n], windowStart) + (if timestamps[n] > windowStart then [timestamps[n]] else [])
  }

  /** The least timestamp. */
  function Oldest(timestamps: seq<int>): int
    requires timestamps != []
  {
    var n := |timestamps| - 1;
    if n == 0 then timestamps[0] else Min(Oldest(timestamps[..n]), timestamps[n])
  }

  lemma {:induction false} OldestIsLeast(timestamps: seq<int>)
    requires timestamps != []
    ensures Oldest(timestamps) in timestamps
    ensures forall i :: 0 <= i < |timestamps| ==> Oldest(timestamps) <= timestamps[i]
  {
    if |timestamps| > 1 {
      OldestIsLeast(timestamps[..|timestamps| - 1]);
    }
  }

  /** What the cache still holds for a key: an expired entry reads as an empty list. */
  function Cached(e: Option<Entry>, now: int): seq<int> {
    if e.Some? && now < e.value.expiresAt then e.value.timestamps else []
  }

  function Kept(e: Option<Entry>, windowMs: Millis, now: int): seq<int> {
    Pruned(Cached(e, now), now - windowMs) + [now]
  }

  function Reply(kept: seq<int>, windowMs: Millis, max: nat, now: int): RateLimitResult
    requires kept != []
  {
    RateLimitResult(|kept| <= max, Max(0, max - |kept|), Oldest(kept) + windowMs, |kept|, now - windowMs)
  }

  function HitEntry(e: Option<Entry>, windowMs: Millis, lifetime: Millis, max: nat, now: int)
    : (Entry, RateLimitResult) {
    var kept := Kept(e, windowMs, now);
    (Entry(kept, now + lifetime), Reply(kept, windowMs, max, now))
  }

  /** All hits of one key under a fixed window and limit. */
  function Run(windowMs: Millis, lifetime: Millis, max: nat, times: seq<int>)
    : (res: (Option<Entry>, seq<RateLimitResult>))
    ensures |res.1| == |times|
  {
    if times == [] then (None, [])
    else
      var n := |times| - 1;
      var (e, results) := Run(windowMs, lifetime, max, times[..n]);
      var (e', r) := HitEntry(e, windowMs, lifetime, max, times[n]);
      (Some(e'), results + [r])
  }

  lemma RunEmpty(windowMs: Millis, lifetime: Millis, max: nat)
    ensures Run(windowMs, lifetime, max, []) == (None, [])
  {
  }

  lemma RunStep(windowMs: Millis, lifetime: Millis, max: nat, times: seq<int>)
    requires times != []
    ensures var n := |times| - 1;
      var before, after := Run(windowMs, lifetime, max, times[..n]), Run(windowMs, lifetime, max, times);
      && after.0 == Some(Entry(Kept(before.0, windowMs, times[n]), times[n] + lifetime))
      && after.1[..n] == before.1
      && after.1[n] == Reply(Kept(before.0, windowMs, times[n]), windowMs, max, times[n])
  {
  }

  // ---------- pruning loses nothing that still matters ----------

  lemma {:induction false} PrunedCounts(timestamps: seq<int>, windowStart: int, hi: int)
    requires forall i :: 0 <= i < |timestamps| ==> timestamps[i] < hi
    ensures |Pruned(timestamps, windowStart)| == CountIn(timestamps, windowStart + 1, hi)
  {
    if timestamps != [] {
      PrunedCounts(timestamps[..|timestamps| - 1], windowStart, hi);
    }
  }

  lemma {:induction false} PrunedAppend(a: seq<int>, t: int, windowStart: int)
    ensures Pruned(a + [t], windowStart) == Pruned(a, windowStart) + (if t > windowStart then [t] else [])
  {
    assert (a + [t])[..|a|] == a;
  }

  lemma {:induction false} PruneAgain(timestamps: seq<int>, early: int, late: int)
    requires early <= late
    ensures Pruned(Pruned(timestamps, early), late) == Pruned(timestamps, late)
  {
    if timestamps != [] {
      var n := |timestamps| - 1;
      var rest := Pruned(timestamps[..n], early);
      PruneAgain(timestamps[..n], early, late);
      if timestamps[n] > early {
        PrunedAppend(rest, timestamps[n], late);
      } else {
        assert rest + [] == rest;
      }
    }
  }

  lemma {:induction false} PruneAll(timestamps: seq<int>, windowStart: int)
    requires forall i :: 0 <= i < |timestamps| ==> timestamps[i] <= windowStart
    ensures Pruned(timestamps, windowStart) == []
  {
    if timestamps != [] {
      PruneAll(timestamps[..|timestamps| - 1], windowStart);
    }
  }

  /** One hit on a list that is the history pruned at the last hit, expired or not. */
  lemma KeptIsPrunedHistory(windowMs: Millis, lifetime: Millis, past: seq<int>, now: int)
    requires NonDecreasing(past) && lifetime >= windowMs
    requires past != [] && past[|past| - 1] <= now
    ensures var last := past[|past| - 1];
      Kept(Some(Entry(Pruned(past, last - windowMs), last + lifetime)), windowMs, now)
      == Pruned(past + [now], now - windowMs)
  {
    hide Pruned;
    var last := past[|past| - 1];
    PrunedAppend(past, now, now - windowMs);
    if now < last + lifetime {
      PruneAgain(past, last - windowMs, now - windowMs);
    } else {
      PruneAll(past, now - windowMs);
      PruneAll([], now - windowMs);
    }
  }

  /** The stored list is the full history, pruned once at the last hit. */
  lemma {:induction false} StoredIsPrunedHistory(windowMs: Millis, lifetime: Millis, max: nat, times: seq<int>)
    requires NonDecreasing(times) && lifetime >= windowMs
    requires times != []
    ensures Run(windowMs, lifetime, max, times).0
            == Some(Entry(Pruned(times, times[|times| - 1] - windowMs), times[|times| - 1] + lifetime))
  {
    hide Run, Pruned, Oldest;
    var n := |times| - 1;
    var past, now := times[..n], times[n];
    assert past + [now] == times;
    RunStep(windowMs, lifetime, max, times);
    if n == 0 {
      RunEmpty(windowMs, lifetime, max);
      assert past == [];
      PrunedAppend([], now, now - windowMs);
    } else {
      StoredIsPrunedHistory(windowMs, lifetime, max, past);
      KeptIsPrunedHistory(windowMs, lifetime, past, now);
    }
  }

  /** What an answer must say about the history up to and including its own hit. */
  ghost predicate Accurate(r: RateLimitResult, windowMs: Millis, max: nat, history: seq<int>)
    requires history != []
  {
    var now := history[|history| - 1];
    && r.totalHits == CountIn(history, now - windowMs + 1, now + 1)
    && (r.allowed <==> r.totalHits <= max)
    && r.remaining == Max(0, max - r.totalHits)
    && r.resetTime - windowMs in history
    && r.resetTime - windowMs > now - windowMs
    && forall i :: 0 <= i < |history| && history[i] > now - windowMs ==> r.resetTime - windowMs <= history[i]
  }

  lemma PrunedReplyIsAccurate(windowMs: Millis, max: nat, history: seq<int>)
    requires NonDecreasing(history) && history != []
    requires Pruned(history, history[|history| - 1] - windowMs) != []
    ensures var now := history[|history| - 1];
      Accurate(Reply(Pruned(history, now - windowMs), windowMs, max, now), windowMs, max, history)
  {
    hide Pruned, Oldest, CountIn;
    var now := history[|history| - 1];
    var kept := Pruned(history, now - windowMs);
    PrunedCounts(history, now - windowMs, now + 1);
    PrunedMembers(history, now - windowMs);
    OldestIsLeast(kept);
    forall i | 0 <= i < |history| && history[i] > now - windowMs
      ensures Oldest(kept) <= history[i]
    {
      assert history[i] in kept;
    }
  }

  /** Every answer of every run reports exactly the hits of the never-pruned history in
      (now - windowMs, now], and a reset time at which the oldest of those leaves it. */
  lemma {:induction false} CountsWholeHistory(windowMs: Millis, lifetime: Millis, max: nat, times: seq<int>, i: nat)
    requires NonDecreasing(times) && lifetime >= windowMs
    requires i < |times|
    ensures Accurate(Run(windowMs, lifetime, max, times).1[i], windowMs, max, times[..i + 1])
  {
    hide Run, Pruned, Oldest, Accurate;
    var n := |times| - 1;
    RunStep(windowMs, lifetime, max, times);
    if i < n {
      CountsWholeHistory(windowMs, lifetime, max, times[..n], i);
      assert times[..n][..i + 1] == times[..i + 1];
    } else {
      StoredIsPrunedHistory(windowMs, lifetime, max, times);
      assert times[..i + 1] == times;
      assert Pruned(times, times[n] - windowMs) == Kept(Run(windowMs, lifetime, max, times[..n]).0, windowMs, times[n]);
      PrunedReplyIsAccurate(windowMs, max, times);
    }
  }

  lemma {:induction false} PrunedMembers(timestamps: seq<int>, windowStart: int)
    ensures forall t :: t in Pruned(timestamps, windowStart) <==> t in timestamps && t > windowStart
  {
    if timestamps != [] {
      var n := |timestamps| - 1;
      PrunedMembers(timestamps[..n], windowStart);
      assert timestamps == timestamps[..n] + [timestamps[n]];
    }
  }

  // ---------- the limit ----------

  /** In every run of hits that reach the cache no interval (t - windowMs, t] contains more than max allowed hits. */
  lemma {:induction false} AtMostMaxPerWindow(windowMs: Millis, lifetime: Millis, max: nat, times: seq<int>, t: int)
    requires NonDecreasing(times) && lifetime >= windowMs
    ensures AllowedIn(times, Run(windowMs, lifetime, max, times).1, t - windowMs + 1, t + 1) <= max
  {
    hide Run, Pruned, Oldest, CountIn;
    if times != [] {
      var n := |times| - 1;
      var results := Run(windowMs, lifetime, max, times).1;
      AtMostMaxPerWindow(windowMs, lifetime, max, times[..n], t);
      RunStep(windowMs, lifetime, max, times);
      if t - windowMs < times[n] <= t && results[n].allowed {
        CountsWholeHistory(windowMs, lifetime, max, times, n);
        assert times[..n + 1] == times;
        AllowedAtMostCount(times, results, t - windowMs + 1, t + 1);
        CountWiden(times, t - windowMs + 1, t + 1, times[n] - windowMs + 1, times[n] + 1);
      }
    }
  }

  // ---------- rejected cache accesses ----------

  /** The answer when the cache rejects an access: the hit is allowed and leaves no trace. */
  function Fallback(windowMs: Millis, max: nat, now: int): RateLimitResult {
    RateLimitResult(true, max - 1, now + windowMs, 1, now - windowMs)
  }

  /** It is the answer of the first hit ever, except that a limit of 0 is ignored. */
  lemma FallbackIsFirst(windowMs: Millis, lifetime: Millis, max: nat, now: int)
    ensures max >= 1 ==> Fallback(windowMs, max, now) == HitEntry(None, windowMs, lifetime, max, now).1
    ensures max == 0 ==> Fallback(windowMs, max, now) == RateLimitResult(true, -1, now + windowMs, 1, now - windowMs)
  {
    PruneAll([], now - windowMs);
    assert Kept(None, windowMs, now) == [now];
  }

  /** All hits of one key, with rejections. */
  function FaultyRun(windowMs: Millis, lifetime: Millis, max: nat, attempts: seq<Attempt>)
    : (res: (Option<Entry>, seq<RateLimitResult>))
    ensures |res.1| == |attempts|
  {
    if attempts == [] then (None, [])
    else
      var n := |attempts| - 1;
      var (e, results) := FaultyRun(windowMs, lifetime, max, attempts[..n]);
      if attempts[n].up then
        var (e', r) := HitEntry(e, windowMs, lifetime, max, attempts[n].at);
        (Some(e'), results + [r])
      else (e, results + [Fallback(windowMs, max, attempts[n].at)])
  }

  /** Allowed hits with lo <= time < hi. */
  function AllowedOf(windowMs: Millis, lifetime: Millis, max: nat, attempts: seq<Attempt>, lo: int, hi: int): nat {
    AllowedIn(TimesOf(attempts), FaultyRun(windowMs, lifetime, max, attempts).1, lo, hi)
  }

  lemma FaultyStep(windowMs: Millis, lifetime: Millis, max: nat, attempts: seq<Attempt>, lo: int, hi: int)
    requires attempts != []
    ensures var n := |attempts| - 1;
      var before, after := FaultyRun(windowMs, lifetime, max, attempts[..n]),
                           FaultyRun(windowMs, lifetime, max, attempts);
      && after.0 == (if attempts[n].up then Some(HitEntry(before.0, windowMs, lifetime, max, attempts[n].at).0)
                        else before.0)
      && after.1[n] == (if attempts[n].up then HitEntry(before.0, windowMs, lifetime, max, attempts[n].at).1
                        else Fallback(windowMs, max, attempts[n].at))
      && AllowedOf(windowMs, lifetime, max, attempts, lo, hi)
         == AllowedOf(windowMs, lifetime, max, attempts[..n], lo, hi)
            + (if lo <= attempts[n].at < hi && after.1[n].allowed then 1 else 0)
  {
    hide HitEntry, Fallback;
    var n := |attempts| - 1;
    assert TimesOf(attempts)[..n] == TimesOf(attempts[..n]);
    assert FaultyRun(windowMs, lifetime, max, attempts).1[..n] == FaultyRun(windowMs, lifetime, max, attempts[..n]).1;
  }

  lemma RunAllowedStep(windowMs: Millis, lifetime: Millis, max: nat, past: seq<int>, now: int, lo: int, hi: int)
    ensures var (e, r) := HitEntry(Run(windowMs, lifetime, max, past).0, windowMs, lifetime, max, now);
      && Run(windowMs, lifetime, max, past + [now]).0 == Some(e)
      && AllowedIn(past + [now], Run(windowMs, lifetime, max, past + [now]).1, lo, hi)
         == AllowedIn(past, Run(windowMs, lifetime, max, past).1, lo, hi)
            + (if lo <= now < hi && r.allowed then 1 else 0)
  {
    hide HitEntry;
    var times := past + [now];
    assert times[..|past|] == past;
    assert Run(windowMs, lifetime, max, times).1[..|past|] == Run(windowMs, lifetime, max, past).1;
  }

  /** A rejected hit leaves no trace: the entry is that of the hits which reach the cache, and
      exactly the rejected hits are allowed besides theirs. */
  lemma {:induction false} RejectedHitsAddUp(windowMs: Millis, lifetime: Millis, max: nat, attempts: seq<Attempt>,
                                             lo: int, hi: int)
    ensures var times := Reached(attempts);
      && FaultyRun(windowMs, lifetime, max, attempts).0 == Run(windowMs, lifetime, max, times).0
      && AllowedOf(windowMs, lifetime, max, attempts, lo, hi)
         == AllowedIn(times, Run(windowMs, lifetime, max, times).1, lo, hi) + FailedIn(attempts, lo, hi)
  {
    hide AllowedOf, FaultyRun, Run, HitEntry, AllowedIn;
    if attempts == [] {
      NothingRuns(windowMs, lifetime, max, lo, hi);
    } else {
      var n := |attempts| - 1;
      RejectedHitsAddUp(windowMs, lifetime, max, attempts[..n], lo, hi);
      FaultyStep(windowMs, lifetime, max, attempts, lo, hi);
      if attempts[n].up {
        RunAllowedStep(windowMs, lifetime, max, Reached(attempts[..n]), attempts[n].at, lo, hi);
      } else {
        assert Reached(attempts) == Reached(attempts[..n]);
      }
    }
  }

  lemma NothingRuns(windowMs: Millis, lifetime: Millis, max: nat, lo: int, hi: int)
    ensures FaultyRun(windowMs, lifetime, max, []).0 == Run(windowMs, lifetime, max, []).0 == None
    ensures AllowedOf(windowMs, lifetime, max, [], lo, hi) == 0
    ensures AllowedIn([], Run(windowMs, lifetime, max, []).1, lo, hi) == 0
  {
  }

  /** With rejections, every window contains at most max allowed hits and its rejected ones. */
  lemma AtMostMaxAndFailed(windowMs: Millis, lifetime: Millis, max: nat, attempts: seq<Attempt>, t: int)
    requires NonDecreasing(TimesOf(attempts)) && lifetime >= windowMs
    ensures AllowedOf(windowMs, lifetime, max, attempts, t - windowMs + 1, t + 1)
            <= max + FailedIn(attempts, t - windowMs + 1, t + 1)
  {
    RejectedHitsAddUp(windowMs, lifetime, max, attempts, t - windowMs + 1, t + 1);
    ReachedOrdered(attempts);
    AtMostMaxPerWindow(windowMs, lifetime, max, Reached(attempts), t);
  }

  /** The bound is reached in one millisecond, for any number m of rejections. */
  lemma MaxAndFailedIsReached(windowMs: Millis, lifetime: Millis, max: nat, m: nat)
    ensures var attempts := AllUp(Repeat(0, max)) + FailuresAt(0, m);
      && NonDecreasing(TimesOf(attempts)) && FailedIn(attempts, 1 - windowMs, 1) == m
      && AllowedOf(windowMs, lifetime, max, attempts, 1 - windowMs, 1) == max + m
  {
    hide AllowedOf, FaultyRun, Run;
    var burst := Repeat(0, max);
    ThenFailures(burst, 0, m, 1 - windowMs, 1);
    RejectedHitsAddUp(windowMs, lifetime, max, AllUp(burst) + FailuresAt(0, m), 1 - windowMs, 1);
    if max > 0 {
      BurstAccumulates(windowMs, lifetime, max, max);
    }
    AllowedAll(burst, Run(windowMs, lifetime, max, burst).1, 1 - windowMs, 1);
  }

  // ---------- when the promise holds ----------

  ghost predicate WindowKeepsLimit(windowMs: Millis, lifetime: Millis, max: nat, attempts: seq<Attempt>, t: int) {
    AllowedOf(windowMs, lifetime, max, attempts, t - windowMs + 1, t + 1) <= max
  }

  /** The documented promise, over every run and every window. */
  ghost predicate KeepsLimit(windowMs: Millis, lifetime: Millis, max: nat, mayFail: bool) {
    forall attempts, t :: NonDecreasing(TimesOf(attempts)) && Permitted(attempts, mayFail) ==>
      WindowKeepsLimit(windowMs, lifetime, max, attempts, t)
  }

  /** Hits in the same millisecond accumulate whatever the lifetime. */
  lemma {:induction false} BurstAccumulates(windowMs: Millis, lifetime: Millis, max: nat, n: nat)
    requires 1 <= n <= max
    ensures Run(windowMs, lifetime, max, Repeat(0, n)).0 == Some(Entry(Repeat(0, n), lifetime))
    ensures forall i :: 0 <= i < n ==> Run(windowMs, lifetime, max, Repeat(0, n)).1[i].allowed
  {
    hide Run, Pruned, Oldest;
    var past := Repeat(0, n - 1);
    assert Repeat(0, n)[..n - 1] == past;
    assert Repeat(0, n) == past + [0];
    RunStep(windowMs, lifetime, max, Repeat(0, n));
    PruneNone(past, 0 - windowMs);
    if n == 1 {
      RunEmpty(windowMs, lifetime, max);
      assert past == [];
    } else {
      BurstAccumulates(windowMs, lifetime, max, n - 1);
      var before, after := Run(windowMs, lifetime, max, past).1, Run(windowMs, lifetime, max, Repeat(0, n)).1;
      assert forall i :: 0 <= i < n - 1 ==> after[i] == before[i];
    }
    assert Kept(Run(windowMs, lifetime, max, past).0, windowMs, 0) == past + [0];
  }

  lemma {:induction false} PruneNone(timestamps: seq<int>, windowStart: int)
    requires forall i :: 0 <= i < |timestamps| ==> timestamps[i] > windowStart
    ensures Pruned(timestamps, windowStart) == timestamps
  {
    if timestamps != [] {
      PruneNone(timestamps[..|timestamps| - 1], windowStart);
    }
  }

  /** A cache that drops the list early lets max + 1 hits through in one window. */
  lemma EarlyExpiryBreaksLimit(windowMs: Millis, lifetime: Millis, max: nat)
    requires lifetime < windowMs && max >= 1
    ensures var times := Repeat(0, max) + [lifetime];
      && NonDecreasing(times)
      && AllowedIn(times, Run(windowMs, lifetime, max, times).1, lifetime - windowMs + 1, lifetime + 1) == max + 1
  {
    hide Run, AllowedIn, HitEntry;
    var times := Repeat(0, max) + [lifetime];
    var results := Run(windowMs, lifetime, max, times).1;
    BurstAccumulates(windowMs, lifetime, max, max);
    assert times[..max] == Repeat(0, max);
    RunStep(windowMs, lifetime, max, times);
    ExpiredIsForgotten(Repeat(0, max), windowMs, lifetime, max);
    assert forall i :: 0 <= i < max ==> results[i] == results[..max][i];
    AllowedAll(times, results, lifetime - windowMs + 1, lifetime + 1);
  }

  lemma ExpiredIsForgotten(timestamps: seq<int>, windowMs: Millis, lifetime: Millis, max: nat)
    requires max >= 1
    ensures HitEntry(Some(Entry(timestamps, lifetime)), windowMs, lifetime, max, lifetime).1.allowed
  {
    hide Oldest;
    PruneAll([], lifetime - windowMs);
  }

  lemma LimitHolds(windowMs: Millis, lifetime: Millis, max: nat, attempts: seq<Attempt>, t: int)
    requires NonDecreasing(TimesOf(attempts)) && Permitted(attempts, false) && (lifetime >= windowMs || max == 0)
    ensures WindowKeepsLimit(windowMs, lifetime, max, attempts, t)
  {
    hide AllowedOf, Run, Permitted;
    WithoutRejections(windowMs, lifetime, max, attempts, t - windowMs + 1, t + 1);
    if max == 0 {
      ZeroAllowsNothing(windowMs, lifetime, TimesOf(attempts), t - windowMs + 1, t + 1);
    } else {
      AtMostMaxPerWindow(windowMs, lifetime, max, TimesOf(attempts), t);
    }
  }

  lemma OneRejectionBreaksLimit(windowMs: Millis, lifetime: Millis, max: nat)
    ensures !KeepsLimit(windowMs, lifetime, max, true)
  {
    hide AllowedOf, TimesOf;
    MaxAndFailedIsReached(windowMs, lifetime, max, 1);
    assert !WindowKeepsLimit(windowMs, lifetime, max, AllUp(Repeat(0, max)) + FailuresAt(0, 1), 0);
  }

  lemma EarlyExpiryBreaksPromise(windowMs: Millis, lifetime: Millis, max: nat)
    requires lifetime < windowMs && max >= 1
    ensures !KeepsLimit(windowMs, lifetime, max, false)
  {
    hide AllowedOf, Run, AllowedIn;
    var times := Repeat(0, max) + [lifetime];
    EarlyExpiryBreaksLimit(windowMs, lifetime, max);
    assert TimesOf(AllUp(times)) == times;
    WithoutRejections(windowMs, lifetime, max, AllUp(times), lifetime - windowMs + 1, lifetime + 1);
    assert !WindowKeepsLimit(windowMs, lifetime, max, AllUp(times), lifetime);
  }

  /** The limiter keeps its promise on every run exactly when no access to the cache is rejected
      and the cache keeps an entry at least one window long after its last write, or the limit
      is 0. */
  lemma KeepsLimitExactly(windowMs: Millis, lifetime: Millis, max: nat, mayFail: bool)
    ensures KeepsLimit(windowMs, lifetime, max, mayFail) <==> !mayFail && (lifetime >= windowMs || max == 0)
  {
    hide WindowKeepsLimit, TimesOf, Permitted, NonDecreasing;
    if mayFail {
      OneRejectionBreaksLimit(windowMs, lifetime, max);
    } else if lifetime < windowMs && max > 0 {
      EarlyExpiryBreaksPromise(windowMs, lifetime, max);
    } else {
      forall attempts, t | NonDecreasing(TimesOf(attempts)) && Permitted(attempts, false)
        ensures WindowKeepsLimit(windowMs, lifetime, max, attempts, t)
      {
        LimitHolds(windowMs, lifetime, max, attempts, t);
      }
    }
  }

  lemma WithoutRejections(windowMs: Millis, lifetime: Millis, max: nat, attempts: seq<Attempt>, lo: int, hi: int)
    requires Permitted(attempts, false)
    ensures AllowedOf(windowMs, lifetime, max, attempts, lo, hi)
            == AllowedIn(TimesOf(attempts), Run(windowMs, lifetime, max, TimesOf(attempts)).1, lo, hi)
  {
    hide AllowedOf, Run;
    RejectedHitsAddUp(windowMs, lifetime, max, attempts, lo, hi);
    AllReached(attempts);
    NoneFailed(attempts, lo, hi);
  }

  lemma {:induction false} ZeroAllowsNothing(windowMs: Millis, lifetime: Millis, times: seq<int>, lo: int, hi: int)
    ensures AllowedIn(times, Run(windowMs, lifetime, 0, times).1, lo, hi) == 0
  {
    hide Run, Pruned, Oldest;
    if times != [] {
      var n := |times| - 1;
      ZeroAllowsNothing(windowMs, lifetime, times[..n], lo, hi);
      RunStep(windowMs, lifetime, 0, times);
    }
  }

  /** The TTL that line 24 passes: kept with a cache that counts TTLs in seconds, and with a
      cache that counts them in milliseconds only for windows of one millisecond. */
  lemma TtlUnitDecides(windowMs: Millis, max: nat)
    requires max >= 1
    ensures KeepsLimit(windowMs, Lifetime(windowMs, 1000), max, false)
    ensures KeepsLimit(windowMs, Lifetime(windowMs, 1), max, false) <==> windowMs == 1
  {
    LifetimeCovers(windowMs);
    KeepsLimitExactly(windowMs, Lifetime(windowMs, 1000), max, false);
    KeepsLimitExactly(windowMs, Lifetime(windowMs, 1), max, false);
  }

  // ---------- the store ----------

  class SlidingWindowRateLimitStore {
    var cache: map<string, Entry>
    const ttlUnitMs: Millis

    constructor (ttlUnitMs: Millis)
      ensures cache == map[] && this.ttlUnitMs == ttlUnitMs
    {
      cache := map[];
      this.ttlUnitMs := ttlUnitMs;
    }

    /** When the cache is down the hit is allowed and leaves no trace. */
    method Hit(key: string, windowMs: Millis, max: nat, now: int, cacheUp: bool) returns (result: RateLimitResult)
      modifies this
      ensures cacheUp ==>
        var (e, r) := HitEntry(Lookup(old(cache), key), windowMs, Lifetime(windowMs, ttlUnitMs), max, now);
        cache == old(cache)[key := e] && result == r
      ensures !cacheUp ==> cache == old(cache) && result == Fallback(windowMs, max, now)
    {
      var windowStart := now - windowMs;
      if !cacheUp {
        return RateLimitResult(true, max - 1, now + windowMs, 1, windowStart);
      }
      var timestamps := if key in cache && now < cache[key].expiresAt then cache[key].timestamps else [];
      var valid := FilterAfter(timestamps, windowStart);
      valid := valid + [now];
      assert valid == Kept(Lookup(cache, key), windowMs, now);
      cache := cache[key := Entry(valid, now + Lifetime(windowMs, ttlUnitMs))];
      result := RateLimitResult(|valid| <= max, Max(0, max - |valid|), Oldest(valid) + windowMs, |valid|, windowStart);
    }

    static method FilterAfter(timestamps: seq<int>, windowStart: int) returns (valid: seq<int>)
      ensures valid == Pruned(timestamps, windowStart)
    {
      valid := [];
      for i := 0 to |timestamps|
        invariant valid == Pruned(timestamps[..i], windowStart)
      {
        assert timestamps[..i + 1] == timestamps[..i] + [timestamps[i]];
        PrunedAppend(timestamps[..i], timestamps[i], windowStart);
        if timestamps[i] > windowStart {
          valid := valid + [timestamps[i]];
        }
      }
      assert timestamps[..|timestamps|] == timestamps;
    }

    method Reset(key: string)
      modifies this
      ensures cache == old(cache) - {key}
    {
      cache := cache - {key};
    }

    /** A hit against Number.MAX_SAFE_INTEGER. */
    method Increment(key: string, windowMs: Millis, now: int, cacheUp: bool) returns (totalHits: int)
      modifies this
      ensures cacheUp ==>
        var (e, r) := HitEntry(Lookup(old(cache), key), windowMs, Lifetime(windowMs, ttlUnitMs),
                               0x1F_FFFF_FFFF_FFFF, now);
        cache == old(cache)[key := e] && totalHits == r.totalHits
      ensures !cacheUp ==> cache == old(cache) && totalHits == 1
    {
      var result := Hit(key, windowMs, 0x1F_FFFF_FFFF_FFFF, now, cacheUp);
      totalHits := result.totalHits;
    }
  }
}
