/** The two fixed-window limiters: src/common/stores/memory-rate-limit.store.ts keeps one
    record a key, src/common/stores/redis-rate-limit.store.ts one expiring counter a key and
    window. The reference for both is the full history of hits. */
module FixedWindow {
  import opened Basics
  import opened RateLimits

  /** The start of the window that a time falls into, on the grid of whole windows. */
  function Aligned(now: int, windowMs: Millis): int {
    now / windowMs * windowMs
  }

  lemma AlignedBounds(now: int, windowMs: Millis)
    ensures Aligned(now, windowMs) <= now < Aligned(now, windowMs) + windowMs
  {
    DivMod(now, windowMs);
  }

  /** Every time of an aligned window has that window. */
  lemma SameWindow(a: int, b: int, windowMs: Millis)
    requires Aligned(a, windowMs) <= b < Aligned(a, windowMs) + windowMs
    ensures Aligned(b, windowMs) == Aligned(a, windowMs)
  {
    DivModUnique(b, windowMs, a / windowMs, b - Aligned(a, windowMs));
  }

  lemma AlignedMonotone(a: int, b: int, windowMs: Millis)
    requires a <= b
    ensures Aligned(a, windowMs) <= Aligned(b, windowMs)
    ensures Aligned(a, windowMs) == Aligned(b, windowMs) || Aligned(a, windowMs) + windowMs <= Aligned(b, windowMs)
  {
    DivMonotone(a, b, windowMs);
    if a / windowMs < b / windowMs {
      MulAtLeast(b / windowMs - a / windowMs, windowMs);
      Distribute(b / windowMs - a / windowMs, a / windowMs, windowMs);
    }
  }

  /** The hits of the history that fall into t's aligned window. */
  function WindowCount(history: seq<int>, t: int, windowMs: Millis): nat {
    CountIn(history, Aligned(t, windowMs), Aligned(t, windowMs) + windowMs)
  }

  lemma WindowCountStep(history: seq<int>, now: int, t: int, windowMs: Millis)
    ensures WindowCount(history + [now], t, windowMs)
            == WindowCount(history, t, windowMs) + (if Aligned(now, windowMs) == Aligned(t, windowMs) then 1 else 0)
  {
    assert (history + [now])[..|history|] == history;
    AlignedBounds(now, windowMs);
    if Aligned(t, windowMs) <= now < Aligned(t, windowMs) + windowMs {
      SameWindow(t, now, windowMs);
    }
  }

  function Reply(totalHits: nat, windowMs: Millis, max: nat, now: int): RateLimitResult {
    RateLimitResult(totalHits <= max, Max(0, max - totalHits), Aligned(now, windowMs) + windowMs,
                    totalHits, Aligned(now, windowMs))
  }

  // ---------- the in-memory record ----------

  datatype Record = Record(totalHits: nat, windowStart: int, resetTime: int)

  function Bump(r: Option<Record>, windowMs: Millis, now: int): Record {
    var start := Aligned(now, windowMs);
    if r.None? || r.value.windowStart != start then Record(1, start, start + windowMs)
    else r.value.(totalHits := r.value.totalHits + 1)
  }

  /** What get and cleanup do to one record: drop it once its window is over. */
  function Expire(r: Option<Record>, now: int): Option<Record> {
    if r.Some? && now > r.value.resetTime then None else r
  }

  /** What can happen to a key: a hit (or increment), or a get or cleanup that may drop it. */
  datatype Op = Hit(at: int) | Sweep(at: int)

  ghost predicate Ordered(ops: seq<Op>) {
    forall i, j :: 0 <= i < j < |ops| ==> ops[i].at <= ops[j].at
  }

  /** The history of hits behind a run. */
  function HitTimes(ops: seq<Op>): seq<int> {
    if ops == [] then []
    else
      var n := |ops| - 1;
      HitTimes(ops[..n]) + (if ops[n].Hit? then [ops[n].at] else [])
  }

  function Stored(windowMs: Millis, ops: seq<Op>): Option<Record> {
    if ops == [] then None
    else
      var n := |ops| - 1;
      var r := Stored(windowMs, ops[..n]);
      if ops[n].Hit? then Some(Bump(r, windowMs, ops[n].at)) else Expire(r, ops[n].at)
  }

  /** The answer of a hit at `now` after a run. */
  function Answer(windowMs: Millis, max: nat, ops: seq<Op>, now: int): RateLimitResult {
    Reply(Bump(Stored(windowMs, ops), windowMs, now).totalHits, windowMs, max, now)
  }

  /** A record says how many hits its own window has had; any other window has had none. */
  ghost predicate Counts(r: Option<Record>, history: seq<int>, t: int, windowMs: Millis) {
    WindowCount(history, t, windowMs)
    == if r.Some? && r.value.windowStart == Aligned(t, windowMs) then r.value.totalHits else 0
  }

  /** At every time t from the last operation on, the record counts the hits of t's window. */
  lemma {:induction false} StoredCounts(windowMs: Millis, ops: seq<Op>, t: int)
    requires Ordered(ops)
    requires forall i :: 0 <= i < |ops| ==> ops[i].at <= t
    ensures Stored(windowMs, ops).Some? ==>
      var r := Stored(windowMs, ops).value;
      r.resetTime == r.windowStart + windowMs && r.windowStart <= Aligned(t, windowMs)
    ensures Counts(Stored(windowMs, ops), HitTimes(ops), t, windowMs)
  {
    if ops != [] {
      var n := |ops| - 1;
      var now := ops[n].at;
      StoredCounts(windowMs, ops[..n], t);
      StoredCounts(windowMs, ops[..n], now);
      AlignedMonotone(now, t, windowMs);
      AlignedBounds(t, windowMs);
      if ops[n].Hit? {
        WindowCountStep(HitTimes(ops[..n]), now, t, windowMs);
        WindowCountStep(HitTimes(ops[..n]), now, now, windowMs);
      } else {
        assert HitTimes(ops[..n]) + [] == HitTimes(ops[..n]);
      }
    }
  }

  /** Every hit is told the number of hits in its aligned window, itself included: no get and
      no cleanup in between ever changes the answer of a later hit. */
  lemma MemoryCountsWindow(windowMs: Millis, max: nat, ops: seq<Op>, now: int)
    requires Ordered(ops + [Hit(now)])
    ensures Answer(windowMs, max, ops, now)
            == Reply(WindowCount(HitTimes(ops) + [now], now, windowMs), windowMs, max, now)
  {
    var all := ops + [Hit(now)];
    assert all[..|ops|] == ops;
    assert forall i :: 0 <= i < |ops| ==> ops[i] == all[i] && all[i].at <= all[|ops|].at;
    assert Ordered(ops);
    StoredCounts(windowMs, ops, now);
    WindowCountStep(HitTimes(ops), now, now, windowMs);
  }

  /** A key is reported until the window of its last hit is over, that millisecond included, with
      the number of hits in that window. */
  lemma ReportedExactly(windowMs: Millis, ops: seq<Op>, now: int)
    requires Ordered(ops + [Sweep(now)])
    ensures var r, history := Expire(Stored(windowMs, ops), now), HitTimes(ops);
      && (r.Some? <==> history != [] && now <= Aligned(history[|history| - 1], windowMs) + windowMs)
      && (r.Some? ==> r.value.totalHits == WindowCount(history, history[|history| - 1], windowMs)
                      && r.value.resetTime == Aligned(history[|history| - 1], windowMs) + windowMs)
  {
    var all := ops + [Sweep(now)];
    assert forall i :: 0 <= i < |ops| ==> ops[i] == all[i] && all[i].at <= all[|ops|].at;
    assert Ordered(ops);
    KeptUntil(windowMs, ops, now);
  }

  lemma {:induction false} KeptUntil(windowMs: Millis, ops: seq<Op>, now: int)
    requires Ordered(ops) && forall i :: 0 <= i < |ops| ==> ops[i].at <= now
    ensures var r, history := Expire(Stored(windowMs, ops), now), HitTimes(ops);
      && (r.Some? <==> history != [] && now <= Aligned(history[|history| - 1], windowMs) + windowMs)
      && (r.Some? ==> r.value.totalHits == WindowCount(history, history[|history| - 1], windowMs)
                      && r.value.resetTime == Aligned(history[|history| - 1], windowMs) + windowMs)
  {
    hide Aligned, WindowCount;
    if ops != [] {
      var n := |ops| - 1;
      var past, at := ops[..n], ops[n].at;
      KeptUntil(windowMs, past, now);
      if ops[n].Hit? {
        StoredCounts(windowMs, ops, at);
        StoredCounts(windowMs, past, at);
      } else {
        assert HitTimes(ops) == HitTimes(past);
      }
    }
  }

  // ---------- what an answer foretells ----------

  lemma HitTimesStep(ops: seq<Op>, now: int)
    ensures HitTimes(ops + [Hit(now)]) == HitTimes(ops) + [now]
  {
    assert (ops + [Hit(now)])[..|ops|] == ops;
  }

  lemma {:induction false} HitTimesAppend(ops: seq<Op>, now: int, n: nat)
    ensures HitTimes(ops + Hits(now, n)) == HitTimes(ops) + Repeat(now, n)
  {
    hide HitTimes;
    if n == 0 {
      assert ops + Hits(now, 0) == ops;
    } else {
      HitTimesAppend(ops, now, n - 1);
      assert ops + Hits(now, n) == ops + Hits(now, n - 1) + [Hit(now)];
      HitTimesStep(ops + Hits(now, n - 1), now);
      assert Repeat(now, n) == Repeat(now, n - 1) + [now];
    }
  }

  /** n hits in the same millisecond. */
  function Hits(now: int, n: nat): (ops: seq<Op>)
    ensures |ops| == n && forall i :: 0 <= i < n ==> ops[i] == Hit(now)
  {
    seq(n, _ => Hit(now))
  }

  lemma {:induction false} WindowCountMore(history: seq<int>, now: int, n: nat, windowMs: Millis)
    ensures WindowCount(history + Repeat(now, n), now, windowMs) == WindowCount(history, now, windowMs) + n
  {
    hide WindowCount;
    if n == 0 {
      assert history + Repeat(now, 0) == history;
    } else {
      WindowCountMore(history, now, n - 1, windowMs);
      WindowCountStep(history + Repeat(now, n - 1), now, now, windowMs);
      assert history + Repeat(now, n) == history + Repeat(now, n - 1) + [now];
    }
  }

  /** Of the hits that follow a hit in the same millisecond exactly the first `remaining` ones
      are allowed, and each is told one hit more. */
  lemma RemainingIsExact(windowMs: Millis, max: nat, ops: seq<Op>, now: int, k: nat)
    requires Ordered(ops + [Hit(now)])
    ensures var first, later := Answer(windowMs, max, ops, now), Answer(windowMs, max, ops + Hits(now, k), now);
      && later.totalHits == first.totalHits + k
      && (k >= 1 ==> (later.allowed <==> k <= first.remaining))
  {
    hide Stored, WindowCount, Answer;
    var all := ops + Hits(now, k);
    var reached := ops + [Hit(now)];
    assert forall i :: 0 <= i < |ops| ==> reached[i] == ops[i] && reached[i].at <= reached[|ops|].at;
    assert Ordered(all + [Hit(now)]);
    MemoryCountsWindow(windowMs, max, ops, now);
    MemoryCountsWindow(windowMs, max, all, now);
    HitTimesAppend(ops, now, k);
    var past := HitTimes(ops);
    WindowCountMore(past, now, 1, windowMs);
    WindowCountMore(past, now, k + 1, windowMs);
    assert past + [now] == past + Repeat(now, 1);
    assert HitTimes(all) + [now] == past + Repeat(now, k + 1);
  }

  /** The next hit is told one hit more before the reset time, and is the first of its window from
      then on; and the reset time is one window after the start of the current one. */
  lemma ResetIsExact(windowMs: Millis, max: nat, ops: seq<Op>, now: int, t: int)
    requires Ordered(ops + [Hit(now)]) && t >= now
    ensures var first, next := Answer(windowMs, max, ops, now), Answer(windowMs, max, ops + [Hit(now)], t);
      && first.windowStart <= now < first.resetTime == first.windowStart + windowMs
      && next.totalHits == (if t < first.resetTime then first.totalHits + 1 else 1)
  {
    hide Aligned;
    assert (ops + [Hit(now)])[..|ops|] == ops;
    AlignedBounds(now, windowMs);
    AlignedBounds(t, windowMs);
    AlignedMonotone(now, t, windowMs);
  }

  // ---------- the Redis counters ----------

  datatype Counter = Counter(count: nat, expiresAt: int)

  /** The count that the cache still holds for a window; an expired counter reads as 0. */
  function Live(counters: map<int, Counter>, windowStart: int, now: int): nat {
    if windowStart in counters && now < counters[windowStart].expiresAt then counters[windowStart].count else 0
  }

  function BumpCounter(counters: map<int, Counter>, windowMs: Millis, lifetime: Millis, now: int): map<int, Counter> {
    var start := Aligned(now, windowMs);
    counters[start := Counter(Live(counters, start, now) + 1, now + lifetime)]
  }

  function Counters(windowMs: Millis, lifetime: Millis, times: seq<int>): map<int, Counter> {
    if times == [] then map[]
    else
      var n := |times| - 1;
      BumpCounter(Counters(windowMs, lifetime, times[..n]), windowMs, lifetime, times[n])
  }

  function RedisAnswer(windowMs: Millis, lifetime: Millis, max: nat, times: seq<int>, now: int): RateLimitResult {
    Reply(Live(Counters(windowMs, lifetime, times), Aligned(now, windowMs), now) + 1, windowMs, max, now)
  }

  /** From the last hit on, the live counter of t's window is the count of the history: a
      counter is written inside its window, so it outlives the window. */
  lemma {:induction false} CountersCount(windowMs: Millis, lifetime: Millis, times: seq<int>, t: int)
    requires NonDecreasing(times) && lifetime >= windowMs
    requires forall i :: 0 <= i < |times| ==> times[i] <= t
    ensures Live(Counters(windowMs, lifetime, times), Aligned(t, windowMs), t) == WindowCount(times, t, windowMs)
  {
    if times != [] {
      var n := |times| - 1;
      var past, now := times[..n], times[n];
      assert past + [now] == times;
      CountersCount(windowMs, lifetime, past, t);
      CountersCount(windowMs, lifetime, past, now);
      WindowCountStep(past, now, t, windowMs);
      AlignedBounds(t, windowMs);
      AlignedBounds(now, windowMs);
    }
  }

  /** The counter store answers every hit with the number of hits in its aligned window. */
  lemma RedisCountsWindow(windowMs: Millis, lifetime: Millis, max: nat, times: seq<int>, now: int)
    requires NonDecreasing(times + [now]) && lifetime >= windowMs
    ensures RedisAnswer(windowMs, lifetime, max, times, now)
            == Reply(WindowCount(times + [now], now, windowMs), windowMs, max, now)
  {
    var all := times + [now];
    assert forall i :: 0 <= i < |times| ==> times[i] == all[i] && all[i] <= all[|times|];
    assert NonDecreasing(times);
    CountersCount(windowMs, lifetime, times, now);
    WindowCountStep(times, now, now, windowMs);
  }

  /** One record a key and one counter a window give the same answer to every hit. */
  lemma StoresAgree(windowMs: Millis, lifetime: Millis, max: nat, ops: seq<Op>, now: int)
    requires Ordered(ops + [Hit(now)]) && lifetime >= windowMs
    ensures Answer(windowMs, max, ops, now) == RedisAnswer(windowMs, lifetime, max, HitTimes(ops), now)
  {
    MemoryCountsWindow(windowMs, max, ops, now);
    var all := ops + [Hit(now)];
    assert forall i :: 0 <= i < |ops| ==> ops[i] == all[i] && all[i].at <= all[|ops|].at;
    HitTimesOrdered(ops, now);
    RedisCountsWindow(windowMs, lifetime, max, HitTimes(ops), now);
  }

  lemma {:induction false} HitTimesOrdered(ops: seq<Op>, now: int)
    requires Ordered(ops) && forall i :: 0 <= i < |ops| ==> ops[i].at <= now
    ensures NonDecreasing(HitTimes(ops))
    ensures forall i :: 0 <= i < |HitTimes(ops)| ==> HitTimes(ops)[i] <= now
  {
    if ops != [] {
      HitTimesOrdered(ops[..|ops| - 1], ops[|ops| - 1].at);
    }
  }

  /** Two hits in the first window, the second when the counter is already gone. */
  lemma EarlyExpiryForgets(windowMs: Millis, lifetime: Millis, max: nat)
    requires lifetime < windowMs
    ensures NonDecreasing([0] + [lifetime as int])
    ensures RedisAnswer(windowMs, lifetime, max, [0], lifetime)
            != Reply(WindowCount([0] + [lifetime as int], lifetime, windowMs), windowMs, max, lifetime)
  {
    var times: seq<int> := [0];
    SameWindow(0, lifetime, windowMs);
    assert times[..0] == [];
    assert Counters(windowMs, lifetime, times) == BumpCounter(map[], windowMs, lifetime, 0);
    WindowCountStep([], 0, lifetime, windowMs);
    assert [] + times == times;
    WindowCountStep(times, lifetime, lifetime, windowMs);
  }

  // ---------- the limit ----------

  /** The answers of all hits of a run, from either store. */
  function Answers(windowMs: Millis, max: nat, times: seq<int>): (results: seq<RateLimitResult>)
    ensures |results| == |times|
  {
    if times == [] then []
    else
      var n := |times| - 1;
      Answers(windowMs, max, times[..n]) + [Answer(windowMs, max, AsHits(times[..n]), times[n])]
  }

  function AsHits(times: seq<int>): (ops: seq<Op>)
    ensures |ops| == |times| && forall i :: 0 <= i < |times| ==> ops[i] == Hit(times[i])
  {
    seq(|times|, i requires 0 <= i < |times| => Hit(times[i]))
  }

  lemma {:induction false} HitTimesOfHits(times: seq<int>)
    ensures HitTimes(AsHits(times)) == times
  {
    if times != [] {
      var n := |times| - 1;
      HitTimesOfHits(times[..n]);
      assert AsHits(times)[..n] == AsHits(times[..n]);
    }
  }

  lemma LastAnswer(windowMs: Millis, max: nat, times: seq<int>)
    requires NonDecreasing(times) && times != []
    ensures var n := |times| - 1;
      && Answers(windowMs, max, times)[..n] == Answers(windowMs, max, times[..n])
      && Answers(windowMs, max, times)[n] == Reply(WindowCount(times, times[n], windowMs), windowMs, max, times[n])
  {
    hide Answer, Reply, WindowCount, Stored;
    var n := |times| - 1;
    MemoryCountsWindow(windowMs, max, AsHits(times[..n]), times[n]);
    HitTimesOfHits(times[..n]);
    assert times[..n] + [times[n]] == times;
  }

  /** No more than max hits are allowed within one aligned window. */
  lemma {:induction false} AtMostMaxInWindow(windowMs: Millis, max: nat, times: seq<int>, t: int, lo: int, hi: int)
    requires NonDecreasing(times)
    requires Aligned(t, windowMs) <= lo && hi <= Aligned(t, windowMs) + windowMs
    ensures AllowedIn(times, Answers(windowMs, max, times), lo, hi) <= max
  {
    hide Answers;
    if times != [] {
      var n := |times| - 1;
      var results := Answers(windowMs, max, times);
      AtMostMaxInWindow(windowMs, max, times[..n], t, lo, hi);
      LastAnswer(windowMs, max, times);
      if lo <= times[n] < hi && results[n].allowed {
        SameWindow(t, times[n], windowMs);
        AllowedAtMostCount(times, results, lo, hi);
        CountWiden(times, lo, hi, Aligned(t, windowMs), Aligned(t, windowMs) + windowMs);
      }
    }
  }

  /** Wherever it starts, an interval of one window's length sees at most 2 * max allowed hits. */
  lemma AtMostTwiceMax(windowMs: Millis, max: nat, times: seq<int>, from: int)
    requires NonDecreasing(times)
    ensures AllowedIn(times, Answers(windowMs, max, times), from, from + windowMs) <= 2 * max
  {
    hide AllowedIn, Answers;
    var mid := Aligned(from, windowMs) + windowMs;
    AlignedBounds(from, windowMs);
    AlignedMonotone(from, mid, windowMs);
    AlignedBounds(mid, windowMs);
    AllowedSplit(times, Answers(windowMs, max, times), from, mid, from + windowMs);
    AtMostMaxInWindow(windowMs, max, times, from, from, mid);
    AtMostMaxInWindow(windowMs, max, times, mid, mid, from + windowMs);
  }

  lemma AlignedAtBoundary(windowMs: Millis)
    ensures Aligned(windowMs - 1, windowMs) == 0 && Aligned(windowMs, windowMs) == windowMs
  {
    DivModUnique(windowMs - 1, windowMs, 0, windowMs - 1);
    DivModUnique(windowMs, windowMs, 1, 0);
  }

  /** max hits just before a window boundary, max just after it. */
  function Straddle(windowMs: Millis, max: nat): (times: seq<int>)
    ensures |times| == 2 * max && NonDecreasing(times)
  {
    seq(2 * max, i requires 0 <= i => if i < max then windowMs - 1 else windowMs)
  }

  lemma {:induction false} StraddleCount(windowMs: Millis, max: nat, k: nat)
    requires k <= 2 * max
    ensures var times := Straddle(windowMs, max)[..k];
      && CountIn(times, 0, windowMs) == Min(k, max)
      && CountIn(times, windowMs, 2 * windowMs) == Max(0, k - max)
  {
    if k > 0 {
      StraddleCount(windowMs, max, k - 1);
      assert Straddle(windowMs, max)[..k][..k - 1] == Straddle(windowMs, max)[..k - 1];
    }
  }

  lemma {:induction false} StraddleAllowed(windowMs: Millis, max: nat, k: nat)
    requires k <= 2 * max
    ensures var times := Straddle(windowMs, max)[..k];
      AllowedIn(times, Answers(windowMs, max, times), windowMs - 1, 2 * windowMs - 1)
      == if windowMs >= 2 then k else Min(k, max)
  {
    hide Answers, CountIn, Aligned;
    var all := Straddle(windowMs, max);
    var times := all[..k];
    if k > 0 {
      StraddleAllowed(windowMs, max, k - 1);
      assert times[..k - 1] == all[..k - 1];
      LastAnswer(windowMs, max, times);
      StraddleCount(windowMs, max, k);
      AlignedAtBoundary(windowMs);
    }
  }

  /** The factor two is reached for every limit, by any window longer than a millisecond. */
  lemma TwiceMaxIsReached(windowMs: Millis, max: nat)
    requires windowMs >= 2
    ensures var times := Straddle(windowMs, max);
      AllowedIn(times, Answers(windowMs, max, times), windowMs - 1, 2 * windowMs - 1) == 2 * max
  {
    var times := Straddle(windowMs, max);
    assert times[..2 * max] == times;
    StraddleAllowed(windowMs, max, 2 * max);
  }

  // ---------- rejected accesses to the counters ----------

  /** All hits of one key against the counters; a rejected one counts as the first of its window. */
  function RedisRun(windowMs: Millis, lifetime: Millis, max: nat, attempts: seq<Attempt>)
    : (res: (map<int, Counter>, seq<RateLimitResult>))
    ensures |res.1| == |attempts|
  {
    if attempts == [] then (map[], [])
    else
      var n, now := |attempts| - 1, attempts[|attempts| - 1].at;
      var (counters, results) := RedisRun(windowMs, lifetime, max, attempts[..n]);
      if attempts[n].up then
        (BumpCounter(counters, windowMs, lifetime, now),
         results + [Reply(Live(counters, Aligned(now, windowMs), now) + 1, windowMs, max, now)])
      else (counters, results + [Reply(1, windowMs, max, now)])
  }

  /** Allowed hits with lo <= time < hi. */
  function AllowedOf(windowMs: Millis, lifetime: Millis, max: nat, attempts: seq<Attempt>, lo: int, hi: int): nat {
    AllowedIn(TimesOf(attempts), RedisRun(windowMs, lifetime, max, attempts).1, lo, hi)
  }

  lemma {:induction false} CountersOfReached(windowMs: Millis, lifetime: Millis, max: nat, attempts: seq<Attempt>)
    ensures RedisRun(windowMs, lifetime, max, attempts).0 == Counters(windowMs, lifetime, Reached(attempts))
  {
    hide BumpCounter, Reply, Live, Aligned;
    if attempts != [] {
      var n := |attempts| - 1;
      CountersOfReached(windowMs, lifetime, max, attempts[..n]);
      if attempts[n].up {
        var past := Reached(attempts[..n]);
        assert Reached(attempts)[..|past|] == past;
      } else {
        assert Reached(attempts) == Reached(attempts[..n]);
      }
    }
  }

  /** The last answer, in terms of the hits that reached the counters before it. */
  lemma RedisStep(windowMs: Millis, lifetime: Millis, max: nat, attempts: seq<Attempt>, lo: int, hi: int)
    requires attempts != []
    ensures var n := |attempts| - 1;
      var now, past, r := attempts[n].at, attempts[..n], RedisRun(windowMs, lifetime, max, attempts).1[n];
      && r == (if attempts[n].up then RedisAnswer(windowMs, lifetime, max, Reached(past), now)
                  else Reply(1, windowMs, max, now))
      && AllowedOf(windowMs, lifetime, max, attempts, lo, hi)
         == AllowedOf(windowMs, lifetime, max, past, lo, hi) + (if lo <= now < hi && r.allowed then 1 else 0)
  {
    hide BumpCounter, Live, Aligned, Reply, Counters;
    var n := |attempts| - 1;
    CountersOfReached(windowMs, lifetime, max, attempts[..n]);
    assert TimesOf(attempts)[..n] == TimesOf(attempts[..n]);
    assert RedisRun(windowMs, lifetime, max, attempts).1[..n] == RedisRun(windowMs, lifetime, max, attempts[..n]).1;
  }

  /** One more hit in a run without rejections. */
  lemma AnswersStep(windowMs: Millis, lifetime: Millis, max: nat, past: seq<int>, now: int, lo: int, hi: int)
    requires NonDecreasing(past + [now]) && lifetime >= windowMs
    ensures var times, r := past + [now], RedisAnswer(windowMs, lifetime, max, past, now);
      AllowedIn(times, Answers(windowMs, max, times), lo, hi)
      == AllowedIn(past, Answers(windowMs, max, past), lo, hi) + (if lo <= now < hi && r.allowed then 1 else 0)
  {
    hide Answers, RedisAnswer, Reply, WindowCount;
    var times := past + [now];
    assert times[..|past|] == past;
    LastAnswer(windowMs, max, times);
    RedisCountsWindow(windowMs, lifetime, max, past, now);
  }

  /** A rejected hit leaves no trace in the counters. It is allowed unless nothing is, besides the
      hits that are allowed without rejections. */
  lemma {:induction false} RejectedHitsAddUp(windowMs: Millis, lifetime: Millis, max: nat, attempts: seq<Attempt>,
                                             lo: int, hi: int)
    requires NonDecreasing(TimesOf(attempts)) && lifetime >= windowMs
    ensures AllowedOf(windowMs, lifetime, max, attempts, lo, hi)
            == AllowedIn(Reached(attempts), Answers(windowMs, max, Reached(attempts)), lo, hi)
               + (if max >= 1 then FailedIn(attempts, lo, hi) else 0)
  {
    hide AllowedOf, RedisRun, AllowedIn, Answers, RedisAnswer;
    if attempts == [] {
      NothingCounted(windowMs, lifetime, max, lo, hi);
    } else {
      var n := |attempts| - 1;
      var past, now := attempts[..n], attempts[n].at;
      assert TimesOf(past) == TimesOf(attempts)[..n];
      RejectedHitsAddUp(windowMs, lifetime, max, past, lo, hi);
      RedisStep(windowMs, lifetime, max, attempts, lo, hi);
      if attempts[n].up {
        ReachedOrdered(attempts);
        AnswersStep(windowMs, lifetime, max, Reached(past), now, lo, hi);
      } else {
        assert Reached(attempts) == Reached(past);
      }
    }
  }

  lemma NothingCounted(windowMs: Millis, lifetime: Millis, max: nat, lo: int, hi: int)
    ensures AllowedOf(windowMs, lifetime, max, [], lo, hi) == 0
    ensures AllowedIn([], Answers(windowMs, max, []), lo, hi) == 0
  {
  }

  /** With rejections, an interval of one window's length sees at most 2 * max allowed hits and
      its rejected ones. */
  lemma AtMostTwiceMaxAndFailed(windowMs: Millis, lifetime: Millis, max: nat, attempts: seq<Attempt>, from: int)
    requires NonDecreasing(TimesOf(attempts)) && lifetime >= windowMs
    ensures AllowedOf(windowMs, lifetime, max, attempts, from, from + windowMs)
            <= 2 * max + FailedIn(attempts, from, from + windowMs)
  {
    hide AllowedOf, Answers;
    RejectedHitsAddUp(windowMs, lifetime, max, attempts, from, from + windowMs);
    ReachedOrdered(attempts);
    AtMostTwiceMax(windowMs, max, Reached(attempts), from);
  }

  /** The bound is reached, for any number m of rejections. */
  lemma TwiceMaxAndFailedIsReached(windowMs: Millis, lifetime: Millis, max: nat, m: nat)
    requires windowMs >= 2 && max >= 1 && lifetime >= windowMs
    ensures var attempts, from := AllUp(Straddle(windowMs, max)) + FailuresAt(windowMs, m), windowMs - 1;
      && NonDecreasing(TimesOf(attempts)) && FailedIn(attempts, from, from + windowMs) == m
      && AllowedOf(windowMs, lifetime, max, attempts, from, from + windowMs) == 2 * max + m
  {
    hide AllowedOf, Answers;
    var times := Straddle(windowMs, max);
    var attempts := AllUp(times) + FailuresAt(windowMs, m);
    assert forall i :: 0 <= i < |times| ==> times[i] <= windowMs;
    assert NonDecreasing(TimesOf(attempts));
    ThenFailures(times, windowMs, m, windowMs - 1, 2 * windowMs - 1);
    RejectedHitsAddUp(windowMs, lifetime, max, attempts, windowMs - 1, 2 * windowMs - 1);
    TwiceMaxIsReached(windowMs, max);
  }

  /** The last hit is told the number of hits in its aligned window, itself included. */
  ghost predicate CountedRight(windowMs: Millis, lifetime: Millis, max: nat, attempts: seq<Attempt>)
    requires attempts != []
  {
    var n := |attempts| - 1;
    RedisRun(windowMs, lifetime, max, attempts).1[n]
    == Reply(WindowCount(TimesOf(attempts), attempts[n].at, windowMs), windowMs, max, attempts[n].at)
  }

  /** The counters are right on every run exactly when no access to them is rejected and they are
      kept at least one window long. */
  lemma RedisCountsExactly(windowMs: Millis, lifetime: Millis, max: nat, mayFail: bool)
    ensures (forall attempts :: attempts != [] && NonDecreasing(TimesOf(attempts)) && Permitted(attempts, mayFail) ==>
               CountedRight(windowMs, lifetime, max, attempts))
            <==> lifetime >= windowMs && !mayFail
  {
    hide CountedRight;
    if mayFail {
      RejectionMiscounts(windowMs, lifetime, max);
    } else if lifetime < windowMs {
      EarlyExpiryMiscounts(windowMs, lifetime, max);
    } else {
      forall attempts | attempts != [] && NonDecreasing(TimesOf(attempts)) && Permitted(attempts, mayFail)
        ensures CountedRight(windowMs, lifetime, max, attempts)
      {
        UpIsCountedRight(windowMs, lifetime, max, attempts);
      }
    }
  }

  lemma UpIsCountedRight(windowMs: Millis, lifetime: Millis, max: nat, attempts: seq<Attempt>)
    requires attempts != [] && NonDecreasing(TimesOf(attempts)) && Permitted(attempts, false) && lifetime >= windowMs
    ensures CountedRight(windowMs, lifetime, max, attempts)
  {
    hide RedisRun, RedisAnswer, Reply, WindowCount;
    var n := |attempts| - 1;
    var past, now := TimesOf(attempts)[..n], attempts[n].at;
    RedisStep(windowMs, lifetime, max, attempts, 0, 0);
    AllReached(attempts[..n]);
    assert TimesOf(attempts[..n]) == past && past + [now] == TimesOf(attempts);
    RedisCountsWindow(windowMs, lifetime, max, past, now);
  }

  /** A second hit in the same millisecond that is rejected is told it is the first. */
  lemma RejectionMiscounts(windowMs: Millis, lifetime: Millis, max: nat)
    ensures var attempts := [Attempt(0, true), Attempt(0, false)];
      NonDecreasing(TimesOf(attempts)) && !CountedRight(windowMs, lifetime, max, attempts)
  {
    hide RedisRun, WindowCount;
    var attempts := [Attempt(0, true), Attempt(0, false)];
    RedisStep(windowMs, lifetime, max, attempts, 0, 0);
    TwoHitsCount(windowMs, 0, 0);
    assert TimesOf(attempts) == [0, 0];
  }

  lemma TwoHitsCount(windowMs: Millis, a: int, b: int)
    requires Aligned(a, windowMs) == Aligned(b, windowMs)
    ensures WindowCount([a, b], b, windowMs) == 2
  {
    hide WindowCount, Aligned;
    NoHitsCount(b, windowMs);
    WindowCountStep([], a, b, windowMs);
    WindowCountStep([a], b, b, windowMs);
    assert [] + [a] == [a] && [a] + [b] == [a, b];
  }

  lemma NoHitsCount(t: int, windowMs: Millis)
    ensures WindowCount([], t, windowMs) == 0
  {
  }

  lemma EarlyExpiryMiscounts(windowMs: Millis, lifetime: Millis, max: nat)
    requires lifetime < windowMs
    ensures var attempts := AllUp([0, lifetime as int]);
      NonDecreasing(TimesOf(attempts)) && Permitted(attempts, false) && !CountedRight(windowMs, lifetime, max, attempts)
  {
    hide RedisRun, RedisAnswer, Reply, WindowCount;
    var attempts := AllUp([0, lifetime as int]);
    RedisStep(windowMs, lifetime, max, attempts, 0, 0);
    AllReached(attempts[..1]);
    assert TimesOf(attempts[..1]) == [0] && TimesOf(attempts) == [0] + [lifetime as int];
    EarlyExpiryForgets(windowMs, lifetime, max);
  }

  // ---------- the stores ----------

  class MemoryRateLimitStore {
    var store: map<string, Record>

    constructor ()
      ensures store == map[]
    {
      store := map[];
    }

    method Hit(key: string, windowMs: Millis, max: nat, now: int) returns (result: RateLimitResult)
      modifies this
      ensures var r := Bump(Lookup(old(store), key), windowMs, now);
        store == old(store)[key := r] && result == Reply(r.totalHits, windowMs, max, now)
    {
      var totalHits := Increment(key, windowMs, now);
      var windowStart := now / windowMs * windowMs;
      result := RateLimitResult(totalHits <= max, Max(0, max - totalHits), windowStart + windowMs,
                                totalHits, windowStart);
    }

    method Increment(key: string, windowMs: Millis, now: int) returns (totalHits: nat)
      modifies this
      ensures var r := Bump(Lookup(old(store), key), windowMs, now);
        store == old(store)[key := r] && totalHits == r.totalHits
    {
      var windowStart := now / windowMs * windowMs;
      var record := Record(1, windowStart, windowStart + windowMs);
      if key in store && store[key].windowStart == windowStart {
        record := store[key].(totalHits := store[key].totalHits + 1);
      }
      store := store[key := record];
      totalHits := record.totalHits;
    }

    method Get(key: string, now: int) returns (result: Option<RateLimitResult>)
      modifies this
      ensures Lookup(store, key) == Expire(Lookup(old(store), key), now)
      ensures forall k :: k != key ==> Lookup(store, k) == Lookup(old(store), k)
      ensures result.Some? <==> key in store
      ensures result.Some? ==>
        var r := store[key];
        result.value == RateLimitResult(true, 0, r.resetTime, r.totalHits, r.windowStart)
    {
      if key !in store { return None; }
      var r := store[key];
      if now > r.resetTime {
        store := store - {key};
        return None;
      }
      result := Some(RateLimitResult(true, 0, r.resetTime, r.totalHits, r.windowStart));
    }

    method Reset(key: string)
      modifies this
      ensures store == old(store) - {key}
    {
      store := store - {key};
    }

    /** Collects the expired keys, then deletes them. */
    method Cleanup(now: int)
      modifies this
      ensures forall k :: Lookup(store, k) == Expire(Lookup(old(store), k), now)
    {
      var expired := {};
      var rest := store.Keys;
      while rest != {}
        invariant rest <= store.Keys && store == old(store)
        invariant forall k :: k in store && k !in rest ==> (k in expired <==> now > store[k].resetTime)
        invariant expired <= store.Keys - rest
        decreases |rest|
      {
        var k :| k in rest;
        if now > store[k].resetTime {
          expired := expired + {k};
        }
        rest := rest - {k};
      }
      store := store - expired;
    }
  }

  /** The counters of all keys. A cache key ends in a colon and the start of the window, a number,
      so it stands for exactly one pair. */
  class RedisRateLimitStore {
    var cache: map<string, map<int, Counter>>
    const ttlUnitMs: Millis

    constructor (ttlUnitMs: Millis)
      ensures cache == map[] && this.ttlUnitMs == ttlUnitMs
    {
      cache := map[];
      this.ttlUnitMs := ttlUnitMs;
    }

    ghost function CountersOf(key: string): map<int, Counter>
      reads this
    {
      if key in cache then cache[key] else map[]
    }

    /** When the cache is down the hit counts as the first of its window. */
    method Hit(key: string, windowMs: Millis, max: nat, now: int, cacheUp: bool) returns (result: RateLimitResult)
      modifies this
      ensures cacheUp ==>
        CountersOf(key) == BumpCounter(old(CountersOf(key)), windowMs, Lifetime(windowMs, ttlUnitMs), now)
      ensures cacheUp ==>
        result == Reply(Live(old(CountersOf(key)), Aligned(now, windowMs), now) + 1, windowMs, max, now)
      ensures !cacheUp ==> cache == old(cache) && result == Reply(1, windowMs, max, now)
      ensures forall k :: k != key ==> CountersOf(k) == old(CountersOf(k))
    {
      var windowStart := now / windowMs * windowMs;
      var totalHits := 1;
      if cacheUp {
        var counters := if key in cache then cache[key] else map[];
        var count: nat := if windowStart in counters && now < counters[windowStart].expiresAt
                          then counters[windowStart].count else 0;
        totalHits := count + 1;
        cache := cache[key := counters[windowStart := Counter(totalHits, now + Lifetime(windowMs, ttlUnitMs))]];
      }
      result := RateLimitResult(totalHits <= max, Max(0, max - totalHits), windowStart + windowMs,
                                totalHits, windowStart);
    }
  }
}
