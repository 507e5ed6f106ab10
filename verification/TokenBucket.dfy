/** The token-bucket rate limiter, src/common/stores/token-bucket-rate-limit.store.ts.
    A record is refilled lazily, when it is next hit. The reference is an eager bucket
    that a clock drives one millisecond at a time. */
module TokenBucket {
  import opened Basics
  import opened RateLimits

  type Multiplier = r: real | 0.0 <= r witness 0.0

  datatype Config = Config(capacity: nat, refillRate: nat, refillIntervalMs: Millis, burstCapacity: Option<nat>)
  datatype Adjustment = Adjustment(userId: int, multiplier: Multiplier, maxOverride: Option<nat>)

  /** What one hit works with, after the user's adjustment is applied. */
  datatype Limits = Limits(capacity: nat, refillRate: nat, interval: Millis, burst: nat)

  datatype Record = Record(tokens: nat, lastRefill: int, burstCapacity: nat)

  function Ceil(r: real): int {
    if r.Floor as real == r then r.Floor else r.Floor + 1
  }

  /** c is the least whole number that is not below n * m. */
  predicate RoundedUp(n: nat, m: Multiplier, c: nat) {
    n as real * m <= c as real < n as real * m + 1.0
  }

  function Scaled(n: nat, m: Multiplier): (c: nat)
    ensures RoundedUp(n, m, c)
  {
    Ceil(n as real * m)
  }

  /** The first adjustment that names the user. */
  function FindAdjustment(userId: int, adjustments: seq<Adjustment>): (found: Option<Adjustment>)
    ensures found.Some? ==> found.value in adjustments && found.value.userId == userId
    ensures found.None? ==> forall a :: a in adjustments ==> a.userId != userId
  {
    if adjustments == [] then None
    else if adjustments[0].userId == userId then Some(adjustments[0])
    else FindAdjustment(userId, adjustments[1..])
  }

  /** User id 0 and override 0 are falsy, so they count as absent. */
  function EffectiveLimits(config: Config, userId: int, adjustments: Option<seq<Adjustment>>): Limits {
    var burst := if config.burstCapacity.Some? then config.burstCapacity.value else config.capacity;
    var found := if userId != 0 && adjustments.Some? then FindAdjustment(userId, adjustments.value) else None;
    if found.None? then Limits(config.capacity, config.refillRate, config.refillIntervalMs, burst)
    else
      var adj := found.value;
      Limits(OverrideOf(adj, config.capacity),
             Scaled(config.refillRate, adj.multiplier), config.refillIntervalMs, Scaled(burst, adj.multiplier))
  }

  /** The adjustment that counts is the first one for the user; it replaces the capacity, and
      scales the refill rate and the burst limit, rounding up. Anyone else gets the limits of
      the configuration. */
  lemma {:induction false} AdjustmentApplies(config: Config, userId: int, adjustments: seq<Adjustment>, i: nat)
    requires i <= |adjustments|
    requires forall j :: 0 <= j < i ==> adjustments[j].userId != userId
    requires i < |adjustments| ==> adjustments[i].userId == userId
    ensures var lim := EffectiveLimits(config, userId, Some(adjustments));
      var burst := if config.burstCapacity.Some? then config.burstCapacity.value else config.capacity;
      && lim.interval == config.refillIntervalMs
      && (userId == 0 || i == |adjustments| ==>
            lim.capacity == config.capacity && lim.refillRate == config.refillRate && lim.burst == burst)
      && (userId != 0 && i < |adjustments| ==>
            && lim.capacity == (if adjustments[i].maxOverride.Some? && adjustments[i].maxOverride.value > 0
                                then adjustments[i].maxOverride.value else config.capacity)
            && RoundedUp(config.refillRate, adjustments[i].multiplier, lim.refillRate)
            && RoundedUp(burst, adjustments[i].multiplier, lim.burst))
  {
    hide RoundedUp, Scaled;
    FirstMatch(userId, adjustments, i);
  }

  function OverrideOf(a: Adjustment, default: nat): nat {
    if a.maxOverride.None? || a.maxOverride.value == 0 then default else a.maxOverride.value
  }

  lemma {:induction false} FirstMatch(userId: int, adjustments: seq<Adjustment>, i: nat)
    requires i <= |adjustments|
    requires forall j :: 0 <= j < i ==> adjustments[j].userId != userId
    requires i < |adjustments| ==> adjustments[i].userId == userId
    ensures FindAdjustment(userId, adjustments) == if i < |adjustments| then Some(adjustments[i]) else None
  {
    if i > 0 {
      FirstMatch(userId, adjustments[1..], i - 1);
    }
  }

  // ---------- the lazy bucket ----------

  /** The whole intervals that have passed since the last refill. */
  function DueTicks(r: Record, lim: Limits, now: int): nat {
    if now > r.lastRefill then (now - r.lastRefill) / lim.interval else 0
  }

  function Refill(r: Record, lim: Limits, now: int): Record {
    if now > r.lastRefill then
      r.(tokens := Min(r.tokens + DueTicks(r, lim, now) * lim.refillRate, lim.burst),
         lastRefill := r.lastRefill + DueTicks(r, lim, now) * lim.interval)
    else r
  }

  function Ready(r: Option<Record>, lim: Limits, now: int): Record {
    if r.None? then Record(lim.capacity, now, lim.burst) else Refill(r.value, lim, now)
  }

  function Spend(tokens: nat): nat {
    if tokens > 0 then tokens - 1 else 0
  }

  function Reply(lim: Limits, before: nat, lastTick: int): RateLimitResult {
    RateLimitResult(before > 0, Spend(before), lastTick + lim.interval, lim.capacity - Spend(before), lastTick)
  }

  function HitRecord(r: Option<Record>, lim: Limits, now: int): (Record, RateLimitResult) {
    var ready := Ready(r, lim, now);
    (ready.(tokens := Spend(ready.tokens)), Reply(lim, ready.tokens, ready.lastRefill))
  }

  /** All hits of one key under fixed limits: the final record and every answer. */
  function Run(lim: Limits, times: seq<int>): (res: (Option<Record>, seq<RateLimitResult>))
    ensures |res.1| == |times|
    ensures res.0.Some? <==> times != []
  {
    if times == [] then (None, [])
    else
      var (r, answers) := Run(lim, times[..|times| - 1]);
      var (r', a) := HitRecord(r, lim, times[|times| - 1]);
      (Some(r'), answers + [a])
  }

  // ---------- the eager reference ----------

  /** A bucket and how many milliseconds have passed since its last tick. */
  datatype Eager = Eager(tokens: nat, sinceTick: nat)

  /** One millisecond: when an interval is complete, add the refill and clip. */
  function Millisecond(e: Eager, lim: Limits): Eager {
    if e.sinceTick + 1 == lim.interval then Eager(Min(e.tokens + lim.refillRate, lim.burst), 0)
    else Eager(e.tokens, e.sinceTick + 1)
  }

  function Wait(e: Eager, lim: Limits, ms: nat): Eager {
    if ms == 0 then e else Millisecond(Wait(e, lim, ms - 1), lim)
  }

  function EagerHit(e: Option<Eager>, lim: Limits, at: int, now: int): (Eager, RateLimitResult)
    requires e.Some? ==> at <= now
  {
    var ready := if e.None? then Eager(lim.capacity, 0) else Wait(e.value, lim, now - at);
    (ready.(tokens := Spend(ready.tokens)), Reply(lim, ready.tokens, now - ready.sinceTick))
  }

  ghost function EagerRun(lim: Limits, times: seq<int>): (res: (Option<Eager>, seq<RateLimitResult>))
    requires NonDecreasing(times)
    ensures |res.1| == |times|
    ensures res.0.Some? <==> times != []
  {
    if times == [] then (None, [])
    else
      var n := |times| - 1;
      var (e, answers) := EagerRun(lim, times[..n]);
      var (e', a) := EagerHit(e, lim, if n == 0 then 0 else times[n - 1], times[n]);
      (Some(e'), answers + [a])
  }

  // ---------- the two agree ----------

  lemma {:induction false} WaitClosedForm(e: Eager, lim: Limits, ms: nat)
    requires e.sinceTick < lim.interval
    ensures var total := e.sinceTick + ms;
      var k := total / lim.interval;
      Wait(e, lim, ms) == Eager(AfterTicks(e.tokens, lim, k), total % lim.interval)
  {
    hide AfterTicks, Millisecond;
    var total := e.sinceTick + ms;
    if ms == 0 {
      NoTicks(e.tokens, lim);
      DivModUnique(e.sinceTick, lim.interval, 0, e.sinceTick);
    } else {
      WaitClosedForm(e, lim, ms - 1);
      DivModStep(total, lim.interval);
      OneMillisecond(e.tokens, lim, (total - 1) / lim.interval, (total - 1) % lim.interval,
                     total / lim.interval, total % lim.interval);
    }
  }

  /** A millisecond leads from the k-th tick to the next one or not. */
  lemma OneMillisecond(tokens: nat, lim: Limits, k: nat, r: nat, k': nat, r': nat)
    requires if r' == 0 then k' == k + 1 && r == lim.interval - 1 else k' == k && r' == r + 1 < lim.interval
    ensures Millisecond(Eager(AfterTicks(tokens, lim, k), r), lim) == Eager(AfterTicks(tokens, lim, k'), r')
  {
    hide AfterTicks;
    TickAgain(tokens, lim, k);
  }

  /** What k intervals add up to, clipped at every one of them. */
  function AfterTicks(tokens: nat, lim: Limits, k: nat): nat {
    if k == 0 then tokens else Min(tokens + k * lim.refillRate, lim.burst)
  }

  lemma NoTicks(tokens: nat, lim: Limits)
    ensures AfterTicks(tokens, lim, 0) == tokens
  {
  }

  lemma TickAgain(tokens: nat, lim: Limits, k: nat)
    ensures Min(AfterTicks(tokens, lim, k) + lim.refillRate, lim.burst) == AfterTicks(tokens, lim, k + 1)
  {
    Distribute(k, 1, lim.refillRate);
    MulNonNegative(k, lim.refillRate);
  }

  /** The stored record stands for the eager bucket at time `at`. */
  ghost predicate Matches(r: Record, e: Eager, lim: Limits, at: int) {
    && r.tokens == e.tokens
    && r.lastRefill == at - e.sinceTick
    && e.sinceTick < lim.interval
    && (r.tokens <= lim.burst || lim.interval == 1)
  }

  /** The limits under which clipping between two ticks is never visible. */
  predicate ClipsOnlyAtTicks(lim: Limits) {
    lim.capacity <= lim.burst + 1 || lim.interval == 1
  }

  /** Refill, written with the quotient and remainder of the time since the last tick. */
  lemma RefillForm(r: Record, lim: Limits, now: int)
    requires r.lastRefill <= now
    ensures var total := now - r.lastRefill;
      && Refill(r, lim, now).lastRefill == now - total % lim.interval
      && Refill(r, lim, now).tokens == (if total == 0 then r.tokens
                                        else Min(r.tokens + total / lim.interval * lim.refillRate, lim.burst))
  {
    var total := now - r.lastRefill;
    DivMod(total, lim.interval);
    if total == 0 {
      DivModUnique(0, lim.interval, 0, 0);
    }
  }

  lemma HitAgrees(r: Record, e: Eager, lim: Limits, at: int, now: int)
    requires Matches(r, e, lim, at) && at <= now
    ensures HitRecord(Some(r), lim, now).1 == EagerHit(Some(e), lim, at, now).1
    ensures Matches(HitRecord(Some(r), lim, now).0, EagerHit(Some(e), lim, at, now).0, lim, now)
  {
    var total := now - r.lastRefill;
    WaitClosedForm(e, lim, now - at);
    RefillForm(r, lim, now);
    var k := total / lim.interval;
    if total == 0 {
      DivModUnique(0, lim.interval, 0, 0);
    } else if k == 0 {
      assert lim.interval != 1 by { DivModUnique(total, 1, total, 0); }
    }
    assert Ready(Some(r), lim, now).tokens == Wait(e, lim, now - at).tokens;
  }

  /** Every hit of every run gets the same answer from the lazy and the eager bucket, and
      the record's lastRefill stays on the eager bucket's ticks. */
  lemma {:induction false} LazyAgreesWithEager(lim: Limits, times: seq<int>)
    requires NonDecreasing(times)
    requires ClipsOnlyAtTicks(lim)
    ensures Run(lim, times).1 == EagerRun(lim, times).1
    ensures times != [] ==>
      Matches(Run(lim, times).0.value, EagerRun(lim, times).0.value, lim, times[|times| - 1])
  {
    if times != [] {
      var n := |times| - 1;
      LazyAgreesWithEager(lim, times[..n]);
      if n > 0 {
        HitAgrees(Run(lim, times[..n]).0.value, EagerRun(lim, times[..n]).0.value, lim, times[n - 1], times[n]);
      }
    }
  }

  /** Above the bound two hits one millisecond apart tell the buckets apart. */
  lemma ClipBetweenTicksIsVisible(lim: Limits)
    requires !ClipsOnlyAtTicks(lim)
    ensures NonDecreasing([0, 1])
    ensures Run(lim, [0, 1]).1 != EagerRun(lim, [0, 1]).1
  {
    var times := [0, 1];
    assert times[..1] == [0] && [0][..0] == [];
    var r := Run(lim, [0]).0.value;
    assert r == Record(lim.capacity - 1, 0, lim.burst);
    DivModUnique(1, lim.interval, 0, 1);
    var e := EagerRun(lim, [0]).0.value;
    assert e == Eager(lim.capacity - 1, 0);
    assert Wait(e, lim, 0) == e;
    assert Wait(e, lim, 1) == Eager(lim.capacity - 1, 1);
    assert Run(lim, times).1[1].remaining != EagerRun(lim, times).1[1].remaining
           || Run(lim, times).1[1].allowed != EagerRun(lim, times).1[1].allowed;
  }

  /** Lazy refill is indistinguishable from eager refill on all runs exactly when the
      initial fill exceeds the burst limit by at most one token, or ticks are 1 ms apart. */
  lemma LazyIsEagerExactly(lim: Limits)
    ensures (forall times :: NonDecreasing(times) ==> Run(lim, times).1 == EagerRun(lim, times).1)
            <==> ClipsOnlyAtTicks(lim)
  {
    if ClipsOnlyAtTicks(lim) {
      forall times | NonDecreasing(times)
        ensures Run(lim, times).1 == EagerRun(lim, times).1
      {
        LazyAgreesWithEager(lim, times);
      }
    } else {
      ClipBetweenTicksIsVisible(lim);
    }
  }

  /** A fresh bucket serves exactly `capacity` hits within one millisecond. */
  lemma {:induction false} FreshBucketServesCapacity(lim: Limits, at: int, n: nat, i: nat)
    requires i < n
    ensures Run(lim, Repeat(at, n)).1[i].allowed <==> i < lim.capacity
  {
    var past := Repeat(at, n - 1);
    assert Repeat(at, n)[..n - 1] == past;
    if i < n - 1 {
      FreshBucketServesCapacity(lim, at, n - 1, i);
    } else if i > 0 {
      FreshBucketLeft(lim, at, i);
    }
  }

  lemma {:induction false} FreshBucketLeft(lim: Limits, at: int, n: nat)
    requires n >= 1
    ensures Run(lim, Repeat(at, n)).0 == Some(Record(Max(0, lim.capacity - n), at, lim.burst))
  {
    assert Repeat(at, n)[..n - 1] == Repeat(at, n - 1);
    if n > 1 {
      FreshBucketLeft(lim, at, n - 1);
    }
  }

  // ---------- rate bound ----------

  function Peak(lim: Limits): nat {
    Max(lim.capacity, lim.burst)
  }

  /** The ticks of a bucket born at `birth` up to time t. */
  function TicksUntil(lim: Limits, birth: int, t: int): nat
    requires birth <= t
  {
    (t - birth) / lim.interval
  }

  lemma TicksAdd(lim: Limits, birth: int, q: nat, t: int)
    requires t >= birth + q * lim.interval
    ensures birth <= t
    ensures TicksUntil(lim, birth, t) == q + (t - (birth + q * lim.interval)) / lim.interval
  {
    MulNonNegative(q, lim.interval);
    var rest := t - (birth + q * lim.interval);
    var k := rest / lim.interval;
    DivMod(rest, lim.interval);
    Distribute(q, k, lim.interval);
    DivModUnique(t - birth, lim.interval, q + k, rest % lim.interval);
  }

  /** lastRefill is the latest tick of the bucket, and the bucket never exceeds its peak. */
  ghost predicate OnLattice(r: Record, lim: Limits, birth: int, at: int) {
    && birth <= at
    && r.lastRefill == birth + TicksUntil(lim, birth, at) * lim.interval <= at
    && r.tokens <= Peak(lim)
  }

  lemma HitKeepsLattice(r: Record, lim: Limits, birth: int, at: int, now: int)
    requires OnLattice(r, lim, birth, at) && at <= now
    ensures OnLattice(HitRecord(Some(r), lim, now).0, lim, birth, now)
    ensures TicksUntil(lim, birth, at) <= TicksUntil(lim, birth, now)
    ensures Ready(Some(r), lim, now).tokens <= Peak(lim)
    ensures Ready(Some(r), lim, now).tokens
            <= r.tokens + (TicksUntil(lim, birth, now) - TicksUntil(lim, birth, at)) * lim.refillRate
  {
    hide Refill, TicksUntil;
    var q, total := TicksUntil(lim, birth, at), now - r.lastRefill;
    var k := total / lim.interval;
    RefillForm(r, lim, now);
    TicksAdd(lim, birth, q, now);
    DivMod(total, lim.interval);
    Distribute(q, k, lim.interval);
    MulNonNegative(k, lim.refillRate);
    assert TicksUntil(lim, birth, now) - q == k;
  }

  lemma RateMonotone(lim: Limits, a: int, b: int)
    requires a <= b
    ensures a * lim.refillRate <= b * lim.refillRate
  {
    MulNonNegative(b - a, lim.refillRate);
    Distribute(a, b - a, lim.refillRate);
  }

  lemma FundStep(lim: Limits, allowed: nat, tokens: nat, ready: nat, q0: int, q1: int, q2: int)
    requires allowed + tokens <= Peak(lim) + (q1 - q0) * lim.refillRate
    requires ready <= tokens + (q2 - q1) * lim.refillRate
    ensures allowed + ready <= Peak(lim) + (q2 - q0) * lim.refillRate
  {
    Distribute(q2 - q1, q1 - q0, lim.refillRate);
  }

  /** In every run lastRefill is a whole number of intervals after the bucket's birth. */
  lemma {:induction false} RunOnLattice(lim: Limits, times: seq<int>)
    requires NonDecreasing(times) && times != []
    ensures OnLattice(Run(lim, times).0.value, lim, times[0], times[|times| - 1])
  {
    var n := |times| - 1;
    if n == 0 {
      DivModUnique(0, lim.interval, 0, 0);
    } else {
      RunOnLattice(lim, times[..n]);
      HitKeepsLattice(Run(lim, times[..n]).0.value, lim, times[0], times[n - 1], times[n]);
    }
  }

  /** The refills a run can have received between `from` and its last hit. */
  function Refilled(lim: Limits, times: seq<int>, from: int): int
    requires NonDecreasing(times) && times != []
  {
    (TicksUntil(lim, times[0], times[|times| - 1]) - TicksUntil(lim, times[0], Max(from, times[0]))) * lim.refillRate
  }

  /** The last hit moves at most one token from the bucket to the allowed count. */
  lemma LastHitConserves(lim: Limits, times: seq<int>, from: int)
    requires times != [] && from <= times[|times| - 1]
    ensures var n, now := |times| - 1, times[|times| - 1];
      var (r, answers) := Run(lim, times[..n]);
      AllowedIn(times, Run(lim, times).1, from, now + 1) + Run(lim, times).0.value.tokens
      == AllowedIn(times[..n], answers, from, now + 1) + Ready(r, lim, now).tokens
  {
    assert Run(lim, times).1[..|times| - 1] == Run(lim, times[..|times| - 1]).1;
  }

  /** The last hit finds no more tokens than the previous one left, plus the ticks in between. */
  lemma LastHitFinds(lim: Limits, times: seq<int>)
    requires NonDecreasing(times) && |times| >= 2
    ensures var n := |times| - 1;
      var q1, q2 := TicksUntil(lim, times[0], times[n - 1]), TicksUntil(lim, times[0], times[n]);
      var r := Run(lim, times[..n]).0;
      && q1 <= q2
      && Ready(r, lim, times[n]).tokens <= Peak(lim)
      && Ready(r, lim, times[n]).tokens <= r.value.tokens + (q2 - q1) * lim.refillRate
  {
    var n := |times| - 1;
    RunOnLattice(lim, times[..n]);
    HitKeepsLattice(Run(lim, times[..n]).0.value, lim, times[0], times[n - 1], times[n]);
  }

  lemma TicksMonotone(lim: Limits, birth: int, a: int, b: int)
    requires birth <= a <= b
    ensures TicksUntil(lim, birth, a) <= TicksUntil(lim, birth, b)
  {
    DivMonotone(a - birth, b - birth, lim.interval);
  }

  lemma FirstHitIsFunded(lim: Limits, now: int, from: int)
    requires from <= now
    ensures AllowedIn([now], Run(lim, [now]).1, from, now + 1) + Run(lim, [now]).0.value.tokens <= Peak(lim)
  {
    LastHitConserves(lim, [now], from);
    assert [now][..0] == [];
  }

  /** Tokens spent since `from` plus tokens left are paid for by the peak and the ticks. */
  lemma {:induction false} SpendingIsFunded(lim: Limits, times: seq<int>, from: int)
    requires NonDecreasing(times) && times != [] && from <= times[|times| - 1]
    ensures AllowedIn(times, Run(lim, times).1, from, times[|times| - 1] + 1) + Run(lim, times).0.value.tokens
            <= Peak(lim) + Refilled(lim, times, from)
  {
    hide Run, Ready, AllowedIn, TicksUntil;
    var n := |times| - 1;
    var birth, now, prefix := times[0], times[n], times[..n];
    var q0, q2 := TicksUntil(lim, birth, Max(from, birth)), TicksUntil(lim, birth, now);
    if n == 0 {
      FirstHitIsFunded(lim, now, from);
      assert times == [now];
      assert q2 - q0 == 0;
    } else {
      var (r, answers) := Run(lim, prefix);
      var before := AllowedIn(prefix, answers, from, now + 1);
      LastHitConserves(lim, times, from);
      LastHitFinds(lim, times);
      if times[n - 1] < from {
        AllowedNone(prefix, answers, from, now + 1);
        TicksMonotone(lim, birth, Max(from, birth), now);
        RateMonotone(lim, 0, q2 - q0);
      } else {
        SpendingIsFunded(lim, prefix, from);
        AllowedSameEnd(prefix, answers, from, times[n - 1] + 1, now + 1);
        FundStep(lim, before, r.value.tokens, Ready(r, lim, now).tokens, q0, TicksUntil(lim, birth, times[n - 1]), q2);
      }
    }
  }

  /** A half-open lattice step: at most one tick more than whole intervals in between. */
  lemma TicksBetween(lim: Limits, birth: int, a: int, b: int)
    requires birth <= a <= b
    ensures TicksUntil(lim, birth, b) - TicksUntil(lim, birth, a) <= (b - a) / lim.interval + 1
  {
    var x, d := a - birth, lim.interval;
    var k, q := (b - a) / d, x / d;
    var rest := x % d + (b - a) % d;
    DivMod(x, d);
    DivMod(b - a, d);
    Distribute(q, k, d);
    if rest < d {
      DivModUnique(b - birth, d, q + k, rest);
    } else {
      Distribute(q + k, 1, d);
      DivModUnique(b - birth, d, q + k + 1, rest - d);
    }
  }

  /** A full bucket and the refills that fit into a span of time, counting one started interval. */
  function Budget(lim: Limits, span: nat): nat {
    MulNonNegative(span / lim.interval + 1, lim.refillRate);
    Peak(lim) + (span / lim.interval + 1) * lim.refillRate
  }

  lemma RefilledWithinBudget(lim: Limits, times: seq<int>, from: int, to: int)
    requires NonDecreasing(times) && times != [] && from <= times[|times| - 1] <= to
    ensures Peak(lim) + Refilled(lim, times, from) <= Budget(lim, to - from)
  {
    hide TicksUntil;
    var n := |times| - 1;
    var start := Max(from, times[0]);
    TicksBetween(lim, times[0], start, times[n]);
    DivMonotone(times[n] - start, to - from, lim.interval);
    RateMonotone(lim, TicksUntil(lim, times[0], times[n]) - TicksUntil(lim, times[0], start),
                 (to - from) / lim.interval + 1);
  }

  lemma RunPrefix(lim: Limits, times: seq<int>)
    requires times != []
    ensures Run(lim, times).1[..|times| - 1] == Run(lim, times[..|times| - 1]).1
  {
  }

  /** In every run, any closed time interval [from, to] contains at most as many allowed hits as
      the budget of its length. */
  lemma {:induction false} RateBound(lim: Limits, times: seq<int>, from: int, to: int)
    requires NonDecreasing(times) && from <= to
    ensures AllowedIn(times, Run(lim, times).1, from, to + 1) <= Budget(lim, to - from)
  {
    hide Budget, Refilled, Run;
    if times != [] {
      var n := |times| - 1;
      if times[n] > to {
        RateBound(lim, times[..n], from, to);
        RunPrefix(lim, times);
      } else if times[n] < from {
        AllowedNone(times, Run(lim, times).1, from, to + 1);
      } else {
        SpendingIsFunded(lim, times, from);
        AllowedSameEnd(times, Run(lim, times).1, from, times[n] + 1, to + 1);
        RefilledWithinBudget(lim, times, from, to);
      }
    }
  }

  // ---------- what an answer foretells ----------

  /** The record after n more hits in the same millisecond. */
  function HitAgain(r: Record, lim: Limits, now: int, n: nat): Record {
    if n == 0 then r else HitRecord(Some(HitAgain(r, lim, now, n - 1)), lim, now).0
  }

  /** A record that was hit at this time is not refilled again. */
  lemma HitLeavesReady(r: Option<Record>, lim: Limits, now: int)
    requires r.Some? ==> r.value.lastRefill <= now
    ensures var hit := HitRecord(r, lim, now).0;
      && hit.lastRefill <= now
      && forall tokens: nat :: tokens <= hit.tokens ==>
           Ready(Some(hit.(tokens := tokens)), lim, now) == hit.(tokens := tokens)
  {
    if r.Some? {
      RefillForm(r.value, lim, now);
      var total := now - r.value.lastRefill;
      DivMod(total, lim.interval);
      DivModUnique(total % lim.interval, lim.interval, 0, total % lim.interval);
    }
  }

  lemma {:induction false} HitAgainLeaves(r: Option<Record>, lim: Limits, now: int, n: nat)
    requires r.Some? ==> r.value.lastRefill <= now
    ensures var hit := HitRecord(r, lim, now).0;
      HitAgain(hit, lim, now, n) == hit.(tokens := Max(0, hit.tokens - n))
  {
    hide Ready;
    HitLeavesReady(r, lim, now);
    if n > 0 {
      HitAgainLeaves(r, lim, now, n - 1);
    }
  }

  /** Of the hits that follow a hit in the same millisecond exactly the first `remaining` ones
      are allowed. */
  lemma RemainingIsExact(r: Option<Record>, lim: Limits, now: int, k: nat)
    requires (r.Some? ==> r.value.lastRefill <= now) && k >= 1
    ensures var (hit, first) := HitRecord(r, lim, now);
      && (HitRecord(Some(HitAgain(hit, lim, now, k - 1)), lim, now).1.allowed <==> k <= first.remaining)
      && first.totalHits + first.remaining == lim.capacity
  {
    hide Ready;
    HitLeavesReady(r, lim, now);
    HitAgainLeaves(r, lim, now, k - 1);
  }

  /** A bucket below its burst limit, with anything to refill, holds more exactly from the reset
      time on, which is an interval after the start of the window. */
  lemma ResetIsExact(r: Option<Record>, lim: Limits, now: int, t: int)
    requires (r.Some? ==> r.value.lastRefill <= now) && t >= now && lim.refillRate >= 1
    requires HitRecord(r, lim, now).0.tokens < lim.burst
    ensures var (hit, first) := HitRecord(r, lim, now);
      && first.windowStart <= now < first.resetTime == first.windowStart + lim.interval
      && (Ready(Some(hit), lim, t).tokens > hit.tokens <==> t >= first.resetTime)
  {
    hide Refill;
    if r.Some? {
      RefillForm(r.value, lim, now);
      DivMod(now - r.value.lastRefill, lim.interval);
    }
    var hit := HitRecord(r, lim, now).0;
    RefillForm(hit, lim, t);
    var total := t - hit.lastRefill;
    var k := total / lim.interval;
    DivMod(total, lim.interval);
    if total < lim.interval {
      DivModUnique(total, lim.interval, 0, total);
    } else {
      DivMonotone(lim.interval, total, lim.interval);
      DivModUnique(lim.interval, lim.interval, 1, 0);
      MulAtLeast(k, lim.refillRate);
    }
  }

  // ---------- records that expire ----------

  /** Whenever a record is left alone for a lifetime, a new bucket holds no more tokens than the
      record would by then: its expiry gives nothing away. */
  ghost predicate ExpiryGivesNothing(lim: Limits, lifetime: Millis) {
    forall times, now :: NonDecreasing(times) && times != [] && now >= times[|times| - 1] + lifetime ==>
      HoldsCapacity(lim, times, now)
  }

  /** The record has by now what a new bucket would have. */
  ghost predicate HoldsCapacity(lim: Limits, times: seq<int>, now: int) {
    Ready(None, lim, now).tokens <= Ready(Run(lim, times).0, lim, now).tokens
  }

  /** What a lifetime refills at least, and a bucket emptied in its first millisecond at most. */
  function LeastRefill(lim: Limits, lifetime: Millis): nat {
    MulNonNegative(lifetime / lim.interval, lim.refillRate);
    Min(lifetime / lim.interval * lim.refillRate, lim.burst)
  }

  /** Exactly when the whole intervals of a lifetime refill the initial capacity, within the
      burst limit. */
  lemma ExpiryGivesNothingExactly(lim: Limits, lifetime: Millis)
    ensures ExpiryGivesNothing(lim, lifetime) <==> lim.capacity <= LeastRefill(lim, lifetime) || lim.capacity == 0
  {
    hide Run, Refill, LeastRefill;
    if lim.capacity <= LeastRefill(lim, lifetime) || lim.capacity == 0 {
      forall times, now | NonDecreasing(times) && times != [] && now >= times[|times| - 1] + lifetime
        ensures HoldsCapacity(lim, times, now)
      {
        RunOnLattice(lim, times);
        IdleRefills(Run(lim, times).0.value, lim, lifetime, now);
      }
    } else {
      EmptiedRefills(lim, lifetime);
      assert !HoldsCapacity(lim, Repeat(0, lim.capacity), lifetime);
    }
  }

  /** A new bucket is emptied at once and left alone for the lifetime. */
  lemma EmptiedRefills(lim: Limits, lifetime: Millis)
    requires lim.capacity > 0
    ensures var times := Repeat(0, lim.capacity);
      && NonDecreasing(times) && times[|times| - 1] == 0
      && Ready(Run(lim, times).0, lim, lifetime).tokens == LeastRefill(lim, lifetime)
  {
    hide Run, Refill;
    FreshBucketLeft(lim, 0, lim.capacity);
    RefillForm(Record(0, 0, lim.burst), lim, lifetime);
  }

  /** At least the refills of a lifetime. */
  lemma IdleRefills(r: Record, lim: Limits, lifetime: Millis, now: int)
    requires now >= r.lastRefill + lifetime
    ensures Refill(r, lim, now).tokens >= LeastRefill(lim, lifetime)
  {
    hide Refill;
    RefillForm(r, lim, now);
    DivMonotone(lifetime, now - r.lastRefill, lim.interval);
    RateMonotone(lim, lifetime / lim.interval, (now - r.lastRefill) / lim.interval);
  }

  /** The TTL of line 66, the time to refill the burst limit, in seconds rounded up; here in
      milliseconds. */
  function RefillLifetime(lim: Limits): nat
    requires lim.refillRate >= 1
  {
    MulNonNegative(lim.burst, lim.interval);
    (lim.burst * lim.interval + lim.refillRate * 1000 - 1) / (lim.refillRate * 1000) * 1000
  }

  lemma LifetimeRefillsBurst(lim: Limits)
    requires lim.refillRate >= 1
    ensures RefillLifetime(lim) * lim.refillRate >= lim.burst * lim.interval
  {
    var x, d := lim.burst * lim.interval, lim.refillRate * 1000;
    MulNonNegative(lim.burst, lim.interval);
    var q := (x + d - 1) / d;
    DivMod(x + d - 1, d);
    assert q * d >= x;
    assert q * d == q * 1000 * lim.refillRate;
  }

  /** With that TTL in seconds, expiry gives nothing away when the burst limit is a multiple of
      the refill rate and covers the initial capacity, as with the limits of `hit`. */
  lemma WholeRefillsCoverBurst(lim: Limits, m: nat)
    requires lim.refillRate >= 1 && m >= 1 && lim.burst == m * lim.refillRate && lim.capacity <= lim.burst
    ensures RefillLifetime(lim) >= 1 && ExpiryGivesNothing(lim, RefillLifetime(lim))
  {
    hide RefillLifetime, ExpiryGivesNothing;
    var life := RefillLifetime(lim);
    LifetimeRefillsBurst(lim);
    Regrouped(m, lim.refillRate, lim.interval);
    CancelFactor(m * lim.interval, life, lim.refillRate);
    MulAtLeast(m, lim.interval);
    DivMonotone(m * lim.interval, life, lim.interval);
    DivModUnique(m * lim.interval, lim.interval, m, 0);
    RateMonotone(lim, m, life / lim.interval);
    ExpiryGivesNothingExactly(lim, life);
  }

  lemma Regrouped(a: int, b: int, c: int)
    ensures a * b * c == a * c * b
  {
  }

  lemma CancelFactor(a: int, b: int, c: int)
    requires c >= 1 && a * c <= b * c
    ensures a <= b
  {
    if a > b {
      MulAtLeast(a - b, c);
      Distribute(a - b, b, c);
    }
  }

  /** Otherwise it may: a bucket of 3 that gains 2 every 2 seconds is forgotten after 3 seconds,
      when it would hold 2. */
  lemma PartialRefillGivesAway()
    ensures var lim := Limits(3, 2, 2000, 3); RefillLifetime(lim) == 3000 && !ExpiryGivesNothing(lim, 3000)
  {
    hide ExpiryGivesNothing;
    ExpiryGivesNothingExactly(Limits(3, 2, 2000, 3), 3000);
  }

  // ---------- reports ----------

  /** What getTokenBucket says about a record. The reset time adds the burst capacity, a token
      count, to a timestamp, as the source does. */
  function Report(r: Record): RateLimitResult {
    RateLimitResult(r.tokens > 0, r.tokens, r.lastRefill + r.burstCapacity, 0, r.lastRefill)
  }

  /** A report foresees the decision on a hit at time now exactly when no refill or clip is due
      that matters: it misses that an empty bucket is refilled by then, or that a burst limit
      of 0 has emptied a full one. */
  lemma ReportForeseesExactly(r: Record, lim: Limits, now: int)
    ensures Report(r).allowed == HitRecord(Some(r), lim, now).1.allowed <==>
      || now <= r.lastRefill
      || (if r.tokens > 0 then lim.burst > 0
          else now - r.lastRefill < lim.interval || lim.refillRate == 0 || lim.burst == 0)
  {
    if now > r.lastRefill {
      var k := DueTicks(r, lim, now);
      DivMod(now - r.lastRefill, lim.interval);
      if k != 0 {
        MulAtLeast(k, lim.interval);
        MulAtLeast(k, lim.refillRate);
      }
    }
  }

  /** After a hit the report repeats the tokens and the window start of its answer, and its reset
      time exactly when the burst capacity happens to equal the interval. */
  lemma ReportRepeatsExactly(r: Option<Record>, lim: Limits, now: int)
    ensures var (hit, answer) := HitRecord(r, lim, now);
      && Report(hit).remaining == answer.remaining && Report(hit).windowStart == answer.windowStart
      && Report(hit).totalHits == 0
      && (Report(hit).allowed <==> answer.remaining > 0)
      && (Report(hit).resetTime == answer.resetTime <==> hit.burstCapacity == lim.interval)
      && hit.burstCapacity == (if r.Some? then r.value.burstCapacity else lim.burst)
  {
    hide DueTicks;
  }

  // ---------- the store ----------

  /** The store without a cache manager: one record a key in a Map. */
  class TokenBucketRateLimitStore {
    var memoryStore: map<string, Record>

    constructor ()
      ensures memoryStore == map[]
    {
      memoryStore := map[];
    }

    /** Lines 54 to 65 of the source: the limits this hit works with. */
    method Adjusted(config: Config, userId: int, adjustments: Option<seq<Adjustment>>)
      returns (capacity: nat, refillRate: nat, burst: nat)
      ensures Limits(capacity, refillRate, config.refillIntervalMs, burst)
              == EffectiveLimits(config, userId, adjustments)
    {
      capacity, refillRate := config.capacity, config.refillRate;
      burst := if config.burstCapacity.Some? then config.burstCapacity.value else config.capacity;
      if userId != 0 && adjustments.Some? {
        var adj := FindAdjustment(userId, adjustments.value);
        if adj.Some? {
          if adj.value.maxOverride.Some? && adj.value.maxOverride.value != 0 {
            capacity := adj.value.maxOverride.value;
          }
          refillRate := Scaled(refillRate, adj.value.multiplier);
          burst := Scaled(burst, adj.value.multiplier);
        }
      }
    }

    method HitTokenBucket(key: string, config: Config, userId: int, adjustments: Option<seq<Adjustment>>, now: int)
      returns (answer: RateLimitResult)
      modifies this
      ensures var lim := EffectiveLimits(config, userId, adjustments);
        var (r, a) := HitRecord(Lookup(old(memoryStore), key), lim, now);
        memoryStore == old(memoryStore)[key := r] && answer == a
      ensures !answer.allowed ==> answer.remaining == 0
    {
      var capacity, refillRate, burst := Adjusted(config, userId, adjustments);
      var interval := config.refillIntervalMs;
      ghost var lim := Limits(capacity, refillRate, interval, burst);
      var tokens: nat, lastRefill, recordBurst := capacity, now, burst;
      if key in memoryStore {
        var record := memoryStore[key];
        tokens, lastRefill, recordBurst := record.tokens, record.lastRefill, record.burstCapacity;
        var elapsed := now - lastRefill;
        if elapsed > 0 {
          var ticks: nat := elapsed / interval;
          assert ticks == DueTicks(record, lim, now);
          var refillTokens: nat := ticks * refillRate;
          tokens := Min(tokens + refillTokens, burst);
          lastRefill := lastRefill + ticks * interval;
        }
      }
      assert Record(tokens, lastRefill, recordBurst) == Ready(Lookup(memoryStore, key), lim, now);
      var allowed := false;
      if tokens > 0 {
        tokens := tokens - 1;
        allowed := true;
      }
      memoryStore := memoryStore[key := Record(tokens, lastRefill, recordBurst)];
      answer := RateLimitResult(allowed, tokens, lastRefill + interval, capacity - tokens, lastRefill);
    }

    method Hit(key: string, windowMs: Millis, max: nat, now: int) returns (answer: RateLimitResult)
      modifies this
      ensures var (r, a) := HitRecord(Lookup(old(memoryStore), key), Limits(max, max, windowMs, max), now);
        memoryStore == old(memoryStore)[key := r] && answer == a
    {
      answer := HitTokenBucket(key, Config(max, max, windowMs, None), 0, None, now);
    }

    method GetTokenBucket(key: string) returns (answer: Option<RateLimitResult>)
      ensures answer == if key in memoryStore then Some(Report(memoryStore[key])) else None
    {
      if key !in memoryStore { return None; }
      var r := memoryStore[key];
      answer := Some(RateLimitResult(r.tokens > 0, r.tokens, r.lastRefill + r.burstCapacity, 0, r.lastRefill));
    }

    method Reset(key: string)
      modifies this
      ensures memoryStore == old(memoryStore) - {key}
    {
      memoryStore := memoryStore - {key};
    }

    /** Hands one token back; an unknown key is left alone. */
    method Increment(key: string) returns (tokens: nat)
      modifies this
      ensures key !in old(memoryStore) ==> memoryStore == old(memoryStore) && tokens == 0
      ensures key in old(memoryStore) ==>
        var r := old(memoryStore)[key];
        && tokens == Min(r.tokens + 1, r.burstCapacity)
        && memoryStore == old(memoryStore)[key := r.(tokens := tokens)]
    {
      if key !in memoryStore { return 0; }
      var r := memoryStore[key];
      tokens := Min(r.tokens + 1, r.burstCapacity);
      memoryStore := memoryStore[key := r.(tokens := tokens)];
    }
  }
}
