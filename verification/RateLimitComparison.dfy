/** The limiters against each other, on the same key, history, window and limit. */
module RateLimitComparison {
  import opened Basics
  import opened RateLimits
  import SlidingWindow
  import FixedWindow

  predicate SlidingAllows(windowMs: Millis, lifetime: Millis, max: nat, past: seq<int>, now: int) {
    SlidingWindow.Run(windowMs, lifetime, max, past + [now]).1[|past|].allowed
  }

  predicate FixedAllows(windowMs: Millis, max: nat, past: seq<int>, now: int) {
    FixedWindow.Answer(windowMs, max, FixedWindow.AsHits(past), now).allowed
  }

  /** The hits that each of the two counts for the last of a history. */
  lemma SlidingDecides(windowMs: Millis, lifetime: Millis, max: nat, past: seq<int>, now: int)
    requires NonDecreasing(past + [now]) && lifetime >= windowMs
    ensures SlidingAllows(windowMs, lifetime, max, past, now)
            <==> CountIn(past + [now], now - windowMs + 1, now + 1) <= max
  {
    hide SlidingWindow.Run, CountIn, NonDecreasing;
    var all := past + [now];
    assert all[..|past| + 1] == all;
    SlidingWindow.CountsWholeHistory(windowMs, lifetime, max, all, |past|);
  }

  lemma FixedDecides(windowMs: Millis, max: nat, past: seq<int>, now: int)
    requires NonDecreasing(past + [now])
    ensures FixedAllows(windowMs, max, past, now) <==> FixedWindow.WindowCount(past + [now], now, windowMs) <= max
  {
    hide FixedWindow.Stored, FixedWindow.HitTimes, FixedWindow.WindowCount, FixedWindow.Aligned;
    FixedWindow.HitTimesOfHits(past);
    HitsOrdered(past, now);
    FixedWindow.MemoryCountsWindow(windowMs, max, FixedWindow.AsHits(past), now);
  }

  lemma HitsOrdered(past: seq<int>, now: int)
    requires NonDecreasing(past + [now])
    ensures FixedWindow.Ordered(FixedWindow.AsHits(past) + [FixedWindow.Hit(now)])
  {
    var ops, all := FixedWindow.AsHits(past) + [FixedWindow.Hit(now)], past + [now];
    assert forall i :: 0 <= i < |ops| ==> ops[i].at == all[i];
  }

  /** Whatever the sliding window lets through, the fixed window lets through as well: the
      aligned window of a hit lies inside the sliding one. */
  lemma SlidingIsStricter(windowMs: Millis, lifetime: Millis, max: nat, past: seq<int>, now: int)
    requires NonDecreasing(past + [now]) && lifetime >= windowMs
    requires SlidingAllows(windowMs, lifetime, max, past, now)
    ensures FixedAllows(windowMs, max, past, now)
    ensures FixedWindow.RedisAnswer(windowMs, lifetime, max, past, now).allowed
  {
    hide SlidingAllows, FixedAllows, FixedWindow.RedisAnswer, FixedWindow.Aligned, CountIn;
    SlidingDecides(windowMs, lifetime, max, past, now);
    FixedDecides(windowMs, max, past, now);
    FixedWindow.RedisCountsWindow(windowMs, lifetime, max, past, now);
    FixedWindow.AlignedBounds(now, windowMs);
    var all := past + [now];
    assert forall i :: 0 <= i < |all| ==> all[i] <= all[|past|] == now;
    CountWiden(all, FixedWindow.Aligned(now, windowMs), FixedWindow.Aligned(now, windowMs) + windowMs,
               now - windowMs + 1, now + 1);
  }

  /** The converse fails for every limit and every window above one millisecond: right after
      a window boundary the fixed window forgets a full burst that the sliding one remembers. */
  lemma FixedIsLaxer(windowMs: Millis, lifetime: Millis, max: nat)
    requires windowMs >= 2 && max >= 1 && lifetime >= windowMs
    ensures var past := FixedWindow.Straddle(windowMs, max)[..max];
      && NonDecreasing(past + [windowMs as int])
      && FixedAllows(windowMs, max, past, windowMs)
      && !SlidingAllows(windowMs, lifetime, max, past, windowMs)
  {
    hide SlidingAllows, FixedAllows, FixedWindow.Aligned, CountIn;
    var past := FixedWindow.Straddle(windowMs, max)[..max];
    var all := past + [windowMs as int];
    assert all == FixedWindow.Straddle(windowMs, max)[..max + 1];
    SlidingDecides(windowMs, lifetime, max, past, windowMs);
    FixedDecides(windowMs, max, past, windowMs);
    FixedWindow.AlignedAtBoundary(windowMs);
    FixedWindow.StraddleCount(windowMs, max, max + 1);
    CountAll(all, windowMs - windowMs + 1, windowMs + 1);
  }

  /** The two limiters give every hit of every history the same decision. */
  ghost predicate AlwaysAgree(windowMs: Millis, lifetime: Millis, max: nat) {
    forall past, now :: NonDecreasing(past + [now]) ==>
      (SlidingAllows(windowMs, lifetime, max, past, now) <==> FixedAllows(windowMs, max, past, now))
  }

  lemma CountsItself(past: seq<int>, now: int, lo: int, hi: int)
    requires lo <= now < hi
    ensures CountIn(past + [now], lo, hi) >= 1
  {
    assert (past + [now])[..|past|] == past;
  }

  /** They are interchangeable exactly when a window is a single millisecond or nothing is
      allowed at all. */
  lemma AlwaysAgreeExactly(windowMs: Millis, lifetime: Millis, max: nat)
    requires lifetime >= windowMs
    ensures AlwaysAgree(windowMs, lifetime, max) <==> windowMs == 1 || max == 0
  {
    hide SlidingAllows, FixedAllows, FixedWindow.Aligned, CountIn;
    if windowMs == 1 || max == 0 {
      forall past, now | NonDecreasing(past + [now])
        ensures SlidingAllows(windowMs, lifetime, max, past, now) <==> FixedAllows(windowMs, max, past, now)
      {
        SlidingDecides(windowMs, lifetime, max, past, now);
        FixedDecides(windowMs, max, past, now);
        FixedWindow.AlignedBounds(now, windowMs);
        CountsItself(past, now, now - windowMs + 1, now + 1);
        CountsItself(past, now, FixedWindow.Aligned(now, windowMs), FixedWindow.Aligned(now, windowMs) + windowMs);
      }
    } else {
      FixedIsLaxer(windowMs, lifetime, max);
    }
  }

  lemma {:induction false} CountAll(times: seq<int>, lo: int, hi: int)
    requires forall i :: 0 <= i < |times| ==> lo <= times[i] < hi
    ensures CountIn(times, lo, hi) == |times|
  {
    if times != [] {
      CountAll(times[..|times| - 1], lo, hi);
    }
  }
}
