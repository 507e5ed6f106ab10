/** Retry with exponential backoff, src/common/errors/retry-with-backoff.ts. */
module Retry {
  import opened Basics
  import opened Reals
  import opened Series

  datatype Outcome = Success | RetryExceeded | Unexpected

  function NextDelay(delay: real, factor: real, maxDelay: real): real {
    MinReal(delay * factor, maxDelay)
  }

  /** The wait after failure number i + 1. */
  function Wait(initial: real, factor: real, maxDelay: real, i: nat): real {
    if i == 0 then initial else NextDelay(Wait(initial, factor, maxDelay, i - 1), factor, maxDelay)
  }

  function Pow(x: real, n: nat): real {
    if n == 0 then 1.0 else x * Pow(x, n - 1)
  }

  function Geometric(initial: real, factor: real, i: nat): real {
    initial * Pow(factor, i)
  }

  /** The first call that succeeds among the first n, or n. */
  function FirstSuccess(succeeds: nat -> bool, n: nat): (k: nat)
    ensures k <= n
    ensures forall i: nat :: i < k ==> !succeeds(i)
    ensures k < n ==> succeeds(k)
  {
    if n == 0 then 0
    else
      var k := FirstSuccess(succeeds, n - 1);
      if k < n - 1 || succeeds(n - 1) then k else n
  }

  /** succeeds(i) says whether call number i of fn resolves. fn is called until it first
      succeeds or `retries` calls have failed, one wait between two calls, and the last throw
      of the source is reached only if no call was ever allowed. */
  method RetryWithBackoff(succeeds: nat -> bool, retries: int, initial: real, maxDelay: real, factor: real)
    returns (outcome: Outcome, calls: nat, waits: seq<real>)
    ensures outcome.Unexpected? <==> retries <= 0
    ensures retries <= 0 ==> calls == 0 && waits == []
    ensures retries >= 1 ==> calls == Min(retries, FirstSuccess(succeeds, retries) + 1)
    ensures retries >= 1 ==> (outcome.Success? <==> FirstSuccess(succeeds, retries) < retries)
    ensures retries >= 1 ==> |waits| == calls - 1
    ensures forall i :: 0 <= i < |waits| ==> waits[i] == Wait(initial, factor, maxDelay, i)
    ensures waits != [] ==> waits[0] == initial
  {
    hide NextDelay, FirstSuccess;
    var attempt := 0;
    var delay := initial;
    calls, waits := 0, [];
    while attempt < retries
      invariant 0 <= attempt == calls == |waits|
      invariant attempt == 0 || attempt < retries
      invariant forall i :: 0 <= i < attempt ==> !succeeds(i)
      invariant delay == Wait(initial, factor, maxDelay, attempt)
      invariant forall i :: 0 <= i < |waits| ==> waits[i] == Wait(initial, factor, maxDelay, i)
    {
      calls := calls + 1;
      if succeeds(attempt) {
        return Success, calls, waits;
      }
      attempt := attempt + 1;
      if attempt >= retries {
        return RetryExceeded, calls, waits;
      }
      waits := waits + [delay];
      delay := NextDelay(delay, factor, maxDelay);
    }
    outcome := Unexpected;
  }

  // ---------- the delays in closed form ----------

  /** One more factor on a capped value. */
  lemma GrowStep(grown: real, grownMore: real, factor: real, maxDelay: real)
    requires maxDelay >= 0.0 && factor >= 1.0 && grownMore == grown * factor
    ensures NextDelay(MinReal(grown, maxDelay), factor, maxDelay) == MinReal(grownMore, maxDelay)
  {
    MulMonotone(1.0, factor, maxDelay);
    if grown >= maxDelay {
      MulMonotone(maxDelay, grown, factor);
    }
  }

  lemma PowStep(x: real, y: real, i: nat)
    requires i >= 1
    ensures y * Pow(x, i) == y * Pow(x, i - 1) * x
  {
    var p := Pow(x, i - 1);
    assert Pow(x, i) == x * p;
  }

  lemma {:induction false} GrowingWaits(initial: real, factor: real, maxDelay: real, i: nat)
    requires initial >= 0.0 && maxDelay >= 0.0 && factor >= 1.0 && i >= 1
    ensures Wait(initial, factor, maxDelay, i) == MinReal(Geometric(initial, factor, i), maxDelay)
  {
    hide NextDelay, Pow;
    PowStep(factor, initial, i);
    if i == 1 {
      PowZero(factor);
      assert initial * Pow(factor, i) == initial * factor;
      assert Wait(initial, factor, maxDelay, 0) == initial;
      assert Wait(initial, factor, maxDelay, i) == NextDelay(Wait(initial, factor, maxDelay, i - 1), factor, maxDelay);
      NextDelayIs(initial, factor, maxDelay);
    } else {
      GrowingWaits(initial, factor, maxDelay, i - 1);
      assert Wait(initial, factor, maxDelay, i) == NextDelay(Wait(initial, factor, maxDelay, i - 1), factor, maxDelay);
      GrowStep(Geometric(initial, factor, i - 1), Geometric(initial, factor, i), factor, maxDelay);
    }
  }

  lemma PowZero(x: real)
    ensures Pow(x, 0) == 1.0
  {
  }

  lemma NextDelayIs(delay: real, factor: real, maxDelay: real)
    ensures NextDelay(delay, factor, maxDelay) == MinReal(delay * factor, maxDelay)
  {
  }

  lemma ShrinkStep(wait: real, factor: real, maxDelay: real)
    requires 0.0 <= wait <= maxDelay && 0.0 <= factor <= 1.0
    ensures NextDelay(wait, factor, maxDelay) == wait * factor
    ensures 0.0 <= wait * factor <= maxDelay
  {
    MulMonotone(factor, 1.0, wait);
    MulMonotone(0.0, wait, factor);
  }

  lemma {:induction false} ShrinkingWaits(initial: real, factor: real, maxDelay: real, i: nat)
    requires initial >= 0.0 && maxDelay >= 0.0 && 0.0 <= factor <= 1.0 && i >= 1
    ensures Wait(initial, factor, maxDelay, i) == MinReal(initial * factor, maxDelay) * Pow(factor, i - 1)
    ensures 0.0 <= Wait(initial, factor, maxDelay, i) <= maxDelay
  {
    hide NextDelay, Pow;
    var first := MinReal(initial * factor, maxDelay);
    if i == 1 {
      PowZero(factor);
      MulMonotone(0.0, initial, factor);
      NextDelayIs(initial, factor, maxDelay);
      assert Wait(initial, factor, maxDelay, 1) == NextDelay(Wait(initial, factor, maxDelay, 0), factor, maxDelay);
    } else {
      ShrinkingWaits(initial, factor, maxDelay, i - 1);
      ShrinkStep(Wait(initial, factor, maxDelay, i - 1), factor, maxDelay);
      PowStep(factor, first, i - 1);
    }
  }

  /** The capped geometric formula for every wait after the first. */
  ghost predicate CappedGeometric(initial: real, factor: real, maxDelay: real) {
    forall i: nat :: i >= 1 ==> Wait(initial, factor, maxDelay, i) == MinReal(Geometric(initial, factor, i), maxDelay)
  }

  /** A shrinking delay that starts above the cap keeps shrinking from the cap instead of
      following the formula; in all other cases the waits are the capped geometric sequence. */
  lemma CappedGeometricExactly(initial: real, factor: real, maxDelay: real)
    requires initial >= 0.0 && maxDelay >= 0.0 && factor >= 0.0
    ensures CappedGeometric(initial, factor, maxDelay)
            <==> factor >= 1.0 || initial * factor <= maxDelay || maxDelay == 0.0
  {
    hide NextDelay, Pow, Wait;
    if factor >= 1.0 {
      forall i: nat | i >= 1
        ensures Wait(initial, factor, maxDelay, i) == MinReal(Geometric(initial, factor, i), maxDelay)
      {
        GrowingWaits(initial, factor, maxDelay, i);
      }
    } else if initial * factor <= maxDelay || maxDelay == 0.0 {
      forall i: nat | i >= 1
        ensures Wait(initial, factor, maxDelay, i) == MinReal(Geometric(initial, factor, i), maxDelay)
      {
        ShrinkingWaitFollows(initial, factor, maxDelay, i);
      }
    } else {
      ShrinkingWaitLeaves(initial, factor, maxDelay);
    }
  }

  lemma ShrinkingWaitFollows(initial: real, factor: real, maxDelay: real, i: nat)
    requires initial >= 0.0 && maxDelay >= 0.0 && 0.0 <= factor <= 1.0 && i >= 1
    requires initial * factor <= maxDelay || maxDelay == 0.0
    ensures Wait(initial, factor, maxDelay, i) == MinReal(Geometric(initial, factor, i), maxDelay)
  {
    hide NextDelay, Pow, Wait;
    ShrinkingWaits(initial, factor, maxDelay, i);
    PowBounds(factor, i - 1);
    var p := Pow(factor, i - 1);
    PowStep(factor, initial, i);
    var x := initial * factor;
    assert initial * Pow(factor, i) == x * p;
    MulMonotone(0.0, initial, factor);
    MulMonotone(0.0, x, p);
    if x <= maxDelay {
      assert Wait(initial, factor, maxDelay, i) == x * p;
    } else {
      assert Wait(initial, factor, maxDelay, i) == 0.0;
    }
  }

  lemma ShrinkingWaitLeaves(initial: real, factor: real, maxDelay: real)
    requires maxDelay > 0.0 && 0.0 <= factor < 1.0 && initial >= 0.0
    requires initial * factor > maxDelay
    ensures !CappedGeometric(initial, factor, maxDelay)
  {
    hide NextDelay, Pow, Wait;
    var two: nat := 2;
    ShrinkingWaits(initial, factor, maxDelay, two);
    PowZero(factor);
    PowStep(factor, 1.0, two - 1);
    PowStep(factor, initial, two);
    var x := initial * factor;
    assert Pow(factor, two - 1) == factor;
    assert initial * Pow(factor, two) == x * factor;
    PositiveProduct(x - maxDelay, factor);
    PositiveProduct(maxDelay, 1.0 - factor);
    assert Wait(initial, factor, maxDelay, two) == maxDelay * factor;
    assert x * factor > maxDelay * factor && maxDelay > maxDelay * factor;
    var grown := initial * Pow(factor, two);
    assert grown == x * factor;
    assert MinReal(grown, maxDelay) > maxDelay * factor;
    assert Wait(initial, factor, maxDelay, two) != MinReal(grown, maxDelay);
    assert Wait(initial, factor, maxDelay, two) != MinReal(Geometric(initial, factor, two), maxDelay);
  }

  lemma {:induction false} PowBounds(x: real, n: nat)
    requires x >= 0.0
    ensures Pow(x, n) >= 0.0
  {
    if n > 0 {
      PowBounds(x, n - 1);
      MulMonotone(0.0, Pow(x, n - 1), x);
    }
  }

  /** A retried operation is never delayed longer than its waits at the larger of the first
      delay and the cap. */
  lemma {:induction false} TotalDelayBound(initial: real, factor: real, maxDelay: real, waits: seq<real>)
    requires initial >= 0.0 && maxDelay >= 0.0 && factor >= 0.0
    requires forall i :: 0 <= i < |waits| ==> waits[i] == Wait(initial, factor, maxDelay, i)
    ensures 0.0 <= Sum(waits) <= |waits| as real * MaxReal(initial, maxDelay)
  {
    hide Wait;
    if waits != [] {
      var n := |waits| - 1;
      TotalDelayBound(initial, factor, maxDelay, waits[..n]);
      WaitBounds(initial, factor, maxDelay, n);
      var m := MaxReal(initial, maxDelay);
      assert (n as real + 1.0) * m == n as real * m + m;
    }
  }

  lemma {:induction false} WaitBounds(initial: real, factor: real, maxDelay: real, i: nat)
    requires initial >= 0.0 && maxDelay >= 0.0 && factor >= 0.0
    ensures 0.0 <= Wait(initial, factor, maxDelay, i) <= MaxReal(initial, maxDelay)
  {
    if i > 0 {
      WaitBounds(initial, factor, maxDelay, i - 1);
      MulMonotone(0.0, Wait(initial, factor, maxDelay, i - 1), factor);
    }
  }
}
