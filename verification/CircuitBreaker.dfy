/** The circuit breaker, src/common/errors/circuit-breaker.ts. A call of exec is two steps,
    an admission and a completion; between them other calls may take steps. */
module CircuitBreaker {
  import opened Basics

  datatype Mode = CLOSED | OPEN | HALF_OPEN

  datatype Options = Options(failureThreshold: Option<nat>, cooldownPeriodMs: Option<nat>,
                            successThreshold: Option<nat>)

  /** The thresholds in force: an absent or zero option falls back to its default. */
  datatype Limits = Limits(failures: Positive, cooldown: Positive, successes: Positive)

  function OrDefault(option: Option<nat>, default: Positive): Positive {
    if option.Some? && option.value != 0 then option.value else default
  }

  function InForce(o: Options): Limits {
    Limits(OrDefault(o.failureThreshold, 5), OrDefault(o.cooldownPeriodMs, 10000), OrDefault(o.successThreshold, 2))
  }

  /** Each option counts as given, unless it is absent or 0. */
  lemma DefaultsApply(o: Options)
    ensures var lim := InForce(o);
      var failures, cooldown, successes := o.failureThreshold, o.cooldownPeriodMs, o.successThreshold;
      && lim.failures == (if failures.Some? && failures.value > 0 then failures.value else 5)
      && lim.cooldown == (if cooldown.Some? && cooldown.value > 0 then cooldown.value else 10000)
      && lim.successes == (if successes.Some? && successes.value > 0 then successes.value else 2)
  {
  }

  datatype State = State(mode: Mode, failureCount: nat, successCount: nat, nextAttempt: int)

  const INITIAL := State(CLOSED, 0, 0, 0)

  predicate Refuses(s: State, now: int) {
    s.mode == OPEN && now <= s.nextAttempt
  }

  function Admit(s: State, now: int): State {
    if s.mode == OPEN && now > s.nextAttempt then s.(mode := HALF_OPEN) else s
  }

  function Succeed(lim: Limits, s: State): State {
    if s.mode != HALF_OPEN then s.(failureCount := 0)
    else if s.successCount + 1 >= lim.successes then s.(mode := CLOSED, failureCount := 0, successCount := 0)
    else s.(successCount := s.successCount + 1)
  }

  function Fail(lim: Limits, s: State, now: int): State {
    if s.failureCount + 1 >= lim.failures
    then s.(failureCount := s.failureCount + 1, mode := OPEN, nextAttempt := now + lim.cooldown)
    else s.(failureCount := s.failureCount + 1)
  }

  // ---------- one call at a time ----------

  datatype Call = Call(start: int, finish: int, ok: bool)
  datatype Outcome = Refused | Ran(ok: bool)

  function ExecCall(lim: Limits, s: State, c: Call): (State, Outcome) {
    if Refuses(s, c.start) then (s, Refused)
    else
      var admitted := Admit(s, c.start);
      (if c.ok then Succeed(lim, admitted) else Fail(lim, admitted, c.finish), Ran(c.ok))
  }

  ghost predicate Sequential(calls: seq<Call>) {
    && (forall i :: 0 <= i < |calls| ==> calls[i].start <= calls[i].finish)
    && (forall i, j :: 0 <= i < j < |calls| ==> calls[i].finish <= calls[j].start)
  }

  /** The state after a run of calls, none of which starts before the previous one is done. */
  function After(lim: Limits, calls: seq<Call>): State {
    if calls == [] then INITIAL
    else ExecCall(lim, After(lim, calls[..|calls| - 1]), calls[|calls| - 1]).0
  }

  /** What call i of the run met. */
  function OutcomeOf(lim: Limits, calls: seq<Call>, i: nat): Outcome
    requires i < |calls|
  {
    ExecCall(lim, After(lim, calls[..i]), calls[i]).1
  }

  /** The calls whose body ran, in order: all that the outside world sees of a run. */
  function Executed(lim: Limits, calls: seq<Call>): seq<Call> {
    if calls == [] then []
    else
      var n := |calls| - 1;
      Executed(lim, calls[..n]) + (if OutcomeOf(lim, calls, n).Ran? then [calls[n]] else [])
  }

  /** The length of the run of failures that ends a history. */
  function TrailingFailures(history: seq<Call>): nat {
    if history == [] || history[|history| - 1].ok then 0
    else TrailingFailures(history[..|history| - 1]) + 1
  }

  /** Successes of probing calls since the breaker was last closed, over all reopenings. */
  function ProbeSuccesses(lim: Limits, calls: seq<Call>): nat {
    if calls == [] || After(lim, calls).mode == CLOSED then 0
    else
      var n := |calls| - 1;
      ProbeSuccesses(lim, calls[..n]) + (if OutcomeOf(lim, calls, n) == Ran(true) then 1 else 0)
  }

  /** The breaker's fields are functions of the executed history:
      closed, it counts exactly the current run of failures, and that run is short;
      open or half open, the count is at or above the threshold;
      open, the last executed call is the failure that opened it and dates the cooldown. */
  ghost predicate Explained(lim: Limits, s: State, history: seq<Call>) {
    && s.successCount < lim.successes
    && match s.mode
       case CLOSED => s.failureCount == TrailingFailures(history) < lim.failures && s.successCount == 0
       case HALF_OPEN => s.failureCount >= lim.failures
       case OPEN =>
         && s.failureCount >= lim.failures
         && history != []
         && !history[|history| - 1].ok
         && s.nextAttempt == history[|history| - 1].finish + lim.cooldown
  }

  lemma {:induction false} StateExplained(lim: Limits, calls: seq<Call>)
    ensures Explained(lim, After(lim, calls), Executed(lim, calls))
    ensures After(lim, calls).successCount == ProbeSuccesses(lim, calls)
  {
    if calls != [] {
      var n := |calls| - 1;
      StateExplained(lim, calls[..n]);
      var before := Executed(lim, calls[..n]);
      if OutcomeOf(lim, calls, n).Ran? {
        assert (before + [calls[n]])[..|before|] == before;
      }
    }
  }

  /** In every sequential run a call is refused exactly when the last call that ran failed,
      left the breaker open, and ended no more than the cooldown ago. */
  lemma {:induction false} RefusedExactlyDuringCooldown(lim: Limits, calls: seq<Call>, c: Call)
    ensures var history := Executed(lim, calls);
      ExecCall(lim, After(lim, calls), c).1.Refused? <==>
        && After(lim, calls).mode == OPEN
        && history != [] && !history[|history| - 1].ok
        && c.start <= history[|history| - 1].finish + lim.cooldown
  {
    StateExplained(lim, calls);
  }

  /** A failed probe always reopens, and a failure in the closed state opens exactly when it
      completes a run of `failures` failures. */
  lemma FailureOpensExactly(lim: Limits, calls: seq<Call>, c: Call)
    requires !c.ok && ExecCall(lim, After(lim, calls), c).1.Ran?
    ensures ExecCall(lim, After(lim, calls), c).0.mode == OPEN <==>
      After(lim, calls).mode != CLOSED || TrailingFailures(Executed(lim, calls)) + 1 >= lim.failures
    ensures ExecCall(lim, After(lim, calls), c).0.mode == OPEN ==>
      ExecCall(lim, After(lim, calls), c).0.nextAttempt == c.finish + lim.cooldown
  {
    StateExplained(lim, calls);
  }

  /** The breaker closes again exactly at the probe success that completes `successes` of
      them since it was last closed. They need not be consecutive. */
  lemma ClosesExactly(lim: Limits, calls: seq<Call>, c: Call)
    requires After(lim, calls).mode != CLOSED
    ensures ExecCall(lim, After(lim, calls), c).0.mode == CLOSED <==>
      ExecCall(lim, After(lim, calls), c).1 == Ran(true) && ProbeSuccesses(lim, calls) + 1 == lim.successes
  {
    StateExplained(lim, calls);
  }

  /** While open, the next body to run starts after nextAttempt; until then nothing changes. */
  lemma {:induction false} OpenUntilNextAttempt(lim: Limits, calls: seq<Call>, i: nat, j: nat)
    requires Sequential(calls) && i < j < |calls|
    requires After(lim, calls[..i + 1]).mode == OPEN
    requires OutcomeOf(lim, calls, j).Ran?
    ensures calls[j].start > After(lim, calls[..i + 1]).nextAttempt
    decreases j
  {
    var s := After(lim, calls[..i + 1]);
    if j > i + 1 && After(lim, calls[..j]) != s {
      var k := FirstChange(lim, calls, i, j);
      OpenUntilNextAttempt(lim, calls, i, k);
    }
  }

  /** Some call between i and j ran. */
  lemma FirstChange(lim: Limits, calls: seq<Call>, i: nat, j: nat) returns (k: nat)
    requires i + 1 < j < |calls|
    requires After(lim, calls[..i + 1]) != After(lim, calls[..j])
    ensures i < k < j && OutcomeOf(lim, calls, k).Ran?
  {
    k := j - 1;
    assert calls[..j][..k] == calls[..k];
    if OutcomeOf(lim, calls, k).Refused? {
      k := FirstChange(lim, calls, i, j - 1);
    }
  }

  /** No body ever starts within the cooldown of the failure that opened the breaker. */
  lemma NoBodyDuringCooldown(lim: Limits, calls: seq<Call>, i: nat, j: nat)
    requires Sequential(calls) && i < j < |calls|
    requires OutcomeOf(lim, calls, i) == Ran(false) && After(lim, calls[..i + 1]).mode == OPEN
    requires OutcomeOf(lim, calls, j).Ran?
    ensures calls[j].start > calls[i].finish + lim.cooldown
  {
    OpenUntilNextAttempt(lim, calls, i, j);
    assert calls[..i + 1][..i] == calls[..i];
  }

  // ---------- overlapping calls ----------

  datatype Event = Start(at: int) | Succeeded(at: int) | Failed(at: int)

  function Step(lim: Limits, s: State, e: Event): State {
    match e
    case Start(at) => Admit(s, at)
    case Succeeded(_) => Succeed(lim, s)
    case Failed(at) => Fail(lim, s, at)
  }

  function Steps(lim: Limits, s: State, events: seq<Event>): State {
    if events == [] then s
    else Step(lim, Steps(lim, s, events[..|events| - 1]), events[|events| - 1])
  }

  /** Admitted calls that have not completed yet. */
  function InFlight(lim: Limits, events: seq<Event>): int {
    if events == [] then 0
    else
      var n := |events| - 1;
      InFlight(lim, events[..n])
      + (if !events[n].Start? then -1
         else if Refuses(Steps(lim, INITIAL, events[..n]), events[n].at) then 0 else 1)
  }

  /** Only admitted calls complete, and time does not run backwards. */
  ghost predicate Feasible(lim: Limits, events: seq<Event>) {
    && (forall k :: 0 <= k <= |events| ==> InFlight(lim, events[..k]) >= 0)
    && (forall i, j :: 0 <= i < j < |events| ==> events[i].at <= events[j].at)
  }

  /** What survives every interleaving, however calls overlap or nest. */
  lemma {:induction false} SurvivesOverlap(lim: Limits, events: seq<Event>)
    ensures var s := Steps(lim, INITIAL, events);
      && (s.mode == CLOSED ==> s.failureCount < lim.failures && s.successCount == 0)
      && s.successCount < lim.successes
  {
    if events != [] {
      SurvivesOverlap(lim, events[..|events| - 1]);
    }
  }

  /** Failed probes reopen, in every interleaving. */
  ghost predicate ProbeFailuresReopen(lim: Limits) {
    forall events, at :: Feasible(lim, events + [Failed(at)]) && Steps(lim, INITIAL, events).mode == HALF_OPEN
      ==> Steps(lim, INITIAL, events + [Failed(at)]).mode == OPEN
  }

  function Burst(k: nat, e: Event): (events: seq<Event>)
    ensures |events| == k && forall i :: 0 <= i < k ==> events[i] == e
  {
    seq(k, _ => e)
  }

  /** A straggler that succeeds after the breaker opened wipes the failure count, so after
      the cooldown a failed probe is counted as the first failure of a new run. */
  function Straggler(lim: Limits): seq<Event> {
    Burst(lim.failures + 1, Start(0)) + Burst(lim.failures, Failed(0)) + [Succeeded(0), Start(lim.cooldown + 1)]
  }

  lemma {:induction false} BurstOfStarts(lim: Limits, k: nat)
    ensures Steps(lim, INITIAL, Burst(k, Start(0))) == INITIAL
    ensures InFlight(lim, Burst(k, Start(0))) == k
  {
    if k > 0 {
      BurstOfStarts(lim, k - 1);
      assert Burst(k, Start(0))[..k - 1] == Burst(k - 1, Start(0));
    }
  }

  lemma {:induction false} BurstOfFailures(lim: Limits, k: nat)
    requires k <= lim.failures
    ensures var events := Burst(lim.failures + 1, Start(0)) + Burst(k, Failed(0));
      && Steps(lim, INITIAL, events)
         == (if k < lim.failures then State(CLOSED, k, 0, 0) else State(OPEN, k, 0, lim.cooldown))
      && InFlight(lim, events) == lim.failures + 1 - k
  {
    var starts := Burst(lim.failures + 1, Start(0));
    if k == 0 {
      BurstOfStarts(lim, lim.failures + 1);
      assert starts + Burst(0, Failed(0)) == starts;
    } else {
      BurstOfFailures(lim, k - 1);
      assert (starts + Burst(k, Failed(0)))[..lim.failures + k] == starts + Burst(k - 1, Failed(0));
    }
  }

  lemma StragglerIsFeasible(lim: Limits)
    ensures var all := Straggler(lim) + [Failed(lim.cooldown + 1)];
      && Feasible(lim, all)
      && Steps(lim, INITIAL, Straggler(lim)) == State(HALF_OPEN, 0, 0, lim.cooldown)
      && Steps(lim, INITIAL, all).failureCount == 1
  {
    hide Steps, InFlight;
    var f := lim.failures;
    var tripped := Burst(f + 1, Start(0)) + Burst(f, Failed(0));
    var late := Succeeded(0);
    var probe, bad := Start(lim.cooldown + 1), Failed(lim.cooldown + 1);
    BurstOfFailures(lim, f);
    StepAppend(lim, tripped, late);
    StepAppend(lim, tripped + [late], probe);
    StepAppend(lim, tripped + [late] + [probe], bad);
    assert tripped + [late] + [probe] == Straggler(lim);
    var all := Straggler(lim) + [bad];
    forall k | 0 <= k <= |all|
      ensures InFlight(lim, all[..k]) >= 0
    {
      if k <= f + 1 {
        assert all[..k] == Burst(k, Start(0));
        BurstOfStarts(lim, k);
      } else if k <= 2 * f + 1 {
        assert all[..k] == Burst(f + 1, Start(0)) + Burst(k - f - 1, Failed(0));
        BurstOfFailures(lim, k - f - 1);
      } else if k == 2 * f + 2 {
        assert all[..k] == tripped + [late];
      } else if k == 2 * f + 3 {
        assert all[..k] == Straggler(lim);
      } else {
        assert all[..k] == all;
      }
    }
  }

  lemma StepAppend(lim: Limits, events: seq<Event>, e: Event)
    ensures Steps(lim, INITIAL, events + [e]) == Step(lim, Steps(lim, INITIAL, events), e)
    ensures InFlight(lim, events + [e]) == InFlight(lim, events)
      + (if !e.Start? then -1 else if Refuses(Steps(lim, INITIAL, events), e.at) then 0 else 1)
  {
    assert (events + [e])[..|events|] == events;
  }

  /** With overlapping calls a failed probe is sure to reopen the breaker only when a single
      failure opens it in the first place. */
  lemma ReopensUnderOverlapExactly(lim: Limits)
    ensures ProbeFailuresReopen(lim) <==> lim.failures == 1
  {
    if lim.failures == 1 {
      forall events, at | Feasible(lim, events + [Failed(at)]) && Steps(lim, INITIAL, events).mode == HALF_OPEN
        ensures Steps(lim, INITIAL, events + [Failed(at)]).mode == OPEN
      {
        StepAppend(lim, events, Failed(at));
      }
    } else {
      StragglerIsFeasible(lim);
      StepAppend(lim, Straggler(lim), Failed(lim.cooldown + 1));
      assert Steps(lim, INITIAL, Straggler(lim) + [Failed(lim.cooldown + 1)]).mode == HALF_OPEN;
    }
  }

  // ---------- when overlapping failures open the breaker ----------

  /** Completed failures since the last success; starts do not count. */
  function FailedSinceSuccess(events: seq<Event>): nat {
    if events == [] then 0
    else
      var n := |events| - 1;
      match events[n]
      case Start(_) => FailedSinceSuccess(events[..n])
      case Succeeded(_) => 0
      case Failed(_) => FailedSinceSuccess(events[..n]) + 1
  }

  lemma {:induction false} ClosedCountsFailures(lim: Limits, events: seq<Event>)
    ensures var s := Steps(lim, INITIAL, events);
      s.mode == CLOSED ==> s.failureCount == FailedSinceSuccess(events)
  {
    if events != [] {
      ClosedCountsFailures(lim, events[..|events| - 1]);
    }
  }

  /** In every interleaving a closed breaker opens exactly when a failure completes a run of
      `failures` failures with no success completing in between. */
  lemma OpensUnderOverlapExactly(lim: Limits, events: seq<Event>, e: Event)
    requires Steps(lim, INITIAL, events).mode == CLOSED
    ensures Steps(lim, INITIAL, events + [e]).mode == OPEN
            <==> e.Failed? && FailedSinceSuccess(events) + 1 >= lim.failures
    ensures Steps(lim, INITIAL, events + [e]).mode in {OPEN, CLOSED}
  {
    ClosedCountsFailures(lim, events);
    StepAppend(lim, events, e);
  }

  /** Failures that complete late, when the breaker is already open, put off the next attempt: it
      is a cooldown after the last of them, as long as no success completes in between. */
  lemma {:induction false} LateFailuresPutOff(lim: Limits, events: seq<Event>, opening: Event, late: seq<Event>)
    requires Steps(lim, INITIAL, events).mode != OPEN && Steps(lim, INITIAL, events + [opening]).mode == OPEN
    requires forall k :: 0 <= k < |late| ==> late[k].Failed?
    ensures var s := Steps(lim, INITIAL, events + [opening] + late);
      && s.mode == OPEN && s.failureCount >= lim.failures
      && s.nextAttempt == (if late == [] then opening.at else late[|late| - 1].at) + lim.cooldown
  {
    var all := events + [opening] + late;
    if late == [] {
      assert all == events + [opening];
      StepAppend(lim, events, opening);
    } else {
      var n := |late| - 1;
      LateFailuresPutOff(lim, events, opening, late[..n]);
      assert all == events + [opening] + late[..n] + [late[n]];
      StepAppend(lim, events + [opening] + late[..n], late[n]);
    }
  }

  // ---------- nested calls ----------

  /** How far a callMethod has come: the number of its events so far, and whether the getContract
      of its current attempt went through. */
  datatype Stage = Stage(events: nat, loaded: bool)

  /** The breaker, and the callMethods under way. */
  datatype Nest = Nest(breaker: State, progress: map<nat, Stage>)

  const IDLE := Nest(INITIAL, map[])

  /** The next event of one callMethod. `ok` says whether what it waits for goes well: its
      getContract, or the call on the contract. */
  datatype Turn = Turn(call: nat, at: int, ok: bool)

  /** A callMethod in its last attempt, with only its own completion left. */
  const LAST := 7

  function StageOf(f: Nest, call: nat): Stage {
    if call in f.progress then f.progress[call] else Stage(0, false)
  }

  /** A callMethod starts and makes up to three attempts. Each attempt first runs getContract
      through the same breaker, then calls the contract if that went through. It completes with
      the first attempt that succeeds, or fails after the third. Whether a getContract can fail,
      say for a missing ABI, is a parameter. The new stage is None when the callMethod is done. */
  function Act(mayFail: bool, s: Stage, t: Turn): (Event, Option<Stage>) {
    var done := s.loaded && t.ok;
    var loads := t.ok || !mayFail;
    match s.events
    case 0 | 1 => (Start(t.at), Some(Stage(s.events + 1, false)))
    case 2 | 4 | 6 => (if loads then Succeeded(t.at) else Failed(t.at), Some(Stage(s.events + 1, loads)))
    case 3 | 5 => if done then (Succeeded(t.at), None) else (Start(t.at), Some(Stage(s.events + 1, false)))
    case _ => (if done then Succeeded(t.at) else Failed(t.at), None)
  }

  /** What goes well in a callMethod: the getContract and the call of each attempt. */
  datatype Luck = Luck(loads: nat -> bool, calls: nat -> bool)

  /** What its event j waits for: attempt i is loaded by event 2i + 2 and called by event 2i + 3. */
  function OkAt(luck: Luck, j: nat): bool {
    if j < 2 then true else if j % 2 == 0 then luck.loads(j / 2 - 1) else luck.calls(j / 2 - 1)
  }

  /** Where a callMethod is before its event j; None when it is done. */
  function Reached(mayFail: bool, luck: Luck, j: nat): Option<Stage> {
    if j == 0 then Some(Stage(0, false))
    else
      var before := Reached(mayFail, luck, j - 1);
      if before.None? then None else Act(mayFail, before.value, Turn(0, 0, OkAt(luck, j - 1))).1
  }

  /** The event itself, without its time. */
  function EventAt(mayFail: bool, luck: Luck, j: nat): Event
    requires Reached(mayFail, luck, j).Some?
  {
    Act(mayFail, Reached(mayFail, luck, j).value, Turn(0, 0, OkAt(luck, j))).0
  }

  /** Attempt i gets its contract, if that can fail at all, and the call on it succeeds. */
  predicate Works(mayFail: bool, luck: Luck, i: nat) {
    (!mayFail || luck.loads(i)) && luck.calls(i)
  }

  /** The attempts made: all up to the first that works, but no more than three. */
  ghost predicate Makes(mayFail: bool, luck: Luck, attempts: nat) {
    && 1 <= attempts <= 3
    && (forall i: nat :: i < attempts - 1 ==> !Works(mayFail, luck, i))
    && (attempts == 3 || Works(mayFail, luck, attempts - 1))
  }

  /** The stage of a callMethod before its event j. */
  function StageAt(mayFail: bool, luck: Luck, j: nat): Stage {
    Stage(j, j >= 3 && j % 2 == 1 && (!mayFail || luck.loads(j / 2 - 1)))
  }

  lemma OneEvent(mayFail: bool, luck: Luck, attempts: nat, j: nat)
    requires Makes(mayFail, luck, attempts) && j <= 2 * attempts + 1
    ensures Act(mayFail, StageAt(mayFail, luck, j), Turn(0, 0, OkAt(luck, j))).1
            == if j == 2 * attempts + 1 then None else Some(StageAt(mayFail, luck, j + 1))
  {
    if 3 <= j && j % 2 == 1 {
      assert j / 2 - 1 == attempts - 1 || !Works(mayFail, luck, j / 2 - 1);
    }
  }

  lemma {:induction false} ReachedExactly(mayFail: bool, luck: Luck, attempts: nat, j: nat)
    requires Makes(mayFail, luck, attempts)
    ensures Reached(mayFail, luck, j) == if j > 2 * attempts + 1 then None else Some(StageAt(mayFail, luck, j))
  {
    if j > 0 {
      hide Act, Makes, OkAt, StageAt;
      ReachedExactly(mayFail, luck, attempts, j - 1);
      if j - 1 <= 2 * attempts + 1 {
        OneEvent(mayFail, luck, attempts, j - 1);
      }
    }
  }

  /** A callMethod starts, starts and ends a getContract in every attempt, and succeeds itself
      exactly when one of its attempts works. */
  lemma CallMethodRuns(mayFail: bool, luck: Luck, attempts: nat, j: nat)
    requires Makes(mayFail, luck, attempts)
    ensures Reached(mayFail, luck, j).Some? <==> j <= 2 * attempts + 1
    ensures j <= 2 * attempts + 1 ==>
      var e := EventAt(mayFail, luck, j);
      && (e.Start? <==> j == 0 || (j % 2 == 1 && j < 2 * attempts))
      && (j >= 2 && j % 2 == 0 ==> (e.Succeeded? <==> !mayFail || luck.loads(j / 2 - 1)))
      && (j == 2 * attempts + 1 ==>
            (e.Succeeded? <==> exists i: nat :: i < 3 && Works(mayFail, luck, i)))
  {
    ReachedExactly(mayFail, luck, attempts, j);
    if 3 <= j <= 2 * attempts + 1 && j % 2 == 1 {
      assert j / 2 - 1 == attempts - 1 || !Works(mayFail, luck, j / 2 - 1);
      if j == 2 * attempts + 1 {
        assert EventAt(mayFail, luck, j).Succeeded? <==> Works(mayFail, luck, attempts - 1);
      }
    }
  }

  /** One more event. A trip of the breaker ends the run. */
  function Advance(lim: Limits, mayFail: bool, f: Nest, t: Turn): Nest {
    if f.breaker.mode != CLOSED then f
    else
      var (e, s) := Act(mayFail, StageOf(f, t.call), t);
      Nest(Step(lim, f.breaker, e), if s.Some? then f.progress[t.call := s.value] else f.progress - {t.call})
  }

  /** Any interleaving of callMethods, successful or not. */
  function Interleave(lim: Limits, mayFail: bool, turns: seq<Turn>): Nest {
    if turns == [] then IDLE
    else Advance(lim, mayFail, Interleave(lim, mayFail, turns[..|turns| - 1]), turns[|turns| - 1])
  }

  /** At no time are more than n callMethods under way. */
  ghost predicate AtMostUnderWay(lim: Limits, mayFail: bool, turns: seq<Turn>, n: nat) {
    turns != [] ==>
      AtMostUnderWay(lim, mayFail, turns[..|turns| - 1], n) && |Interleave(lim, mayFail, turns).progress| <= n
  }

  /** Some run with at most n callMethods under way opens the breaker. */
  ghost predicate CanOpen(lim: Limits, mayFail: bool, n: nat) {
    exists turns ::
      AtMostUnderWay(lim, mayFail, turns, n) && Interleave(lim, mayFail, turns).breaker.mode == OPEN
  }

  lemma InterleaveAppend(lim: Limits, mayFail: bool, turns: seq<Turn>, t: Turn, n: nat)
    ensures Interleave(lim, mayFail, turns + [t]) == Advance(lim, mayFail, Interleave(lim, mayFail, turns), t)
    ensures AtMostUnderWay(lim, mayFail, turns + [t], n)
            <==> AtMostUnderWay(lim, mayFail, turns, n) && |Interleave(lim, mayFail, turns + [t]).progress| <= n
  {
    assert (turns + [t])[..|turns|] == turns;
  }

  lemma NoTurns(lim: Limits, mayFail: bool, n: nat)
    ensures Interleave(lim, mayFail, []) == IDLE && AtMostUnderWay(lim, mayFail, [], n)
  {
  }

  lemma {:induction false} MoreUnderWay(lim: Limits, mayFail: bool, turns: seq<Turn>, m: nat, n: nat)
    requires m <= n && AtMostUnderWay(lim, mayFail, turns, m)
    ensures AtMostUnderWay(lim, mayFail, turns, n)
  {
    if turns != [] {
      MoreUnderWay(lim, mayFail, turns[..|turns| - 1], m, n);
    }
  }

  // ---------- when every getContract goes through ----------

  /** The calls that have only their own completion left. */
  function Armed(progress: map<nat, Stage>): set<nat> {
    set c | c in progress && progress[c].events == LAST
  }

  /** Every call in the run of failures that the breaker has counted was armed during all of
      it, so together with the calls still armed they are at most n. */
  ghost predicate Contained(f: Nest, n: nat) {
    && f.breaker.mode == CLOSED
    && f.breaker.failureCount + |Armed(f.progress)| <= n
    && forall c :: c in f.progress ==> f.progress[c].events <= LAST
  }

  lemma ArmedAtMost(progress: map<nat, Stage>)
    ensures |Armed(progress)| <= |progress|
  {
    assert progress.Keys == Armed(progress) + (progress.Keys - Armed(progress));
  }

  /** Only the last getContract arms a call, and only its completion disarms it. */
  lemma ArmedStep(lim: Limits, f: Nest, t: Turn, n: nat)
    requires Contained(f, n)
    ensures var k := StageOf(f, t.call).events;
      var after := Armed(Advance(lim, false, f, t).progress);
      && (k < LAST - 1 ==> after == Armed(f.progress))
      && (k == LAST ==> t.call in Armed(f.progress) && after == Armed(f.progress) - {t.call})
  {
  }

  /** Only a completed callMethod adds to the count; the last getContract clears it. */
  lemma BreakerStep(lim: Limits, f: Nest, t: Turn, n: nat)
    requires Contained(f, n)
    ensures var k := StageOf(f, t.call).events;
      var f' := Advance(lim, false, f, t);
      && k <= LAST
      && f'.breaker.failureCount <= (if k == LAST then f.breaker.failureCount + 1
                                     else if k == LAST - 1 then 0 else f.breaker.failureCount)
      && (f'.breaker.failureCount < lim.failures ==> f'.breaker.mode == CLOSED)
      && forall c :: c in f'.progress ==> f'.progress[c].events <= LAST
  {
    hide Armed;
  }

  lemma TurnIsContained(lim: Limits, f: Nest, t: Turn, n: nat)
    requires Contained(f, n) && n < lim.failures && |Advance(lim, false, f, t).progress| <= n
    ensures Contained(Advance(lim, false, f, t), n)
  {
    hide Armed, Advance;
    ArmedStep(lim, f, t, n);
    ArmedAtMost(Advance(lim, false, f, t).progress);
    BreakerStep(lim, f, t, n);
  }

  lemma {:induction false} FewNeverOpen(lim: Limits, turns: seq<Turn>, n: nat)
    requires n < lim.failures && AtMostUnderWay(lim, false, turns, n)
    ensures Contained(Interleave(lim, false, turns), n)
  {
    hide Contained;
    if turns == [] {
      IdleIsContained(n);
    } else {
      FewNeverOpen(lim, turns[..|turns| - 1], n);
      TurnIsContained(lim, Interleave(lim, false, turns[..|turns| - 1]), turns[|turns| - 1], n);
    }
  }

  lemma IdleIsContained(n: nat)
    ensures Contained(IDLE, n)
  {
    assert Armed(map[]) == {};
  }

  /** The calls lo..hi, all armed. */
  function Band(lo: nat, hi: nat): (progress: map<nat, Stage>)
    requires lo <= hi
    ensures |progress| == hi - lo
    ensures forall c :: c in progress <==> lo <= c < hi
    decreases hi - lo
  {
    if lo == hi then map[] else Band(lo, hi - 1)[hi - 1 := Stage(LAST, true)]
  }

  lemma {:induction false} BandValues(lo: nat, hi: nat)
    requires lo <= hi
    ensures forall c :: lo <= c < hi ==> Band(lo, hi)[c] == Stage(LAST, true)
    decreases hi - lo
  {
    if lo < hi {
      BandValues(lo, hi - 1);
    }
  }

  lemma BandShrinks(lo: nat, hi: nat)
    requires lo < hi
    ensures Band(lo, hi) - {lo} == Band(lo + 1, hi)
  {
    BandValues(lo, hi);
    BandValues(lo + 1, hi);
  }

  /** After k events of a call whose getContracts go through and whose attempts fail. */
  function ArmingStage(k: nat): Stage {
    Stage(k, k in {3, 5, 7})
  }

  function ArmingTurn(c: nat, k: nat): Turn {
    Turn(c, 0, k in {2, 4, 6})
  }

  /** Call c does its first k events after the calls before it are armed. */
  function Arming(c: nat, k: nat): seq<Turn>
    requires k <= LAST
    decreases c, k
  {
    if k > 0 then Arming(c, k - 1) + [ArmingTurn(c, k - 1)]
    else if c > 0 then Arming(c - 1, LAST)
    else []
  }

  lemma ArmOne(lim: Limits, mayFail: bool, others: map<nat, Stage>, c: nat, k: nat)
    requires c !in others && k < LAST
    ensures Advance(lim, mayFail, Nest(INITIAL, if k == 0 then others else others[c := ArmingStage(k)]),
                    ArmingTurn(c, k))
            == Nest(INITIAL, others[c := ArmingStage(k + 1)])
  {
    var f := Nest(INITIAL, if k == 0 then others else others[c := ArmingStage(k)]);
    assert f.progress[c := ArmingStage(k + 1)] == others[c := ArmingStage(k + 1)];
    assert Act(mayFail, StageOf(f, c), ArmingTurn(c, k)).1 == Some(ArmingStage(k + 1));
  }

  lemma OneMoreUnderWay(others: map<nat, Stage>, c: nat, s: Stage)
    requires c !in others
    ensures |others[c := s]| == |others| + 1
  {
    assert others[c := s].Keys == others.Keys + {c};
  }

  lemma {:induction false} AfterArming(lim: Limits, mayFail: bool, c: nat, k: nat, n: nat)
    requires k <= LAST && c < n
    ensures Interleave(lim, mayFail, Arming(c, k))
            == Nest(INITIAL, if k == 0 then Band(0, c) else Band(0, c)[c := ArmingStage(k)])
    ensures AtMostUnderWay(lim, mayFail, Arming(c, k), n)
    decreases c, k
  {
    hide Interleave, AtMostUnderWay, Advance;
    if k > 0 {
      AfterArming(lim, mayFail, c, k - 1, n);
      InterleaveAppend(lim, mayFail, Arming(c, k - 1), ArmingTurn(c, k - 1), n);
      ArmOne(lim, mayFail, Band(0, c), c, k - 1);
      OneMoreUnderWay(Band(0, c), c, ArmingStage(k));
    } else if c > 0 {
      AfterArming(lim, mayFail, c - 1, LAST, n);
      assert Band(0, c - 1)[c - 1 := ArmingStage(LAST)] == Band(0, c);
    } else {
      NoTurns(lim, mayFail, n);
    }
  }

  /** n armed calls fail one after the other; k of them have. */
  function AllFail(n: nat, k: nat): seq<Turn>
    requires n >= 1
    decreases k
  {
    if k == 0 then Arming(n - 1, LAST) else AllFail(n, k - 1) + [Turn(k - 1, 0, false)]
  }

  /** What k failures have made of the breaker, and the calls that are left. */
  function AfterFailures(lim: Limits, k: nat): Nest
    requires k <= lim.failures
  {
    Nest(Counting(lim, k), Band(k, lim.failures))
  }

  /** The breaker after k failures at time 0 and nothing else. */
  function Counting(lim: Limits, k: nat): State
    requires k <= lim.failures
  {
    if k < lim.failures then State(CLOSED, k, 0, 0) else State(OPEN, k, 0, lim.cooldown)
  }

  lemma FailOne(lim: Limits, mayFail: bool, k: nat)
    requires k < lim.failures
    ensures Advance(lim, mayFail, AfterFailures(lim, k), Turn(k, 0, false)) == AfterFailures(lim, k + 1)
  {
    hide Band;
    BandValues(k, lim.failures);
    BandShrinks(k, lim.failures);
  }

  lemma {:induction false} AfterAllFail(lim: Limits, mayFail: bool, k: nat)
    requires k <= lim.failures
    ensures AtMostUnderWay(lim, mayFail, AllFail(lim.failures, k), lim.failures)
    ensures Interleave(lim, mayFail, AllFail(lim.failures, k)) == AfterFailures(lim, k)
  {
    hide Interleave, AtMostUnderWay, Advance;
    var n: nat := lim.failures;
    if k == 0 {
      AfterArming(lim, mayFail, n - 1, LAST, n);
    } else {
      AfterAllFail(lim, mayFail, k - 1);
      InterleaveAppend(lim, mayFail, AllFail(n, k - 1), Turn(k - 1, 0, false), n);
      FailOne(lim, mayFail, k - 1);
    }
  }

  // ---------- when a getContract may fail ----------

  /** Turns of a call, repeated one after the other, whose every getContract fails. */
  function MissingAbi(t: nat): (turns: seq<Turn>)
    ensures |turns| == t
  {
    seq(t, _ => Turn(0, 0, false))
  }

  /** Each such call fails four times in eight events: three getContracts and itself. */
  function MissingFailures(t: nat): nat {
    var k := t % 8;
    4 * (t / 8) + (if k <= 2 then 0 else if k <= 4 then 1 else if k <= 6 then 2 else 3)
  }

  function MissingProgress(t: nat): map<nat, Stage> {
    if t % 8 == 0 then map[] else map[0 := Stage(t % 8, false)]
  }

  lemma MissingStep(t: nat)
    ensures (t + 1) % 8 == if t % 8 == 7 then 0 else t % 8 + 1
    ensures MissingFailures(t + 1) == MissingFailures(t) + (if t % 8 in {2, 4, 6, 7} then 1 else 0)
  {
    var q, k := t / 8, t % 8;
    if k == 7 {
      DivModUnique(t + 1, 8, q + 1, 0);
    } else {
      DivModUnique(t + 1, 8, q, k + 1);
    }
  }

  lemma MissOne(lim: Limits, t: nat)
    requires MissingFailures(t) < lim.failures
    ensures MissingFailures(t) <= MissingFailures(t + 1) <= lim.failures
    ensures Advance(lim, true, Nest(Counting(lim, MissingFailures(t)), MissingProgress(t)), Turn(0, 0, false))
            == Nest(Counting(lim, MissingFailures(t + 1)), MissingProgress(t + 1))
    ensures |MissingProgress(t + 1)| <= 1
  {
    hide MissingFailures;
    MissingStep(t);
    var k := t % 8;
    assert k != 0 ==> MissingProgress(t)[0 := Stage(k + 1, false)] == map[0 := Stage(k + 1, false)];
    assert k == 7 ==> MissingProgress(t) - {0} == map[];
  }

  lemma {:induction false} AfterMissing(lim: Limits, t: nat)
    requires t > 0 ==> MissingFailures(t - 1) < lim.failures
    ensures MissingFailures(t) <= lim.failures
    ensures Interleave(lim, true, MissingAbi(t)) == Nest(Counting(lim, MissingFailures(t)), MissingProgress(t))
    ensures AtMostUnderWay(lim, true, MissingAbi(t), 1)
  {
    hide Interleave, AtMostUnderWay, Advance, MissingProgress, MissingFailures;
    if t == 0 {
      NothingMissing();
      NoTurns(lim, true, 1);
    } else {
      if t > 1 {
        FailuresGrow(t - 2);
      }
      AfterMissing(lim, t - 1);
      assert MissingAbi(t) == MissingAbi(t - 1) + [Turn(0, 0, false)];
      InterleaveAppend(lim, true, MissingAbi(t - 1), Turn(0, 0, false), 1);
      MissOne(lim, t - 1);
    }
  }

  lemma NothingMissing()
    ensures MissingFailures(0) == 0 && MissingProgress(0) == map[]
  {
  }

  lemma FailuresGrow(t: nat)
    ensures MissingFailures(t) <= MissingFailures(t + 1)
  {
  }

  /** Calls with a missing ABI open the breaker one after the other, whatever its threshold; up
      to a threshold of 4 a single one does. */
  lemma MissingAbiOpens(lim: Limits) returns (t: nat)
    ensures AtMostUnderWay(lim, true, MissingAbi(t), 1)
    ensures Interleave(lim, true, MissingAbi(t)).breaker.mode == OPEN
    ensures lim.failures <= 4 ==> t <= 8
  {
    hide Interleave, AtMostUnderWay;
    var q, r := (lim.failures - 1) / 4, (lim.failures - 1) % 4;
    var k := if r == 3 then 7 else 2 + 2 * r;
    t := 8 * q + k + 1;
    DivModUnique(t - 1, 8, q, k);
    MissingStep(t - 1);
    assert MissingFailures(t - 1) == lim.failures - 1;
    hide MissingFailures;
    AfterMissing(lim, t);
  }

  // ---------- both together ----------

  /** callMethods, at most n of them under way at a time, can open the breaker they share with
      their inner getContract exactly when n reaches the threshold, or when a getContract may
      fail and there is any call at all. */
  lemma NestedCallsOpenExactly(lim: Limits, mayFail: bool, n: nat)
    ensures CanOpen(lim, mayFail, n) <==> lim.failures <= n || (mayFail && n >= 1)
  {
    if lim.failures <= n {
      AfterAllFail(lim, mayFail, lim.failures);
      assert AfterFailures(lim, lim.failures).breaker.mode == OPEN;
      MoreUnderWay(lim, mayFail, AllFail(lim.failures, lim.failures), lim.failures, n);
    } else if mayFail && n >= 1 {
      var t := MissingAbiOpens(lim);
      MoreUnderWay(lim, true, MissingAbi(t), 1, n);
    } else {
      forall turns | AtMostUnderWay(lim, mayFail, turns, n)
        ensures Interleave(lim, mayFail, turns).breaker.mode != OPEN
      {
        if mayFail {
          NoneUnderWay(lim, turns);
        } else {
          FewNeverOpen(lim, turns, n);
        }
      }
    }
  }

  /** Without a call under way at any time nothing happens. */
  lemma {:induction false} NoneUnderWay(lim: Limits, turns: seq<Turn>)
    requires AtMostUnderWay(lim, true, turns, 0)
    ensures Interleave(lim, true, turns) == IDLE
  {
    if turns != [] {
      NoneUnderWay(lim, turns[..|turns| - 1]);
    }
  }

  // ---------- the class ----------

  class CircuitBreaker {
    var failureCount: nat
    var successCount: nat
    var mode: Mode
    var nextAttempt: int
    const lim: Limits

    constructor (options: Options)
      ensures Current() == INITIAL && lim == InForce(options)
    {
      failureCount, successCount, mode, nextAttempt := 0, 0, CLOSED, 0;
      lim := InForce(options);
    }

    ghost function Current(): State
      reads this
    {
      State(mode, failureCount, successCount, nextAttempt)
    }

    /** The body of the call ends at `finish` with success or failure. */
    method Exec(c: Call) returns (outcome: Outcome)
      modifies this
      ensures (Current(), outcome) == ExecCall(lim, old(Current()), c)
    {
      if mode == OPEN {
        if c.start > nextAttempt {
          mode := HALF_OPEN;
        } else {
          return Refused;
        }
      }
      if c.ok {
        OnSuccess();
      } else {
        OnFailure(c.finish);
      }
      outcome := Ran(c.ok);
    }

    method OnSuccess()
      modifies this
      ensures Current() == Succeed(lim, old(Current()))
    {
      if mode == HALF_OPEN {
        successCount := successCount + 1;
        if successCount >= lim.successes {
          mode := CLOSED;
          failureCount := 0;
          successCount := 0;
        }
      } else {
        failureCount := 0;
      }
    }

    method OnFailure(now: int)
      modifies this
      ensures Current() == Fail(lim, old(Current()), now)
    {
      failureCount := failureCount + 1;
      if failureCount >= lim.failures {
        mode := OPEN;
        nextAttempt := now + lim.cooldown;
      }
    }
  }
}
