/** Approval and execution of recovery operations, src/recovery/recovery.service.ts. A decision
    is two steps, its record and the new status; an execution is three, the check of the row
    it read, the start and the end. Steps of other calls may come between them. The outcome of
    permission checks and of the recovery work itself are inputs. */
module Recovery {
  import opened Basics

  datatype Status = PENDING_APPROVAL | READY | APPROVED | REJECTED | EXECUTING | COMPLETED | FAILED

  datatype Operation = Operation(status: Status, approvalRequired: bool, mfaRequired: bool)

  datatype Approval = Approval(operationId: nat, approverId: string, approved: bool)

  /** Every change of a status. A start remembers how long the history was at its check. */
  datatype Event =
    | Created(id: nat)
    | Decided(id: nat, approved: bool)
    | Started(id: nat, overridden: bool, checkedAt: nat)
    | Finished(id: nat, ok: bool)

  /** What a call that is under way will do next. */
  datatype Call =
    | Deciding(id: nat, approved: bool)
    | Cleared(id: nat, overridden: bool, checkedAt: nat)
    | Running(id: nat)

  datatype State = State(operations: map<nat, Operation>, next: nat, approvals: seq<Approval>,
                         calls: map<nat, Call>, nextCall: nat, history: seq<Event>)

  const START := State(map[], 0, [], map[], 0, [])

  datatype Context = Context(operationId: nat, mfaToken: bool, emergencyOverride: bool)

  /** What the role service says about the user. */
  datatype Rights = Rights(execute: bool, emergencyResponder: bool)

  datatype Outcome = Done | NotFound | Forbidden | NeedsApproval | NeedsMfa | NotResponder | WorkFailed

  function WithStatus(s: State, id: nat, status: Status): State
    requires id in s.operations
  {
    s.(operations := s.operations[id := s.operations[id].(status := status)])
  }

  function Create(s: State, approvalRequired: bool, mfaRequired: bool, permitted: bool): (State, Outcome) {
    if !permitted then (s, Forbidden)
    else
      var status := if approvalRequired then PENDING_APPROVAL else READY;
      (s.(operations := s.operations[s.next := Operation(status, approvalRequired, mfaRequired)],
          next := s.next + 1, history := s.history + [Created(s.next)]), Done)
  }

  /** The status of the operation is not looked at: any operation can be decided again. */
  function Record(s: State, id: nat, approverId: string, approved: bool, permitted: bool): (State, Outcome) {
    if id !in s.operations then (s, NotFound)
    else if !permitted then (s, Forbidden)
    else
      (s.(approvals := s.approvals + [Approval(id, approverId, approved)],
          calls := s.calls[s.nextCall := Deciding(id, approved)], nextCall := s.nextCall + 1), Done)
  }

  /** The call that recorded its decision writes the status. */
  function Decide(s: State, call: nat): State {
    if call in s.calls && s.calls[call].Deciding? && s.calls[call].id in s.operations then
      var Deciding(id, approved) := s.calls[call];
      WithStatus(s, id, if approved then APPROVED else REJECTED)
        .(calls := s.calls - {call}, history := s.history + [Decided(id, approved)])
    else s
  }

  function Check(o: Operation, c: Context, rights: Rights): Outcome {
    if !rights.execute then Forbidden
    else if o.approvalRequired && o.status != APPROVED && !c.emergencyOverride then NeedsApproval
    else if o.mfaRequired && !c.mfaToken && !c.emergencyOverride then NeedsMfa
    else if c.emergencyOverride && !rights.emergencyResponder then NotResponder
    else Done
  }

  /** An execution reads the row and passes or fails the checks on what it read. */
  function Clear(s: State, c: Context, rights: Rights): (State, Outcome) {
    if c.operationId !in s.operations then (s, NotFound)
    else
      var outcome := Check(s.operations[c.operationId], c, rights);
      if outcome != Done then (s, outcome)
      else
        var call := Cleared(c.operationId, c.emergencyOverride, |s.history|);
        (s.(calls := s.calls[s.nextCall := call], nextCall := s.nextCall + 1), Done)
  }

  /** A cleared execution writes its status without looking at the row again. */
  function Begin(s: State, call: nat): State {
    if call in s.calls && s.calls[call].Cleared? && s.calls[call].id in s.operations then
      var Cleared(id, overridden, checkedAt) := s.calls[call];
      WithStatus(s, id, EXECUTING)
        .(calls := s.calls[call := Running(id)], history := s.history + [Started(id, overridden, checkedAt)])
    else s
  }

  function End(s: State, call: nat, ok: bool): State {
    if call in s.calls && s.calls[call].Running? && s.calls[call].id in s.operations then
      var id := s.calls[call].id;
      WithStatus(s, id, if ok then COMPLETED else FAILED)
        .(calls := s.calls - {call}, history := s.history + [Finished(id, ok)])
    else s
  }

  // ---------- runs ----------

  datatype Step =
    | DoCreate(approvalRequired: bool, mfaRequired: bool, permitted: bool)
    | DoRecord(id: nat, approverId: string, approved: bool, permitted: bool)
    | DoDecide(call: nat)
    | DoClear(context: Context, rights: Rights)
    | DoBegin(call: nat)
    | DoEnd(call: nat, ok: bool)

  function Apply(s: State, step: Step): State {
    match step
    case DoCreate(approvalRequired, mfaRequired, permitted) => Create(s, approvalRequired, mfaRequired, permitted).0
    case DoRecord(id, approverId, approved, permitted) => Record(s, id, approverId, approved, permitted).0
    case DoDecide(call) => Decide(s, call)
    case DoClear(context, rights) => Clear(s, context, rights).0
    case DoBegin(call) => Begin(s, call)
    case DoEnd(call, ok) => End(s, call, ok)
  }

  /** Any interleaving of the steps of any number of calls. */
  function After(steps: seq<Step>): State {
    if steps == [] then START else Apply(After(steps[..|steps| - 1]), steps[|steps| - 1])
  }

  lemma AfterAppend(steps: seq<Step>, step: Step)
    ensures After(steps + [step]) == Apply(After(steps), step)
  {
    assert (steps + [step])[..|steps|] == steps;
  }

  // ---------- the status is the last event ----------

  function LastEvent(history: seq<Event>, id: nat): Option<Event> {
    if history == [] then None
    else if history[|history| - 1].id == id then Some(history[|history| - 1])
    else LastEvent(history[..|history| - 1], id)
  }

  function StatusAfter(e: Event, approvalRequired: bool): Status {
    match e
    case Created(_) => if approvalRequired then PENDING_APPROVAL else READY
    case Decided(_, approved) => if approved then APPROVED else REJECTED
    case Started(_, _, _) => EXECUTING
    case Finished(_, ok) => if ok then COMPLETED else FAILED
  }

  /** Operations are numbered as they are created, and so are calls. */
  ghost predicate Numbered(s: State) {
    && (forall k :: 0 <= k < |s.history| ==> s.history[k].id < s.next)
    && (forall id: nat :: id in s.operations <==> id < s.next)
    && (forall call :: call in s.calls ==> call < s.nextCall && s.calls[call].id in s.operations)
  }

  ghost predicate StatusIsLastEvent(s: State) {
    forall id :: id in s.operations ==>
      && LastEvent(s.history, id).Some?
      && s.operations[id].status == StatusAfter(LastEvent(s.history, id).value, s.operations[id].approvalRequired)
  }

  ghost predicate Good(s: State) {
    Numbered(s) && StatusIsLastEvent(s)
  }

  lemma LastEventAppend(history: seq<Event>, e: Event, id: nat)
    ensures LastEvent(history + [e], id) == if e.id == id then Some(e) else LastEvent(history, id)
  {
    assert (history + [e])[..|history|] == history;
  }

  lemma StepKeepsNumbers(s: State, step: Step)
    requires Numbered(s)
    ensures Numbered(Apply(s, step))
  {
  }

  lemma StepKeepsStatus(s: State, step: Step)
    requires StatusIsLastEvent(s)
    ensures StatusIsLastEvent(Apply(s, step))
  {
    hide LastEvent;
    var s' := Apply(s, step);
    if s'.history != s.history {
      var e := s'.history[|s.history|];
      assert s'.history == s.history + [e];
      forall id
        ensures LastEvent(s'.history, id) == if e.id == id then Some(e) else LastEvent(s.history, id)
      {
        LastEventAppend(s.history, e, id);
      }
    }
  }

  lemma StepKeepsGood(s: State, step: Step)
    requires Good(s)
    ensures Good(Apply(s, step))
  {
    hide Apply, Numbered, StatusIsLastEvent;
    StepKeepsNumbers(s, step);
    StepKeepsStatus(s, step);
  }

  lemma {:induction false} RunIsGood(steps: seq<Step>)
    ensures Good(After(steps))
  {
    if steps != [] {
      RunIsGood(steps[..|steps| - 1]);
      StepKeepsGood(After(steps[..|steps| - 1]), steps[|steps| - 1]);
    }
  }

  /** An operation is approved exactly when the last thing that happened to it was a positive
      decision. */
  lemma {:induction false} ApprovedExactly(steps: seq<Step>, id: nat)
    requires id in After(steps).operations
    ensures var s := After(steps);
      s.operations[id].status == APPROVED <==> LastEvent(s.history, id) == Some(Decided(id, true))
  {
    RunIsGood(steps);
    LastEventHasId(After(steps).history, id);
  }

  lemma {:induction false} LastEventHasId(history: seq<Event>, id: nat)
    ensures LastEvent(history, id).Some? ==> LastEvent(history, id).value.id == id
  {
    if history != [] {
      LastEventHasId(history[..|history| - 1], id);
    }
  }

  /** Who passes the checks, in terms of the history at the moment the row is read. */
  lemma ClearedExactly(steps: seq<Step>, c: Context, rights: Rights)
    ensures var s := After(steps);
      Clear(s, c, rights).1 == Done <==>
        && c.operationId in s.operations && rights.execute
        && (c.emergencyOverride ==> rights.emergencyResponder)
        && (!c.emergencyOverride ==>
              var o := s.operations[c.operationId];
              && (o.approvalRequired ==> LastEvent(s.history, c.operationId) == Some(Decided(c.operationId, true)))
              && (o.mfaRequired ==> c.mfaToken))
  {
    if c.operationId in After(steps).operations {
      ApprovedExactly(steps, c.operationId);
    }
  }

  /** Why an execution is turned away, in that order: nothing was created under the id, the user may
      not execute, the last thing that happened to an operation in need of approval is no positive
      decision, the token is missing, or the override is not the user's to use. */
  lemma ReasonsExactly(steps: seq<Step>, c: Context, rights: Rights)
    ensures var s, outcome := After(steps), Clear(After(steps), c, rights).1;
      var id, exists_ := c.operationId, c.operationId in After(steps).operations;
      && (outcome == NotFound <==> !exists_)
      && (outcome == Forbidden <==> exists_ && !rights.execute)
      && (outcome == NeedsApproval <==>
            && exists_ && rights.execute && !c.emergencyOverride && s.operations[id].approvalRequired
            && LastEvent(s.history, id) != Some(Decided(id, true)))
      && (outcome == NeedsMfa <==>
            && exists_ && rights.execute && !c.emergencyOverride && s.operations[id].mfaRequired && !c.mfaToken
            && (s.operations[id].approvalRequired ==> LastEvent(s.history, id) == Some(Decided(id, true))))
      && (outcome == NotResponder <==> exists_ && rights.execute && c.emergencyOverride && !rights.emergencyResponder)
      && (outcome != Done ==> Clear(s, c, rights).0 == s)
  {
    if c.operationId in After(steps).operations {
      ApprovedExactly(steps, c.operationId);
    }
  }

  // ---------- a started execution ends ----------

  /** Step i clears an execution as the given call. */
  predicate OpensAs(steps: seq<Step>, i: nat, call: nat)
    requires i < |steps|
  {
    && steps[i].DoClear? && After(steps[..i]).nextCall == call
    && Clear(After(steps[..i]), steps[i].context, steps[i].rights).1 == Done
  }

  /** Once cleared, an execution starts with its next step and ends with the one after, whatever
      other calls do in between. */
  lemma {:induction false} RunsOn(steps: seq<Step>, i: nat, call: nat)
    requires i < |steps| && OpensAs(steps, i, call)
    requires forall k :: i < k < |steps| ==> !(steps[k].DoEnd? && steps[k].call == call)
    ensures var s := After(steps);
      && call in s.calls && s.calls[call].id == steps[i].context.operationId && s.calls[call].id in s.operations
      && (if DoBegin(call) in steps[i + 1..] then s.calls[call].Running? else s.calls[call].Cleared?)
  {
    hide Clear;
    var n := |steps| - 1;
    RunIsGood(steps[..n]);
    if i < n {
      assert steps[..n][..i] == steps[..i];
      RunsOn(steps[..n], i, call);
      assert steps[i + 1..] == steps[..n][i + 1..] + [steps[n]];
      StepKeepsCall(After(steps[..n]), steps[n], call);
    } else {
      assert steps[i + 1..] == [];
      ClearedIsNew(After(steps[..n]), steps[n].context, steps[n].rights);
    }
  }

  lemma ClearedIsNew(s: State, c: Context, rights: Rights)
    requires Clear(s, c, rights).1 == Done
    ensures var s' := Clear(s, c, rights).0;
      s.nextCall in s'.calls && s'.calls[s.nextCall].Cleared? && s'.calls[s.nextCall].id == c.operationId
      && c.operationId in s'.operations
  {
  }

  lemma StepKeepsCall(s: State, step: Step, call: nat)
    requires Good(s) && call in s.calls && !s.calls[call].Deciding? && !(step.DoEnd? && step.call == call)
    ensures var s' := Apply(s, step);
      && call in s'.calls && s'.calls[call].id == s.calls[call].id && s'.calls[call].id in s'.operations
      && (if step == DoBegin(call) then s'.calls[call].Running? else s'.calls[call] == s.calls[call])
  {
  }

  /** So its end is recorded with the outcome of the work. */
  lemma EndsAreRecorded(steps: seq<Step>, i: nat, call: nat, ok: bool)
    requires i < |steps| && OpensAs(steps, i, call) && DoBegin(call) in steps[i + 1..]
    requires forall k :: i < k < |steps| ==> !(steps[k].DoEnd? && steps[k].call == call)
    ensures var s, s', id := After(steps), After(steps + [DoEnd(call, ok)]), steps[i].context.operationId;
      && s'.history == s.history + [Finished(id, ok)] && call !in s'.calls
      && s'.operations.Keys == s.operations.Keys && id in s.operations
      && s'.operations[id].status == (if ok then COMPLETED else FAILED)
      && forall k :: k in s.operations && k != id ==> s'.operations[k] == s.operations[k]
  {
    hide Apply, After, OpensAs;
    RunsOn(steps, i, call);
    AfterAppend(steps, DoEnd(call, ok));
    EndIsRecorded(After(steps), call, ok);
  }

  lemma EndIsRecorded(s: State, call: nat, ok: bool)
    requires call in s.calls && s.calls[call].Running? && s.calls[call].id in s.operations
    ensures var s', id := Apply(s, DoEnd(call, ok)), s.calls[call].id;
      && s'.history == s.history + [Finished(id, ok)] && call !in s'.calls
      && s'.operations.Keys == s.operations.Keys
      && s'.operations[id].status == (if ok then COMPLETED else FAILED)
      && forall k :: k in s.operations && k != id ==> s'.operations[k] == s.operations[k]
  {
  }

  // ---------- executions against approvals ----------

  predicate NeedsDecision(s: State, id: nat) {
    id in s.operations && s.operations[id].approvalRequired
  }

  /** Positive approval records of an operation. */
  function PositiveRecords(approvals: seq<Approval>, id: nat): nat {
    if approvals == [] then 0
    else
      var n := |approvals| - 1;
      PositiveRecords(approvals[..n], id) + (if approvals[n].operationId == id && approvals[n].approved then 1 else 0)
  }

  predicate IsRegularStart(e: Event, id: nat) {
    e.Started? && e.id == id && !e.overridden
  }

  /** Executions of an operation without emergency override. */
  function RegularStarts(history: seq<Event>, id: nat): nat {
    if history == [] then 0
    else
      var n := |history| - 1;
      RegularStarts(history[..n], id) + (if IsRegularStart(history[n], id) then 1 else 0)
  }

  /** How often the operation became approved. */
  function PositiveDecisions(history: seq<Event>, id: nat): nat {
    if history == [] then 0
    else
      var n := |history| - 1;
      PositiveDecisions(history[..n], id) + (if history[n] == Decided(id, true) then 1 else 0)
  }

  predicate IsInFlight(call: Call, id: nat) {
    call.Cleared? && call.id == id && !call.overridden
  }

  function InFlightCalls(calls: map<nat, Call>, id: nat): set<nat> {
    set k | k in calls && IsInFlight(calls[k], id)
  }

  function UndecidedCalls(calls: map<nat, Call>, id: nat): set<nat> {
    set k | k in calls && calls[k] == Deciding(id, true)
  }

  /** Executions without override that have been checked and not started. */
  function InFlight(calls: map<nat, Call>, id: nat): nat {
    |InFlightCalls(calls, id)|
  }

  /** Positive records whose status has not been written. */
  function Undecided(calls: map<nat, Call>, id: nat): nat {
    |UndecidedCalls(calls, id)|
  }

  /** At no time are more than n executions of the operation between check and start. */
  ghost predicate Overlap(steps: seq<Step>, id: nat, n: nat) {
    forall k :: 0 <= k <= |steps| ==> InFlight(After(steps[..k]).calls, id) <= n
  }

  lemma CountsAppend(history: seq<Event>, e: Event, id: nat)
    ensures RegularStarts(history + [e], id) == RegularStarts(history, id) + (if IsRegularStart(e, id) then 1 else 0)
    ensures PositiveDecisions(history + [e], id)
            == PositiveDecisions(history, id) + (if e == Decided(id, true) then 1 else 0)
  {
    assert (history + [e])[..|history|] == history;
  }

  lemma RecordsAppend(approvals: seq<Approval>, a: Approval, id: nat)
    ensures PositiveRecords(approvals + [a], id)
            == PositiveRecords(approvals, id) + (if a.operationId == id && a.approved then 1 else 0)
  {
    assert (approvals + [a])[..|approvals|] == approvals;
  }

  lemma InFlightAdded(calls: map<nat, Call>, k: nat, call: Call, id: nat)
    requires k !in calls
    ensures InFlight(calls[k := call], id) == InFlight(calls, id) + (if IsInFlight(call, id) then 1 else 0)
  {
    hide IsInFlight;
    var old_, new_ := InFlightCalls(calls, id), InFlightCalls(calls[k := call], id);
    if IsInFlight(call, id) {
      assert new_ == old_ + {k};
    } else {
      assert new_ == old_;
    }
  }

  lemma UndecidedAdded(calls: map<nat, Call>, k: nat, call: Call, id: nat)
    requires k !in calls
    ensures Undecided(calls[k := call], id) == Undecided(calls, id) + (if call == Deciding(id, true) then 1 else 0)
  {
    var old_, new_ := UndecidedCalls(calls, id), UndecidedCalls(calls[k := call], id);
    if call == Deciding(id, true) {
      assert new_ == old_ + {k};
    } else {
      assert new_ == old_;
    }
  }

  lemma CallAdded(calls: map<nat, Call>, k: nat, call: Call, id: nat)
    requires k !in calls
    ensures InFlight(calls[k := call], id) == InFlight(calls, id) + (if IsInFlight(call, id) then 1 else 0)
    ensures Undecided(calls[k := call], id) == Undecided(calls, id) + (if call == Deciding(id, true) then 1 else 0)
  {
    hide *;
    InFlightAdded(calls, k, call, id);
    UndecidedAdded(calls, k, call, id);
  }

  lemma CallRemoved(calls: map<nat, Call>, k: nat, id: nat)
    requires k in calls
    ensures InFlight(calls, id) == InFlight(calls - {k}, id) + (if IsInFlight(calls[k], id) then 1 else 0)
    ensures Undecided(calls, id) == Undecided(calls - {k}, id) + (if calls[k] == Deciding(id, true) then 1 else 0)
  {
    CallAdded(calls - {k}, k, calls[k], id);
    assert (calls - {k})[k := calls[k]] == calls;
  }

  lemma CallAdvanced(calls: map<nat, Call>, k: nat, id: nat)
    requires k in calls && calls[k].Cleared?
    ensures InFlight(calls, id)
            == InFlight(calls[k := Running(calls[k].id)], id) + (if IsInFlight(calls[k], id) then 1 else 0)
    ensures Undecided(calls[k := Running(calls[k].id)], id) == Undecided(calls, id)
  {
    CallRemoved(calls, k, id);
    CallAdded(calls - {k}, k, Running(calls[k].id), id);
    assert (calls - {k})[k := Running(calls[k].id)] == calls[k := Running(calls[k].id)];
  }

  /** Every positive decision has its own record. */
  ghost predicate DecisionsRecorded(s: State, id: nat) {
    PositiveDecisions(s.history, id) + Undecided(s.calls, id) == PositiveRecords(s.approvals, id)
  }

  /** n for every time the operation became approved: what starts and checked executions may
      use up. While the operation is approved its last n are only claimed, not used. */
  ghost predicate Funded(s: State, id: nat, n: nat) {
    NeedsDecision(s, id) ==>
      && RegularStarts(s.history, id) + InFlight(s.calls, id) <= n * PositiveDecisions(s.history, id)
      && (s.operations[id].status == APPROVED ==>
            RegularStarts(s.history, id) + n <= n * PositiveDecisions(s.history, id))
  }

  lemma {:induction false} Nothing(history: seq<Event>, id: nat)
    requires forall k :: 0 <= k < |history| ==> history[k].id != id
    ensures RegularStarts(history, id) == 0
  {
    if history != [] {
      Nothing(history[..|history| - 1], id);
    }
  }

  lemma NoneInFlight(calls: map<nat, Call>, id: nat)
    requires forall k :: k in calls ==> calls[k].id != id
    ensures InFlight(calls, id) == 0
  {
    assert InFlightCalls(calls, id) == {};
  }

  lemma StepKeepsRecords(s: State, step: Step, id: nat)
    requires Good(s) && DecisionsRecorded(s, id)
    ensures DecisionsRecorded(Apply(s, step), id)
  {
    hide LastEvent, InFlight, Undecided, PositiveRecords, PositiveDecisions, RegularStarts;
    var s' := Apply(s, step);
    if s'.history != s.history {
      assert s'.history == s.history + [s'.history[|s.history|]];
      CountsAppend(s.history, s'.history[|s.history|], id);
    }
    StepCounts(s, step, id);
  }

  /** How a step changes the counts of calls under way, and the records. */
  lemma StepCounts(s: State, step: Step, id: nat)
    requires Good(s)
    ensures var s' := Apply(s, step);
      && (step.DoCreate? ==> s'.calls == s.calls)
      && (step.DoRecord? && s' != s ==>
            && PositiveRecords(s'.approvals, id)
               == PositiveRecords(s.approvals, id) + (if step.id == id && step.approved then 1 else 0)
            && InFlight(s'.calls, id) == InFlight(s.calls, id)
            && Undecided(s'.calls, id) == Undecided(s.calls, id) + (if step.id == id && step.approved then 1 else 0))
      && (step.DoDecide? && s' != s ==>
            && InFlight(s'.calls, id) == InFlight(s.calls, id)
            && Undecided(s'.calls, id) + (if s.calls[step.call] == Deciding(id, true) then 1 else 0)
               == Undecided(s.calls, id))
      && (step.DoClear? && s' != s ==>
            && InFlight(s'.calls, id)
               == InFlight(s.calls, id)
                  + (if step.context.operationId == id && !step.context.emergencyOverride then 1 else 0)
            && Undecided(s'.calls, id) == Undecided(s.calls, id))
      && (step.DoBegin? && s' != s ==>
            && InFlight(s'.calls, id) + (if IsInFlight(s.calls[step.call], id) then 1 else 0) == InFlight(s.calls, id)
            && Undecided(s'.calls, id) == Undecided(s.calls, id))
      && (step.DoEnd? && s' != s ==>
            InFlight(s'.calls, id) == InFlight(s.calls, id) && Undecided(s'.calls, id) == Undecided(s.calls, id))
  {
    hide LastEvent, InFlight, Undecided, PositiveRecords;
    var s' := Apply(s, step);
    if s' != s {
      match step
      case DoCreate(_, _, _) =>
      case DoRecord(target, approver, approved, _) =>
        RecordsAppend(s.approvals, Approval(target, approver, approved), id);
        CallAdded(s.calls, s.nextCall, Deciding(target, approved), id);
      case DoDecide(call) => CallRemoved(s.calls, call, id);
      case DoClear(c, _) =>
        CallAdded(s.calls, s.nextCall, Cleared(c.operationId, c.emergencyOverride, |s.history|), id);
      case DoBegin(call) => CallAdvanced(s.calls, call, id);
      case DoEnd(call, _) => CallRemoved(s.calls, call, id);
    }
  }

  lemma StepKeepsFunded(s: State, step: Step, id: nat, n: nat)
    requires Good(s) && Funded(s, id, n) && InFlight(Apply(s, step).calls, id) <= n
    ensures Funded(Apply(s, step), id, n)
  {
    hide LastEvent, InFlight, Undecided, PositiveRecords, PositiveDecisions, RegularStarts;
    var s' := Apply(s, step);
    StepCounts(s, step, id);
    if s'.history != s.history {
      var e := s'.history[|s.history|];
      assert s'.history == s.history + [e];
      CountsAppend(s.history, e, id);
      if e == Created(id) {
        Nothing(s.history, id);
        NoneInFlight(s.calls, id);
      }
      var before := PositiveDecisions(s.history, id);
      OneMore(n, before);
    }
  }

  lemma OneMore(n: nat, k: nat)
    ensures n * (k + 1) == n * k + n
    ensures n * k >= 0
  {
  }

  lemma {:induction false} RunIsFunded(steps: seq<Step>, id: nat, n: nat)
    requires Overlap(steps, id, n)
    ensures Funded(After(steps), id, n) && DecisionsRecorded(After(steps), id)
  {
    hide Funded, InFlight, DecisionsRecorded;
    if steps == [] {
      NothingYet(id, n);
    } else {
      var m := |steps| - 1;
      var past := steps[..m];
      assert forall k :: 0 <= k <= m ==> past[..k] == steps[..k];
      assert steps[..m + 1] == steps;
      RunIsFunded(past, id, n);
      RunIsGood(past);
      StepKeepsFunded(After(past), steps[m], id, n);
      StepKeepsRecords(After(past), steps[m], id);
    }
  }

  lemma NothingYet(id: nat, n: nat)
    ensures Funded(START, id, n) && DecisionsRecorded(START, id)
  {
  }

  /** An operation that requires approval, and of which at most n executions are between check
      and start at any time, has at most n executions without override for each positive
      approval record, and n fewer while it is approved. */
  lemma ExecutionsArePaidFor(steps: seq<Step>, id: nat, n: nat)
    requires Overlap(steps, id, n) && NeedsDecision(After(steps), id)
    ensures var s := After(steps);
      && RegularStarts(s.history, id) <= n * PositiveRecords(s.approvals, id)
      && (s.operations[id].status == APPROVED ==>
            RegularStarts(s.history, id) + n <= n * PositiveRecords(s.approvals, id))
  {
    hide InFlight, Undecided, PositiveRecords, PositiveDecisions, RegularStarts;
    RunIsFunded(steps, id, n);
    var s := After(steps);
    Scale(n, PositiveDecisions(s.history, id), PositiveRecords(s.approvals, id));
  }

  lemma Scale(n: nat, a: nat, b: nat)
    requires a <= b
    ensures n * a <= n * b
  {
    assert n * (b - a) >= 0;
  }

  // ---------- the bound is reached ----------

  /** An operation is created and approved once; then m executions are checked before any starts. */
  function Setup(): seq<Step> {
    [DoCreate(true, false, true), DoRecord(0, "approver", true, true), DoDecide(0)]
  }

  function Clears(m: nat): seq<Step> {
    Setup() + seq(m, _ => DoClear(Context(0, false, false), Rights(true, false)))
  }

  function Begins(m: nat, k: nat): seq<Step> {
    Clears(m) + seq(k, i requires 0 <= i < k => DoBegin(1 + i))
  }

  function Numbers(m: nat): (numbers: set<nat>)
    ensures |numbers| == m && forall i :: i in numbers <==> 1 <= i <= m
  {
    if m == 0 then {} else Numbers(m - 1) + {m}
  }

  /** The calls 1..m: the first k running, the others cleared. */
  function Waiting(m: nat, k: nat): map<nat, Call> {
    map i | i in Numbers(m) :: if i <= k then Running(0) else Cleared(0, false, 2)
  }

  lemma WaitingNone()
    ensures Waiting(0, 0) == map[]
  {
  }

  lemma OneMoreWaits(m: nat)
    requires 1 <= m
    ensures Waiting(m - 1, 0)[m := Cleared(0, false, 2)] == Waiting(m, 0)
  {
  }

  lemma OneMoreRuns(m: nat, k: nat)
    requires 1 <= k <= m
    ensures k in Waiting(m, k - 1) && Waiting(m, k - 1)[k] == Cleared(0, false, 2)
    ensures Waiting(m, k - 1)[k := Running(0)] == Waiting(m, k)
  {
  }

  function StartsOf(k: nat): (history: seq<Event>)
    ensures |history| == k + 2
  {
    [Created(0), Decided(0, true)] + seq(k, _ => Started(0, false, 2))
  }

  lemma AfterSetup()
    ensures After(Setup()) == State(map[0 := Operation(APPROVED, true, false)], 1, [Approval(0, "approver", true)],
                                    map[], 1, [Created(0), Decided(0, true)])
  {
    var steps := Setup();
    assert steps[..1][..0] == [];
    assert steps[..2][..1] == steps[..1];
    assert After(steps[..1])
           == State(map[0 := Operation(PENDING_APPROVAL, true, false)], 1, [], map[], 0, [Created(0)]);
    assert After(steps[..2]) == State(map[0 := Operation(PENDING_APPROVAL, true, false)], 1,
                                      [Approval(0, "approver", true)], map[0 := Deciding(0, true)], 1, [Created(0)]);
    assert steps[..3] == steps;
    assert map[0 := Deciding(0, true)] - {0} == map[];
  }

  lemma {:induction false} AfterClears(m: nat)
    ensures After(Clears(m)) == State(map[0 := Operation(APPROVED, true, false)], 1, [Approval(0, "approver", true)],
                                      Waiting(m, 0), m + 1, StartsOf(0))
  {
    hide After, Waiting;
    var step := DoClear(Context(0, false, false), Rights(true, false));
    if m == 0 {
      AfterSetup();
      assert Clears(0) == Setup();
      WaitingNone();
    } else {
      AfterClears(m - 1);
      assert Clears(m) == Clears(m - 1) + [step];
      AfterAppend(Clears(m - 1), step);
      OneMoreWaits(m);
    }
  }

  lemma {:induction false} AfterBegins(m: nat, k: nat)
    requires k <= m
    ensures After(Begins(m, k)) == State(map[0 := Operation(if k == 0 then APPROVED else EXECUTING, true, false)], 1,
                                         [Approval(0, "approver", true)], Waiting(m, k), m + 1, StartsOf(k))
  {
    hide After, Waiting, Clears;
    AfterClears(m);
    if k == 0 {
      assert Begins(m, 0) == Clears(m);
    } else {
      AfterBegins(m, k - 1);
      assert Begins(m, k) == Begins(m, k - 1) + [DoBegin(k)];
      AfterAppend(Begins(m, k - 1), DoBegin(k));
      OneMoreRuns(m, k);
      assert StartsOf(k) == StartsOf(k - 1) + [Started(0, false, 2)];
    }
  }

  lemma {:induction false} StartsOfCount(k: nat)
    ensures RegularStarts(StartsOf(k), 0) == k
  {
    if k > 0 {
      StartsOfCount(k - 1);
      assert StartsOf(k)[..k + 1] == StartsOf(k - 1);
    } else {
      assert StartsOf(0)[..1][..0] == [];
    }
  }

  lemma WaitingCount(m: nat, k: nat)
    requires k <= m
    ensures InFlight(Waiting(m, k), 0) <= m
  {
    SubsetSize(InFlightCalls(Waiting(m, k), 0), Numbers(m));
  }

  lemma SubsetSize(a: set<nat>, b: set<nat>)
    requires a <= b
    ensures |a| <= |b|
  {
    assert b == a + (b - a);
  }

  /** With m executions checked before the first starts, one approval pays for m of them. */
  lemma OverlapIsReached(m: nat)
    ensures Overlap(Begins(m, m), 0, m)
    ensures var s := After(Begins(m, m));
      && NeedsDecision(s, 0) && PositiveRecords(s.approvals, 0) == 1 && RegularStarts(s.history, 0) == m
  {
    hide After, InFlight, Waiting, Begins;
    forall j | 0 <= j <= |Begins(m, m)|
      ensures InFlight(After(Begins(m, m)[..j]).calls, 0) <= m
    {
      OverlapOfPrefix(m, j);
    }
    AfterBegins(m, m);
    StartsOfCount(m);
    var one := [Approval(0, "approver", true)];
    assert one[..0] == [];
  }

  lemma OverlapOfPrefix(m: nat, j: nat)
    requires j <= |Begins(m, m)|
    ensures InFlight(After(Begins(m, m)[..j]).calls, 0) <= m
  {
    hide After, InFlight, Waiting;
    var steps := Begins(m, m);
    if j < 3 {
      assert steps[..j] == Setup()[..j];
      SetupHasNone(j);
    } else if j <= m + 3 {
      assert steps[..j] == Clears(j - 3);
      AfterClears(j - 3);
      WaitingCount(j - 3, 0);
    } else {
      assert steps[..j] == Begins(m, j - m - 3);
      AfterBegins(m, j - m - 3);
      WaitingCount(m, j - m - 3);
    }
  }

  lemma SetupHasNone(j: nat)
    requires j < 3
    ensures InFlight(After(Setup()[..j]).calls, 0) == 0
  {
    var steps := Setup();
    assert steps[..1][..0] == [];
    assert steps[..2][..1] == steps[..1];
    assert After(steps[..1]).calls == map[] && 0 in After(steps[..1]).operations;
    NoneCleared(After(steps[..j]).calls);
  }

  lemma NoneCleared(calls: map<nat, Call>)
    requires forall k :: k in calls ==> !calls[k].Cleared?
    ensures InFlight(calls, 0) == 0
  {
    assert InFlightCalls(calls, 0) == {};
  }

  /** In all runs in which at most n executions of an operation overlap. */
  ghost predicate NeverOutnumber(n: nat) {
    forall steps, id :: Overlap(steps, id, n) && NeedsDecision(After(steps), id)
      ==> RegularStarts(After(steps).history, id) <= PositiveRecords(After(steps).approvals, id)
  }

  /** Executions never outnumber approvals exactly when no execution of an operation is checked
      while another one is between its check and its start. */
  lemma NeverOutnumberExactly(n: nat)
    ensures NeverOutnumber(n) <==> n <= 1
  {
    hide After, InFlight, RegularStarts, PositiveRecords;
    if n <= 1 {
      forall steps, id | Overlap(steps, id, n) && NeedsDecision(After(steps), id)
        ensures RegularStarts(After(steps).history, id) <= PositiveRecords(After(steps).approvals, id)
      {
        ExecutionsArePaidFor(steps, id, n);
      }
    } else {
      OverlapIsReached(n);
    }
  }

  // ---------- which decision a start rests on ----------

  /** At its check the last event of the operation was a positive decision. */
  predicate Rests(history: seq<Event>, id: nat, checkedAt: nat)
    requires checkedAt <= |history|
  {
    LastEvent(history[..checkedAt], id) == Some(Decided(id, true))
  }

  ghost predicate StartRests(s: State, k: nat)
    requires k < |s.history| && s.history[k].Started?
  {
    var Started(id, overridden, at) := s.history[k];
    at <= k && (NeedsDecision(s, id) && !overridden ==> Rests(s.history, id, at))
  }

  ghost predicate ClearedRests(s: State, call: Call)
    requires call.Cleared?
  {
    call.checkedAt <= |s.history|
    && (NeedsDecision(s, call.id) && !call.overridden ==> Rests(s.history, call.id, call.checkedAt))
  }

  ghost predicate StartsRest(s: State) {
    && (forall k :: 0 <= k < |s.history| && s.history[k].Started? ==> StartRests(s, k))
    && (forall k :: k in s.calls && s.calls[k].Cleared? ==> ClearedRests(s, s.calls[k]))
  }

  /** A step appends at most one event, and keeps which operations require approval. */
  lemma StepAppends(s: State, step: Step)
    requires Good(s)
    ensures var s' := Apply(s, step);
      && (s'.history == s.history
          || (|s'.history| == |s.history| + 1 && s'.history == s.history + [s'.history[|s.history|]]))
      && (forall id :: id in s.operations ==> NeedsDecision(s', id) == NeedsDecision(s, id))
      && (forall k :: k in s'.calls && s'.calls[k].Cleared? ==>
            (k in s.calls && s'.calls[k] == s.calls[k]) || step.DoClear?)
  {
    hide LastEvent;
  }

  /** What rests on the history so far still does after more events. */
  lemma RestsStay(s: State, s': State)
    requires Good(s) && StartsRest(s) && |s'.history| >= |s.history| && s'.history[..|s.history|] == s.history
    requires forall id :: id in s.operations ==> NeedsDecision(s', id) == NeedsDecision(s, id)
    ensures forall k :: 0 <= k < |s.history| && s.history[k].Started? ==> StartRests(s', k)
    ensures forall k :: k in s.calls && s.calls[k].Cleared? ==> ClearedRests(s', s.calls[k])
  {
    hide LastEvent;
    forall id, at: nat | at <= |s.history|
      ensures Rests(s'.history, id, at) == Rests(s.history, id, at)
    {
      assert s'.history[..at] == s.history[..at];
    }
    forall k | 0 <= k < |s.history| && s.history[k].Started?
      ensures StartRests(s', k)
    {
      assert s'.history[k] == s.history[k] && StartRests(s, k);
    }
    forall k | k in s.calls && s.calls[k].Cleared?
      ensures ClearedRests(s', s.calls[k])
    {
      assert ClearedRests(s, s.calls[k]);
    }
  }

  lemma StepKeepsRests(s: State, step: Step)
    requires Good(s) && StartsRest(s)
    ensures StartsRest(Apply(s, step))
  {
    hide LastEvent, Rests;
    var s' := Apply(s, step);
    StepAppends(s, step);
    assert s'.history[..|s.history|] == s.history;
    RestsStay(s, s');
    if step.DoBegin? && s' != s {
      assert ClearedRests(s', s.calls[step.call]);
    } else if step.DoClear? && s' != s {
      ClearRests(s, step.context.operationId);
    }
  }

  lemma ClearRests(s: State, id: nat)
    requires Good(s) && id in s.operations
    ensures s.operations[id].status == APPROVED ==> Rests(s.history, id, |s.history|)
  {
    assert s.history[..|s.history|] == s.history;
    LastEventHasId(s.history, id);
  }

  lemma {:induction false} RunRests(steps: seq<Step>)
    ensures StartsRest(After(steps))
  {
    hide StartsRest;
    if steps == [] {
      NothingRests();
    } else {
      RunRests(steps[..|steps| - 1]);
      RunIsGood(steps[..|steps| - 1]);
      StepKeepsRests(After(steps[..|steps| - 1]), steps[|steps| - 1]);
    }
  }

  lemma NothingRests()
    ensures StartsRest(START)
  {
  }

  lemma {:induction false} LastEventAt(history: seq<Event>, id: nat) returns (k: nat)
    requires LastEvent(history, id).Some?
    ensures k < |history| && history[k] == LastEvent(history, id).value
    ensures forall j :: k < j < |history| ==> history[j].id != id
  {
    k := |history| - 1;
    if history[k].id != id {
      k := LastEventAt(history[..k], id);
    }
  }

  /** In every interleaving an execution without override was checked when the last event of its
      operation was a positive decision, at d; and if an earlier one is already started by then,
      that decision is a later one. So two executions rest on one decision only if both are
      checked before either starts. */
  lemma RegularStartsFollowApproval(steps: seq<Step>, id: nat, k: nat) returns (d: nat)
    requires k < |After(steps).history| && IsRegularStart(After(steps).history[k], id)
    requires NeedsDecision(After(steps), id)
    ensures var history := After(steps).history;
      && d < history[k].checkedAt <= k && history[d] == Decided(id, true)
      && (forall j :: d < j < history[k].checkedAt ==> history[j].id != id)
      && (forall j :: 0 <= j < history[k].checkedAt && IsRegularStart(history[j], id) ==> j < d)
  {
    RunRests(steps);
    var history := After(steps).history;
    var at := history[k].checkedAt;
    assert Rests(history, id, at);
    d := LastEventAt(history[..at], id);
    assert forall j :: 0 <= j < at ==> history[..at][j] == history[j];
  }

  // ---------- who may create and decide ----------

  /** The flags of the creations by permitted users, in order: their operations are numbered so. */
  function Creations(steps: seq<Step>): seq<(bool, bool)> {
    if steps == [] then []
    else
      var n := |steps| - 1;
      Creations(steps[..n])
      + (if steps[n].DoCreate? && steps[n].permitted then [(steps[n].approvalRequired, steps[n].mfaRequired)] else [])
  }

  /** The decisions recorded by permitted approvers on operations created before, in order. */
  function PermittedRecords(steps: seq<Step>): seq<Approval> {
    if steps == [] then []
    else
      var n := |steps| - 1;
      PermittedRecords(steps[..n])
      + (if steps[n].DoRecord? && steps[n].permitted && steps[n].id < |Creations(steps[..n])|
         then [Approval(steps[n].id, steps[n].approverId, steps[n].approved)] else [])
  }

  function FlagsOf(o: Operation): (bool, bool) {
    (o.approvalRequired, o.mfaRequired)
  }

  /** Only a permitted creation adds an operation, and no step changes the flags of one. */
  lemma StepOnOperations(s: State, step: Step)
    requires s.next !in s.operations
    ensures var s', added := Apply(s, step), step.DoCreate? && step.permitted;
      && s'.next == s.next + (if added then 1 else 0)
      && s'.operations.Keys == s.operations.Keys + (if added then {s.next} else {})
      && (added ==> FlagsOf(s'.operations[s.next]) == (step.approvalRequired, step.mfaRequired))
      && (forall id :: id in s.operations ==> FlagsOf(s'.operations[id]) == FlagsOf(s.operations[id]))
  {
  }

  /** Only a permitted decision on an operation adds a record. */
  lemma StepOnRecords(s: State, step: Step)
    ensures Apply(s, step).approvals == s.approvals
      + (if step.DoRecord? && step.permitted && step.id in s.operations
         then [Approval(step.id, step.approverId, step.approved)] else [])
  {
  }

  /** The operations are exactly the permitted creations, with the flags they were created with. */
  lemma {:induction false} OperationsAreCreated(steps: seq<Step>)
    ensures var s := After(steps);
      && (forall id: nat :: id in s.operations <==> id < |Creations(steps)|)
      && s.next == |Creations(steps)|
      && (forall id :: id in s.operations ==>
            FlagsOf(s.operations[id]) == Creations(steps)[id])
  {
    hide Apply, FlagsOf;
    if steps != [] {
      OperationsAreCreated(steps[..|steps| - 1]);
      StepOnOperations(After(steps[..|steps| - 1]), steps[|steps| - 1]);
    }
  }

  /** The approval records are exactly the permitted decisions. */
  lemma {:induction false} RecordsArePermitted(steps: seq<Step>)
    ensures After(steps).approvals == PermittedRecords(steps)
  {
    hide Creations, Apply;
    if steps != [] {
      RecordsArePermitted(steps[..|steps| - 1]);
      OperationsAreCreated(steps[..|steps| - 1]);
      StepOnRecords(After(steps[..|steps| - 1]), steps[|steps| - 1]);
    }
  }

  /** Any other creation or decision is refused for the reason at hand, and changes nothing. */
  lemma RefusedExactly(steps: seq<Step>, approvalRequired: bool, mfaRequired: bool, id: nat, approverId: string,
                       approved: bool, permitted: bool)
    ensures var s := After(steps);
      var (created, creation) := Create(s, approvalRequired, mfaRequired, permitted);
      var (recorded, decision) := Record(s, id, approverId, approved, permitted);
      && creation == (if permitted then Done else Forbidden) && (!permitted ==> created == s)
      && decision == (if id >= |Creations(steps)| then NotFound else if permitted then Done else Forbidden)
      && (decision != Done ==> recorded == s)
  {
    OperationsAreCreated(steps);
  }

  predicate IsPermittedRecord(step: Step, id: nat, approved: bool) {
    step.DoRecord? && step.id == id && step.approved == approved && step.permitted
  }

  ghost predicate WasPermitted(steps: seq<Step>, id: nat, approved: bool) {
    exists i :: 0 <= i < |steps| && IsPermittedRecord(steps[i], id, approved)
  }

  lemma StillPermitted(steps: seq<Step>, step: Step, id: nat, approved: bool)
    requires WasPermitted(steps, id, approved)
    ensures WasPermitted(steps + [step], id, approved)
  {
    var i :| 0 <= i < |steps| && IsPermittedRecord(steps[i], id, approved);
    assert IsPermittedRecord((steps + [step])[i], id, approved);
  }

  lemma NowPermitted(steps: seq<Step>, id: nat, approved: bool)
    requires steps != [] && IsPermittedRecord(steps[|steps| - 1], id, approved)
    ensures WasPermitted(steps, id, approved)
  {
  }

  /** Every decision, written or still to be written, goes back to a permitted approver. */
  ghost predicate AllPermitted(s: State, steps: seq<Step>) {
    && (forall k :: 0 <= k < |s.history| && s.history[k].Decided? ==>
          WasPermitted(steps, s.history[k].id, s.history[k].approved))
    && (forall k :: k in s.calls && s.calls[k].Deciding? ==> WasPermitted(steps, s.calls[k].id, s.calls[k].approved))
  }

  lemma {:induction false} DecisionsArePermitted(steps: seq<Step>)
    ensures AllPermitted(After(steps), steps)
  {
    hide WasPermitted;
    if steps != [] {
      var n := |steps| - 1;
      var past, s := steps[..n], After(steps[..n]);
      DecisionsArePermitted(past);
      assert past + [steps[n]] == steps;
      forall id, approved | WasPermitted(past, id, approved)
        ensures WasPermitted(steps, id, approved)
      {
        StillPermitted(past, steps[n], id, approved);
      }
      if steps[n].DoRecord? && steps[n].permitted {
        NowPermitted(steps, steps[n].id, steps[n].approved);
      }
    }
  }

  // ---------- the service ----------

  class RecoveryService {
    var operations: map<nat, Operation>
    var next: nat
    var approvals: seq<Approval>
    ghost var calls: map<nat, Call>
    ghost var nextCall: nat
    ghost var history: seq<Event>

    constructor ()
      ensures Current() == START
    {
      operations, next, approvals := map[], 0, [];
      calls, nextCall, history := map[], 0, [];
    }

    ghost function Current(): State
      reads this
    {
      State(operations, next, approvals, calls, nextCall, history)
    }

    method CreateRecoveryOperation(approvalRequired: bool, mfaRequired: bool, permitted: bool)
      returns (id: nat, outcome: Outcome)
      modifies this
      ensures (Current(), outcome) == Create(old(Current()), approvalRequired, mfaRequired, permitted)
      ensures outcome == Done ==> id == old(next)
    {
      if !permitted {
        return 0, Forbidden;
      }
      id := next;
      operations := operations[id := Operation(if approvalRequired then PENDING_APPROVAL else READY,
                                               approvalRequired, mfaRequired)];
      next := next + 1;
      history := history + [Created(id)];
      outcome := Done;
    }

    /** The two steps of a decision, with no other call in between. */
    method ApproveRecoveryOperation(id: nat, approverId: string, approved: bool, permitted: bool)
      returns (outcome: Outcome)
      modifies this
      ensures var (recorded, check) := Record(old(Current()), id, approverId, approved, permitted);
        outcome == check && Current() == if check == Done then Decide(recorded, old(nextCall)) else old(Current())
    {
      if id !in operations { return NotFound; }
      if !permitted { return Forbidden; }
      approvals := approvals + [Approval(id, approverId, approved)];
      calls := calls[nextCall := Deciding(id, approved)];
      operations := operations[id := operations[id].(status := if approved then APPROVED else REJECTED)];
      calls := calls - {nextCall};
      nextCall, history := nextCall + 1, history + [Decided(id, approved)];
      outcome := Done;
    }

    /** The three steps of an execution, with no other call in between. `workOk` says whether
        the recovery work itself succeeds. */
    method ExecuteRecoveryOperation(c: Context, rights: Rights, workOk: bool) returns (outcome: Outcome)
      modifies this
      ensures var (cleared, check) := Clear(old(Current()), c, rights);
        if check == Done
        then Current() == End(Begin(cleared, old(nextCall)), old(nextCall), workOk)
             && outcome == (if workOk then Done else WorkFailed)
        else Current() == old(Current()) && outcome == check
    {
      var id := c.operationId;
      if id !in operations { return NotFound; }
      outcome := ValidateExecutionPermissions(operations[id], c, rights);
      if outcome != Done { return; }
      ghost var call := nextCall;
      calls, nextCall := calls[call := Cleared(id, c.emergencyOverride, |history|)], call + 1;
      operations := operations[id := operations[id].(status := EXECUTING)];
      history := history + [Started(id, c.emergencyOverride, |history|)];
      calls := calls[call := Running(id)];
      assert Current() == Begin(Clear(old(Current()), c, rights).0, call);
      if workOk {
        operations := operations[id := operations[id].(status := COMPLETED)];
      } else {
        operations := operations[id := operations[id].(status := FAILED)];
        outcome := WorkFailed;
      }
      history := history + [Finished(id, workOk)];
      calls := calls - {call};
    }

    method ValidateExecutionPermissions(o: Operation, c: Context, rights: Rights) returns (outcome: Outcome)
      ensures outcome == Check(o, c, rights)
    {
      if !rights.execute { return Forbidden; }
      if o.approvalRequired && o.status != APPROVED && !c.emergencyOverride { return NeedsApproval; }
      if o.mfaRequired && !c.mfaToken && !c.emergencyOverride { return NeedsMfa; }
      if c.emergencyOverride {
        if !rights.emergencyResponder { return NotResponder; }
      }
      outcome := Done;
    }
  }
}
