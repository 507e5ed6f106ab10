/** User sessions, src/session/session.service.ts. A refresh token is identified with the row
    it was issued for; the log records every time a session was accepted. */
module Sessions {
  import opened Basics

  const TIMEOUT_MS := 30 * 60000
  const MAX_CONCURRENT := 1
  const VALIDITY_MS := 7 * 24 * 3600000

  datatype Device = Device(browser: string, os: string, ip: string)

  datatype Session =
    Session(userId: string, expiresAt: int, device: Device, lastActiveAt: int, revoked: bool, isActive: bool)

  type Rows = map<nat, Session>

  /** A session was opened, validated or refreshed. */
  datatype Acceptance = Acceptance(id: nat, at: int)

  datatype State = State(rows: Rows, next: nat, log: seq<Acceptance>)

  const START := State(map[], 0, [])

  predicate Usable(s: Session) {
    s.isActive && !s.revoked
  }

  function Revoked(s: Session): Session {
    s.(revoked := true, isActive := false)
  }

  function ActiveOf(rows: Rows, userId: string): set<nat> {
    set id | id in rows && rows[id].userId == userId && Usable(rows[id])
  }

  /** Revokes the given rows. */
  function RevokeAll(rows: Rows, ids: set<nat>): Rows {
    map id | id in rows :: if id in ids then Revoked(rows[id]) else rows[id]
  }

  function Enforce(rows: Rows, userId: string): Rows {
    if |ActiveOf(rows, userId)| >= MAX_CONCURRENT then RevokeAll(rows, ActiveOf(rows, userId)) else rows
  }

  /** An active session of the user on the same device, if there is one. */
  function OnDevice(rows: Rows, userId: string, d: Device): set<nat> {
    set id | id in ActiveOf(rows, userId) && rows[id].device.browser == d.browser
             && rows[id].device.os == d.os && rows[id].device.ip == d.ip
  }

  function Create(s: State, userId: string, d: Device, now: int): State {
    var rows := Enforce(s.rows, userId);
    State(rows[s.next := Session(userId, now + VALIDITY_MS, d, now, false, true)], s.next + 1,
          s.log + [Acceptance(s.next, now)])
  }

  predicate Current(rows: Rows, id: nat, now: int) {
    id in rows && Usable(rows[id]) && now <= rows[id].expiresAt
  }

  predicate TimedOut(s: Session, now: int) {
    now - s.lastActiveAt > TIMEOUT_MS
  }

  function Validate(s: State, id: nat, now: int): (State, bool) {
    if !Current(s.rows, id, now) then (s, false)
    else if TimedOut(s.rows[id], now) then (s.(rows := s.rows[id := Revoked(s.rows[id])]), false)
    else (s.(rows := s.rows[id := s.rows[id].(lastActiveAt := now)], log := s.log + [Acceptance(id, now)]), true)
  }

  function Refresh(s: State, id: nat, signed: bool, d: Device, now: int): (State, bool) {
    if !signed || !Current(s.rows, id, now) then (s, false)
    else
      var (s', ok) := Validate(s, id, now);
      (if ok then s'.(rows := s'.rows[id := s'.rows[id].(device := d)]) else s', ok)
  }

  function Revoke(s: State, id: nat, userId: string): (State, bool) {
    if id in s.rows && s.rows[id].userId == userId then (s.(rows := s.rows[id := Revoked(s.rows[id])]), true)
    else (s, false)
  }

  function Logout(s: State, id: nat): State {
    if id in s.rows then s.(rows := s.rows[id := Revoked(s.rows[id])]) else s
  }

  function RevokeOthers(s: State, userId: string, current: nat): State {
    s.(rows := RevokeAll(s.rows, ActiveOf(s.rows, userId) - {current}))
  }

  function Expired(rows: Rows, now: int): set<nat> {
    set id | id in rows && rows[id].expiresAt < now && rows[id].isActive
  }

  function Clean(s: State, now: int): State {
    s.(rows := RevokeAll(s.rows, Expired(s.rows, now)))
  }

  // ---------- runs ----------

  datatype Op =
    | DoCreate(userId: string, device: Device)
    | DoValidate(id: nat)
    | DoRefresh(id: nat, signed: bool, device: Device)
    | DoRevoke(id: nat, userId: string)
    | DoRevokeOthers(userId: string, id: nat)
    | DoLogout(id: nat)
    | DoClean
    | DoEnforce(userId: string)

  datatype Step = Step(at: int, op: Op)

  function Apply(s: State, step: Step): State {
    match step.op
    case DoCreate(u, d) => Create(s, u, d, step.at)
    case DoValidate(id) => Validate(s, id, step.at).0
    case DoRefresh(id, signed, d) => Refresh(s, id, signed, d, step.at).0
    case DoRevoke(id, u) => Revoke(s, id, u).0
    case DoRevokeOthers(u, id) => RevokeOthers(s, u, id)
    case DoLogout(id) => Logout(s, id)
    case DoClean => Clean(s, step.at)
    case DoEnforce(u) => s.(rows := Enforce(s.rows, u))
  }

  function After(steps: seq<Step>): State {
    if steps == [] then START else Apply(After(steps[..|steps| - 1]), steps[|steps| - 1])
  }

  // ---------- the invariant ----------

  ghost predicate FlagsAgree(rows: Rows) {
    forall id :: id in rows ==> (rows[id].isActive <==> !rows[id].revoked)
  }

  ghost predicate OneEach(rows: Rows) {
    forall i, j :: i in rows && j in rows && Usable(rows[i]) && Usable(rows[j]) && rows[i].userId == rows[j].userId
      ==> i == j
  }

  /** The last time a session was accepted. */
  function LastAccepted(log: seq<Acceptance>, id: nat): Option<int> {
    if log == [] then None
    else if log[|log| - 1].id == id then Some(log[|log| - 1].at)
    else LastAccepted(log[..|log| - 1], id)
  }

  /** Every acceptance came in time after the previous one of the same session, and before
      the session expired. */
  ghost predicate Spaced(rows: Rows, log: seq<Acceptance>) {
    forall k :: 0 <= k < |log| ==>
      var Acceptance(id, at) := log[k];
      && id in rows && at <= rows[id].expiresAt
      && (LastAccepted(log[..k], id).Some? ==> at - LastAccepted(log[..k], id).value <= TIMEOUT_MS)
  }

  ghost predicate Remembered(s: State) {
    && (forall id :: id in s.rows ==> id < s.next && LastAccepted(s.log, id) == Some(s.rows[id].lastActiveAt))
    && (forall k :: 0 <= k < |s.log| ==> s.log[k].id < s.next)
  }

  ghost predicate Good(s: State) {
    FlagsAgree(s.rows) && OneEach(s.rows) && Remembered(s) && Spaced(s.rows, s.log)
  }

  /** Rows survive with their owner and expiry; a revoked row stays revoked. */
  ghost predicate Evolves(before: Rows, after: Rows) {
    forall id :: id in before ==>
      && id in after
      && after[id].userId == before[id].userId && after[id].expiresAt == before[id].expiresAt
      && (before[id].revoked ==> after[id].revoked)
  }

  lemma SpacedAppend(before: Rows, after: Rows, log: seq<Acceptance>, id: nat, at: int)
    requires Spaced(before, log) && Evolves(before, after)
    requires id in after && at <= after[id].expiresAt
    requires LastAccepted(log, id).Some? ==> at - LastAccepted(log, id).value <= TIMEOUT_MS
    ensures Spaced(after, log + [Acceptance(id, at)])
  {
    var more := log + [Acceptance(id, at)];
    forall k | 0 <= k < |more|
      ensures more[..k] == if k < |log| then log[..k] else log
    {
    }
  }

  lemma LastAcceptedAppend(log: seq<Acceptance>, a: Acceptance, id: nat)
    ensures LastAccepted(log + [a], id) == if a.id == id then Some(a.at) else LastAccepted(log, id)
  {
    assert (log + [a])[..|log|] == log;
  }

  lemma {:induction false} NeverAccepted(log: seq<Acceptance>, id: nat)
    requires forall k :: 0 <= k < |log| ==> log[k].id < id
    ensures LastAccepted(log, id).None?
  {
    if log != [] {
      NeverAccepted(log[..|log| - 1], id);
    }
  }

  lemma RevokingIsSafe(s: State, ids: set<nat>)
    requires Good(s)
    ensures Good(s.(rows := RevokeAll(s.rows, ids))) && Evolves(s.rows, RevokeAll(s.rows, ids))
  {
    hide LastAccepted;
  }

  lemma RevokeOneAsAll(rows: Rows, id: nat)
    requires id in rows
    ensures rows[id := Revoked(rows[id])] == RevokeAll(rows, {id})
  {
  }

  /** Enforcing leaves the user without an active session, so the search for a session on the
      same device that follows in createSession never finds one. */
  lemma EnforceLeavesNone(rows: Rows, userId: string, d: Device)
    ensures ActiveOf(Enforce(rows, userId), userId) == {}
    ensures OnDevice(Enforce(rows, userId), userId, d) == {}
  {
    var active := ActiveOf(rows, userId);
    if |active| < MAX_CONCURRENT {
      assert active == {};
    }
  }

  lemma AcceptIsSafe(s: State, id: nat, s': Session, now: int)
    requires Good(s) && id in s.rows
    requires s'.lastActiveAt == now && s'.userId == s.rows[id].userId && s'.expiresAt == s.rows[id].expiresAt
    requires s'.isActive == s.rows[id].isActive && s'.revoked == s.rows[id].revoked
    requires now <= s.rows[id].expiresAt && now - s.rows[id].lastActiveAt <= TIMEOUT_MS
    ensures Good(State(s.rows[id := s'], s.next, s.log + [Acceptance(id, now)]))
    ensures Evolves(s.rows, s.rows[id := s'])
  {
    hide LastAccepted;
    var rows := s.rows[id := s'];
    SpacedAppend(s.rows, rows, s.log, id, now);
    forall i | i in rows
      ensures LastAccepted(s.log + [Acceptance(id, now)], i) == Some(rows[i].lastActiveAt)
    {
      LastAcceptedAppend(s.log, Acceptance(id, now), i);
    }
  }

  /** A new session for a user who has no active one. */
  lemma OpenIsSafe(s: State, added: Session, now: int)
    requires Good(s) && ActiveOf(s.rows, added.userId) == {}
    requires added.isActive && !added.revoked && added.lastActiveAt == now <= added.expiresAt
    ensures Good(State(s.rows[s.next := added], s.next + 1, s.log + [Acceptance(s.next, now)]))
    ensures Evolves(s.rows, s.rows[s.next := added])
  {
    hide LastAccepted, Spaced, OneEach;
    var rows := s.rows[s.next := added];
    NeverAccepted(s.log, s.next);
    SpacedAppend(s.rows, rows, s.log, s.next, now);
    OpenKeepsOneEach(s.rows, s.next, added);
    forall i | i in rows
      ensures LastAccepted(s.log + [Acceptance(s.next, now)], i) == Some(rows[i].lastActiveAt)
    {
      LastAcceptedAppend(s.log, Acceptance(s.next, now), i);
    }
  }

  lemma OpenKeepsOneEach(rows: Rows, id: nat, added: Session)
    requires FlagsAgree(rows) && OneEach(rows) && id !in rows && ActiveOf(rows, added.userId) == {}
    ensures OneEach(rows[id := added])
  {
    forall i | i in rows && Usable(rows[i])
      ensures rows[i].userId != added.userId
    {
      assert i !in ActiveOf(rows, added.userId);
    }
  }

  lemma CreateIsSafe(s: State, userId: string, d: Device, now: int)
    requires Good(s)
    ensures Good(Create(s, userId, d, now)) && Evolves(s.rows, Create(s, userId, d, now).rows)
  {
    hide Good;
    var kept := Enforce(s.rows, userId);
    RevokingIsSafe(s, ActiveOf(s.rows, userId));
    Unchanged(s);
    EnforceLeavesNone(s.rows, userId, d);
    var s' := Create(s, userId, d, now);
    assert Good(s.(rows := kept));
    OpenIsSafe(s.(rows := kept), s'.rows[s.next], now);
  }

  lemma ValidateIsSafe(s: State, id: nat, now: int)
    requires Good(s)
    ensures Good(Validate(s, id, now).0) && Evolves(s.rows, Validate(s, id, now).0.rows)
  {
    hide LastAccepted, Spaced, Remembered;
    if Current(s.rows, id, now) {
      if TimedOut(s.rows[id], now) {
        RevokingIsSafe(s, {id});
        RevokeOneAsAll(s.rows, id);
      } else {
        AcceptIsSafe(s, id, s.rows[id].(lastActiveAt := now), now);
      }
    }
  }

  lemma RefreshIsSafe(s: State, id: nat, signed: bool, d: Device, now: int)
    requires Good(s)
    ensures Good(Refresh(s, id, signed, d, now).0) && Evolves(s.rows, Refresh(s, id, signed, d, now).0.rows)
  {
    hide LastAccepted, Spaced, Remembered;
    if signed && Current(s.rows, id, now) {
      if TimedOut(s.rows[id], now) {
        ValidateIsSafe(s, id, now);
      } else {
        var row := s.rows[id].(lastActiveAt := now, device := d);
        AcceptIsSafe(s, id, row, now);
        assert Refresh(s, id, signed, d, now).0.rows == s.rows[id := row];
      }
    }
  }

  lemma StepIsSafe(s: State, step: Step)
    requires Good(s)
    ensures Good(Apply(s, step)) && Evolves(s.rows, Apply(s, step).rows)
  {
    hide Good, Evolves, LastAccepted;
    Unchanged(s);
    match step.op
    case DoCreate(u, d) => CreateIsSafe(s, u, d, step.at);
    case DoValidate(id) => ValidateIsSafe(s, id, step.at);
    case DoRefresh(id, signed, d) => RefreshIsSafe(s, id, signed, d, step.at);
    case DoRevoke(id, u) => RevokingIsSafe(s, {id}); if id in s.rows { RevokeOneAsAll(s.rows, id); }
    case DoRevokeOthers(u, id) => RevokingIsSafe(s, ActiveOf(s.rows, u) - {id});
    case DoLogout(id) => RevokingIsSafe(s, {id}); if id in s.rows { RevokeOneAsAll(s.rows, id); }
    case DoClean => RevokingIsSafe(s, Expired(s.rows, step.at));
    case DoEnforce(u) => RevokingIsSafe(s, ActiveOf(s.rows, u));
  }

  lemma Unchanged(s: State)
    ensures Evolves(s.rows, s.rows) && s.(rows := s.rows) == s
  {
  }

  lemma {:induction false} RunIsGood(steps: seq<Step>)
    ensures Good(After(steps))
  {
    if steps != [] {
      RunIsGood(steps[..|steps| - 1]);
      StepIsSafe(After(steps[..|steps| - 1]), steps[|steps| - 1]);
    }
  }

  // ---------- what users and operators rely on ----------

  /** After every run a user has at most one active session. */
  lemma AtMostOneActive(steps: seq<Step>, userId: string)
    ensures |ActiveOf(After(steps).rows, userId)| <= MAX_CONCURRENT
  {
    RunIsGood(steps);
    var active := ActiveOf(After(steps).rows, userId);
    if active != {} {
      var i :| i in active;
      assert active == {i};
    }
  }

  /** Which validations succeed, in terms of the history: those of a session that exists, was
      not revoked, has not expired, and was last accepted at most 30 minutes ago. */
  lemma AcceptedExactly(steps: seq<Step>, id: nat, now: int)
    ensures var s := After(steps);
      Validate(s, id, now).1 <==>
        && id in s.rows && !s.rows[id].revoked && now <= s.rows[id].expiresAt
        && LastAccepted(s.log, id).Some? && now - LastAccepted(s.log, id).value <= TIMEOUT_MS
  {
    RunIsGood(steps);
  }

  /** Over any run no session row disappears, and a revoked session stays revoked. */
  lemma {:induction false} RevokedForever(steps: seq<Step>, i: nat)
    requires i <= |steps|
    ensures Evolves(After(steps[..i]).rows, After(steps).rows)
  {
    hide Evolves;
    var n := |steps| - 1;
    if i == |steps| {
      assert steps[..i] == steps;
      Unchanged(After(steps));
    } else {
      RevokedForever(steps[..n], i);
      assert steps[..n][..i] == steps[..i];
      RunIsGood(steps[..n]);
      StepIsSafe(After(steps[..n]), steps[n]);
      EvolvesTransitive(After(steps[..i]).rows, After(steps[..n]).rows, After(steps).rows);
    }
  }

  lemma EvolvesTransitive(a: Rows, b: Rows, c: Rows)
    requires Evolves(a, b) && Evolves(b, c)
    ensures Evolves(a, c)
  {
  }

  /** A step logs at most one acceptance, of a usable or a new session. */
  lemma LogGrows(s: State, step: Step)
    ensures var log := Apply(s, step).log;
      log == s.log || (|log| == |s.log| + 1 && log[..|s.log|] == s.log
                       && var id := log[|s.log|].id; id == s.next || (id in s.rows && Usable(s.rows[id])))
  {
  }

  /** The log grew only by acceptances of other sessions. */
  ghost predicate OthersOnly(before: seq<Acceptance>, after: seq<Acceptance>, id: nat) {
    before <= after && forall k :: |before| <= k < |after| ==> after[k].id != id
  }

  lemma StepSparesRevoked(s: State, step: Step, id: nat)
    requires Good(s) && id in s.rows && s.rows[id].revoked
    ensures OthersOnly(s.log, Apply(s, step).log, id)
  {
    hide Apply, Spaced, LastAccepted;
    LogGrows(s, step);
  }

  /** From the moment a session is revoked it is never accepted again. */
  lemma {:induction false} NoAcceptanceAfterRevocation(steps: seq<Step>, i: nat, id: nat)
    requires i <= |steps|
    requires id in After(steps[..i]).rows && After(steps[..i]).rows[id].revoked
    ensures OthersOnly(After(steps[..i]).log, After(steps).log, id)
  {
    hide Apply, Good;
    var n := |steps| - 1;
    if i == |steps| {
      assert steps[..i] == steps;
    } else {
      assert steps[..n][..i] == steps[..i];
      NoAcceptanceAfterRevocation(steps[..n], i, id);
      RevokedForever(steps[..n], i);
      RunIsGood(steps[..n]);
      StepSparesRevoked(After(steps[..n]), steps[n], id);
    }
  }

  /** Two successive acceptances of one session are never more than 30 minutes apart, and no
      acceptance is later than the session's expiry. */
  lemma AcceptancesAreSpaced(steps: seq<Step>, i: nat, j: nat)
    requires i < j < |After(steps).log|
    requires After(steps).log[i].id == After(steps).log[j].id
    requires forall k :: i < k < j ==> After(steps).log[k].id != After(steps).log[j].id
    ensures var s := After(steps);
      && s.log[j].at - s.log[i].at <= TIMEOUT_MS
      && s.log[j].id in s.rows && s.log[j].at <= s.rows[s.log[j].id].expiresAt
  {
    RunIsGood(steps);
    LastAcceptedIs(After(steps).log[..j], i);
  }

  lemma {:induction false} LastAcceptedIs(log: seq<Acceptance>, i: nat)
    requires i < |log| && forall k :: i < k < |log| ==> log[k].id != log[i].id
    ensures LastAccepted(log, log[i].id) == Some(log[i].at)
  {
    if i < |log| - 1 {
      LastAcceptedIs(log[..|log| - 1], i);
    }
  }

  // ---------- what ends a session, and what is stored of it ----------

  /** The session was last accepted more than 30 minutes before, and has not expired. */
  ghost predicate Overdue(s: State, id: nat, now: int)
    requires id in s.rows
  {
    && now <= s.rows[id].expiresAt
    && LastAccepted(s.log, id).Some? && now - LastAccepted(s.log, id).value > 30 * 60000
  }

  /** The steps that end a session: its logout, its revocation by its owner, the revocation of
      the owner's other sessions, a cleaning after its expiry, a validation or a signed refresh
      that comes too late, and a new session or the enforcement of the limit for its owner. */
  ghost predicate Ends(s: State, step: Step, id: nat)
    requires id in s.rows
  {
    var owner := s.rows[id].userId;
    match step.op
    case DoCreate(u, _) => u == owner
    case DoEnforce(u) => u == owner
    case DoLogout(i) => i == id
    case DoRevoke(i, u) => i == id && u == owner
    case DoRevokeOthers(u, i) => u == owner && i != id
    case DoClean => s.rows[id].expiresAt < step.at
    case DoValidate(i) => i == id && Overdue(s, id, step.at)
    case DoRefresh(i, signed, _) => i == id && signed && Overdue(s, id, step.at)
  }

  lemma StepEndsExactly(s: State, step: Step, id: nat)
    requires Good(s) && id in s.rows
    ensures var s' := Apply(s, step);
      id in s'.rows && (s'.rows[id].revoked <==> s.rows[id].revoked || Ends(s, step, id))
  {
    hide LastAccepted, Spaced, OneEach;
    if step.op.DoCreate? || step.op.DoEnforce? {
      var active := ActiveOf(s.rows, step.op.userId);
      assert id in active ==> |active| >= 1;
    }
  }

  ghost predicate EndedAt(steps: seq<Step>, i: nat, id: nat)
    requires i < |steps|
  {
    id in After(steps[..i]).rows && Ends(After(steps[..i]), steps[i], id)
  }

  /** A session is revoked exactly when some step of the run, after its creation, ended it. */
  lemma {:induction false} RevokedExactly(steps: seq<Step>, id: nat)
    requires id in After(steps).rows
    ensures After(steps).rows[id].revoked <==> exists i :: 0 <= i < |steps| && EndedAt(steps, i, id)
  {
    hide Apply, Good, Ends;
    var n := |steps| - 1;
    var past := steps[..n];
    assert forall i :: 0 <= i < n ==> past[..i] == steps[..i] && past[i] == steps[i];
    assert forall i :: 0 <= i < n ==> EndedAt(past, i, id) == EndedAt(steps, i, id);
    RunIsGood(past);
    if id in After(past).rows {
      RevokedExactly(past, id);
      StepEndsExactly(After(past), steps[n], id);
      assert EndedAt(steps, n, id) <==> Ends(After(past), steps[n], id);
    } else {
      NewIsNotRevoked(After(past), steps[n], id);
      forall i | 0 <= i < |steps|
        ensures !EndedAt(steps, i, id)
      {
        assert steps[..n] == past;
        RevokedForever(past, if i < n then i else n);
      }
    }
  }

  lemma NewIsNotRevoked(s: State, step: Step, id: nat)
    requires id !in s.rows && id in Apply(s, step).rows
    ensures !Apply(s, step).rows[id].revoked && step.op.DoCreate? && id == s.next
  {
  }

  /** After its logout a session passes no validation and no refresh. */
  lemma NothingAfterLogout(steps: seq<Step>, i: nat, id: nat, signed: bool, d: Device, now: int)
    requires i < |steps| && steps[i].op == DoLogout(id) && id in After(steps[..i]).rows
    ensures !Validate(After(steps), id, now).1 && !Refresh(After(steps), id, signed, d, now).1
  {
    hide Apply, After;
    RevokedForever(steps, i);
    assert EndedAt(steps, i, id);
    RevokedExactly(steps, id);
  }

  /** A user can revoke exactly the sessions that are the user's own; that ends them for good, and
      nothing else changes. */
  lemma RevocationExactly(s: State, id: nat, userId: string, i: nat)
    ensures var (s', ok) := Revoke(s, id, userId);
      && (ok <==> id in s.rows && s.rows[id].userId == userId)
      && (ok ==> s'.rows[id].revoked && !s'.rows[id].isActive)
      && (!ok ==> s' == s)
      && (i != id ==> Lookup(s'.rows, i) == Lookup(s.rows, i))
  {
  }

  /** A refresh succeeds exactly when the token is signed and a validation would succeed; it
      then does what the validation does, and records the device. */
  lemma RefreshExactly(s: State, id: nat, signed: bool, d: Device, now: int)
    ensures var (s', ok) := Refresh(s, id, signed, d, now);
      && (ok <==> signed && Validate(s, id, now).1)
      && (!signed ==> s' == s)
      && (signed ==> s'.log == Validate(s, id, now).0.log && s'.rows.Keys == s.rows.Keys)
      && (ok ==> s'.rows[id].device == d)
  {
  }

  /** A new session belongs to the user who opens it and lasts seven days. */
  lemma StoredOfNew(s: State, step: Step, id: nat)
    requires id !in s.rows && id in Apply(s, step).rows
    ensures var row, op := Apply(s, step).rows[id], step.op;
      && op.DoCreate? && id == s.next
      && row == Session(op.userId, step.at + 7 * 86400000, op.device, step.at, false, true)
  {
  }

  /** Later its owner and its expiry stay, and only its own successful refresh changes the device. */
  lemma StoredOfOld(s: State, step: Step, id: nat)
    requires Good(s) && id in s.rows
    ensures id in Apply(s, step).rows
    ensures var row, op := Apply(s, step).rows[id], step.op;
      && row.userId == s.rows[id].userId && row.expiresAt == s.rows[id].expiresAt
      && row.device == (if op.DoRefresh? && op.id == id && Refresh(s, id, op.signed, op.device, step.at).1
                        then op.device else s.rows[id].device)
  {
    assert s.next !in s.rows;
    StepIsSafe(s, step);
    hide Good;
    DeviceStays(s, step, id);
  }

  lemma DeviceStays(s: State, step: Step, id: nat)
    requires id in s.rows && s.next !in s.rows && id in Apply(s, step).rows
    ensures Apply(s, step).rows[id].device
            == (if step.op.DoRefresh? && step.op.id == id && Refresh(s, id, step.op.signed, step.op.device, step.at).1
                then step.op.device else s.rows[id].device)
  {
    hide TimedOut, Current;
  }

  // ---------- the service ----------

  class SessionService {
    var rows: Rows
    var next: nat
    ghost var log: seq<Acceptance>

    constructor ()
      ensures Now() == START
    {
      rows, next, log := map[], 0, [];
    }

    ghost function Now(): State
      reads this
    {
      State(rows, next, log)
    }

    method CreateSession(userId: string, d: Device, now: int) returns (id: nat)
      modifies this
      ensures id == old(next) && Now() == Create(old(Now()), userId, d, now)
    {
      EnforceLeavesNone(rows, userId, d);
      EnforceConcurrentSessions(userId);
      var existing := FindExistingDeviceSession(userId, d);
      if existing.Some? {
        // The source removes the session here; enforcement has just revoked every candidate.
        assert false;
      }
      id := next;
      rows := rows[id := Session(userId, now + VALIDITY_MS, d, now, false, true)];
      next := next + 1;
      log := log + [Acceptance(id, now)];
    }

    method FindExistingDeviceSession(userId: string, d: Device) returns (found: Option<nat>)
      ensures found.Some? ==> found.value in OnDevice(rows, userId, d)
      ensures found.None? ==> OnDevice(rows, userId, d) == {}
    {
      var candidates := OnDevice(rows, userId, d);
      if candidates == {} { return None; }
      var id :| id in candidates;
      found := Some(id);
    }

    /** At the limit, every active session of the user is revoked, one row after the other. */
    method EnforceConcurrentSessions(userId: string)
      modifies this`rows
      ensures rows == Enforce(old(rows), userId)
    {
      var active := ActiveOf(rows, userId);
      if |active| >= MAX_CONCURRENT {
        var pending := active;
        while pending != {}
          invariant pending <= active && rows == RevokeAll(old(rows), active - pending)
          decreases |pending|
        {
          var id :| id in pending;
          rows := rows[id := rows[id].(revoked := true, isActive := false)];
          pending := pending - {id};
        }
      }
    }

    method ValidateSession(id: nat, now: int) returns (ok: bool)
      modifies this
      ensures (Now(), ok) == Validate(old(Now()), id, now)
    {
      if id !in rows || !Usable(rows[id]) || now > rows[id].expiresAt {
        return false;
      }
      if now - rows[id].lastActiveAt > TIMEOUT_MS {
        rows := rows[id := rows[id].(revoked := true, isActive := false)];
        return false;
      }
      rows := rows[id := rows[id].(lastActiveAt := now)];
      log := log + [Acceptance(id, now)];
      ok := true;
    }

    /** `signed` is the verdict on the token's signature. */
    method RefreshToken(id: nat, signed: bool, d: Device, now: int) returns (ok: bool)
      modifies this
      ensures (Now(), ok) == Refresh(old(Now()), id, signed, d, now)
    {
      if !signed || id !in rows || !Usable(rows[id]) || now > rows[id].expiresAt {
        return false;
      }
      ok := ValidateSession(id, now);
      if ok {
        rows := rows[id := rows[id].(lastActiveAt := now, device := d)];
      }
    }

    method RevokeSession(id: nat, userId: string) returns (ok: bool)
      modifies this
      ensures (Now(), ok) == Revoke(old(Now()), id, userId)
    {
      if id !in rows || rows[id].userId != userId {
        return false;
      }
      rows := rows[id := rows[id].(isActive := false, revoked := true)];
      ok := true;
    }

    method RevokeAllOtherSessions(userId: string, current: nat)
      modifies this
      ensures Now() == RevokeOthers(old(Now()), userId, current)
    {
      rows := map id | id in rows :: if rows[id].userId == userId && Usable(rows[id]) && id != current
                                     then rows[id].(isActive := false, revoked := true) else rows[id];
    }

    method LogoutSession(id: nat)
      modifies this
      ensures Now() == Logout(old(Now()), id)
    {
      if id in rows {
        rows := rows[id := rows[id].(isActive := false, revoked := true)];
      }
    }

    method CleanExpiredSessions(now: int)
      modifies this
      ensures Now() == Clean(old(Now()), now)
    {
      rows := map id | id in rows :: if rows[id].expiresAt < now && rows[id].isActive
                                     then rows[id].(isActive := false, revoked := true) else rows[id];
    }
  }
}
