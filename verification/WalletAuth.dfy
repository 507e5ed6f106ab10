/** Wallet login by signed nonces, src/auth/services/wallet-auth.service.ts. Redis entries
    expire; whether a signature is valid is an input. The log is what really happened. */
module WalletAuth {
  import opened Basics

  const NONCE_MS := 5 * 60000
  const RATE_MS := 15 * 60000
  const BLACKLIST_MS := 24 * 3600000
  const MAX_ATTEMPTS := 3

  /** Issued nonces are hexadecimal; all that matters here is that they contain no colon. */
  type Nonce = s: string | ':' !in s witness ""

  /** A nonce issued to an address. */
  datatype Ticket = Ticket(address: string, nonce: Nonce)

  /** What the keys of the nonce table and of the blacklist have in common. Addresses are not
      checked, so a request can name the key of another address and nonce. */
  function KeyOf(address: string, nonce: string): string {
    address + ":" + nonce
  }

  function TicketKey(t: Ticket): string {
    KeyOf(t.address, t.nonce)
  }

  /** The entry holds the nonce once more. */
  datatype Stored = Stored(nonce: Nonce, expiresAt: int)

  datatype Attempts = Attempts(count: nat, lastAttempt: int)

  datatype Event = Issued(ticket: Ticket, at: int) | LoggedIn(ticket: Ticket, at: int)

  datatype State = State(rates: map<string, (Attempts, int)>, nonces: map<string, Stored>,
                         blacklist: map<string, int>, log: seq<Event>)

  const START := State(map[], map[], map[], [])

  predicate Blacklisted(s: State, key: string, now: int) {
    key in s.blacklist && now < s.blacklist[key]
  }

  predicate Available(s: State, key: string, now: int) {
    key in s.nonces && now < s.nonces[key].expiresAt
  }

  /** The attempts on record: none after expiry, and none after 15 quiet minutes. */
  function AttemptsOf(s: State, address: string, now: int): Attempts {
    var stored := if address in s.rates && now < s.rates[address].1 then s.rates[address].0 else Attempts(0, 0);
    if now - stored.lastAttempt > RATE_MS then Attempts(0, 0) else stored
  }

  /** The nonce is chosen by the caller of the model, at random in the source. */
  function Generate(s: State, t: Ticket, now: int): (State, bool) {
    var attempts := AttemptsOf(s, t.address, now);
    if attempts.count >= MAX_ATTEMPTS then (s, false)
    else
      (State(s.rates[t.address := (Attempts(attempts.count + 1, now), now + RATE_MS)],
             s.nonces[TicketKey(t) := Stored(t.nonce, now + NONCE_MS)], s.blacklist, s.log + [Issued(t, now)]), true)
  }

  datatype Signature = Valid | Invalid | ProviderError
  datatype Verdict = Accepted | Rejected | NonceReused | NonceUnknown | NonceMismatch

  function Verify(s: State, address: string, nonce: string, signature: Signature, now: int): (State, Verdict) {
    var key := KeyOf(address, nonce);
    if Blacklisted(s, key, now) then (s, NonceReused)
    else if !Available(s, key, now) then (s, NonceUnknown)
    else if s.nonces[key].nonce != nonce then (s, NonceMismatch)
    else if signature != Valid then (s, Rejected)
    else (State(s.rates - {address}, s.nonces - {key}, s.blacklist[key := now + BLACKLIST_MS],
                s.log + [LoggedIn(Ticket(address, nonce), now)]), Accepted)
  }

  datatype Op = DoGenerate(t: Ticket) | DoVerify(address: string, nonce: string, signature: Signature)
  datatype Step = Step(at: int, op: Op)

  function Apply(s: State, step: Step): State {
    match step.op
    case DoGenerate(t) => Generate(s, t, step.at).0
    case DoVerify(address, nonce, signature) => Verify(s, address, nonce, signature, step.at).0
  }

  function After(steps: seq<Step>): State {
    if steps == [] then START else Apply(After(steps[..|steps| - 1]), steps[|steps| - 1])
  }

  ghost predicate Ordered(steps: seq<Step>) {
    && (forall i :: 0 <= i < |steps| ==> steps[i].at >= 0)
    && (forall i, j :: 0 <= i < j < |steps| ==> steps[i].at <= steps[j].at)
  }

  // ---------- the log decides everything ----------

  /** When the ticket was last issued, unless it has been used for a login since. */
  function Outstanding(log: seq<Event>, t: Ticket): Option<int> {
    if log == [] then None
    else
      var e := log[|log| - 1];
      if e.ticket != t then Outstanding(log[..|log| - 1], t)
      else if e.Issued? then Some(e.at) else None
  }

  function LastLogin(log: seq<Event>, t: Ticket): Option<int> {
    if log == [] then None
    else
      var e := log[|log| - 1];
      if e == LoggedIn(t, e.at) then Some(e.at) else LastLogin(log[..|log| - 1], t)
  }

  /** The current series of nonces for an address: each issued less than 15 minutes after the
      one before, with no login since; and the time of its last nonce. */
  function Series(log: seq<Event>, address: string): Attempts {
    if log == [] then Attempts(0, 0)
    else
      var e, before := log[|log| - 1], Series(log[..|log| - 1], address);
      if e.ticket.address != address then before
      else if e.LoggedIn? then Attempts(0, 0)
      else if before.count > 0 && e.at - before.lastAttempt < RATE_MS then Attempts(before.count + 1, e.at)
      else Attempts(1, e.at)
  }

  ghost predicate RatesMatch(s: State) {
    forall a ::
      if a in s.rates then s.rates[a].0 == Series(s.log, a) && s.rates[a].0.count > 0
                           && s.rates[a].1 == s.rates[a].0.lastAttempt + RATE_MS && s.rates[a].0.lastAttempt >= 0
      else Series(s.log, a).count == 0
  }

  ghost predicate NoncesMatch(s: State) {
    forall t :: Outstanding(s.log, t) ==
      if Holds(s.nonces, t) then Some(s.nonces[TicketKey(t)].expiresAt - NONCE_MS) else None
  }

  predicate Holds(nonces: map<string, Stored>, t: Ticket) {
    TicketKey(t) in nonces && nonces[TicketKey(t)].nonce == t.nonce
  }

  /** Every entry of the nonce table sits under the key of some ticket with its nonce, and every
      entry of the blacklist under the key of some ticket. */
  ghost predicate KeysFit(s: State) {
    && (forall k :: k in s.nonces ==> EndsWith(k, ":" + s.nonces[k].nonce))
    && (forall k :: k in s.blacklist ==> exists t: Ticket :: TicketKey(t) == k)
  }

  predicate EndsWith(k: string, end: string) {
    |end| <= |k| && k[|k| - |end|..] == end
  }

  ghost predicate BlacklistMatches(s: State) {
    forall t :: LastLogin(s.log, t) ==
      if TicketKey(t) in s.blacklist then Some(s.blacklist[TicketKey(t)] - BLACKLIST_MS) else None
  }

  ghost predicate Faithful(s: State) {
    RatesMatch(s) && NoncesMatch(s) && KeysFit(s) && BlacklistMatches(s)
  }

  /** The last colon of a key separates address and nonce, so tickets have keys of their own. */
  lemma KeysAreDistinct(t: Ticket, u: Ticket)
    requires TicketKey(t) == TicketKey(u)
    ensures t == u
  {
    if |t.nonce| < |u.nonce| {
      LongerHasNoColon(t, u);
    } else if |u.nonce| < |t.nonce| {
      LongerHasNoColon(u, t);
    } else {
      SplitsAt(t);
      SplitsAt(u);
    }
  }

  lemma SplitsAt(t: Ticket)
    ensures var key, n := TicketKey(t), |t.address|;
      |key| == n + 1 + |t.nonce| && key[..n] == t.address && key[n] == ':' && key[n + 1..] == t.nonce
  {
  }

  lemma LongerHasNoColon(t: Ticket, u: Ticket)
    requires |t.nonce| < |u.nonce| && |TicketKey(t)| == |TicketKey(u)|
    ensures TicketKey(t)[|t.address|] == ':' != TicketKey(u)[|t.address|]
  {
    SplitsAt(t);
    SplitsAt(u);
    assert TicketKey(u)[|t.address|] == u.nonce[|t.address| - |u.address| - 1];
  }

  lemma LogAppend(log: seq<Event>, e: Event)
    ensures (log + [e])[..|log|] == log
  {
  }

  lemma EventKeepsRates(s: State, s': State, e: Event)
    requires RatesMatch(s) && e.at >= 0 && s'.log == s.log + [e]
    requires s'.rates == if e.LoggedIn? then s.rates - {e.ticket.address}
                         else s.rates[e.ticket.address := (Series(s'.log, e.ticket.address), e.at + RATE_MS)]
    ensures RatesMatch(s')
  {
    LogAppend(s.log, e);
  }

  lemma KeyIsOwn(t: Ticket)
    ensures forall u: Ticket :: TicketKey(u) == TicketKey(t) ==> u == t
  {
    hide TicketKey;
    forall u: Ticket | TicketKey(u) == TicketKey(t)
      ensures u == t
    {
      KeysAreDistinct(u, t);
    }
  }

  function NoncesAfter(nonces: map<string, Stored>, e: Event): map<string, Stored> {
    if e.LoggedIn? then nonces - {TicketKey(e.ticket)}
    else nonces[TicketKey(e.ticket) := Stored(e.ticket.nonce, e.at + NONCE_MS)]
  }

  lemma EventKeepsNonces(s: State, s': State, e: Event)
    requires NoncesMatch(s) && s'.log == s.log + [e] && s'.nonces == NoncesAfter(s.nonces, e)
    ensures NoncesMatch(s')
  {
    hide TicketKey;
    LogAppend(s.log, e);
    KeyIsOwn(e.ticket);
  }

  lemma EventKeepsKeys(s: State, s': State, e: Event)
    requires KeysFit(s) && s'.nonces == NoncesAfter(s.nonces, e)
    requires s'.blacklist.Keys <= s.blacklist.Keys + {TicketKey(e.ticket)}
    ensures KeysFit(s')
  {
    SplitsAt(e.ticket);
  }

  lemma EventKeepsBlacklist(s: State, s': State, e: Event)
    requires BlacklistMatches(s) && s'.log == s.log + [e]
    requires s'.blacklist == if e.LoggedIn? then s.blacklist[TicketKey(e.ticket) := e.at + BLACKLIST_MS]
                             else s.blacklist
    ensures BlacklistMatches(s')
  {
    hide TicketKey;
    LogAppend(s.log, e);
    KeyIsOwn(e.ticket);
  }

  lemma EventKeepsTables(s: State, s': State, e: Event)
    requires NoncesMatch(s) && KeysFit(s) && BlacklistMatches(s)
    requires s'.log == s.log + [e] && s'.nonces == NoncesAfter(s.nonces, e)
    requires s'.blacklist == if e.LoggedIn? then s.blacklist[TicketKey(e.ticket) := e.at + BLACKLIST_MS]
                             else s.blacklist
    ensures NoncesMatch(s') && KeysFit(s') && BlacklistMatches(s')
  {
    hide NoncesMatch, KeysFit, BlacklistMatches, NoncesAfter;
    EventKeepsNonces(s, s', e);
    EventKeepsKeys(s, s', e);
    EventKeepsBlacklist(s, s', e);
  }

  lemma GenerateIsFaithful(s: State, t: Ticket, now: int)
    requires Faithful(s) && now >= 0
    ensures Faithful(Generate(s, t, now).0)
  {
    hide NoncesMatch, KeysFit, BlacklistMatches, TicketKey, Outstanding, LastLogin;
    var (s', issued) := Generate(s, t, now);
    if issued {
      LogAppend(s.log, Issued(t, now));
      EventKeepsRates(s, s', Issued(t, now));
      EventKeepsTables(s, s', Issued(t, now));
    }
  }

  lemma VerifyIsFaithful(s: State, address: string, nonce: string, signature: Signature, now: int)
    requires Faithful(s) && now >= 0
    ensures Faithful(Verify(s, address, nonce, signature, now).0)
  {
    hide RatesMatch, NoncesMatch, KeysFit, BlacklistMatches, Series;
    var (s', verdict) := Verify(s, address, nonce, signature, now);
    if verdict == Accepted {
      EventKeepsRates(s, s', LoggedIn(Ticket(address, nonce), now));
      EventKeepsTables(s, s', LoggedIn(Ticket(address, nonce), now));
    }
  }

  /** In every run the three Redis tables are functions of the log. */
  lemma {:induction false} TablesFollowLog(steps: seq<Step>)
    requires Ordered(steps)
    ensures Faithful(After(steps))
  {
    hide Faithful;
    if steps == [] {
      StartIsFaithful();
    } else {
      var n := |steps| - 1;
      TablesFollowLog(steps[..n]);
      match steps[n].op
      case DoGenerate(t) => GenerateIsFaithful(After(steps[..n]), t, steps[n].at);
      case DoVerify(address, nonce, signature) =>
        VerifyIsFaithful(After(steps[..n]), address, nonce, signature, steps[n].at);
    }
  }

  lemma StartIsFaithful()
    ensures Faithful(START)
  {
  }

  /** A nonce is refused exactly when three have been issued in the current series and the last
      of them less than 15 minutes ago. */
  lemma GenerateExactly(steps: seq<Step>, t: Ticket, now: int)
    requires Ordered(steps) && now >= 0
    ensures var series := Series(After(steps).log, t.address);
      Generate(After(steps), t, now).1 <==> series.count < MAX_ATTEMPTS || now - series.lastAttempt >= RATE_MS
  {
    TablesFollowLog(steps);
  }

  /** What a login needs besides the signature: the nonce was issued to the address less than
      5 minutes ago, has not been used since, and was not used at all in the last 24 hours. */
  predicate Usable(log: seq<Event>, t: Ticket, now: int) {
    && Outstanding(log, t).Some? && now - Outstanding(log, t).value < NONCE_MS
    && (LastLogin(log, t).Some? ==> now - LastLogin(log, t).value >= BLACKLIST_MS)
  }

  /** A login succeeds exactly with a valid signature on a usable nonce, whatever strings the
      request names. */
  lemma VerifyExactly(steps: seq<Step>, address: string, nonce: string, signature: Signature, now: int)
    requires Ordered(steps)
    ensures Verify(After(steps), address, nonce, signature, now).1 == Accepted <==>
      signature == Valid && ':' !in nonce && Usable(After(steps).log, Ticket(address, nonce), now)
  {
    TablesFollowLog(steps);
    if ':' !in nonce {
      assert TicketKey(Ticket(address, nonce)) == KeyOf(address, nonce);
    }
  }

  /** Why a login fails, whatever strings the request names: the nonce under its key was used less
      than 24 hours ago; it was not, but none issued less than 5 minutes ago is left there; or it
      is usable by this very request and only the signature is wrong. */
  lemma FailuresExactly(steps: seq<Step>, address: string, nonce: string, signature: Signature, now: int)
    requires Ordered(steps)
    ensures var log, key := After(steps).log, KeyOf(address, nonce);
      var verdict := Verify(After(steps), address, nonce, signature, now).1;
      && (verdict == NonceReused <==>
            exists t: Ticket ::
              TicketKey(t) == key && LastLogin(log, t).Some? && now - LastLogin(log, t).value < BLACKLIST_MS)
      && (verdict == NonceUnknown <==>
            forall t: Ticket :: TicketKey(t) == key ==>
              && (Outstanding(log, t).Some? ==> now - Outstanding(log, t).value >= NONCE_MS)
              && (LastLogin(log, t).Some? ==> now - LastLogin(log, t).value >= BLACKLIST_MS))
      && (verdict == Rejected <==> signature != Valid && ':' !in nonce && Usable(log, Ticket(address, nonce), now))
  {
    hide KeyOf;
    TablesFollowLog(steps);
    var s, key := After(steps), KeyOf(address, nonce);
    if Available(s, key, now) {
      StoredTicket(s, key);
    }
    if ':' !in nonce {
      assert TicketKey(Ticket(address, nonce)) == key;
    }
  }

  lemma StoredTicket(s: State, key: string)
    requires KeysFit(s) && key in s.nonces
    ensures exists t: Ticket :: TicketKey(t) == key && Holds(s.nonces, t)
  {
    var stored := s.nonces[key].nonce;
    KeyRebuilt(key, stored);
    assert TicketKey(Ticket(key[..|key| - |stored| - 1], stored)) == key;
  }

  /** The stored nonce is a different one exactly when the request moves part of a usable nonce's
      address into the nonce: the keys of the two are the same. */
  lemma MismatchExactly(steps: seq<Step>, address: string, nonce: string, signature: Signature, now: int)
    requires Ordered(steps)
    ensures Verify(After(steps), address, nonce, signature, now).1 == NonceMismatch <==>
      exists t: Ticket :: TicketKey(t) == KeyOf(address, nonce) && t.nonce != nonce && Usable(After(steps).log, t, now)
  {
    hide KeyOf;
    TablesFollowLog(steps);
    var s, key := After(steps), KeyOf(address, nonce);
    if Verify(s, address, nonce, signature, now).1 == NonceMismatch {
      var stored := s.nonces[key].nonce;
      var t := Ticket(key[..|key| - |stored| - 1], stored);
      KeyRebuilt(key, stored);
      assert TicketKey(t) == key && Usable(s.log, t, now);
    }
  }

  lemma KeyRebuilt(key: string, nonce: string)
    requires EndsWith(key, ":" + nonce)
    ensures KeyOf(key[..|key| - |nonce| - 1], nonce) == key
  {
    assert key == key[..|key| - |nonce| - 1] + key[|key| - |nonce| - 1..];
  }

  // ---------- logins against nonces ----------

  /** Event i issued the ticket that login k used up, and no login used it in between. */
  ghost predicate PaidBy(log: seq<Event>, i: nat, k: nat)
    requires i < |log| && k < |log|
  {
    && i < k && log[k].LoggedIn? && log[i] == Issued(log[k].ticket, log[i].at)
    && log[k].at - log[i].at < NONCE_MS
    && forall j :: i < j < k && log[j].ticket == log[k].ticket ==> !log[j].LoggedIn?
  }

  /** Every login is preceded by its own issue of the same nonce to the same address, less than
      5 minutes earlier; and two logins with one nonce are at least 24 hours apart. */
  ghost predicate Accounted(log: seq<Event>) {
    && (forall k :: 0 <= k < |log| && log[k].LoggedIn? ==> exists i :: 0 <= i < |log| && PaidBy(log, i, k))
    && (forall j, k :: 0 <= j < k < |log| && log[j].LoggedIn? && log[k].LoggedIn? && log[j].ticket == log[k].ticket
          ==> log[k].at - log[j].at >= BLACKLIST_MS)
  }

  lemma {:induction false} OutstandingAt(log: seq<Event>, t: Ticket) returns (i: nat)
    requires Outstanding(log, t).Some?
    ensures i < |log| && log[i] == Issued(t, Outstanding(log, t).value)
    ensures forall j :: i < j < |log| && log[j].ticket == t ==> !log[j].LoggedIn?
  {
    i := |log| - 1;
    if log[i].ticket != t {
      i := OutstandingAt(log[..i], t);
    }
  }

  lemma {:induction false} LoginsBefore(log: seq<Event>, t: Ticket, now: int)
    requires forall i, j :: 0 <= i < j < |log| ==> log[i].at <= log[j].at
    requires LastLogin(log, t).Some? ==> now - LastLogin(log, t).value >= BLACKLIST_MS
    ensures forall j :: 0 <= j < |log| && log[j].LoggedIn? && log[j].ticket == t ==> now - log[j].at >= BLACKLIST_MS
  {
    if log != [] {
      var n := |log| - 1;
      if log[n] == LoggedIn(t, log[n].at) {
      } else {
        LoginsBefore(log[..n], t, now);
      }
    }
  }

  ghost predicate LogOrdered(log: seq<Event>, now: int) {
    && (forall i :: 0 <= i < |log| ==> log[i].at <= now)
    && (forall i, j :: 0 <= i < j < |log| ==> log[i].at <= log[j].at)
  }

  /** A step logs at most one event, at its own time, and issues only below the limit. */
  lemma StepLogs(s: State, step: Step)
    ensures var log := Apply(s, step).log;
      log == s.log
      || (|log| == |s.log| + 1 && log[..|s.log|] == s.log && log[|s.log|].at == step.at
          && (log[|s.log|].Issued? ==> step.op.DoGenerate? && Generate(s, step.op.t, step.at).1
                                       && log[|s.log|] == Issued(step.op.t, step.at)))
  {
  }

  lemma {:induction false} LogIsOrdered(steps: seq<Step>, now: int)
    requires Ordered(steps) && forall i :: 0 <= i < |steps| ==> steps[i].at <= now
    ensures LogOrdered(After(steps).log, now)
  {
    hide Apply, Generate;
    if steps != [] {
      var n := |steps| - 1;
      LogIsOrdered(steps[..n], steps[n].at);
      StepLogs(After(steps[..n]), steps[n]);
      var before, log := After(steps[..n]).log, After(steps).log;
      assert forall i :: 0 <= i < |before| ==> log[..|before|][i] == log[i] == before[i];
    }
  }

  /** Payments are not touched by later events. */
  lemma PaymentsStay(log: seq<Event>, e: Event)
    requires Accounted(log)
    ensures var more := log + [e];
      forall k :: 0 <= k < |log| && more[k].LoggedIn? ==> exists i :: 0 <= i < |more| && PaidBy(more, i, k)
  {
    var more := log + [e];
    forall k | 0 <= k < |log| && more[k].LoggedIn?
      ensures exists i :: 0 <= i < |more| && PaidBy(more, i, k)
    {
      assert log[k].LoggedIn?;
      var i :| 0 <= i < |log| && PaidBy(log, i, k);
      PaymentStays(log, e, i, k);
    }
  }

  lemma PaymentStays(log: seq<Event>, e: Event, i: nat, k: nat)
    requires i < |log| && k < |log| && PaidBy(log, i, k)
    ensures PaidBy(log + [e], i, k)
  {
  }

  lemma LoginIsAccounted(log: seq<Event>, t: Ticket, now: int)
    requires Accounted(log) && LogOrdered(log, now)
    requires Outstanding(log, t).Some? && now - Outstanding(log, t).value < NONCE_MS
    requires LastLogin(log, t).Some? ==> now - LastLogin(log, t).value >= BLACKLIST_MS
    ensures Accounted(log + [LoggedIn(t, now)])
  {
    hide Outstanding, LastLogin;
    var more, n := log + [LoggedIn(t, now)], |log|;
    var i := OutstandingAt(log, t);
    LoginsBefore(log, t, now);
    PaymentsStay(log, LoggedIn(t, now));
    assert PaidBy(more, i, n) by {
      assert forall j :: 0 <= j < n ==> more[j] == log[j];
    }
    hide PaidBy;
    assert forall j :: 0 <= j < n ==> more[j] == log[j];
  }

  lemma IssueIsAccounted(log: seq<Event>, t: Ticket, now: int)
    requires Accounted(log)
    ensures Accounted(log + [Issued(t, now)])
  {
    PaymentsStay(log, Issued(t, now));
  }

  lemma {:induction false} LoginsAreAccounted(steps: seq<Step>)
    requires Ordered(steps)
    ensures Accounted(After(steps).log)
  {
    hide Accounted, LogOrdered, Outstanding, LastLogin;
    if steps == [] {
      NothingToAccount();
    } else {
      var n := |steps| - 1;
      var s, now := After(steps[..n]), steps[n].at;
      LoginsAreAccounted(steps[..n]);
      LogIsOrdered(steps[..n], now);
      match steps[n].op
      case DoGenerate(t) => IssueIsAccounted(s.log, t, now);
      case DoVerify(address, nonce, signature) =>
        VerifyExactly(steps[..n], address, nonce, signature, now);
        if Verify(s, address, nonce, signature, now).1 == Accepted {
          LoginIsAccounted(s.log, Ticket(address, nonce), now);
        }
    }
  }

  lemma NothingToAccount()
    ensures Accounted([])
  {
  }

  /** No two logins share the issue that paid for them. */
  lemma PaymentsAreInjective(log: seq<Event>, i: nat, k: nat, k': nat)
    requires i < |log| && k < |log| && k' < |log|
    requires PaidBy(log, i, k) && PaidBy(log, i, k')
    ensures k == k'
  {
  }

  /** With fresh nonces, as random 32-byte strings are, a nonce logs in at most once. */
  lemma FreshNonceLogsInOnce(steps: seq<Step>, k: nat, k': nat)
    requires Ordered(steps)
    requires var log := After(steps).log;
      && k < |log| && k' < |log|
      && (forall i, j :: 0 <= i < j < |log| && log[i].Issued? && log[j].Issued? ==> log[i].ticket != log[j].ticket)
      && log[k].LoggedIn? && log[k'].LoggedIn? && log[k].ticket == log[k'].ticket
    ensures k == k'
  {
    LoginsAreAccounted(steps);
    var log := After(steps).log;
    var i :| 0 <= i < |log| && PaidBy(log, i, k);
    var i' :| 0 <= i' < |log| && PaidBy(log, i', k');
    assert i == i';
    PaymentsAreInjective(log, i, k, k');
  }

  // ---------- the limit on nonces ----------

  /** Nonces issued to the address by the events lo..hi of the log. */
  function IssuedIn(log: seq<Event>, address: string, lo: nat, hi: nat): nat
    requires lo <= hi <= |log|
  {
    if lo == hi then 0
    else IssuedIn(log, address, lo, hi - 1)
         + (if log[hi - 1].Issued? && log[hi - 1].ticket.address == address then 1 else 0)
  }

  lemma SeriesStep(log: seq<Event>, address: string, m: nat)
    requires m < |log|
    ensures var e, before := log[m], Series(log[..m], address);
      Series(log[..m + 1], address) ==
        if e.ticket.address != address then before
        else if e.LoggedIn? then Attempts(0, 0)
        else if before.count > 0 && e.at - before.lastAttempt < RATE_MS then Attempts(before.count + 1, e.at)
        else Attempts(1, e.at)
  {
    assert log[..m + 1][..m] == log[..m];
  }

  /** Three is the longest series, at every moment of every run. */
  lemma {:induction false} SeriesAtMostMax(steps: seq<Step>, address: string, m: nat)
    requires Ordered(steps) && m <= |After(steps).log|
    ensures Series(After(steps).log[..m], address).count <= MAX_ATTEMPTS
  {
    hide Series, Apply, Generate;
    if steps == [] {
      NoSeries(address);
    } else {
      var n := |steps| - 1;
      var before, after := After(steps[..n]), After(steps);
      StepLogs(before, steps[n]);
      if m <= |before.log| {
        SeriesAtMostMax(steps[..n], address, m);
        assert after.log[..m] == before.log[..m];
      } else {
        SeriesAtMostMax(steps[..n], address, m - 1);
        assert m - 1 == |before.log| && after.log[..m - 1] == before.log == before.log[..m - 1];
        assert after.log[..m] == after.log;
        SeriesStep(after.log, address, m - 1);
        if steps[n].op.DoGenerate? {
          GenerateExactly(steps[..n], steps[n].op.t, steps[n].at);
        }
      }
    }
  }

  lemma NoSeries(address: string)
    ensures Series([], address) == Attempts(0, 0)
  {
  }

  /** No login of the address in the events lo..hi, and its nonces there less than 15 minutes apart. */
  ghost predicate QuietWindow(log: seq<Event>, address: string, lo: nat, hi: nat)
    requires lo <= hi <= |log|
  {
    && (forall i :: lo <= i < hi && log[i].ticket.address == address ==> log[i].Issued?)
    && (forall i, j :: lo <= i < j < hi && log[i].ticket.address == address && log[j].ticket.address == address
          ==> log[j].at - log[i].at < RATE_MS)
  }

  lemma {:induction false} WindowIsOneSeries(log: seq<Event>, address: string, lo: nat, hi: nat)
    requires lo <= hi <= |log| && QuietWindow(log, address, lo, hi)
    ensures IssuedIn(log, address, lo, hi) > 0 ==>
      var series := Series(log[..hi], address);
      && series.count >= IssuedIn(log, address, lo, hi)
      && exists i :: lo <= i < hi && log[i].ticket.address == address && log[i].at == series.lastAttempt
  {
    if lo < hi {
      WindowIsOneSeries(log, address, lo, hi - 1);
      SeriesStep(log, address, hi - 1);
      var e := log[hi - 1];
      if e.ticket.address == address {
        assert log[hi - 1].at == e.at;
      }
    }
  }

  /** With no login in between, at most 3 nonces are issued to an address within any 15 minutes. */
  lemma AtMostThreeNonces(steps: seq<Step>, address: string, lo: nat, hi: nat)
    requires Ordered(steps) && lo <= hi <= |After(steps).log|
    requires QuietWindow(After(steps).log, address, lo, hi)
    ensures IssuedIn(After(steps).log, address, lo, hi) <= MAX_ATTEMPTS
  {
    WindowIsOneSeries(After(steps).log, address, lo, hi);
    SeriesAtMostMax(steps, address, hi);
  }

  lemma {:induction false} IssuedSplits(log: seq<Event>, address: string, lo: nat, mid: nat, hi: nat)
    requires lo <= mid <= hi <= |log|
    ensures IssuedIn(log, address, lo, hi) == IssuedIn(log, address, lo, mid) + IssuedIn(log, address, mid, hi)
  {
    if mid < hi {
      IssuedSplits(log, address, lo, mid, hi - 1);
    }
  }

  /** Only the nonces since a login count. */
  lemma {:induction false} SeriesSinceLogin(log: seq<Event>, address: string, j: nat, hi: nat)
    requires j < hi <= |log| && log[j].LoggedIn? && log[j].ticket.address == address
    ensures Series(log[..hi], address).count <= IssuedIn(log, address, j + 1, hi)
  {
    SeriesStep(log, address, hi - 1);
    if j < hi - 1 {
      SeriesSinceLogin(log, address, j, hi - 1);
    }
  }

  /** The limit of 3 nonces per 15 minutes fails exactly across a login: when three nonces of the
      address have been issued within the last 15 minutes, a fourth is issued if and only if the
      address has logged in since the first of them. */
  lemma FourthNonceExactly(steps: seq<Step>, lo: nat, t: Ticket, now: int)
    requires Ordered(steps) && forall i :: 0 <= i < |steps| ==> steps[i].at <= now
    requires var log := After(steps).log;
      && lo < |log| && log[lo].Issued? && log[lo].ticket.address == t.address
      && now >= 0 && now - log[lo].at < RATE_MS
      && IssuedIn(log, t.address, lo, |log|) == MAX_ATTEMPTS
    ensures var log := After(steps).log;
      Generate(After(steps), t, now).1
      <==> exists j :: lo < j < |log| && log[j].LoggedIn? && log[j].ticket.address == t.address
  {
    hide Series, IssuedIn, After, Generate;
    var log, a := After(steps).log, t.address;
    assert log[..|log|] == log;
    GenerateExactly(steps, t, now);
    LogIsOrdered(steps, now);
    if exists j :: lo < j < |log| && log[j].LoggedIn? && log[j].ticket.address == a {
      var j :| lo < j < |log| && log[j].LoggedIn? && log[j].ticket.address == a;
      SeriesSinceLogin(log, a, j, |log|);
      IssuedSplits(log, a, lo, j + 1, |log|);
      IssuedSplits(log, a, lo, lo + 1, j + 1);
      FirstIsIssued(log, a, lo);
    } else {
      assert QuietWindow(log, a, lo, |log|);
      WindowIsOneSeries(log, a, lo, |log|);
    }
  }

  lemma FirstIsIssued(log: seq<Event>, address: string, lo: nat)
    requires lo < |log| && log[lo].Issued? && log[lo].ticket.address == address
    ensures IssuedIn(log, address, lo, lo + 1) == 1
  {
    assert IssuedIn(log, address, lo, lo) == 0;
  }

  /** One more nonce in the same millisecond, below the limit. */
  lemma NonceAtOnce(s: State, t: Ticket, k: nat)
    requires k < MAX_ATTEMPTS && s.rates == if k == 0 then map[] else map[t.address := (Attempts(k, 0), RATE_MS)]
    ensures Generate(s, t, 0) == (State(map[t.address := (Attempts(k + 1, 0), RATE_MS)],
                                        s.nonces[TicketKey(t) := Stored(t.nonce, NONCE_MS)],
                                        s.blacklist, s.log + [Issued(t, 0)]), true)
  {
    assert s.rates[t.address := (Attempts(k + 1, 0), RATE_MS)] == map[t.address := (Attempts(k + 1, 0), RATE_MS)];
  }

  /** A login does clear the count: three nonces, a login with the last of them, and a fourth
      nonce, all different and all in one millisecond. */
  lemma LoginClearsLimit(a: string, n: seq<Nonce>)
    requires |n| == 4
    ensures var t0, t1, t2, t3 := Ticket(a, n[0]), Ticket(a, n[1]), Ticket(a, n[2]), Ticket(a, n[3]);
      var steps := [Step(0, DoGenerate(t0)), Step(0, DoGenerate(t1)), Step(0, DoGenerate(t2)),
                    Step(0, DoVerify(a, n[2], Valid)), Step(0, DoGenerate(t3))];
      && Ordered(steps)
      && After(steps).log == [Issued(t0, 0), Issued(t1, 0), Issued(t2, 0), LoggedIn(t2, 0), Issued(t3, 0)]
  {
    hide Generate, TicketKey;
    var t0, t1, t2, t3 := Ticket(a, n[0]), Ticket(a, n[1]), Ticket(a, n[2]), Ticket(a, n[3]);
    var three := [Step(0, DoGenerate(t0)), Step(0, DoGenerate(t1)), Step(0, DoGenerate(t2))];
    var login, fourth := Step(0, DoVerify(a, n[2], Valid)), Step(0, DoGenerate(t3));
    NonceAtOnce(START, t0, 0);
    AfterAppend([], three[0]);
    NonceAtOnce(After([] + [three[0]]), t1, 1);
    AfterAppend([] + [three[0]], three[1]);
    NonceAtOnce(After([] + [three[0]] + [three[1]]), t2, 2);
    AfterAppend([] + [three[0]] + [three[1]], three[2]);
    assert [] + [three[0]] + [three[1]] + [three[2]] == three;
    AfterAppend(three, login);
    LoginAtOnce(After(three), t2);
    NonceAtOnce(After(three + [login]), t3, 0);
    AfterAppend(three + [login], fourth);
    assert three + [login] + [fourth] == [three[0], three[1], three[2], login, fourth];
  }

  lemma LoginAtOnce(s: State, t: Ticket)
    requires s.blacklist == map[] && Holds(s.nonces, t) && s.nonces[TicketKey(t)].expiresAt > 0
    requires s.rates.Keys == {t.address}
    ensures Verify(s, t.address, t.nonce, Valid, 0).0.rates == map[]
    ensures Verify(s, t.address, t.nonce, Valid, 0).0.log == s.log + [LoggedIn(t, 0)]
  {
  }

  lemma AfterAppend(steps: seq<Step>, step: Step)
    ensures After(steps + [step]) == Apply(After(steps), step)
  {
    assert (steps + [step])[..|steps|] == steps;
  }

  // ---------- the service ----------

  class WalletAuthService {
    var rates: map<string, (Attempts, int)>
    var nonces: map<string, Stored>
    var blacklist: map<string, int>
    ghost var log: seq<Event>

    constructor ()
      ensures Current() == START
    {
      rates, nonces, blacklist, log := map[], map[], map[], [];
    }

    ghost function Current(): State
      reads this
    {
      State(rates, nonces, blacklist, log)
    }

    method GenerateNonce(t: Ticket, now: int) returns (issued: bool)
      modifies this
      ensures (Current(), issued) == Generate(old(Current()), t, now)
    {
      var attempts := Attempts(0, 0);
      if t.address in rates && now < rates[t.address].1 {
        attempts := rates[t.address].0;
      }
      if now - attempts.lastAttempt > RATE_MS {
        attempts := Attempts(0, 0);
      }
      if attempts.count >= MAX_ATTEMPTS {
        return false;
      }
      rates := rates[t.address := (Attempts(attempts.count + 1, now), now + RATE_MS)];
      nonces := nonces[TicketKey(t) := Stored(t.nonce, now + NONCE_MS)];
      log := log + [Issued(t, now)];
      issued := true;
    }

    method VerifySignature(address: string, nonce: string, signature: Signature, now: int) returns (verdict: Verdict)
      modifies this
      ensures (Current(), verdict) == Verify(old(Current()), address, nonce, signature, now)
    {
      var key := KeyOf(address, nonce);
      if key in blacklist && now < blacklist[key] {
        return NonceReused;
      }
      if key !in nonces || now >= nonces[key].expiresAt {
        return NonceUnknown;
      }
      if nonces[key].nonce != nonce {
        return NonceMismatch;
      }
      if signature != Valid {
        return Rejected;
      }
      blacklist := blacklist[key := now + BLACKLIST_MS];
      nonces := nonces - {key};
      rates := rates - {address};
      log := log + [LoggedIn(Ticket(address, nonce), now)];
      verdict := Accepted;
    }
  }
}
