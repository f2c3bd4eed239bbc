/**
 * The second factor of a login. Every Redis script, SQL statement and session creation is one step; the steps of any number
 * of concurrent calls interleave, and a call that crashes is one that takes no further step.
 */
module SecondFactorSpec {
  import opened Prelude

  datatype Token = Token(digest: string)

  datatype Id = Id(uuid: string)

  /** SHA-256 of a recovery code. */
  datatype CodeDigest = CodeDigest(hex: string)

  datatype Strength = PasswordRecovery | PasswordTotp

  datatype Credential = Recovery(digest: CodeDigest) | Totp(code: string)

  /** The counter whose one-time code this is, if any is near enough to the clock: authenticator, code, clock. */
  type CounterFor = (Id, string, int) -> Option<nat>

  // ---- the challenge in Redis ----

  datatype Record = Record(userId: Id, attempts: int, busy: bool)

  type Records = map<Token, Record>

  /** BEGIN_ATTEMPT_SCRIPT; a record whose time is up is already gone. */
  function BeginAttempt(records: Records, token: Token): (Records, Option<Id>) {
    if token !in records || records[token].busy || records[token].attempts <= 0 then (records, None)
    else
      var r := records[token];
      (records[token := Record(r.userId, r.attempts - 1, true)], Some(r.userId))
  }

  /** FINISH_ATTEMPT_SCRIPT. */
  function FinishAttempt(records: Records, token: Token, succeeded: bool): Records {
    if succeeded then records - {token}
    else if token !in records then records
    else if records[token].attempts <= 0 then records - {token}
    else records[token := records[token].(busy := false)]
  }

  // ---- the credentials in MySQL ----

  /** The row of one user; a user has at most one. */
  datatype Authenticator = Authenticator(id: Id, enabled: bool, last: Option<nat>)

  datatype Code = Code(userId: Id, digest: CodeDigest, used: bool, revoked: bool)

  type Authenticators = map<Id, Authenticator>

  type Codes = map<Id, Code>

  /** UPDATE ... SET last_successful_counter = ? WHERE id = ? AND enabled AND (it is NULL OR less) */
  predicate MayRecord(rows: Authenticators, userId: Id, id: Id, counter: nat) {
    userId in rows && rows[userId].id == id && rows[userId].enabled
    && (rows[userId].last.None? || rows[userId].last.value < counter)
  }

  /** The rows that consuming a code marks as used. */
  function Unspent(codes: Codes, userId: Id, digest: CodeDigest): set<Id> {
    set i | i in codes && codes[i].userId == userId && codes[i].digest == digest && !codes[i].revoked && !codes[i].used
  }

  function MarkUsed(codes: Codes, ids: set<Id>): Codes {
    map i | i in codes :: if i in ids then codes[i].(used := true) else codes[i]
  }

  function Revoked(codes: Codes, userId: Id): Codes {
    map i | i in codes :: if codes[i].userId == userId then codes[i].(revoked := true) else codes[i]
  }

  /** New codes of a user, as they are inserted. */
  function Inserted(userId: Id, digests: map<Id, CodeDigest>): Codes {
    map i | i in digests :: Code(userId, digests[i], false, false)
  }

  // ---- calls ----

  /**
   * `Found` is between reading the authenticator and recording the counter; `Rejected` and `Opened` are before the final
   * script, after a refusal or an error and after the session was created or could not be. An error may also hide a
   * statement that did commit: `Fail` comes after `Verified` too.
   */
  datatype Phase = Verifying | Found(authenticatorId: Id, counter: nat) | Rejected | Verified(strength: Strength) | Opened | Ended

  /** `token` is `None` for a step-up, which verifies without a challenge. */
  datatype Call = Call(token: Option<Token>, userId: Id, credential: Credential, phase: Phase)

  datatype Entry =
    | Started(token: Token)
    | Accepted(call: nat, authenticatorId: Id, counter: nat)
    | Spent(call: nat, codes: set<Id>)
    | Session(call: nat, token: Token)

  /** The stores, the calls under way or ended, and what has happened. */
  datatype System = System(
    records: Records,
    issued: map<Token, nat>,
    authenticators: Authenticators,
    enrolled: set<Id>,
    codes: Codes,
    calls: map<nat, Call>,
    log: seq<Entry>)

  const EMPTY: System := System(map[], map[], map[], {}, map[], map[], [])

  datatype Event =
    | Issue(token: Token, userId: Id, attempts: nat)
    | Begin(call: nat, token: Token, credential: Credential)
    | StepUp(call: nat, userId: Id, code: string)
    | Find(call: nat, now: int)
    | RecordCounter(call: nat)
    | Consume(call: nat)
    | Fail(call: nat)
    | OpenSession(call: nat, made: bool)
    | Finish(call: nat)
    | Expire(token: Token)
    | Enroll(userId: Id, id: Id, codes: map<Id, CodeDigest>)
    | Disable(userId: Id)
    | Replace(userId: Id, codes: map<Id, CodeDigest>)

  predicate At(s: System, call: nat, phase: Phase) {
    call in s.calls && s.calls[call].phase == phase
  }

  function Move(s: System, call: nat, phase: Phase): System
    requires call in s.calls
  {
    s.(calls := s.calls[call := s.calls[call].(phase := phase)])
  }

  /** What one event does; an event that cannot happen in this state does nothing. */
  function Step(counterFor: CounterFor, s: System, e: Event): System {
    match e
    case Issue(token, userId, attempts) =>
      if token in s.issued || attempts == 0 then s
      else s.(records := s.records[token := Record(userId, attempts, false)], issued := s.issued[token := attempts])
    case Begin(call, token, credential) =>
      var (records, userId) := BeginAttempt(s.records, token);
      if call in s.calls || userId.None? then s
      else s.(records := records, calls := s.calls[call := Call(Some(token), userId.value, credential, Verifying)], log := s.log + [Started(token)])
    case StepUp(call, userId, code) =>
      if call in s.calls then s else s.(calls := s.calls[call := Call(None, userId, Totp(code), Verifying)])
    case Find(call, now) =>
      if !At(s, call, Verifying) || !s.calls[call].credential.Totp? then s else
      var userId := s.calls[call].userId;
      if userId !in s.authenticators || !s.authenticators[userId].enabled then Move(s, call, Rejected) else
      var row := s.authenticators[userId];
      var counter := counterFor(row.id, s.calls[call].credential.code, now);
      if counter.None? || (row.last.Some? && counter.value <= row.last.value) then Move(s, call, Rejected)
      else Move(s, call, Found(row.id, counter.value))
    case RecordCounter(call) =>
      if call !in s.calls || !s.calls[call].phase.Found? then s else
      var c := s.calls[call];
      if !MayRecord(s.authenticators, c.userId, c.phase.authenticatorId, c.phase.counter) then Move(s, call, Rejected)
      else
        Move(s, call, Verified(PasswordTotp))
          .(authenticators := s.authenticators[c.userId := s.authenticators[c.userId].(last := Some(c.phase.counter))],
            log := s.log + [Accepted(call, c.phase.authenticatorId, c.phase.counter)])
    case Consume(call) =>
      if !At(s, call, Verifying) || !s.calls[call].credential.Recovery? then s else
      var matched := Unspent(s.codes, s.calls[call].userId, s.calls[call].credential.digest);
      var marked := s.(codes := MarkUsed(s.codes, matched));
      if |matched| == 1 then Move(marked, call, Verified(PasswordRecovery)).(log := s.log + [Spent(call, matched)])
      else Move(marked, call, Rejected)
    case Fail(call) =>
      if call in s.calls && (s.calls[call].phase.Verifying? || s.calls[call].phase.Found? || s.calls[call].phase.Verified?)
      then Move(s, call, Rejected) else s
    case OpenSession(call, made) =>
      if call !in s.calls || !s.calls[call].phase.Verified? || s.calls[call].token.None? then s
      else Move(s, call, Opened).(log := if made then s.log + [Session(call, s.calls[call].token.value)] else s.log)
    case Finish(call) =>
      if call !in s.calls then s else
      var c := s.calls[call];
      if c.token.None? then (if c.phase.Rejected? || c.phase.Verified? then Move(s, call, Ended) else s)
      else if !c.phase.Rejected? && !c.phase.Opened? then s
      else Move(s, call, Ended).(records := FinishAttempt(s.records, c.token.value, c.phase.Opened?))
    case Expire(token) => s.(records := s.records - {token})
    case Enroll(userId, id, codes) =>
      if id in s.enrolled || (userId in s.authenticators && s.authenticators[userId].enabled) || (exists i :: i in codes && i in s.codes) then s
      else s.(authenticators := s.authenticators[userId := Authenticator(id, true, None)], enrolled := s.enrolled + {id},
              codes := Revoked(s.codes, userId) + Inserted(userId, codes))
    case Disable(userId) =>
      if userId !in s.authenticators || !s.authenticators[userId].enabled then s
      else s.(authenticators := s.authenticators - {userId}, codes := Revoked(s.codes, userId))
    case Replace(userId, codes) =>
      if userId !in s.authenticators || !s.authenticators[userId].enabled || (exists i :: i in codes && i in s.codes) then s
      else s.(codes := Revoked(s.codes, userId) + Inserted(userId, codes))
  }

  function Run(counterFor: CounterFor, events: seq<Event>): System {
    if events == [] then EMPTY else Step(counterFor, Run(counterFor, events[..|events| - 1]), events[|events| - 1])
  }
}

/** What holds of every challenge, authenticator and recovery code in every interleaving. */
module SecondFactorSafety {
  import opened Prelude
  import opened SecondFactorSpec

  // ---- one challenge ----

  /** The call has begun an attempt of the challenge and not finished it. */
  predicate Holds(s: System, call: nat, token: Token) {
    call in s.calls && s.calls[call].token == Some(token) && s.calls[call].phase != Ended
  }

  function Starts(log: seq<Entry>, token: Token): nat {
    if log == [] then 0 else Starts(log[..|log| - 1], token) + if log[|log| - 1] == Started(token) then 1 else 0
  }

  function Sessions(log: seq<Entry>, token: Token): nat {
    if log == [] then 0 else
    Sessions(log[..|log| - 1], token) + if log[|log| - 1].Session? && log[|log| - 1].token == token then 1 else 0
  }

  /** Attempts are counted down, and one at a time. */
  ghost predicate ChallengeOk(s: System, token: Token) {
    (token in s.records ==> token in s.issued && s.records[token].attempts >= 0
                            && Starts(s.log, token) + s.records[token].attempts == s.issued[token])
    && (if token in s.issued then Starts(s.log, token) <= s.issued[token] else Starts(s.log, token) == 0)
    && (forall c :: Holds(s, c, token) ==> token in s.issued && (token in s.records ==> s.records[token].busy))
    && (forall c, d :: Holds(s, c, token) && Holds(s, d, token) ==> c == d)
  }

  /** After a session, the challenge is gone or held by the call that is about to delete it. */
  ghost predicate SessionOk(s: System, token: Token) {
    Sessions(s.log, token) <= 1
    && (Sessions(s.log, token) == 1 ==>
          token in s.issued && (token in s.records ==> exists c :: Holds(s, c, token))
          && forall c :: Holds(s, c, token) ==> s.calls[c].phase == Opened)
  }

  lemma OneMoreStart(log: seq<Entry>, e: Entry, token: Token)
    ensures Starts(log + [e], token) == Starts(log, token) + if e == Started(token) then 1 else 0
    ensures Sessions(log + [e], token) == Sessions(log, token) + if e.Session? && e.token == token then 1 else 0
  {
    assert (log + [e])[..|log|] == log;
  }

  /** An event that neither begins an attempt nor issues a challenge leaves no new holder; it may end one. */
  ghost predicate NoNewHolder(s: System, s': System, token: Token) {
    s'.issued == s.issued && (forall c :: Holds(s', c, token) ==> Holds(s, c, token))
    && Starts(s'.log, token) == Starts(s.log, token)
    && (token in s'.records ==> token in s.records && s'.records[token].attempts == s.records[token].attempts
                                && (s'.records[token] == s.records[token] || forall c :: !Holds(s', c, token)))
  }

  lemma NoNewHolderOk(s: System, s': System, token: Token)
    requires ChallengeOk(s, token) && NoNewHolder(s, s', token)
    ensures ChallengeOk(s', token)
  {
  }

  lemma BeginOk(s: System, call: nat, token: Token, credential: Credential, other: Token)
    requires ChallengeOk(s, other) && call !in s.calls && token in s.records && !s.records[token].busy && s.records[token].attempts > 0
    ensures
      var (records, userId) := BeginAttempt(s.records, token);
      var s' := s.(records := records, calls := s.calls[call := Call(Some(token), userId.value, credential, Verifying)], log := s.log + [Started(token)]);
      ChallengeOk(s', other)
  {
    var (records, userId) := BeginAttempt(s.records, token);
    var s' := s.(records := records, calls := s.calls[call := Call(Some(token), userId.value, credential, Verifying)], log := s.log + [Started(token)]);
    OneMoreStart(s.log, Started(token), other);
    forall c | Holds(s', c, other) ensures if other == token then c == call else Holds(s, c, other) {
      if c != call { assert Holds(s, c, other); }
    }
  }

  /** The event works within one unfinished call: its phase, and at most one thing that happened. */
  ghost predicate Within(s: System, s': System, call: nat) {
    call in s.calls && s.calls[call].phase != Ended && call in s'.calls
    && s'.calls == s.calls[call := s.calls[call].(phase := s'.calls[call].phase)]
    && s'.issued == s.issued && s'.records == s.records
    && (s'.log == s.log || (Grown(s.log, s'.log) && !s'.log[|s.log|].Started?))
  }

  ghost predicate Grown(log: seq<Entry>, log': seq<Entry>) {
    |log'| == |log| + 1 && log' == log + [log'[|log|]]
  }

  predicate IsInner(e: Event) {
    e.Find? || e.RecordCounter? || e.Consume? || e.Fail? || e.OpenSession?
  }

  lemma InnerEvent(counterFor: CounterFor, s: System, e: Event)
    requires IsInner(e)
    ensures Step(counterFor, s, e) == s || Within(s, Step(counterFor, s, e), e.call)
  {
    var s' := Step(counterFor, s, e);
    if s' != s && e.RecordCounter? {
      RecordEvent(counterFor, s, e.call);
    } else if s' != s && e.Consume? {
      ConsumeEvent(counterFor, s, e.call);
    } else if s' != s {
      PhaseEvent(counterFor, s, e);
    }
  }

  lemma PhaseEvent(counterFor: CounterFor, s: System, e: Event)
    requires e.Find? || e.Fail? || e.OpenSession?
    ensures Step(counterFor, s, e) == s || Within(s, Step(counterFor, s, e), e.call)
  {
    var s' := Step(counterFor, s, e);
    if s' != s {
      assert e.call in s.calls && e.call in s'.calls;
      assert s'.log == s.log || Grown(s.log, s'.log);
    }
  }

  /** Recording a counter either updates the row, which it exceeds, or refuses. */
  lemma RecordEvent(counterFor: CounterFor, s: System, call: nat)
    requires call in s.calls && s.calls[call].phase.Found?
    ensures
      var s', c := Step(counterFor, s, RecordCounter(call)), s.calls[call];
      Within(s, s', call) && s'.codes == s.codes && s'.enrolled == s.enrolled
      && if MayRecord(s.authenticators, c.userId, c.phase.authenticatorId, c.phase.counter) then
           s'.calls[call].phase == Verified(PasswordTotp) && s'.log == s.log + [Accepted(call, c.phase.authenticatorId, c.phase.counter)]
           && s'.authenticators == s.authenticators[c.userId := s.authenticators[c.userId].(last := Some(c.phase.counter))]
         else s'.calls[call].phase == Rejected && s'.log == s.log && s'.authenticators == s.authenticators
  {
  }

  /** Consuming a recovery code marks what matches, and succeeds if that is one row. */
  lemma ConsumeEvent(counterFor: CounterFor, s: System, call: nat)
    requires At(s, call, Verifying) && s.calls[call].credential.Recovery?
    ensures
      var s', c := Step(counterFor, s, Consume(call)), s.calls[call];
      var matched := Unspent(s.codes, c.userId, c.credential.digest);
      Within(s, s', call) && s'.authenticators == s.authenticators && s'.enrolled == s.enrolled && s'.codes == MarkUsed(s.codes, matched)
      && if |matched| == 1 then s'.calls[call].phase == Verified(PasswordRecovery) && s'.log == s.log + [Spent(call, matched)]
         else s'.calls[call].phase == Rejected && s'.log == s.log
  {
  }

  lemma WithinNoNew(s: System, s': System, call: nat, token: Token)
    requires Within(s, s', call)
    ensures NoNewHolder(s, s', token)
  {
    if s'.log != s.log {
      OneMoreStart(s.log, s'.log[|s.log|], token);
    }
    forall c | Holds(s', c, token) ensures Holds(s, c, token) {
    }
  }

  lemma FinishNoNew(s: System, call: nat, token: Token)
    requires ChallengeOk(s, token) && call in s.calls && s.calls[call].token.Some? && s.calls[call].phase != Ended
    ensures NoNewHolder(s, Move(s, call, Ended).(records := FinishAttempt(s.records, s.calls[call].token.value, s.calls[call].phase.Opened?)), token)
  {
    var s' := Move(s, call, Ended).(records := FinishAttempt(s.records, s.calls[call].token.value, s.calls[call].phase.Opened?));
    assert s.calls[call].token == Some(token) ==> Holds(s, call, token);
    forall c | Holds(s', c, token) ensures Holds(s, c, token) && s.calls[call].token != Some(token) {
      assert Holds(s, c, token);
    }
  }

  lemma SameCallsNoNew(s: System, s': System, token: Token)
    requires s'.calls == s.calls && s'.issued == s.issued && s'.log == s.log
    requires token in s'.records ==> token in s.records && s'.records[token] == s.records[token]
    ensures NoNewHolder(s, s', token)
  {
    forall c | Holds(s', c, token) ensures Holds(s, c, token) {
    }
  }

  lemma StepUpNoNew(s: System, call: nat, userId: Id, code: string, token: Token)
    requires call !in s.calls
    ensures NoNewHolder(s, s.(calls := s.calls[call := Call(None, userId, Totp(code), Verifying)]), token)
  {
    var s' := s.(calls := s.calls[call := Call(None, userId, Totp(code), Verifying)]);
    forall c | Holds(s', c, token) ensures Holds(s, c, token) {
    }
  }

  lemma QuietEvent(counterFor: CounterFor, s: System, e: Event, token: Token)
    requires ChallengeOk(s, token) && !e.Issue? && !e.Begin?
    ensures NoNewHolder(s, Step(counterFor, s, e), token)
  {
    var s' := Step(counterFor, s, e);
    SameCallsNoNew(s, s, token);
    if IsInner(e) {
      InnerEvent(counterFor, s, e);
      if s' != s { WithinNoNew(s, s', e.call, token); }
    } else if e.StepUp? {
      if e.call !in s.calls { StepUpNoNew(s, e.call, e.userId, e.code, token); }
    } else if e.Finish? {
      if s' != s {
        if s.calls[e.call].token.Some? { FinishNoNew(s, e.call, token); } else { WithinNoNew(s, s', e.call, token); }
      }
    } else {
      SameCallsNoNew(s, s', token);
    }
  }

  lemma IssueOk(s: System, token: Token, userId: Id, attempts: nat, other: Token)
    requires ChallengeOk(s, other) && token !in s.issued
    ensures ChallengeOk(s.(records := s.records[token := Record(userId, attempts, false)], issued := s.issued[token := attempts]), other)
  {
    var s' := s.(records := s.records[token := Record(userId, attempts, false)], issued := s.issued[token := attempts]);
    forall c | Holds(s', c, other) ensures Holds(s, c, other) {
    }
  }

  /** Every event keeps, for every challenge: attempts are counted, and none runs beside another. */
  lemma ChallengeStep(counterFor: CounterFor, s: System, e: Event, token: Token)
    requires ChallengeOk(s, token)
    ensures ChallengeOk(Step(counterFor, s, e), token)
  {
    match e {
      case Begin(call, t, credential) =>
        if call !in s.calls && BeginAttempt(s.records, t).1.Some? {
          BeginOk(s, call, t, credential, token);
        }
      case Issue(t, userId, attempts) =>
        if t !in s.issued {
          IssueOk(s, t, userId, attempts, token);
        }
      case _ =>
        QuietEvent(counterFor, s, e, token);
        NoNewHolderOk(s, Step(counterFor, s, e), token);
    }
  }

  // ---- at most one session ----

  lemma SessionWithin(s: System, s': System, call: nat, token: Token)
    requires ChallengeOk(s, token) && SessionOk(s, token) && Within(s, s', call) && s.calls[call].phase != Opened
    requires s'.log != s.log && s'.log[|s.log|].Session? && s'.log[|s.log|].token == token ==>
               s.calls[call].token == Some(token) && s'.calls[call].phase == Opened
    ensures SessionOk(s', token)
  {
    if s'.log != s.log {
      OneMoreStart(s.log, s'.log[|s.log|], token);
    }
    assert s.calls[call].token == Some(token) ==> Holds(s, call, token);
    assert s.calls[call].token == Some(token) && s'.calls[call].phase != Ended ==> Holds(s', call, token);
    forall c | c != call ensures Holds(s', c, token) <==> Holds(s, c, token) {
    }
  }

  lemma SessionFinish(s: System, call: nat, token: Token)
    requires ChallengeOk(s, token) && SessionOk(s, token) && call in s.calls && s.calls[call].token.Some?
    requires s.calls[call].phase.Rejected? || s.calls[call].phase.Opened?
    ensures SessionOk(Move(s, call, Ended).(records := FinishAttempt(s.records, s.calls[call].token.value, s.calls[call].phase.Opened?)), token)
  {
    var s' := Move(s, call, Ended).(records := FinishAttempt(s.records, s.calls[call].token.value, s.calls[call].phase.Opened?));
    assert s.calls[call].token == Some(token) ==> Holds(s, call, token);
    forall c | c != call ensures Holds(s', c, token) <==> Holds(s, c, token) {
    }
  }

  lemma SessionBegin(s: System, call: nat, token: Token, credential: Credential, other: Token)
    requires ChallengeOk(s, other) && SessionOk(s, other) && call !in s.calls
    requires token in s.records && !s.records[token].busy && s.records[token].attempts > 0
    ensures
      var (records, userId) := BeginAttempt(s.records, token);
      SessionOk(s.(records := records, calls := s.calls[call := Call(Some(token), userId.value, credential, Verifying)], log := s.log + [Started(token)]), other)
  {
    var (records, userId) := BeginAttempt(s.records, token);
    var s' := s.(records := records, calls := s.calls[call := Call(Some(token), userId.value, credential, Verifying)], log := s.log + [Started(token)]);
    OneMoreStart(s.log, Started(token), other);
    forall c | c != call ensures Holds(s', c, other) <==> Holds(s, c, other) {
    }
  }

  lemma SessionSame(s: System, s': System, token: Token)
    requires SessionOk(s, token) && s'.log == s.log
    requires forall c :: Holds(s', c, token) <==> Holds(s, c, token)
    requires forall c :: Holds(s, c, token) ==> c in s'.calls && s'.calls[c] == s.calls[c]
    requires token in s.issued ==> token in s'.issued && (token in s'.records ==> token in s.records)
    ensures SessionOk(s', token)
  {
  }

  /** Every event keeps: a challenge leads to at most one session. */
  lemma SessionStep(counterFor: CounterFor, s: System, e: Event, token: Token)
    requires ChallengeOk(s, token) && SessionOk(s, token)
    ensures SessionOk(Step(counterFor, s, e), token)
  {
    var s' := Step(counterFor, s, e);
    if s' == s {
    } else if IsInner(e) {
      InnerEvent(counterFor, s, e);
      SessionWithin(s, s', e.call, token);
    } else if e.Begin? {
      SessionBegin(s, e.call, e.token, e.credential, token);
    } else if e.Finish? && s.calls[e.call].token.Some? {
      SessionFinish(s, e.call, token);
    } else {
      forall c ensures Holds(s', c, token) <==> Holds(s, c, token) {
      }
      SessionSame(s, s', token);
    }
  }

  // ---- counters ----

  /** No two rows are one authenticator, and a row's counter is the last one accepted for it. */
  ghost predicate RowsOk(s: System) {
    (forall u :: u in s.authenticators ==> s.authenticators[u].id in s.enrolled)
    && (forall u, v :: u in s.authenticators && v in s.authenticators && s.authenticators[u].id == s.authenticators[v].id ==> u == v)
    && (forall i :: 0 <= i < |s.log| && s.log[i].Accepted? ==> s.log[i].authenticatorId in s.enrolled)
    && forall i, u :: 0 <= i < |s.log| && s.log[i].Accepted? && u in s.authenticators && s.authenticators[u].id == s.log[i].authenticatorId ==>
         s.authenticators[u].last.Some? && s.log[i].counter <= s.authenticators[u].last.value
  }

  /** The counters accepted for one authenticator strictly increase. */
  ghost predicate Increasing(log: seq<Entry>) {
    forall i, j :: 0 <= i < j < |log| && log[i].Accepted? && log[j].Accepted? && log[i].authenticatorId == log[j].authenticatorId ==>
      log[i].counter < log[j].counter
  }

  ghost predicate CountersOk(s: System) {
    RowsOk(s) && Increasing(s.log)
  }

  lemma CountersSame(s: System, s': System)
    requires CountersOk(s) && s'.authenticators == s.authenticators && s'.enrolled == s.enrolled
    requires s'.log == s.log || (Grown(s.log, s'.log) && !s'.log[|s.log|].Accepted?)
    ensures CountersOk(s')
  {
  }

  lemma CountersRecord(s: System, s': System, userId: Id, id: Id, counter: nat, call: nat)
    requires CountersOk(s) && MayRecord(s.authenticators, userId, id, counter) && s'.enrolled == s.enrolled
    requires s'.authenticators == s.authenticators[userId := s.authenticators[userId].(last := Some(counter))]
    requires s'.log == s.log + [Accepted(call, id, counter)]
    ensures CountersOk(s')
  {
    assert forall i :: 0 <= i < |s.log| ==> s'.log[i] == s.log[i];
  }

  /** The other events leave the credentials alone. */
  lemma OtherEvent(counterFor: CounterFor, s: System, e: Event)
    requires !e.RecordCounter? && !e.Consume? && !e.Enroll? && !e.Disable? && !e.Replace?
    ensures
      var s' := Step(counterFor, s, e);
      s'.authenticators == s.authenticators && s'.enrolled == s.enrolled && s'.codes == s.codes
      && (s'.log == s.log || (Grown(s.log, s'.log) && (s'.log[|s.log|].Started? || s'.log[|s.log|].Session?)))
  {
    match e {
      case OpenSession(call, made) => OpenEvent(counterFor, s, call, made);
      case Begin(_, _, _) =>
      case _ =>
    }
  }

  lemma OpenEvent(counterFor: CounterFor, s: System, call: nat, made: bool)
    ensures
      var s' := Step(counterFor, s, OpenSession(call, made));
      s'.authenticators == s.authenticators && s'.enrolled == s.enrolled && s'.codes == s.codes
      && (s'.log == s.log || (Grown(s.log, s'.log) && s'.log[|s.log|].Session?))
  {
  }

  lemma CountersStep(counterFor: CounterFor, s: System, e: Event)
    requires CountersOk(s)
    ensures CountersOk(Step(counterFor, s, e))
  {
    var s' := Step(counterFor, s, e);
    if s' == s {
    } else if e.RecordCounter? {
      RecordEvent(counterFor, s, e.call);
      var c := s.calls[e.call];
      if MayRecord(s.authenticators, c.userId, c.phase.authenticatorId, c.phase.counter) {
        CountersRecord(s, s', c.userId, c.phase.authenticatorId, c.phase.counter, e.call);
      } else {
        CountersSame(s, s');
      }
    } else if e.Consume? {
      ConsumeEvent(counterFor, s, e.call);
      CountersSame(s, s');
    } else if e.Enroll? {
      CountersEnroll(s, s', e.userId, e.id);
    } else if e.Disable? {
      CountersDisable(s, s', e.userId);
    } else if e.Replace? {
      CountersSame(s, s');
    } else {
      OtherEvent(counterFor, s, e);
      CountersSame(s, s');
    }
  }

  lemma CountersEnroll(s: System, s': System, userId: Id, id: Id)
    requires CountersOk(s) && id !in s.enrolled && s'.log == s.log && s'.enrolled == s.enrolled + {id}
    requires s'.authenticators == s.authenticators[userId := Authenticator(id, true, None)]
    ensures CountersOk(s')
  {
  }

  lemma CountersDisable(s: System, s': System, userId: Id)
    requires CountersOk(s) && s'.log == s.log && s'.enrolled == s.enrolled && s'.authenticators == s.authenticators - {userId}
    ensures CountersOk(s')
  {
  }

  // ---- recovery codes ----

  /** A code that let someone in is marked, and never lets anyone in again. */
  ghost predicate CodesOk(s: System) {
    (forall i, c :: 0 <= i < |s.log| && s.log[i].Spent? && c in s.log[i].codes ==> c in s.codes && s.codes[c].used)
    && (forall i :: 0 <= i < |s.log| && s.log[i].Spent? ==> |s.log[i].codes| == 1)
    && forall i, j :: 0 <= i < j < |s.log| && s.log[i].Spent? && s.log[j].Spent? ==> s.log[i].codes !! s.log[j].codes
  }

  lemma CodesMore(s: System, s': System)
    requires CodesOk(s) && (s'.log == s.log || (Grown(s.log, s'.log) && !s'.log[|s.log|].Spent?))
    requires forall c :: c in s.codes && s.codes[c].used ==> c in s'.codes && s'.codes[c].used
    ensures CodesOk(s')
  {
  }

  lemma CodesSpent(s: System, s': System, call: nat, userId: Id, digest: CodeDigest)
    requires CodesOk(s) && s'.codes == MarkUsed(s.codes, Unspent(s.codes, userId, digest)) && |Unspent(s.codes, userId, digest)| == 1
    requires s'.log == s.log + [Spent(call, Unspent(s.codes, userId, digest))]
    ensures CodesOk(s')
  {
    assert forall i :: 0 <= i < |s.log| ==> s'.log[i] == s.log[i];
  }

  lemma CodesStep(counterFor: CounterFor, s: System, e: Event)
    requires CodesOk(s)
    ensures CodesOk(Step(counterFor, s, e))
  {
    var s' := Step(counterFor, s, e);
    if s' == s {
    } else if e.Consume? {
      ConsumeEvent(counterFor, s, e.call);
      var c := s.calls[e.call];
      if |Unspent(s.codes, c.userId, c.credential.digest)| == 1 {
        CodesSpent(s, s', e.call, c.userId, c.credential.digest);
      } else {
        CodesMore(s, s');
      }
    } else if e.RecordCounter? {
      RecordEvent(counterFor, s, e.call);
      CodesMore(s, s');
    } else if e.Enroll? || e.Disable? || e.Replace? {
      CodesMore(s, s');
    } else {
      OtherEvent(counterFor, s, e);
      CodesMore(s, s');
    }
  }

  // ---- codes without an authenticator ----

  predicate HasEnabled(s: System, userId: Id) {
    userId in s.authenticators && s.authenticators[userId].enabled
  }

  /** Only a user with an enabled authenticator has recovery codes that are not revoked. */
  ghost predicate EnabledOk(s: System) {
    forall i :: i in s.codes && !s.codes[i].revoked ==> HasEnabled(s, s.codes[i].userId)
  }

  lemma EnabledStep(counterFor: CounterFor, s: System, e: Event)
    requires EnabledOk(s)
    ensures EnabledOk(Step(counterFor, s, e))
  {
    var s' := Step(counterFor, s, e);
    if s' == s {
    } else if e.RecordCounter? {
      RecordEvent(counterFor, s, e.call);
      EnabledSame(s, s');
    } else if e.Consume? {
      ConsumeEvent(counterFor, s, e.call);
      EnabledSame(s, s');
    } else if e.Enroll? || e.Disable? || e.Replace? {
      EnabledChange(counterFor, s, e);
    } else {
      OtherEvent(counterFor, s, e);
    }
  }

  lemma EnabledSame(s: System, s': System)
    requires EnabledOk(s) && forall u :: HasEnabled(s, u) ==> HasEnabled(s', u)
    requires forall i :: i in s'.codes ==> i in s.codes && s'.codes[i].userId == s.codes[i].userId && s'.codes[i].revoked == s.codes[i].revoked
    ensures EnabledOk(s')
  {
  }

  lemma EnabledChange(counterFor: CounterFor, s: System, e: Event)
    requires EnabledOk(s) && (e.Enroll? || e.Disable? || e.Replace?)
    ensures EnabledOk(Step(counterFor, s, e))
  {
    var s' := Step(counterFor, s, e);
    if s' != s {
      forall i | i in s'.codes && !s'.codes[i].revoked ensures HasEnabled(s', s'.codes[i].userId) {
        if s'.codes[i].userId != e.userId {
          assert i in s.codes && s.codes[i] == s'.codes[i];
          assert HasEnabled(s, s.codes[i].userId);
        }
      }
    }
  }

  // ---- sessions and credentials ----

  /** The entry shows that this call presented a good credential. */
  predicate Proves(e: Entry, call: nat) {
    (e.Accepted? || e.Spent?) && e.call == call
  }

  predicate Proven(phase: Phase) {
    phase.Verified? || phase.Rejected? || phase.Opened? || phase.Ended?
  }

  /** A call presents at most one good credential, and has presented one before its session. */
  ghost predicate ProofOk(s: System) {
    ProversOk(s.calls, s.log) && VerifiedOk(s.calls, s.log) && ProvenOnce(s.log) && ProvenFirst(s.log)
  }

  ghost predicate ProversOk(calls: map<nat, Call>, log: seq<Entry>) {
    forall i, c :: 0 <= i < |log| && Proves(log[i], c) ==> c in calls && Proven(calls[c].phase)
  }

  ghost predicate VerifiedOk(calls: map<nat, Call>, log: seq<Entry>) {
    forall c :: c in calls && (calls[c].phase.Verified? || calls[c].phase.Opened?) ==> HasProof(log, c)
  }

  ghost predicate HasProof(log: seq<Entry>, c: nat) {
    exists i :: 0 <= i < |log| && Proves(log[i], c)
  }

  lemma ProofStays(log: seq<Entry>, log': seq<Entry>, c: nat)
    requires HasProof(log, c) && (log' == log || Grown(log, log'))
    ensures HasProof(log', c)
  {
    var i :| 0 <= i < |log| && Proves(log[i], c);
    assert Proves(log'[i], c);
  }

  ghost predicate ProvenOnce(log: seq<Entry>) {
    forall i, j, c :: 0 <= i < j < |log| && Proves(log[i], c) ==> !Proves(log[j], c)
  }

  ghost predicate ProvenFirst(log: seq<Entry>) {
    forall j :: 0 <= j < |log| && log[j].Session? ==> exists i :: 0 <= i < j && Proves(log[i], log[j].call)
  }

  /** One call moves on, nothing is proved, and nothing or an attempt's start is logged. */
  lemma ProofMove(s: System, s': System, call: nat)
    requires ProofOk(s) && call in s'.calls && s'.calls == s.calls[call := s'.calls[call]]
    requires s'.log == s.log || (Grown(s.log, s'.log) && s'.log[|s.log|].Started?)
    requires call in s.calls && Proven(s.calls[call].phase) ==> Proven(s'.calls[call].phase)
    requires s'.calls[call].phase.Verified? || s'.calls[call].phase.Opened? ==>
               call in s.calls && (s.calls[call].phase.Verified? || s.calls[call].phase.Opened?)
    ensures ProofOk(s')
  {
    assert forall i :: 0 <= i < |s.log| ==> s'.log[i] == s.log[i];
    forall c | c in s'.calls && (s'.calls[c].phase.Verified? || s'.calls[c].phase.Opened?) ensures HasProof(s'.log, c) {
      ProofStays(s.log, s'.log, c);
    }
    ProofLog(s.log, s'.log);
  }

  lemma ProofLog(log: seq<Entry>, log': seq<Entry>)
    requires ProvenOnce(log) && ProvenFirst(log) && (log' == log || Grown(log, log'))
    requires log' != log && log'[|log|].Session? ==> HasProof(log, log'[|log|].call)
    requires log' != log ==> forall c :: Proves(log'[|log|], c) ==> !HasProof(log, c)
    ensures ProvenOnce(log') && ProvenFirst(log')
  {
    assert forall i :: 0 <= i < |log| ==> log'[i] == log[i];
    forall j | 0 <= j < |log'| && log'[j].Session? ensures exists i :: 0 <= i < j && Proves(log'[i], log'[j].call) {
      var i :| 0 <= i < (if j < |log| then j else |log|) && Proves(log[i], log'[j].call);
      assert Proves(log'[i], log'[j].call);
    }
  }

  /** A call that had proved nothing proves its credential. */
  lemma ProofProve(s: System, s': System, call: nat)
    requires ProofOk(s) && call in s.calls && !Proven(s.calls[call].phase) && call in s'.calls
    requires s'.calls == s.calls[call := s'.calls[call]] && s'.calls[call].phase.Verified?
    requires Grown(s.log, s'.log) && Proves(s'.log[|s.log|], call)
    ensures ProofOk(s')
  {
    assert forall i :: 0 <= i < |s.log| ==> s'.log[i] == s.log[i];
    forall c | c in s'.calls && (s'.calls[c].phase.Verified? || s'.calls[c].phase.Opened?) ensures HasProof(s'.log, c) {
      if c != call { ProofStays(s.log, s'.log, c); }
    }
    ProofLog(s.log, s'.log);
  }

  /** A call that has proved its credential opens a session. */
  lemma ProofOpen(s: System, s': System, call: nat, token: Token)
    requires ProofOk(s) && call in s.calls && s.calls[call].phase.Verified? && call in s'.calls
    requires s'.calls == s.calls[call := s'.calls[call]] && s'.calls[call].phase.Opened?
    requires s'.log == s.log + [Session(call, token)]
    ensures ProofOk(s')
  {
    assert forall i :: 0 <= i < |s.log| ==> s'.log[i] == s.log[i];
    forall c | c in s'.calls && (s'.calls[c].phase.Verified? || s'.calls[c].phase.Opened?) ensures HasProof(s'.log, c) {
      ProofStays(s.log, s'.log, c);
    }
    ProofLog(s.log, s'.log);
  }

  lemma ProofMoveEvent(counterFor: CounterFor, s: System, e: Event)
    requires ProofOk(s) && Step(counterFor, s, e) != s && (e.Begin? || e.StepUp? || e.Find? || e.Fail? || e.Finish?)
    ensures ProofOk(Step(counterFor, s, e))
  {
    ProofMove(s, Step(counterFor, s, e), e.call);
  }

  lemma ProofOpenEvent(counterFor: CounterFor, s: System, call: nat, made: bool)
    requires ProofOk(s) && Step(counterFor, s, OpenSession(call, made)) != s
    ensures ProofOk(Step(counterFor, s, OpenSession(call, made)))
  {
    var s' := Step(counterFor, s, OpenSession(call, made));
    if s'.log == s.log { ProofMove(s, s', call); } else { ProofOpen(s, s', call, s.calls[call].token.value); }
  }

  lemma ProofStep(counterFor: CounterFor, s: System, e: Event)
    requires ProofOk(s)
    ensures ProofOk(Step(counterFor, s, e))
  {
    var s' := Step(counterFor, s, e);
    if s' == s {
    } else if e.RecordCounter? {
      RecordEvent(counterFor, s, e.call);
      if s'.log == s.log { ProofMove(s, s', e.call); } else { ProofProve(s, s', e.call); }
    } else if e.Consume? {
      ConsumeEvent(counterFor, s, e.call);
      if s'.log == s.log { ProofMove(s, s', e.call); } else { ProofProve(s, s', e.call); }
    } else if e.OpenSession? {
      ProofOpenEvent(counterFor, s, e.call, e.made);
    } else if e.Begin? || e.StepUp? || e.Find? || e.Fail? || e.Finish? {
      ProofMoveEvent(counterFor, s, e);
    } else {
      assert s'.calls == s.calls && s'.log == s.log;
    }
  }

  // ---- main results ----

  ghost predicate Inv(s: System) {
    CountersOk(s) && CodesOk(s) && ProofOk(s) && EnabledOk(s) && forall t :: ChallengeOk(s, t) && SessionOk(s, t)
  }

  lemma {:induction false} RunKeeps(counterFor: CounterFor, events: seq<Event>)
    ensures Inv(Run(counterFor, events))
  {
    if events != [] {
      var n := |events| - 1;
      var s := Run(counterFor, events[..n]);
      RunKeeps(counterFor, events[..n]);
      CountersStep(counterFor, s, events[n]);
      CodesStep(counterFor, s, events[n]);
      ProofStep(counterFor, s, events[n]);
      EnabledStep(counterFor, s, events[n]);
      forall t ensures ChallengeOk(Run(counterFor, events), t) && SessionOk(Run(counterFor, events), t) {
        ChallengeStep(counterFor, s, events[n], t);
        SessionStep(counterFor, s, events[n], t);
      }
    }
  }

  /** In every interleaving, crashes included: a challenge's verifications never overlap, no more of them start than it allows, and it leads to one session at most. */
  lemma ChallengesAreSafe(counterFor: CounterFor, events: seq<Event>, token: Token)
    ensures
      var s := Run(counterFor, events);
      (forall c, d :: Holds(s, c, token) && Holds(s, d, token) ==> c == d)
      && (if token in s.issued then Starts(s.log, token) <= s.issued[token] else Starts(s.log, token) == 0)
      && Sessions(s.log, token) <= 1
  {
    RunKeeps(counterFor, events);
    var s := Run(counterFor, events);
    assert ChallengeOk(s, token) && SessionOk(s, token);
  }

  /** Per authenticator the accepted counters strictly increase, and a recovery code lets its owner in at most once. */
  lemma CredentialsUsedOnce(counterFor: CounterFor, events: seq<Event>, i: nat, j: nat)
    requires i < j < |Run(counterFor, events).log|
    ensures
      var a, b := Run(counterFor, events).log[i], Run(counterFor, events).log[j];
      (a.Accepted? && b.Accepted? && a.authenticatorId == b.authenticatorId ==> a.counter < b.counter)
      && (a.Spent? && b.Spent? ==> a.codes !! b.codes && |a.codes| == 1)
  {
    RunKeeps(counterFor, events);
  }

  /** Every session was preceded by a good credential that its call presented, and that call presented no other. */
  lemma SessionHasProof(counterFor: CounterFor, events: seq<Event>, j: nat)
    requires j < |Run(counterFor, events).log| && Run(counterFor, events).log[j].Session?
    ensures
      var log := Run(counterFor, events).log;
      exists i :: 0 <= i < j && Proves(log[i], log[j].call) && forall k :: 0 <= k < |log| && Proves(log[k], log[j].call) ==> k == i
  {
    RunKeeps(counterFor, events);
    var log := Run(counterFor, events).log;
    var i :| 0 <= i < j && Proves(log[i], log[j].call);
    forall k | 0 <= k < |log| && Proves(log[k], log[j].call) ensures k == i {
    }
  }

  // ---- disabling ----

  /** The user has no authenticator and no usable code, and since entry n no call of the user has proved anything. */
  ghost predicate ShutOut(s: System, userId: Id, n: nat) {
    userId !in s.authenticators && (forall i :: i in s.codes && s.codes[i].userId == userId ==> s.codes[i].revoked)
    && n <= |s.log| && forall k, c :: n <= k < |s.log| && Proves(s.log[k], c) ==> c in s.calls && s.calls[c].userId != userId
  }

  lemma ShutOutSame(s: System, s': System, userId: Id, n: nat)
    requires ShutOut(s, userId, n) && userId !in s'.authenticators
    requires forall i :: i in s'.codes && s'.codes[i].userId == userId ==> s'.codes[i].revoked
    requires s'.log == s.log || (Grown(s.log, s'.log) && forall c :: Proves(s'.log[|s.log|], c) ==> c in s.calls && s.calls[c].userId != userId)
    requires forall c :: c in s.calls ==> c in s'.calls && s'.calls[c].userId == s.calls[c].userId
    ensures ShutOut(s', userId, n)
  {
    assert forall k :: 0 <= k < |s.log| ==> s'.log[k] == s.log[k];
  }

  lemma CallsStay(counterFor: CounterFor, s: System, e: Event)
    ensures forall c :: c in s.calls ==> c in Step(counterFor, s, e).calls && Step(counterFor, s, e).calls[c].userId == s.calls[c].userId
  {
    if IsInner(e) {
      InnerEvent(counterFor, s, e);
    }
  }

  lemma ShutOutStep(counterFor: CounterFor, s: System, e: Event, userId: Id, n: nat)
    requires ShutOut(s, userId, n) && !(e.Enroll? && e.userId == userId)
    ensures ShutOut(Step(counterFor, s, e), userId, n)
  {
    var s' := Step(counterFor, s, e);
    CallsStay(counterFor, s, e);
    if s' == s {
    } else if e.RecordCounter? {
      RecordEvent(counterFor, s, e.call);
      ShutOutSame(s, s', userId, n);
    } else if e.Consume? {
      ConsumeEvent(counterFor, s, e.call);
      if s.calls[e.call].userId == userId {
        assert Unspent(s.codes, userId, s.calls[e.call].credential.digest) == {};
      }
      ShutOutSame(s, s', userId, n);
    } else if e.Enroll? || e.Disable? || e.Replace? {
      ShutOutSame(s, s', userId, n);
    } else {
      OtherEvent(counterFor, s, e);
      ShutOutSame(s, s', userId, n);
    }
  }

  lemma DisableShutsOut(counterFor: CounterFor, s: System, userId: Id)
    requires EnabledOk(s) && (userId in s.authenticators ==> s.authenticators[userId].enabled)
    ensures ShutOut(Step(counterFor, s, Disable(userId)), userId, |s.log|)
  {
    var s' := Step(counterFor, s, Disable(userId));
    forall i | i in s'.codes && s'.codes[i].userId == userId ensures s'.codes[i].revoked {
      if !HasEnabled(s, userId) {
        assert s' == s;
      }
    }
  }

  lemma {:induction false} AllEnabled(counterFor: CounterFor, events: seq<Event>, userId: Id)
    ensures userId in Run(counterFor, events).authenticators ==> Run(counterFor, events).authenticators[userId].enabled
  {
    if events != [] {
      var n := |events| - 1;
      var s := Run(counterFor, events[..n]);
      AllEnabled(counterFor, events[..n], userId);
      if IsInner(events[n]) && events[n].RecordCounter? && Step(counterFor, s, events[n]) != s {
        RecordEvent(counterFor, s, events[n].call);
      } else if events[n].Consume? && Step(counterFor, s, events[n]) != s {
        ConsumeEvent(counterFor, s, events[n].call);
      } else if !events[n].RecordCounter? && !events[n].Consume? && !events[n].Enroll? && !events[n].Disable? && !events[n].Replace? {
        OtherEvent(counterFor, s, events[n]);
      }
    }
  }

  /**
   * Once a second factor is disabled, and until the user enrols again, no call of that user presents a good credential, not even
   * one that was under way; that holds too when there was nothing to disable.
   */
  lemma {:induction false} DisabledStaysOut(counterFor: CounterFor, events: seq<Event>, i: nat, userId: Id)
    requires i < |events| && events[i] == Disable(userId)
    requires forall k :: i < k < |events| ==> !(events[k].Enroll? && events[k].userId == userId)
    ensures ShutOut(Run(counterFor, events), userId, |Run(counterFor, events[..i]).log|)
  {
    var n := |events| - 1;
    if i < n {
      DisabledStaysOut(counterFor, events[..n], i, userId);
      assert events[..n][..i] == events[..i];
      ShutOutStep(counterFor, Run(counterFor, events[..n]), events[n], userId, |Run(counterFor, events[..i]).log|);
    } else {
      RunKeeps(counterFor, events[..i]);
      AllEnabled(counterFor, events[..i], userId);
      DisableShutsOut(counterFor, Run(counterFor, events[..i]), userId);
    }
  }
}
