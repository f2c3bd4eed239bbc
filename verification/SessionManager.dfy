/** The session manager, call by call, against the plain map of unexpired sessions. */
module SessionManagers {
  import opened Prelude
  import opened SessionSpec
  import opened SessionRepositories

  datatype Call =
    | Create(id: Identifier, userId: Identifier, strength: AuthStrength, authenticatorId: Option<Identifier>, digest: Digest)
    | Authenticate(digest: Digest)
    | List(userId: Identifier)
    | MarkStrong(digest: Digest, userId: Identifier)
    | Revoke(digest: Digest, userId: Identifier)
    | RevokeSome(userId: Identifier, choice: Choice)

  datatype Answer =
    | Refused(error: string)
    | Session(session: StoredSession)
    | NoSession
    | Listed(sessions: seq<StoredSession>)
    | Done
    | Found(found: bool)
    | Revoked(count: nat)

  /** What a call does to the unexpired sessions. */
  function After(options: Options, live: Sessions, now: int, call: Call): Sessions {
    match call
    case Create(id, userId, strength, authenticatorId, digest) =>
      if |live| < MAX_ACTIVE then live[digest := New(options, now, id, userId, strength, authenticatorId)] else live
    case Authenticate(digest) => if digest in live then live[digest := Used(options, live[digest], now)] else live
    case List(_) => live
    case MarkStrong(digest, userId) =>
      if MayStepUp(live, digest, userId) then live[digest := live[digest].(strongAuthenticatedAt := Some(now))] else live
    case Revoke(digest, _) => live - {digest}
    case RevokeSome(userId, choice) => live - Picked(live, userId, choice)
  }

  /** What a call answers. A revoking call may also count a record whose session expired less than a second ago. */
  ghost predicate Answers(options: Options, live: Sessions, now: int, call: Call, answer: Answer) {
    match call
    case Create(id, userId, strength, authenticatorId, digest) =>
      answer == if |live| < MAX_ACTIVE then Session(New(options, now, id, userId, strength, authenticatorId))
                else Refused("browser_session_capacity_exceeded")
    case Authenticate(digest) => answer == if digest in live then Session(Used(options, live[digest], now)) else NoSession
    case List(userId) => answer.Listed? && Lists(answer.sessions, live, userId)
    case MarkStrong(digest, userId) =>
      answer == if MayStepUp(live, digest, userId) then Session(live[digest].(strongAuthenticatedAt := Some(now)))
                else Refused("step_up_invalid")
    case Revoke(_, _) => answer == Done
    case RevokeSome(userId, choice) =>
      match choice
      case All => answer == Done
      case Id(_) => answer.Found? && (|Picked(live, userId, choice)| > 0 ==> answer.found)
      case _ => answer.Revoked? && answer.count >= |Picked(live, userId, choice)|
  }

  class SessionManager {
    const repository: RedisSessionRepository
    const options: Options

    ghost predicate Valid(now: int)
      reads repository
    {
      Accepted(options) && repository.Valid(now)
    }

    constructor Unchecked(repository: RedisSessionRepository, options: Options)
      ensures this.repository == repository && this.options == options
    {
      this.repository, this.options := repository, options;
    }

    static method Open(repository: RedisSessionRepository, options: Options) returns (made: Result<SessionManager>)
      ensures made.Ok? <==> Accepted(options)
      ensures made.Ok? <==> options.absoluteTtl > 0 && options.activityWriteInterval >= 0 && 0 < options.idleTtl <= options.absoluteTtl
      ensures made.Err? ==> made.error == "session_configuration_invalid"
      ensures made.Ok? ==> fresh(made.value) && made.value.repository == repository && made.value.options == options
    {
      if options.absoluteTtl <= 0 || options.activityWriteInterval < 0 || options.idleTtl <= 0 || options.idleTtl > options.absoluteTtl {
        return Err("session_configuration_invalid");
      }
      var manager := new SessionManager.Unchecked(repository, options);
      return Ok(manager);
    }

    /** The token and the identifier are new random values. */
    method Create(now: int, id: Identifier, userId: Identifier, strength: AuthStrength, authenticatorId: Option<Identifier>, digest: Digest)
      returns (created: Result<StoredSession>)
      requires Valid(now) && digest !in repository.digests && id !in repository.ids
      modifies repository
      ensures Valid(now)
      ensures created.Ok? <==> |old(repository.Sessions(now))| < MAX_ACTIVE
      ensures created == if created.Ok? then Ok(New(options, now, id, userId, strength, authenticatorId))
                         else Err("browser_session_capacity_exceeded")
      ensures repository.Sessions(now) == if created.Ok? then old(repository.Sessions(now))[digest := created.value] else old(repository.Sessions(now))
      ensures repository.digests == old(repository.digests) + {digest} && repository.ids == old(repository.ids) + {id}
    {
      if digest in repository.Sessions(now) { repository.LiveIsKnown(now, digest); }
      var session := New(options, now, id, userId, strength, authenticatorId);
      var stored := repository.Create(now, digest, session);
      return if stored.Ok? then Ok(session) else Err("browser_session_capacity_exceeded");
    }

    /** A live session is always found, and renewing it never fails for want of room. */
    method Authenticate(now: int, digest: Digest) returns (found: Option<StoredSession>)
      requires Valid(now)
      modifies repository
      ensures Valid(now) && repository.digests == old(repository.digests) && repository.ids == old(repository.ids)
      ensures found == if digest in old(repository.Sessions(now)) then Some(Used(options, old(repository.Sessions(now))[digest], now)) else None
      ensures found.Some? ==>
                var s := old(repository.Sessions(now))[digest];
                if now - s.lastActiveAt >= options.activityWriteInterval
                then found.value.idleExpiresAt == now + options.idleTtl && found.value.absoluteExpiresAt == now + options.absoluteTtl
                     && found.value.lastActiveAt == now
                else found.value == s
      ensures repository.Sessions(now)
           == if digest in old(repository.Sessions(now)) then old(repository.Sessions(now))[digest := found.value] else old(repository.Sessions(now))
    {
      found := Lookup(now, digest);
      if found.Some? && now - found.value.lastActiveAt >= options.activityWriteInterval {
        if digest in repository.Sessions(now) { repository.LiveIsKnown(now, digest); }
        found := Some(found.value.(absoluteExpiresAt := now + options.absoluteTtl, idleExpiresAt := now + options.idleTtl, lastActiveAt := now));
        Update(now, digest, found.value);
      }
    }

    /** The unexpired session of a digest; an expired record that Redis still holds is removed. */
    method Lookup(now: int, digest: Digest) returns (found: Option<StoredSession>)
      requires Valid(now)
      modifies repository
      ensures Valid(now) && repository.digests == old(repository.digests) && repository.ids == old(repository.ids)
      ensures repository.Sessions(now) == old(repository.Sessions(now))
      ensures found == if digest in repository.Sessions(now) then Some(repository.Sessions(now)[digest]) else None
    {
      ghost var live := repository.Sessions(now);
      if digest in repository.Sessions(now) { repository.LiveIsKnown(now, digest); }
      found := repository.Find(now, digest);
      if found.Some? && RemainingTtlSeconds(found.value, now) == 0 {
        repository.Revoke(now, digest, found.value.userId);
        assert live - {digest} == live;
        found := None;
      }
    }

    /** Rewriting a live session always finds room. */
    method Update(now: int, digest: Digest, s: StoredSession)
      requires Valid(now) && digest in repository.Sessions(now) && Unexpired(s, now) && s.idleExpiresAt <= s.absoluteExpiresAt
      requires s.userId == repository.Sessions(now)[digest].userId && s.id == repository.Sessions(now)[digest].id
      modifies repository
      ensures Valid(now) && repository.digests == old(repository.digests) && repository.ids == old(repository.ids)
      ensures repository.Sessions(now) == old(repository.Sessions(now))[digest := s]
    {
      repository.LiveIsKnown(now, digest);
      var stored := repository.Create(now, digest, s);
    }

    method List(now: int, userId: Identifier) returns (listed: seq<StoredSession>)
      requires Valid(now)
      modifies repository
      ensures Valid(now) && repository.digests == old(repository.digests) && repository.ids == old(repository.ids)
      ensures repository.Sessions(now) == old(repository.Sessions(now)) && Lists(listed, repository.Sessions(now), userId)
    {
      listed := repository.List(now, userId);
    }

    method MarkStrongAuthenticated(now: int, digest: Digest, userId: Identifier) returns (marked: Result<StoredSession>)
      requires Valid(now)
      modifies repository
      ensures Valid(now) && repository.digests == old(repository.digests) && repository.ids == old(repository.ids)
      ensures marked == if MayStepUp(old(repository.Sessions(now)), digest, userId)
                        then Ok(old(repository.Sessions(now))[digest].(strongAuthenticatedAt := Some(now))) else Err("step_up_invalid")
      ensures repository.Sessions(now) == if marked.Ok? then old(repository.Sessions(now))[digest := marked.value] else old(repository.Sessions(now))
    {
      if digest in repository.Sessions(now) { repository.LiveIsKnown(now, digest); }
      var found := repository.Find(now, digest);
      if found.None? || found.value.userId != userId || found.value.authStrength.PasswordRecovery? || RemainingTtlSeconds(found.value, now) == 0 {
        return Err("step_up_invalid");
      }
      var updated := found.value.(strongAuthenticatedAt := Some(now));
      Update(now, digest, updated);
      return Ok(updated);
    }

    /** One call; the answer and the sessions left are those of the plain map. */
    method Perform(now: int, call: Call) returns (answer: Answer)
      requires Valid(now)
      requires call.Create? ==> call.digest !in repository.digests && call.id !in repository.ids
      modifies repository
      ensures Valid(now) && Answers(options, old(repository.Sessions(now)), now, call, answer)
      ensures repository.Sessions(now) == After(options, old(repository.Sessions(now)), now, call)
      ensures repository.digests == old(repository.digests) + (if call.Create? then {call.digest} else {})
      ensures repository.ids == old(repository.ids) + (if call.Create? then {call.id} else {})
    {
      if call.Create? {
        var created := Create(now, call.id, call.userId, call.strength, call.authenticatorId, call.digest);
        answer := if created.Ok? then Session(created.value) else Refused("browser_session_capacity_exceeded");
      } else {
        answer := PerformOther(now, call);
      }
    }

    method PerformOther(now: int, call: Call) returns (answer: Answer)
      requires Valid(now) && !call.Create?
      modifies repository
      ensures Valid(now) && repository.digests == old(repository.digests) && repository.ids == old(repository.ids)
      ensures Answers(options, old(repository.Sessions(now)), now, call, answer)
      ensures repository.Sessions(now) == After(options, old(repository.Sessions(now)), now, call)
    {
      if call.List? {
        var listed := List(now, call.userId);
        answer := Listed(listed);
      } else if call.Revoke? {
        repository.Revoke(now, call.digest, call.userId);
        answer := Done;
      } else if call.RevokeSome? {
        answer := PerformRevoke(now, call.userId, call.choice);
      } else {
        answer := PerformUse(now, call);
      }
    }

    method PerformUse(now: int, call: Call) returns (answer: Answer)
      requires Valid(now) && (call.Authenticate? || call.MarkStrong?)
      modifies repository
      ensures Valid(now) && repository.digests == old(repository.digests) && repository.ids == old(repository.ids)
      ensures Answers(options, old(repository.Sessions(now)), now, call, answer)
      ensures repository.Sessions(now) == After(options, old(repository.Sessions(now)), now, call)
    {
      if call.Authenticate? {
        var found := Authenticate(now, call.digest);
        answer := if found.Some? then Session(found.value) else NoSession;
      } else {
        var marked := MarkStrongAuthenticated(now, call.digest, call.userId);
        answer := if marked.Ok? then Session(marked.value) else Refused(marked.error);
      }
    }

    method PerformRevoke(now: int, userId: Identifier, choice: Choice) returns (answer: Answer)
      requires Valid(now)
      modifies repository
      ensures Valid(now) && repository.digests == old(repository.digests) && repository.ids == old(repository.ids)
      ensures Answers(options, old(repository.Sessions(now)), now, RevokeSome(userId, choice), answer)
      ensures repository.Sessions(now) == old(repository.Sessions(now)) - Picked(old(repository.Sessions(now)), userId, choice)
    {
      match choice {
        case All =>
          repository.RevokeAll(now, userId);
          answer := Done;
        case Id(id) =>
          var revoked := repository.RevokeById(now, userId, id);
          answer := Found(revoked);
        case _ =>
          var revoked := repository.RevokeMatching(now, userId, choice);
          answer := Revoked(revoked);
      }
    }
  }

  // ---- runs ----

  datatype Timed = Timed(at: int, call: Call)

  /** The plain map after the calls. */
  function Run(options: Options, calls: seq<Timed>): Sessions {
    if calls == [] then map[] else
    var last := calls[|calls| - 1];
    After(options, At(Run(options, calls[..|calls| - 1]), last.at), last.at, last.call)
  }

  /** Clock readings do not decrease, and every created session has its own digest and identifier. */
  ghost predicate Plausible(calls: seq<Timed>) {
    (forall i, j :: 0 <= i < j < |calls| ==> calls[i].at <= calls[j].at)
    && forall i, j :: 0 <= i < j < |calls| && calls[i].call.Create? && calls[j].call.Create? ==>
         calls[i].call.digest != calls[j].call.digest && calls[i].call.id != calls[j].call.id
  }

  /** Answer i is the plain map's, given what the calls before it left. */
  ghost predicate AnswersAt(options: Options, calls: seq<Timed>, answer: Answer, i: nat)
    requires i < |calls|
  {
    var now := calls[i].at;
    Answers(options, At(Run(options, calls[..i]), now), now, calls[i].call, answer)
  }

  ghost function Digests(calls: seq<Timed>): set<Digest> {
    set i | 0 <= i < |calls| && calls[i].call.Create? :: calls[i].call.digest
  }

  ghost function Ids(calls: seq<Timed>): set<Identifier> {
    set i | 0 <= i < |calls| && calls[i].call.Create? :: calls[i].call.id
  }

  /** From an empty database, every call of every run answers as the plain map does, and so does any later look at the store. */
  method PerformAll(options: Options, calls: seq<Timed>) returns (answers: seq<Answer>, manager: SessionManager)
    requires Accepted(options) && Plausible(calls)
    ensures |answers| == |calls|
    ensures forall i :: 0 <= i < |calls| ==> AnswersAt(options, calls, answers[i], i)
    ensures calls != [] ==>
              var now := calls[|calls| - 1].at;
              manager.repository.Valid(now) && manager.repository.Sessions(now) == At(Run(options, calls), now)
  {
    var repository := new RedisSessionRepository();
    manager := new SessionManager.Unchecked(repository, options);
    answers := [];
    ghost var clock := 0;
    for i := 0 to |calls|
      invariant |answers| == i && manager.repository == repository && manager.options == options && fresh(repository)
      invariant i == 0 ==> forall now :: Reached(manager, calls, 0, now)
      invariant i > 0 ==> clock == calls[i - 1].at && Reached(manager, calls, i, clock)
      invariant forall k :: 0 <= k < i ==> AnswersAt(options, calls, answers[k], k)
    {
      assert Reached(manager, calls, i, if i == 0 then calls[i].at else clock);
      var answer := PerformNext(manager, calls, i, if i == 0 then calls[i].at else clock);
      answers, clock := answers + [answer], calls[i].at;
    }
    assert calls[..|calls|] == calls;
  }

  /** The manager's store is where the first i calls leave it. */
  ghost predicate Reached(manager: SessionManager, calls: seq<Timed>, i: nat, clock: int)
    reads manager.repository
    requires i <= |calls|
  {
    manager.Valid(clock) && manager.repository.digests == Digests(calls[..i]) && manager.repository.ids == Ids(calls[..i])
    && manager.repository.Sessions(clock) == At(Run(manager.options, calls[..i]), clock)
  }

  method PerformNext(manager: SessionManager, calls: seq<Timed>, i: nat, ghost clock: int) returns (answer: Answer)
    requires Plausible(calls) && i < |calls| && clock <= calls[i].at && Reached(manager, calls, i, clock)
    modifies manager.repository
    ensures Reached(manager, calls, i + 1, calls[i].at) && AnswersAt(manager.options, calls, answer, i)
  {
    FreshNames(calls, i);
    TimePasses(manager.repository.db, Run(manager.options, calls[..i]), clock, calls[i].at);
    answer := manager.Perform(calls[i].at, calls[i].call);
    RunOneMore(manager.options, calls, i);
  }

  lemma TimePasses(st: Store, sessions: Sessions, clock: int, now: int)
    requires Live(st, clock) == At(sessions, clock) && clock <= now
    ensures Live(st, now) == At(sessions, now)
  {
    LaterLive(st, clock, now);
  }

  lemma RunOneMore(options: Options, calls: seq<Timed>, i: nat)
    requires i < |calls| && Accepted(options)
    ensures
      var now := calls[i].at;
      var after := After(options, At(Run(options, calls[..i]), now), now, calls[i].call);
      Run(options, calls[..i + 1]) == after == At(after, now)
  {
    assert calls[..i + 1][..i] == calls[..i];
    AfterUnexpired(options, At(Run(options, calls[..i]), calls[i].at), calls[i].at, calls[i].call);
  }

  lemma AfterUnexpired(options: Options, live: Sessions, now: int, call: Call)
    requires Accepted(options) && At(live, now) == live
    ensures At(After(options, live, now, call), now) == After(options, live, now, call)
  {
  }

  lemma FreshNames(calls: seq<Timed>, i: nat)
    requires Plausible(calls) && i < |calls|
    ensures calls[i].call.Create? ==> calls[i].call.digest !in Digests(calls[..i]) && calls[i].call.id !in Ids(calls[..i])
    ensures Digests(calls[..i + 1]) == Digests(calls[..i]) + (if calls[i].call.Create? then {calls[i].call.digest} else {})
    ensures Ids(calls[..i + 1]) == Ids(calls[..i]) + (if calls[i].call.Create? then {calls[i].call.id} else {})
  {
    var before, after := calls[..i], calls[..i + 1];
    assert forall k :: 0 <= k < i ==> after[k] == before[k] == calls[k];
    assert after[i] == calls[i];
  }

  // ---- what the plain map says over runs ----

  /** A session that a run no longer has does not come back without being created anew. */
  lemma {:induction false} GoneStaysGone(options: Options, calls: seq<Timed>, d: Digest, i: nat)
    requires i <= |calls| && d !in Run(options, calls[..i])
    requires NeverCreated(calls, i, d)
    ensures d !in Run(options, calls)
  {
    if i == |calls| {
      assert calls[..i] == calls;
    } else {
      assert calls[..|calls| - 1][..i] == calls[..i];
      GoneStaysGone(options, calls[..|calls| - 1], d, i);
    }
  }

  lemma RevokedNow(options: Options, calls: seq<Timed>, i: nat, d: Digest)
    requires i < |calls| && calls[i].call.RevokeSome?
    ensures
      var before := At(Run(options, calls[..i]), calls[i].at);
      var picked := Picked(before, calls[i].call.userId, calls[i].call.choice);
      Run(options, calls[..i + 1]) == before - picked
  {
    assert calls[..i + 1][..i] == calls[..i];
  }

  /** After revoking, none of the chosen sessions of that user is ever found again, and every other live session is as before. */
  lemma RevokedForGood(options: Options, calls: seq<Timed>, i: nat, d: Digest)
    requires i < |calls| && calls[i].call.RevokeSome?
    ensures
      var before := At(Run(options, calls[..i]), calls[i].at);
      var picked := Picked(before, calls[i].call.userId, calls[i].call.choice);
      (d in before && d !in picked ==> d in Run(options, calls[..i + 1]) && Run(options, calls[..i + 1])[d] == before[d])
      && (d in picked && NeverCreated(calls, i + 1, d) ==> d !in Run(options, calls))
  {
    RevokedNow(options, calls, i, d);
    var picked := Picked(At(Run(options, calls[..i]), calls[i].at), calls[i].call.userId, calls[i].call.choice);
    if d in picked && NeverCreated(calls, i + 1, d) {
      GoneStaysGone(options, calls, d, i + 1);
    }
  }

  /** From call i on, no session is created under this digest. */
  ghost predicate NeverCreated(calls: seq<Timed>, i: nat, d: Digest) {
    forall k :: i <= k < |calls| && calls[k].call.Create? ==> calls[k].call.digest != d
  }

  predicate Uses(call: Call, d: Digest) {
    (call.Create? || call.Authenticate?) && call.digest == d
  }

  /** Where a session in the map after a call comes from. */
  lemma AfterCases(options: Options, live: Sessions, now: int, call: Call, d: Digest)
    requires d in After(options, live, now, call)
    ensures
      var s := After(options, live, now, call)[d];
      (call.Create? && call.digest == d && s == New(options, now, call.id, call.userId, call.strength, call.authenticatorId))
      || (d in live
          && (s == live[d] || (call == Authenticate(d) && s == Used(options, live[d], now))
              || (call.MarkStrong? && !live[d].authStrength.PasswordRecovery? && s == live[d].(strongAuthenticatedAt := Some(now)))))
  {
  }

  /** The expiry times and the time of last activity are those that this use gave. */
  predicate ExpiryFrom(options: Options, s: StoredSession, t: Timed, d: Digest) {
    Uses(t.call, d) && s.lastActiveAt == t.at
    && s.idleExpiresAt == t.at + options.idleTtl && s.absoluteExpiresAt == t.at + options.absoluteTtl
  }

  predicate CreatedBy(s: StoredSession, t: Timed, d: Digest) {
    t.call.Create? && t.call.digest == d && s.createdAt == t.at && s.id == t.call.id && s.userId == t.call.userId
    && s.authStrength == t.call.strength && s.authenticatorId == t.call.authenticatorId
  }

  /** Whose session it is and how it was opened never change. */
  lemma {:induction false} IdentityKept(options: Options, calls: seq<Timed>, d: Digest)
    requires d in Run(options, calls)
    ensures exists k :: 0 <= k < |calls| && CreatedBy(Run(options, calls)[d], calls[k], d)
  {
    var n := |calls| - 1;
    var before := At(Run(options, calls[..n]), calls[n].at);
    AfterCases(options, before, calls[n].at, calls[n].call, d);
    if CreatedBy(Run(options, calls)[d], calls[n], d) {
    } else {
      IdentityKept(options, calls[..n], d);
      var k :| 0 <= k < n && CreatedBy(Run(options, calls[..n])[d], calls[..n][k], d);
      assert CreatedBy(Run(options, calls)[d], calls[k], d);
    }
  }

  /** A session idles out a fixed time after one of its uses; nothing else moves its expiry. */
  lemma {:induction false} ExpiryFollowsUse(options: Options, calls: seq<Timed>, d: Digest)
    requires d in Run(options, calls)
    ensures exists k :: 0 <= k < |calls| && ExpiryFrom(options, Run(options, calls)[d], calls[k], d)
  {
    var n := |calls| - 1;
    var before := At(Run(options, calls[..n]), calls[n].at);
    AfterCases(options, before, calls[n].at, calls[n].call, d);
    if ExpiryFrom(options, Run(options, calls)[d], calls[n], d) {
    } else {
      ExpiryFollowsUse(options, calls[..n], d);
      var k :| 0 <= k < n && ExpiryFrom(options, Run(options, calls[..n])[d], calls[..n][k], d);
      assert ExpiryFrom(options, Run(options, calls)[d], calls[k], d);
    }
  }

  /** A session opened with a recovery code never counts as strongly authenticated. */
  lemma {:induction false} RecoveryNeverStrong(options: Options, calls: seq<Timed>, d: Digest)
    requires d in Run(options, calls) && Run(options, calls)[d].authStrength.PasswordRecovery?
    ensures Run(options, calls)[d].strongAuthenticatedAt.None?
  {
    var n := |calls| - 1;
    var before := At(Run(options, calls[..n]), calls[n].at);
    AfterCases(options, before, calls[n].at, calls[n].call, d);
    if d in before && before[d].authStrength.PasswordRecovery? {
      RecoveryNeverStrong(options, calls[..n], d);
    }
  }
}
