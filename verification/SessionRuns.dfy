/** What sessions do over runs, written out: what each call makes of a session, and that use keeps one alive. */
module SessionRuns {
  import opened Prelude
  import opened SessionSpec
  import opened SessionManagers

  /** The sessions that the i-th call finds, and those it leaves. */
  function Before(options: Options, calls: seq<Timed>, i: nat): Sessions
    requires i < |calls|
  {
    At(Run(options, calls[..i]), calls[i].at)
  }

  function Left(options: Options, calls: seq<Timed>, i: nat): Sessions
    requires i < |calls|
  {
    Run(options, calls[..i + 1])
  }

  lemma LeftIs(options: Options, calls: seq<Timed>, i: nat)
    requires i < |calls|
    ensures Left(options, calls, i) == After(options, Before(options, calls, i), calls[i].at, calls[i].call)
  {
    assert calls[..i + 1][..i] == calls[..i];
  }

  /** A session can be found as long as neither of its times is up. */
  lemma FoundIff(options: Options, calls: seq<Timed>, i: nat, d: Digest)
    requires i < |calls|
    ensures var sessions := Run(options, calls[..i]);
            d in Before(options, calls, i) <==>
            d in sessions && calls[i].at < sessions[d].idleExpiresAt && calls[i].at < sessions[d].absoluteExpiresAt
    ensures d in Before(options, calls, i) ==> Before(options, calls, i)[d] == Run(options, calls[..i])[d]
  {
  }

  // ---- one call ----

  predicate SameButTimes(a: StoredSession, b: StoredSession) {
    b.id == a.id && b.userId == a.userId && b.authenticatorId == a.authenticatorId && b.authStrength == a.authStrength
    && b.createdAt == a.createdAt && b.strongAuthenticatedAt == a.strongAuthenticatedAt
  }

  /** `Authenticate` renews a live session exactly when its last recorded use is at least the write interval back. */
  lemma UseOutcome(options: Options, calls: seq<Timed>, i: nat, d: Digest)
    requires i < |calls| && calls[i].call == Authenticate(d) && d in Before(options, calls, i)
    ensures d in Left(options, calls, i) && Left(options, calls, i).Keys == Before(options, calls, i).Keys
    ensures
      var s, used, now := Before(options, calls, i)[d], Left(options, calls, i)[d], calls[i].at;
      if now - s.lastActiveAt >= options.activityWriteInterval
      then SameButTimes(s, used) && used.idleExpiresAt == now + options.idleTtl
           && used.absoluteExpiresAt == now + options.absoluteTtl && used.lastActiveAt == now
      else used == s
    ensures forall other :: other in Before(options, calls, i) && other != d ==> Left(options, calls, i)[other] == Before(options, calls, i)[other]
  {
    LeftIs(options, calls, i);
  }

  /** A session is created as asked, with all its times counted from now, exactly when fewer than two hundred are live. */
  lemma CreateOutcome(options: Options, calls: seq<Timed>, i: nat)
    requires i < |calls| && calls[i].call.Create?
    ensures
      var before, left, call, now := Before(options, calls, i), Left(options, calls, i), calls[i].call, calls[i].at;
      if |before| >= 200 then left == before else
        call.digest in left && left[call.digest].id == call.id && left[call.digest].userId == call.userId
        && left[call.digest].authenticatorId == call.authenticatorId && left[call.digest].authStrength == call.strength
        && left[call.digest].createdAt == now && left[call.digest].lastActiveAt == now
        && left[call.digest].idleExpiresAt == now + options.idleTtl && left[call.digest].absoluteExpiresAt == now + options.absoluteTtl
        && left[call.digest].strongAuthenticatedAt == (if call.strength == AuthStrength.PasswordRecovery then None else Some(now))
        && left.Keys == before.Keys + {call.digest}
        && forall d :: d in before && d != call.digest ==> left[d] == before[d]
  {
    LeftIs(options, calls, i);
  }

  /** A step-up counts exactly for a live session of that user that no recovery code opened. */
  lemma StepUpIff(options: Options, calls: seq<Timed>, i: nat, d: Digest, userId: Identifier)
    requires i < |calls| && calls[i].call == MarkStrong(d, userId)
    ensures
      var before, left := Before(options, calls, i), Left(options, calls, i);
      if d in before && before[d].userId == userId && before[d].authStrength != AuthStrength.PasswordRecovery
      then left == before[d := before[d].(strongAuthenticatedAt := Some(calls[i].at))]
      else left == before
  {
    LeftIs(options, calls, i);
  }

  /** The session is one that the call revokes. */
  predicate Named(call: Call, d: Digest, s: StoredSession) {
    match call
    case Revoke(digest, _) => d == digest
    case RevokeSome(userId, All) => s.userId == userId
    case RevokeSome(userId, Id(id)) => s.userId == userId && s.id == id
    case RevokeSome(userId, NotId(keep)) => s.userId == userId && s.id != keep
    case RevokeSome(userId, Authenticator(a)) => s.userId == userId && s.authenticatorId == Some(a)
    case _ => false
  }

  /** A revocation, and no other call, removes sessions: exactly those it names. */
  lemma RemovedIff(options: Options, calls: seq<Timed>, i: nat, d: Digest)
    requires i < |calls| && d in Before(options, calls, i)
    ensures d !in Left(options, calls, i) <==> Named(calls[i].call, d, Before(options, calls, i)[d])
  {
    LeftIs(options, calls, i);
    RemovesIff(options, Before(options, calls, i), calls[i].at, calls[i].call, d);
  }

  lemma RemovesIff(options: Options, live: Sessions, now: int, call: Call, d: Digest)
    requires d in live
    ensures d !in After(options, live, now, call) <==> Named(call, d, live[d])
  {
  }

  /** What a call answers with is the session it leaves in the store. */
  lemma UseAnswers(options: Options, calls: seq<Timed>, i: nat, answer: Answer, d: Digest)
    requires i < |calls| && AnswersAt(options, calls, answer, i) && calls[i].call == Authenticate(d)
    ensures answer == if d in Before(options, calls, i) && d in Left(options, calls, i) then Session(Left(options, calls, i)[d]) else NoSession
  {
    LeftIs(options, calls, i);
  }

  lemma CreateAnswers(options: Options, calls: seq<Timed>, i: nat, answer: Answer)
    requires i < |calls| && AnswersAt(options, calls, answer, i) && calls[i].call.Create?
    ensures
      if |Before(options, calls, i)| < 200
      then calls[i].call.digest in Left(options, calls, i) && answer == Session(Left(options, calls, i)[calls[i].call.digest])
      else answer == Refused("browser_session_capacity_exceeded")
  {
    LeftIs(options, calls, i);
  }

  lemma StepUpAnswers(options: Options, calls: seq<Timed>, i: nat, answer: Answer, d: Digest, userId: Identifier)
    requires i < |calls| && AnswersAt(options, calls, answer, i) && calls[i].call == MarkStrong(d, userId)
    ensures
      var before := Before(options, calls, i);
      if d in before && before[d].userId == userId && before[d].authStrength != AuthStrength.PasswordRecovery
      then answer == Session(before[d].(strongAuthenticatedAt := Some(calls[i].at)))
      else answer == Refused("step_up_invalid")
  {
  }

  /** A listing has exactly the user's sessions that can be found, as often as there are. */
  lemma ListAnswers(options: Options, calls: seq<Timed>, i: nat, answer: Answer, userId: Identifier)
    requires i < |calls| && AnswersAt(options, calls, answer, i) && calls[i].call == List(userId)
    ensures answer.Listed? && Left(options, calls, i) == Before(options, calls, i)
    ensures
      var before := Before(options, calls, i);
      (forall s :: s in answer.sessions <==> exists d :: d in before && before[d] == s && s.userId == userId)
      && |answer.sessions| == |set d | d in before && before[d].userId == userId|
  {
    LeftIs(options, calls, i);
    var before := Before(options, calls, i);
    var ds: seq<Digest> :| NoDup(ds) && Elements(ds) == Picked(before, userId, All) && ListedAs(answer.sessions, before, ds);
    NoDupSize(ds);
    assert Picked(before, userId, All) == set d | d in before && before[d].userId == userId;
    forall s ensures s in answer.sessions <==> exists d :: d in before && before[d] == s && s.userId == userId {
      if s in answer.sessions {
        var k :| 0 <= k < |ds| && answer.sessions[k] == s;
        assert ds[k] in Elements(ds);
      }
      if d :| d in before && before[d] == s && s.userId == userId {
        assert d in Elements(ds);
        var k :| 0 <= k < |ds| && ds[k] == d;
        assert answer.sessions[k] == s;
      }
    }
  }

  // ---- use keeps a session alive ----

  /** After a use at t: the recorded last use is not before t, or the write interval after it has not passed. */
  predicate Recent(options: Options, s: StoredSession, t: int) {
    s.lastActiveAt >= t || t - s.lastActiveAt < options.activityWriteInterval
  }

  /** At the k-th call some use, from the i-th call on, is near enough: no further back than the idle time less the write interval. */
  ghost predicate UsedBefore(options: Options, calls: seq<Timed>, i: nat, k: nat, d: Digest)
    requires k < |calls|
  {
    exists j :: i <= j < k && (j == i || calls[j].call == Authenticate(d))
                && calls[k].at - calls[j].at + options.activityWriteInterval <= options.idleTtl && calls[k].at - calls[j].at < options.idleTtl
  }

  ghost predicate Steady(options: Options, calls: seq<Timed>, i: nat, d: Digest) {
    (forall k :: i < k < |calls| ==> UsedBefore(options, calls, i, k, d))
    && forall k :: i < k < |calls| ==> Spared(options, calls, k, d)
  }

  /** The k-th call does not revoke the session. */
  ghost predicate Spared(options: Options, calls: seq<Timed>, k: nat, d: Digest)
    requires k < |calls|
  {
    d in Before(options, calls, k) ==> !Named(calls[k].call, d, Before(options, calls, k)[d])
  }

  ghost predicate KeptInUse(options: Options, calls: seq<Timed>, i: nat, d: Digest) {
    Accepted(options) && Plausible(calls) && Starts(options, calls, i, d) && Steady(options, calls, i, d) && NeverCreated(calls, i + 1, d)
  }

  /** The call opened the session or used it. */
  ghost predicate Starts(options: Options, calls: seq<Timed>, i: nat, d: Digest) {
    i < |calls| && d in Left(options, calls, i)
    && (calls[i].call == Authenticate(d) || (calls[i].call.Create? && calls[i].call.digest == d && |Before(options, calls, i)| < 200))
  }

  /** Both expiry times are counted from the recorded last use. */
  lemma TimesFromLastUse(options: Options, calls: seq<Timed>, d: Digest)
    requires d in Run(options, calls)
    ensures
      var s := Run(options, calls)[d];
      s.idleExpiresAt == s.lastActiveAt + options.idleTtl && s.absoluteExpiresAt == s.lastActiveAt + options.absoluteTtl
  {
    ExpiryFollowsUse(options, calls, d);
  }

  /** Alive after the first n calls, and recently used as seen from each use among them. */
  ghost predicate Alive(options: Options, calls: seq<Timed>, i: nat, n: nat, d: Digest)
    requires n <= |calls|
  {
    d in Run(options, calls[..n]) && SeenAll(options, Run(options, calls[..n])[d], calls, i, n, d)
  }

  /** The j-th call was no use of the session, or the session shows it. */
  predicate SeenAt(options: Options, s: StoredSession, calls: seq<Timed>, i: nat, j: nat, d: Digest)
    requires j < |calls|
  {
    j == i || calls[j].call == Authenticate(d) ==> Recent(options, s, calls[j].at)
  }

  ghost predicate SeenAll(options: Options, s: StoredSession, calls: seq<Timed>, i: nat, n: nat, d: Digest)
    requires n <= |calls|
  {
    forall j :: i <= j < n ==> SeenAt(options, s, calls, i, j, d)
  }

  lemma StartAlive(options: Options, calls: seq<Timed>, i: nat, d: Digest)
    requires Starts(options, calls, i, d)
    ensures Alive(options, calls, i, i + 1, d)
  {
    LeftIs(options, calls, i);
    if calls[i].call == Authenticate(d) {
      UseOutcome(options, calls, i, d);
    } else {
      CreateOutcome(options, calls, i);
    }
  }

  /** The session is still there when the k-th call comes. */
  lemma StillFound(options: Options, calls: seq<Timed>, i: nat, k: nat, d: Digest)
    requires Accepted(options) && i < k < |calls| && Alive(options, calls, i, k, d) && UsedBefore(options, calls, i, k, d)
    ensures d in Before(options, calls, k)
  {
    var j :| i <= j < k && (j == i || calls[j].call == Authenticate(d))
             && calls[k].at - calls[j].at + options.activityWriteInterval <= options.idleTtl && calls[k].at - calls[j].at < options.idleTtl;
    assert SeenAt(options, Run(options, calls[..k])[d], calls, i, j, d);
    TimesFromLastUse(options, calls[..k], d);
    FoundIff(options, calls, k, d);
  }

  /** What one call does to the recorded last use of a session that it neither creates nor revokes. */
  lemma LastUseMoves(options: Options, calls: seq<Timed>, k: nat, d: Digest)
    requires k < |calls| && d in Before(options, calls, k) && !Named(calls[k].call, d, Before(options, calls, k)[d])
    requires calls[k].call.Create? ==> calls[k].call.digest != d
    ensures d in Left(options, calls, k)
    ensures
      var last, now := Left(options, calls, k)[d].lastActiveAt, calls[k].at;
      (last == Before(options, calls, k)[d].lastActiveAt || last == now)
      && (calls[k].call == Authenticate(d) ==> Recent(options, Left(options, calls, k)[d], now))
  {
    RemovedIff(options, calls, k, d);
    LeftIs(options, calls, k);
    AfterCases(options, Before(options, calls, k), calls[k].at, calls[k].call, d);
    if calls[k].call == Authenticate(d) {
      UseOutcome(options, calls, k, d);
    }
  }

  lemma OneCallAlive(options: Options, calls: seq<Timed>, i: nat, k: nat, d: Digest)
    requires KeptInUse(options, calls, i, d) && i < k < |calls| && Alive(options, calls, i, k, d)
    ensures Alive(options, calls, i, k + 1, d)
  {
    assert UsedBefore(options, calls, i, k, d) && Spared(options, calls, k, d);
    StillFound(options, calls, i, k, d);
    FoundIff(options, calls, k, d);
    LastUseMoves(options, calls, k, d);
    var s, left := Run(options, calls[..k])[d], Left(options, calls, k)[d];
    SeenMore(options, s, left, calls, i, k, d);
  }

  lemma SeenMore(options: Options, s: StoredSession, left: StoredSession, calls: seq<Timed>, i: nat, k: nat, d: Digest)
    requires Plausible(calls) && i < k < |calls| && SeenAll(options, s, calls, i, k, d)
    requires left.lastActiveAt == s.lastActiveAt || left.lastActiveAt == calls[k].at
    requires calls[k].call == Authenticate(d) ==> Recent(options, left, calls[k].at)
    ensures SeenAll(options, left, calls, i, k + 1, d)
  {
    forall j | i <= j < k + 1 ensures SeenAt(options, left, calls, i, j, d) {
      if j < k {
        assert SeenAt(options, s, calls, i, j, d) && calls[j].at <= calls[k].at;
      }
    }
  }

  lemma {:induction false} ChainUp(holds: seq<bool>, i: nat, n: nat)
    requires i <= n < |holds| && holds[i] && forall k :: i <= k < n && holds[k] ==> holds[k + 1]
    ensures holds[n]
    decreases n
  {
    if i < n {
      ChainUp(holds, i, n - 1);
    }
  }

  lemma AliveThroughout(options: Options, calls: seq<Timed>, i: nat, n: nat, d: Digest)
    requires KeptInUse(options, calls, i, d) && i < n <= |calls|
    ensures Alive(options, calls, i, n, d)
  {
    var holds := seq(|calls| + 1, k requires 0 <= k <= |calls| => Alive(options, calls, i, k, d));
    StartAlive(options, calls, i, d);
    forall k | i + 1 <= k < n && holds[k] ensures holds[k + 1] {
      OneCallAlive(options, calls, i, k, d);
    }
    ChainUp(holds, i + 1, n);
  }

  /**
   * A session that is used often enough and not revoked never ends: whenever a call comes, a use lies no further back than the idle
   * time less the write interval. Every later call finds it, and it outlasts them all.
   */
  lemma UseKeepsAlive(options: Options, calls: seq<Timed>, i: nat, d: Digest)
    requires KeptInUse(options, calls, i, d)
    ensures d in Run(options, calls) && forall k :: i < k < |calls| ==> d in Before(options, calls, k)
  {
    AliveThroughout(options, calls, i, |calls|, d);
    assert calls[..|calls|] == calls;
    forall k | i < k < |calls| ensures d in Before(options, calls, k) {
      AliveThroughout(options, calls, i, k, d);
      assert UsedBefore(options, calls, i, k, d);
      StillFound(options, calls, i, k, d);
    }
  }

  /** A session that is not used for the idle time is found no more. */
  lemma DisuseEnds(options: Options, calls: seq<Timed>, i: nat, d: Digest)
    requires Accepted(options) && i < |calls| && d in Run(options, calls[..i])
    requires forall j :: 0 <= j < i && Uses(calls[j].call, d) ==> calls[i].at - calls[j].at >= options.idleTtl
    ensures d !in Before(options, calls, i)
  {
    ExpiryFollowsUse(options, calls[..i], d);
    var k :| 0 <= k < |calls[..i]| && ExpiryFrom(options, Run(options, calls[..i])[d], calls[..i][k], d);
    assert Uses(calls[k].call, d);
    FoundIff(options, calls, i, d);
  }
}
