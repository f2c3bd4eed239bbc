/** When a second factor is accepted: one call from its begin to its end, in terms of the stores before it. */
module SecondFactorOutcomes {
  import opened Prelude
  import opened SecondFactorSpec

  /** A whole call with nothing in between. Steps that do not apply, after a refusal, do nothing. */
  function Completed(counterFor: CounterFor, s: System, call: nat, token: Token, credential: Credential, now: int, made: bool): System {
    var begun := Step(counterFor, s, Begin(call, token, credential));
    if begun == s then s else
    Step(counterFor, Step(counterFor, Checked(counterFor, begun, call, now), OpenSession(call, made)), Finish(call))
  }

  function Checked(counterFor: CounterFor, s: System, call: nat, now: int): System {
    if call !in s.calls then s
    else if s.calls[call].credential.Recovery? then Step(counterFor, s, Consume(call))
    else Step(counterFor, Step(counterFor, s, Find(call, now)), RecordCounter(call))
  }

  // ---- good credentials ----

  /** The row holds this code of this user, and it can still be used. */
  predicate Usable(codes: Codes, userId: Id, digest: CodeDigest, i: Id) {
    i in codes && codes[i].userId == userId && codes[i].digest == digest && !codes[i].revoked && !codes[i].used
  }

  ghost predicate OneUsable(codes: Codes, userId: Id, digest: CodeDigest) {
    exists i :: Usable(codes, userId, digest, i) && forall j :: Usable(codes, userId, digest, j) ==> j == i
  }

  /** The counter a one-time code stands for is newer than any accepted before. */
  predicate NewCounter(counterFor: CounterFor, authenticators: Authenticators, userId: Id, code: string, now: int) {
    userId in authenticators && authenticators[userId].enabled
    && var counter := counterFor(authenticators[userId].id, code, now);
       counter.Some? && (authenticators[userId].last.None? || authenticators[userId].last.value < counter.value)
  }

  ghost predicate Good(counterFor: CounterFor, authenticators: Authenticators, codes: Codes, userId: Id, credential: Credential, now: int) {
    match credential
    case Recovery(digest) => OneUsable(codes, userId, digest)
    case Totp(code) => NewCounter(counterFor, authenticators, userId, code, now)
  }

  predicate Proves(strength: Strength, credential: Credential) {
    (strength == Strength.PasswordRecovery && credential.Recovery?) || (strength == Strength.PasswordTotp && credential.Totp?)
  }

  // ---- what is recorded ----

  /** Every usable row of that code is used up, and no other row changed. */
  ghost predicate UsedUp(codes: Codes, codes': Codes, userId: Id, digest: CodeDigest) {
    codes'.Keys == codes.Keys
    && forall i :: i in codes ==> codes'[i] == if Usable(codes, userId, digest, i) then codes[i].(used := true) else codes[i]
  }

  ghost predicate CounterStored(counterFor: CounterFor, rows: Authenticators, rows': Authenticators, userId: Id, code: string, now: int) {
    userId in rows && rows'.Keys == rows.Keys && rows'[userId].last == counterFor(rows[userId].id, code, now)
    && rows'[userId].id == rows[userId].id && rows'[userId].enabled == rows[userId].enabled
    && forall u :: u in rows && u != userId ==> rows'[u] == rows[u]
  }

  /** What checking a credential leaves in the database. */
  ghost predicate Recorded(counterFor: CounterFor, s: System, s': System, userId: Id, credential: Credential, now: int) {
    match credential
    case Recovery(digest) => s'.authenticators == s.authenticators && UsedUp(s.codes, s'.codes, userId, digest)
    case Totp(code) =>
      s'.codes == s.codes
      && if NewCounter(counterFor, s.authenticators, userId, code, now)
         then CounterStored(counterFor, s.authenticators, s'.authenticators, userId, code, now)
         else s'.authenticators == s.authenticators
  }

  lemma SingletonIff(codes: Codes, userId: Id, digest: CodeDigest)
    ensures |Unspent(codes, userId, digest)| == 1 <==> OneUsable(codes, userId, digest)
  {
    var matched := Unspent(codes, userId, digest);
    assert forall i :: i in matched <==> Usable(codes, userId, digest, i);
    if |matched| == 1 {
      var i :| i in matched;
      assert |matched - {i}| == 0;
      assert forall j :: j in matched ==> j == i || j in matched - {i};
    }
    if OneUsable(codes, userId, digest) {
      var i :| Usable(codes, userId, digest, i) && forall j :: Usable(codes, userId, digest, j) ==> j == i;
      assert matched == {i};
    }
  }

  /** A check ends verified, with the strength of its kind, exactly for a good credential. */
  lemma CheckedIff(counterFor: CounterFor, s: System, call: nat, now: int)
    requires At(s, call, Verifying)
    ensures
      var s', c := Checked(counterFor, s, call, now), s.calls[call];
      var good := Good(counterFor, s.authenticators, s.codes, c.userId, c.credential, now);
      s'.records == s.records && call in s'.calls && s'.calls[call] == c.(phase := s'.calls[call].phase)
      && (if good then s'.calls[call].phase.Verified? && Proves(s'.calls[call].phase.strength, c.credential) else s'.calls[call].phase == Rejected)
      && Recorded(counterFor, s, s', c.userId, c.credential, now)
  {
    var c := s.calls[call];
    if c.credential.Recovery? {
      SingletonIff(s.codes, c.userId, c.credential.digest);
    } else {
      TotpIff(counterFor, s, call, now);
    }
  }

  lemma TotpIff(counterFor: CounterFor, s: System, call: nat, now: int)
    requires At(s, call, Verifying) && s.calls[call].credential.Totp?
    ensures
      var s', c := Checked(counterFor, s, call, now), s.calls[call];
      s'.records == s.records && call in s'.calls && s'.calls[call] == c.(phase := s'.calls[call].phase)
      && s'.calls[call].phase == (if NewCounter(counterFor, s.authenticators, c.userId, c.credential.code, now)
                                  then Verified(PasswordTotp) else Rejected)
      && Recorded(counterFor, s, s', c.userId, c.credential, now)
  {
    var found := Step(counterFor, s, Find(call, now));
    var c := s.calls[call];
    if NewCounter(counterFor, s.authenticators, c.userId, c.credential.code, now) {
      var row := s.authenticators[c.userId];
      assert found.calls[call].phase == Found(row.id, counterFor(row.id, c.credential.code, now).value);
    } else {
      assert found.calls[call].phase == Rejected;
    }
  }

  // ---- a whole call ----

  /** The challenge can be attempted. */
  predicate Startable(records: Records, token: Token) {
    token in records && !records[token].busy && records[token].attempts >= 1
  }

  /** After a failed attempt the challenge is free again with one attempt less, or gone if that was the last. */
  predicate OneLess(records: Records, records': Records, token: Token)
    requires token in records
  {
    records' == if records[token].attempts == 1 then records - {token}
                else records[token := Record(records[token].userId, records[token].attempts - 1, false)]
  }

  /** The stores before and after a call, and what it answers. */
  ghost predicate CallOutcome(
      counterFor: CounterFor, s: System, s': System, token: Token, credential: Credential, now: int, made: bool, session: Result<Strength>)
  {
    if !Startable(s.records, token) then
      s'.records == s.records && s'.authenticators == s.authenticators && s'.codes == s.codes && session == Err("second_factor_invalid")
    else
      var userId := s.records[token].userId;
      Recorded(counterFor, s, s', userId, credential, now)
      && if Good(counterFor, s.authenticators, s.codes, userId, credential, now) then
           s'.records == s.records - {token}
           && if made then session.Ok? && Proves(session.value, credential) else session == Err("session_not_created")
         else OneLess(s.records, s'.records, token) && session == Err("second_factor_invalid")
  }

  /** The answer the service gives: what the call's phase was when verification ended. */
  function Answer(counterFor: CounterFor, s: System, call: nat, token: Token, credential: Credential, now: int, made: bool): Result<Strength> {
    var begun := Step(counterFor, s, Begin(call, token, credential));
    var checked := Checked(counterFor, begun, call, now);
    if begun == s then Err("second_factor_invalid") else AnswerOf(checked, call, made)
  }

  function AnswerOf(checked: System, call: nat, made: bool): Result<Strength> {
    if call !in checked.calls || !checked.calls[call].phase.Verified? then Err("second_factor_invalid")
    else if made then Ok(checked.calls[call].phase.strength) else Err("session_not_created")
  }

  /** A call is accepted if and only if its challenge can be attempted and its credential is good. */
  lemma CompletedIff(counterFor: CounterFor, s: System, call: nat, token: Token, credential: Credential, now: int, made: bool)
    requires call !in s.calls
    ensures CallOutcome(counterFor, s, Completed(counterFor, s, call, token, credential, now, made), token, credential, now, made,
                        Answer(counterFor, s, call, token, credential, now, made))
  {
    var begun := Step(counterFor, s, Begin(call, token, credential));
    if Startable(s.records, token) {
      assert call in begun.calls && begun != s;
      CheckedIff(counterFor, begun, call, now);
      EndIs(counterFor, s, begun, Checked(counterFor, begun, call, now), call, token, made);
    } else {
      assert begun == s;
    }
  }

  lemma EndIs(counterFor: CounterFor, s: System, begun: System, checked: System, call: nat, token: Token, made: bool)
    requires Startable(s.records, token) && begun.records == s.records[token := Record(s.records[token].userId, s.records[token].attempts - 1, true)]
    requires checked.records == begun.records && call in checked.calls && checked.calls[call].token == Some(token)
    requires checked.calls[call].phase.Verified? || checked.calls[call].phase == Rejected
    ensures
      var end := Step(counterFor, Step(counterFor, checked, OpenSession(call, made)), Finish(call));
      end.authenticators == checked.authenticators && end.codes == checked.codes
      && if checked.calls[call].phase.Verified? then end.records == s.records - {token} else OneLess(s.records, end.records, token)
  {
    assert begun.records - {token} == s.records - {token};
  }

  // ---- trying again ----

  datatype Try = Try(call: nat, credential: Credential, now: int, made: bool)

  /** One call after the other for one challenge. */
  function Tried(counterFor: CounterFor, s: System, token: Token, tries: seq<Try>): System {
    if tries == [] then s else
    var last := tries[|tries| - 1];
    Completed(counterFor, Tried(counterFor, s, token, tries[..|tries| - 1]), last.call, token, last.credential, last.now, last.made)
  }

  /** The k-th try is a new call with a credential that is not good when it is made. */
  ghost predicate BadTry(counterFor: CounterFor, s: System, token: Token, userId: Id, tries: seq<Try>, k: nat)
    requires k < |tries|
  {
    var before := Tried(counterFor, s, token, tries[..k]);
    tries[k].call !in before.calls && !Good(counterFor, before.authenticators, before.codes, userId, tries[k].credential, tries[k].now)
  }

  /** Fewer bad tries than a challenge allows leave it there, free and counted down; so the next good one is accepted. */
  lemma {:induction false} TriesLeft(counterFor: CounterFor, s: System, token: Token, tries: seq<Try>)
    requires Startable(s.records, token) && |tries| < s.records[token].attempts
    requires forall k :: 0 <= k < |tries| ==> BadTry(counterFor, s, token, s.records[token].userId, tries, k)
    ensures
      var end := Tried(counterFor, s, token, tries);
      token in end.records && end.records[token] == Record(s.records[token].userId, s.records[token].attempts - |tries|, false)
  {
    if tries != [] {
      var n := |tries| - 1;
      var userId := s.records[token].userId;
      forall k | 0 <= k < n ensures BadTry(counterFor, s, token, userId, tries[..n], k) {
        assert tries[..n][..k] == tries[..k];
        assert BadTry(counterFor, s, token, userId, tries, k);
      }
      TriesLeft(counterFor, s, token, tries[..n]);
      assert BadTry(counterFor, s, token, userId, tries, n);
      var before := Tried(counterFor, s, token, tries[..n]);
      CompletedIff(counterFor, before, tries[n].call, token, tries[n].credential, tries[n].now, tries[n].made);
    }
  }

  lemma GoodAfterBad(counterFor: CounterFor, s: System, token: Token, tries: seq<Try>, call: nat, credential: Credential, now: int)
    requires Startable(s.records, token) && |tries| < s.records[token].attempts
    requires forall k :: 0 <= k < |tries| ==> BadTry(counterFor, s, token, s.records[token].userId, tries, k)
    requires
      var end := Tried(counterFor, s, token, tries);
      call !in end.calls && Good(counterFor, end.authenticators, end.codes, s.records[token].userId, credential, now)
    ensures Answer(counterFor, Tried(counterFor, s, token, tries), call, token, credential, now, true).Ok?
  {
    TriesLeft(counterFor, s, token, tries);
    CompletedIff(counterFor, Tried(counterFor, s, token, tries), call, token, credential, now, true);
  }

  // ---- setting up ----

  /** A new challenge allows the attempts it is given. */
  lemma IssueOutcome(counterFor: CounterFor, s: System, token: Token, userId: Id, attempts: nat)
    requires token !in s.issued && attempts >= 1
    ensures
      var s' := Step(counterFor, s, Issue(token, userId, attempts));
      s'.records == s.records[token := Record(userId, attempts, false)] && Startable(s'.records, token)
      && s'.authenticators == s.authenticators && s'.codes == s.codes && s'.calls == s.calls
  {
  }

  /** The user's codes that can still be used are exactly the new ones. */
  ghost predicate NewCodes(codes: Codes, codes': Codes, userId: Id, digests: map<Id, CodeDigest>) {
    codes'.Keys == codes.Keys + digests.Keys
    && (forall i :: i in digests ==> codes'[i] == Code(userId, digests[i], false, false))
    && forall i :: i in codes && i !in digests ==>
         codes'[i] == if codes[i].userId == userId then codes[i].(revoked := true) else codes[i]
  }

  /** Enrolling gives a user without a second factor an authenticator with no counter yet, and new codes in place of all old ones. */
  lemma EnrollOutcome(counterFor: CounterFor, s: System, userId: Id, id: Id, digests: map<Id, CodeDigest>)
    requires id !in s.enrolled && forall i :: i in digests ==> i !in s.codes
    ensures
      var s' := Step(counterFor, s, Enroll(userId, id, digests));
      if userId in s.authenticators && s.authenticators[userId].enabled then s' == s
      else s'.authenticators == s.authenticators[userId := Authenticator(id, true, None)] && NewCodes(s.codes, s'.codes, userId, digests)
           && s'.records == s.records && s'.calls == s.calls
  {
  }

  /** New codes replace all old ones, for a user with a second factor. */
  lemma ReplaceOutcome(counterFor: CounterFor, s: System, userId: Id, digests: map<Id, CodeDigest>)
    requires forall i :: i in digests ==> i !in s.codes
    ensures
      var s' := Step(counterFor, s, Replace(userId, digests));
      s'.authenticators == s.authenticators && s'.records == s.records && s'.calls == s.calls
      && if userId in s.authenticators && s.authenticators[userId].enabled then NewCodes(s.codes, s'.codes, userId, digests) else s'.codes == s.codes
  {
  }

  /** Disabling takes the authenticator and revokes the user's codes, and nothing else. */
  lemma DisableOutcome(counterFor: CounterFor, s: System, userId: Id)
    ensures
      var s' := Step(counterFor, s, Disable(userId));
      if userId in s.authenticators && s.authenticators[userId].enabled
      then s'.authenticators == s.authenticators - {userId} && NewCodes(s.codes, s'.codes, userId, map[])
           && s'.records == s.records && s'.calls == s.calls
      else s' == s
  {
  }

  // ---- step-up and expiry ----

  /** `verifyTotp`, which needs no challenge: it accepts exactly a new counter, and records it. */
  lemma StepUpIff(counterFor: CounterFor, s: System, call: nat, userId: Id, code: string, now: int)
    requires call !in s.calls
    ensures
      var checked := Checked(counterFor, Step(counterFor, s, StepUp(call, userId, code)), call, now);
      var end := Step(counterFor, checked, Finish(call));
      At(checked, call, if NewCounter(counterFor, s.authenticators, userId, code, now) then Verified(PasswordTotp) else Rejected)
      && Recorded(counterFor, s, checked, userId, Totp(code), now) && checked.records == s.records
      && At(end, call, Phase.Ended) && end == checked.(calls := end.calls)
  {
    CheckedIff(counterFor, Step(counterFor, s, StepUp(call, userId, code)), call, now);
  }

  /** A challenge whose time is up can no longer be attempted, and no other is touched. */
  lemma ExpiredIsRefused(counterFor: CounterFor, s: System, token: Token, call: nat, credential: Credential, now: int, made: bool)
    requires call !in s.calls
    ensures
      var s' := Step(counterFor, s, Expire(token));
      Answer(counterFor, s', call, token, credential, now, made) == Err("second_factor_invalid")
      && s'.records == s.records - {token} && s'.authenticators == s.authenticators && s'.codes == s.codes
  {
    CompletedIff(counterFor, Step(counterFor, s, Expire(token)), call, token, credential, now, made);
  }
}
