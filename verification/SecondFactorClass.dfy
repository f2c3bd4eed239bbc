/** The second-factor service over its stores: what one call does, step by step. */
module SecondFactors {
  import opened Prelude
  import opened SecondFactorSpec
  import opened SecondFactorOutcomes

  class SecondFactorService {
    const counterFor: CounterFor
    const attempts: nat
    var records: Records
    var authenticators: Authenticators
    var codes: Codes
    /** The same stores with the calls and the log. */
    ghost var system: System

    ghost predicate Valid()
      reads this
    {
      attempts >= 1 && system.records == records && system.authenticators == authenticators && system.codes == codes
    }

    constructor Unchecked(counterFor: CounterFor, attempts: nat)
      requires attempts >= 1
      ensures this.counterFor == counterFor && this.attempts == attempts && Valid() && system == EMPTY
    {
      this.counterFor, this.attempts := counterFor, attempts;
      records, authenticators, codes, system := map[], map[], map[], EMPTY;
    }

    static method Create(counterFor: CounterFor, attempts: int, ttlSeconds: int) returns (made: Result<SecondFactorService>)
      ensures made.Ok? <==> attempts >= 1 && ttlSeconds >= 1
      ensures made.Err? ==> made.error == "second_factor_configuration_invalid"
      ensures made.Ok? ==> fresh(made.value) && made.value.Valid() && made.value.system == EMPTY && made.value.attempts == attempts
    {
      if attempts < 1 || ttlSeconds < 1 {
        return Err("second_factor_configuration_invalid");
      }
      var service := new SecondFactorService.Unchecked(counterFor, attempts);
      return Ok(service);
    }

    /** The token is a new random value. */
    method Begin(token: Token, userId: Id)
      requires Valid() && token !in system.issued
      modifies this`records, this`system
      ensures Valid() && system == Step(counterFor, old(system), Issue(token, userId, attempts))
    {
      records := records[token := Record(userId, attempts, false)];
      system := Step(counterFor, system, Issue(token, userId, attempts));
    }

    method StartAttempt(ghost call: nat, token: Token, ghost credential: Credential) returns (userId: Option<Id>)
      requires Valid() && call !in system.calls
      modifies this`records, this`system
      ensures Valid() && system == Step(counterFor, old(system), SecondFactorSpec.Begin(call, token, credential))
      ensures userId.Some? ==> call in system.calls && system.calls[call] == Call(Some(token), userId.value, credential, Verifying)
      ensures userId.None? <==> system == old(system)
    {
      system := Step(counterFor, system, SecondFactorSpec.Begin(call, token, credential));
      if token !in records || records[token].busy || records[token].attempts <= 0 {
        return None;
      }
      var r := records[token];
      records := records[token := Record(r.userId, r.attempts - 1, true)];
      return Some(r.userId);
    }

    method EndAttempt(ghost call: nat, token: Token, succeeded: bool)
      requires Valid() && call in system.calls && system.calls[call].token == Some(token)
      requires if succeeded then system.calls[call].phase.Opened? else system.calls[call].phase.Rejected?
      modifies this`records, this`system
      ensures Valid() && system == Step(counterFor, old(system), Finish(call))
    {
      system := Step(counterFor, system, Finish(call));
      if succeeded {
        records := records - {token};
      } else if token in records {
        if records[token].attempts <= 0 {
          records := records - {token};
        } else {
          records := records[token := records[token].(busy := false)];
        }
      }
    }

    /** The UPDATE statement, row by row: it succeeds when exactly one row matched. */
    method ConsumeRecoveryCode(ghost call: nat, userId: Id, digest: CodeDigest) returns (consumed: bool)
      requires Valid() && At(system, call, Verifying) && system.calls[call].userId == userId && system.calls[call].credential == Recovery(digest)
      modifies this`codes, this`system
      ensures Valid() && system == Step(counterFor, old(system), Consume(call))
      ensures system.calls[call].phase == if consumed then Verified(PasswordRecovery) else Rejected
    {
      var affected;
      codes, affected := UpdateMatching(codes, userId, digest);
      system := Step(counterFor, system, Consume(call));
      return affected == 1;
    }

    method FindTotp(ghost call: nat, userId: Id, code: string, now: int) returns (found: Option<(Id, nat)>)
      requires Valid() && At(system, call, Verifying) && system.calls[call].userId == userId && system.calls[call].credential == Totp(code)
      modifies this`system
      ensures Valid() && system == Step(counterFor, old(system), Find(call, now))
      ensures system.calls[call].phase == if found.Some? then Found(found.value.0, found.value.1) else Rejected
      ensures found.Some? <==> NewCounter(counterFor, authenticators, userId, code, now)
    {
      system := Step(counterFor, system, Find(call, now));
      if userId !in authenticators || !authenticators[userId].enabled {
        return None;
      }
      var row := authenticators[userId];
      var counter := counterFor(row.id, code, now);
      if counter.None? || (row.last.Some? && counter.value <= row.last.value) {
        return None;
      }
      return Some((row.id, counter.value));
    }

    method RecordTotpCounter(ghost call: nat, userId: Id, id: Id, counter: nat) returns (recorded: bool)
      requires Valid() && At(system, call, Found(id, counter)) && system.calls[call].userId == userId
      modifies this`authenticators, this`system
      ensures Valid() && system == Step(counterFor, old(system), RecordCounter(call))
      ensures system.calls[call].phase == if recorded then Verified(PasswordTotp) else Rejected
    {
      system := Step(counterFor, system, RecordCounter(call));
      if !MayRecord(authenticators, userId, id, counter) {
        return false;
      }
      authenticators := authenticators[userId := authenticators[userId].(last := Some(counter))];
      return true;
    }

    method Verify(ghost call: nat, userId: Id, credential: Credential, now: int) returns (strength: Option<Strength>)
      requires Valid() && At(system, call, Verifying) && system.calls[call].userId == userId && system.calls[call].credential == credential
      modifies this`authenticators, this`codes, this`system
      ensures Valid() && system == Checked(counterFor, old(system), call, now) && call in system.calls
      ensures system.calls[call].phase == if strength.Some? then Verified(strength.value) else Rejected
      ensures system.calls[call].token == old(system.calls[call].token)
      ensures strength.Some? <==> Good(counterFor, old(authenticators), old(codes), userId, credential, now)
      ensures strength.Some? ==> Proves(strength.value, credential)
    {
      CheckedIff(counterFor, system, call, now);
      match credential {
        case Recovery(digest) =>
          var consumed := ConsumeRecoveryCode(call, userId, digest);
          return if consumed then Some(PasswordRecovery) else None;
        case Totp(code) =>
          var found := FindTotp(call, userId, code, now);
          if found.None? {
            return None;
          }
          var recorded := RecordTotpCounter(call, userId, found.value.0, found.value.1);
          return if recorded then Some(PasswordTotp) else None;
      }
    }

    /** `made` is whether the session manager creates the session; the attempt is ended either way. */
    method Complete(ghost call: nat, token: Token, credential: Credential, now: int, made: bool) returns (session: Result<Strength>)
      requires Valid() && call !in system.calls
      modifies this`records, this`authenticators, this`codes, this`system
      ensures Valid() && system == Completed(counterFor, old(system), call, token, credential, now, made)
      ensures CallOutcome(counterFor, old(system), system, token, credential, now, made, session)
      ensures session.Ok? ==> made && system.log != [] && system.log[|system.log| - 1] == Session(call, token)
      ensures session.Err? ==> session.error == "second_factor_invalid" || (!made && session.error == "session_not_created")
    {
      CompletedIff(counterFor, system, call, token, credential, now, made);
      var userId := StartAttempt(call, token, credential);
      if userId.None? {
        return Err("second_factor_invalid");
      }
      session := VerifyAndEnd(call, token, userId.value, credential, now, made);
    }

    method VerifyAndEnd(ghost call: nat, token: Token, userId: Id, credential: Credential, now: int, made: bool) returns (session: Result<Strength>)
      requires Valid() && call in system.calls && system.calls[call] == Call(Some(token), userId, credential, Verifying)
      modifies this`records, this`authenticators, this`codes, this`system
      ensures Valid()
      ensures system == Step(counterFor, Step(counterFor, Checked(counterFor, old(system), call, now), OpenSession(call, made)), Finish(call))
      ensures session == AnswerOf(Checked(counterFor, old(system), call, now), call, made)
      ensures session.Ok? ==> made && system.log != [] && system.log[|system.log| - 1] == Session(call, token)
    {
      var strength := Verify(call, userId, credential, now);
      if strength.None? {
        EndAttempt(call, token, false);
        return Err("second_factor_invalid");
      }
      OpenAndEnd(call, token, made);
      return if made then Ok(strength.value) else Err("session_not_created");
    }

    method OpenAndEnd(ghost call: nat, token: Token, made: bool)
      requires Valid() && call in system.calls && system.calls[call].token == Some(token) && system.calls[call].phase.Verified?
      modifies this`records, this`system
      ensures Valid() && system == Step(counterFor, Step(counterFor, old(system), OpenSession(call, made)), Finish(call))
      ensures system.log == old(system.log) + if made then [Session(call, token)] else []
    {
      system := Step(counterFor, system, OpenSession(call, made));
      EndAttempt(call, token, true);
    }
  }

  method UpdateMatching(codes: Codes, userId: Id, digest: CodeDigest) returns (updated: Codes, affected: nat)
    ensures updated == MarkUsed(codes, Unspent(codes, userId, digest)) && affected == |Unspent(codes, userId, digest)|
  {
    ghost var matched := Unspent(codes, userId, digest);
    ghost var seen: set<Id> := {};
    updated, affected := codes, 0;
    var rest := codes.Keys;
    while rest != {}
      invariant rest == codes.Keys - seen && seen <= codes.Keys
      invariant affected == |matched * seen| && updated == MarkUsed(codes, matched * seen)
      decreases |rest|
    {
      var i :| i in rest;
      UpdateOne(codes, matched, seen, i);
      if updated[i].userId == userId && updated[i].digest == digest && !updated[i].revoked && !updated[i].used {
        updated, affected := updated[i := updated[i].(used := true)], affected + 1;
      }
      seen, rest := seen + {i}, rest - {i};
    }
    assert matched * seen == matched;
  }

  lemma UpdateOne(before: Codes, matched: set<Id>, seen: set<Id>, i: Id)
    requires i in before && i !in seen && matched <= before.Keys
    ensures matched * (seen + {i}) == if i in matched then matched * seen + {i} else matched * seen
    ensures |matched * (seen + {i})| == |matched * seen| + if i in matched then 1 else 0
    ensures MarkUsed(before, matched * seen)[i] == before[i]
    ensures MarkUsed(before, matched * (seen + {i}))
         == if i in matched then MarkUsed(before, matched * seen)[i := before[i].(used := true)] else MarkUsed(before, matched * seen)
  {
    assert matched * (seen + {i}) == if i in matched then matched * seen + {i} else matched * seen;
  }
}
