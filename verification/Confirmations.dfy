/** One-time confirmation tokens: what `issue` stores and what `consume` accepts. */
module ConfirmationSpec {
  import opened Prelude
  import opened JsText
  import opened CanonicalJson
  import opened CanonicalRoundTrip

  /** What a caller asks to have confirmed, and later performs. */
  datatype Request = Request(action: Text, actorId: Text, payload: Json, sessionId: Text, targetId: Text)

  datatype Confirmation = Confirmation(action: Text, actorId: Text, payloadDigest: Text, sessionId: Text, targetId: Text)

  /** A stored record and the time at which the store drops it. */
  datatype Stored = Stored(confirmation: Confirmation, expiresAt: int)

  type Store = map<Text, Stored>

  type Hash = Text -> Text

  ghost predicate Injective(hash: Hash) {
    forall a, b :: hash(a) == hash(b) ==> a == b
  }

  function DigestPayload(hash: Hash, payload: Json): Result<Text> {
    var text := Canonicalize(payload);
    if text.Err? then Err(text.error) else Ok(hash(text.value))
  }

  predicate Live(store: Store, key: Text, now: int) {
    key in store && now < store[key].expiresAt
  }

  function Issue(hash: Hash, ttlSeconds: int, store: Store, now: int, token: Text, request: Request): (Store, Result<int>) {
    var payloadDigest := DigestPayload(hash, request.payload);
    var expiresAt := now + ttlSeconds * 1000;
    if payloadDigest.Err? then (store, Err(payloadDigest.error))
    else if Live(store, hash(token), now) then (store, Err("confirmation_conflict"))
    else
      var confirmation := Confirmation(request.action, request.actorId, payloadDigest.value, request.sessionId, request.targetId);
      (store[hash(token) := Stored(confirmation, expiresAt)], Ok(expiresAt))
  }

  /** Reading takes the record out of the store before anything is compared. */
  function Consume(hash: Hash, store: Store, now: int, token: Text, request: Request): (Store, Result<int>) {
    var left := store - {hash(token)};
    if !Live(store, hash(token), now) then (left, Err("confirmation_invalid")) else
    var found := store[hash(token)].confirmation;
    if found.action != request.action || found.actorId != request.actorId
       || found.sessionId != request.sessionId || found.targetId != request.targetId
    then (left, Err("confirmation_invalid"))
    else
      var payloadDigest := DigestPayload(hash, request.payload);
      if payloadDigest.Err? then (left, Err(payloadDigest.error))
      else if found.payloadDigest != payloadDigest.value then (left, Err("confirmation_invalid"))
      else (left, Ok(now))
  }

  // ---- runs ----

  datatype Call =
    | IssueCall(at: int, token: Text, request: Request)
    | ConsumeCall(at: int, token: Text, request: Request)

  function Perform(hash: Hash, ttlSeconds: int, store: Store, call: Call): (Store, Result<int>) {
    match call
    case IssueCall(at, token, request) => Issue(hash, ttlSeconds, store, at, token, request)
    case ConsumeCall(at, token, request) => Consume(hash, store, at, token, request)
  }

  /** The store after the calls, starting empty, and what each call answered. */
  function Run(hash: Hash, ttlSeconds: int, calls: seq<Call>): (run: (Store, seq<Result<int>>))
    ensures |run.1| == |calls|
  {
    if calls == [] then (map[], []) else
    var before := Run(hash, ttlSeconds, calls[..|calls| - 1]);
    var last := Perform(hash, ttlSeconds, before.0, calls[|calls| - 1]);
    (last.0, before.1 + [last.1])
  }

  lemma {:induction false} RunPrefix(hash: Hash, ttlSeconds: int, calls: seq<Call>, n: nat)
    requires n <= |calls|
    ensures Run(hash, ttlSeconds, calls[..n]).1 == Run(hash, ttlSeconds, calls).1[..n]
  {
    if n < |calls| {
      var shorter := calls[..|calls| - 1];
      assert shorter[..n] == calls[..n];
      RunPrefix(hash, ttlSeconds, shorter, n);
    } else {
      assert calls[..n] == calls;
    }
  }

  /** The answer of call i is that of performing it on the store its predecessors left. */
  lemma AnswerAt(hash: Hash, ttlSeconds: int, calls: seq<Call>, i: nat)
    requires i < |calls|
    ensures Run(hash, ttlSeconds, calls).1[i] == Perform(hash, ttlSeconds, Run(hash, ttlSeconds, calls[..i]).0, calls[i]).1
  {
    RunPrefix(hash, ttlSeconds, calls, i + 1);
    assert calls[..i + 1][..i] == calls[..i];
  }

  // ---- what a token authorises ----

  /** The same action by the same actor in the same session on the same target with the same payload. */
  ghost predicate SameRequest(a: Request, b: Request) {
    a.action == b.action && a.actorId == b.actorId && a.sessionId == b.sessionId && a.targetId == b.targetId
    && Same(a.payload, b.payload)
  }

  /** Call j issued the token and nothing between j and n has taken or renewed it. */
  ghost predicate Outstanding(calls: seq<Call>, answers: seq<Result<int>>, token: Text, j: nat, n: nat)
    requires |calls| == |answers| && n <= |calls|
  {
    j < n && calls[j].IssueCall? && calls[j].token == token && answers[j].Ok?
    && forall k :: j < k < n && calls[k].token == token ==> calls[k].IssueCall? && answers[k].Err?
  }

  function Recorded(hash: Hash, ttlSeconds: int, call: Call): (stored: Stored)
    requires Printable(call.request.payload)
  {
    var r := call.request;
    Stored(Confirmation(r.action, r.actorId, hash(Render(r.payload)), r.sessionId, r.targetId), call.at + ttlSeconds * 1000)
  }

  /** The record the store has for a token is that of its outstanding issue, if there is one. */
  ghost predicate Tracks(hash: Hash, ttlSeconds: int, calls: seq<Call>, answers: seq<Result<int>>, store: Store, token: Text)
    requires |calls| == |answers|
  {
    (hash(token) in store ==> exists j: nat :: Outstanding(calls, answers, token, j, |calls|))
    && forall j: nat :: Outstanding(calls, answers, token, j, |calls|) ==> IsRecordOf(hash, ttlSeconds, store, token, calls[j], answers[j])
  }

  ghost predicate IsRecordOf(hash: Hash, ttlSeconds: int, store: Store, token: Text, call: Call, answer: Result<int>) {
    Printable(call.request.payload) && hash(token) in store && store[hash(token)] == Recorded(hash, ttlSeconds, call)
    && answer == Ok(call.at + ttlSeconds * 1000)
  }

  lemma {:induction false} StoreIsOutstanding(hash: Hash, ttlSeconds: int, calls: seq<Call>, token: Text)
    requires Injective(hash)
    ensures Tracks(hash, ttlSeconds, calls, Run(hash, ttlSeconds, calls).1, Run(hash, ttlSeconds, calls).0, token)
  {
    if calls != [] {
      var n := |calls| - 1;
      var before := Run(hash, ttlSeconds, calls[..n]);
      StoreIsOutstanding(hash, ttlSeconds, calls[..n], token);
      assert calls == calls[..n] + [calls[n]];
      StepTracks(hash, ttlSeconds, calls[..n], before.1, before.0, calls[n], token);
    }
  }

  lemma StepTracks(hash: Hash, ttlSeconds: int, calls: seq<Call>, answers: seq<Result<int>>, store: Store, call: Call, token: Text)
    requires Injective(hash) && |calls| == |answers| && Tracks(hash, ttlSeconds, calls, answers, store, token)
    ensures
      var last := Perform(hash, ttlSeconds, store, call);
      Tracks(hash, ttlSeconds, calls + [call], answers + [last.1], last.0, token)
  {
    var last := Perform(hash, ttlSeconds, store, call);
    var n := |calls|;
    var calls', answers' := calls + [call], answers + [last.1];
    if call.token != token || (call.IssueCall? && last.1.Err?) {
      assert hash(token) in last.0 <==> hash(token) in store;
      assert hash(token) in store ==> last.0[hash(token)] == store[hash(token)];
      forall j: nat | j < n ensures Outstanding(calls', answers', token, j, n + 1) <==> Outstanding(calls, answers, token, j, n) {
        OutstandingKept(calls, answers, call, last.1, token, j);
      }
    } else if call.IssueCall? {
      assert Outstanding(calls', answers', token, n, n + 1);
      assert IsRecordOf(hash, ttlSeconds, last.0, token, call, last.1);
      forall j: nat | Outstanding(calls', answers', token, j, |calls'|) ensures j == n {
        assert calls'[n] == call;
      }
    } else {
      assert hash(token) !in last.0;
      forall j: nat ensures !Outstanding(calls', answers', token, j, |calls'|) {
        assert calls'[n] == call;
      }
    }
  }

  lemma OutstandingKept(calls: seq<Call>, answers: seq<Result<int>>, call: Call, answer: Result<int>, token: Text, j: nat)
    requires |calls| == |answers| && j < |calls|
    requires call.token != token || (call.IssueCall? && answer.Err?)
    ensures Outstanding(calls + [call], answers + [answer], token, j, |calls| + 1) <==> Outstanding(calls, answers, token, j, |calls|)
  {
    var calls', answers' := calls + [call], answers + [answer];
    assert forall k :: 0 <= k < |calls| ==> calls'[k] == calls[k] && answers'[k] == answers[k];
  }

  lemma OutstandingPrefix(calls: seq<Call>, answers: seq<Result<int>>, token: Text, j: nat, n: nat)
    requires |calls| == |answers| && n <= |calls|
    ensures Outstanding(calls[..n], answers[..n], token, j, n) <==> Outstanding(calls, answers, token, j, n)
  {
    if j < n {
      assert forall k :: 0 <= k < n ==> calls[..n][k] == calls[k] && answers[..n][k] == answers[k];
    }
  }

  lemma OneOutstanding(calls: seq<Call>, answers: seq<Result<int>>, token: Text, i: nat, j: nat, n: nat)
    requires |calls| == |answers| && n <= |calls|
    requires Outstanding(calls, answers, token, i, n) && Outstanding(calls, answers, token, j, n)
    ensures i == j
  {
  }

  /** Call j granted what call i asks for, and the grant is still unspent and unexpired. */
  ghost predicate Authorises(calls: seq<Call>, answers: seq<Result<int>>, j: nat, i: nat)
    requires |calls| == |answers| && i < |calls|
  {
    Outstanding(calls, answers, calls[i].token, j, i) && SameRequest(calls[j].request, calls[i].request)
    && calls[i].at < answers[j].value
  }

  /** Consuming succeeds exactly when an unspent, unexpired issue of that token granted exactly this request. */
  lemma ConsumeSucceedsIff(hash: Hash, ttlSeconds: int, calls: seq<Call>, i: nat)
    requires Injective(hash) && i < |calls| && calls[i].ConsumeCall?
    requires forall k :: 0 <= k < |calls| ==> WellFormed(calls[k].request.payload)
    ensures
      var answers := Run(hash, ttlSeconds, calls).1;
      answers[i].Ok? <==> exists j: nat :: Authorises(calls, answers, j, i)
  {
    var answers := Run(hash, ttlSeconds, calls).1;
    var store := Run(hash, ttlSeconds, calls[..i]).0;
    var token := calls[i].token;
    RunPrefix(hash, ttlSeconds, calls, i);
    AnswerAt(hash, ttlSeconds, calls, i);
    StoreIsOutstanding(hash, ttlSeconds, calls[..i], token);
    if hash(token) in store {
      var j: nat :| Outstanding(calls[..i], answers[..i], token, j, i);
      OutstandingPrefix(calls, answers, token, j, i);
      assert calls[j] == calls[..i][j] && answers[j] == answers[..i][j];
      AcceptedIff(hash, ttlSeconds, store, calls[j], calls[i]);
      forall k: nat | Authorises(calls, answers, k, i) ensures k == j {
        OneOutstanding(calls, answers, token, k, j, i);
      }
      assert answers[i].Ok? <==> Authorises(calls, answers, j, i);
    } else {
      forall j: nat ensures !Authorises(calls, answers, j, i) {
        OutstandingPrefix(calls, answers, token, j, i);
      }
    }
  }

  /** The store keeps a live record for the token. */
  ghost predicate Pending(calls: seq<Call>, answers: seq<Result<int>>, j: nat, i: nat)
    requires |calls| == |answers| && i < |calls|
  {
    Outstanding(calls, answers, calls[i].token, j, i) && calls[i].at < answers[j].value
  }

  /** Issuing succeeds exactly when the payload can be printed and no unspent, unexpired issue of that token is left; the token then
      lives for as long as the manager was set up for. */
  lemma IssueSucceedsIff(hash: Hash, ttlSeconds: int, calls: seq<Call>, i: nat)
    requires Injective(hash) && i < |calls| && calls[i].IssueCall?
    ensures
      var answers := Run(hash, ttlSeconds, calls).1;
      answers[i] == if !Printable(calls[i].request.payload) then Err("confirmation_payload_invalid")
                    else if exists j: nat :: Pending(calls, answers, j, i) then Err("confirmation_conflict")
                    else Ok(calls[i].at + ttlSeconds * 1000)
  {
    var answers := Run(hash, ttlSeconds, calls).1;
    var store := Run(hash, ttlSeconds, calls[..i]).0;
    var token := calls[i].token;
    RunPrefix(hash, ttlSeconds, calls, i);
    AnswerAt(hash, ttlSeconds, calls, i);
    StoreIsOutstanding(hash, ttlSeconds, calls[..i], token);
    if hash(token) in store {
      var j: nat :| Outstanding(calls[..i], answers[..i], token, j, i);
      OutstandingPrefix(calls, answers, token, j, i);
      assert calls[j] == calls[..i][j] && answers[j] == answers[..i][j];
      assert store[hash(token)].expiresAt == answers[j].value;
      assert Live(store, hash(token), calls[i].at) <==> Pending(calls, answers, j, i);
      forall k: nat | Pending(calls, answers, k, i) ensures k == j {
        OneOutstanding(calls, answers, token, k, j, i);
      }
    } else {
      forall j: nat ensures !Pending(calls, answers, j, i) {
        OutstandingPrefix(calls, answers, token, j, i);
      }
    }
  }

  /** A consume that succeeds answers the time of use, and one that fails says why. */
  lemma ConsumeAnswers(hash: Hash, ttlSeconds: int, calls: seq<Call>, i: nat)
    requires i < |calls| && calls[i].ConsumeCall?
    ensures
      var answer := Run(hash, ttlSeconds, calls).1[i];
      answer == Ok(calls[i].at) || answer == Err("confirmation_invalid")
      || (answer == Err("confirmation_payload_invalid") && !Printable(calls[i].request.payload))
  {
    AnswerAt(hash, ttlSeconds, calls, i);
  }

  /** Against the record of one issue: what `consume` accepts. */
  lemma AcceptedIff(hash: Hash, ttlSeconds: int, store: Store, issued: Call, call: Call)
    requires Injective(hash) && call.ConsumeCall? && issued.token == call.token
    requires WellFormed(issued.request.payload) && WellFormed(call.request.payload) && Printable(issued.request.payload)
    requires hash(call.token) in store && store[hash(call.token)] == Recorded(hash, ttlSeconds, issued)
    ensures Consume(hash, store, call.at, call.token, call.request).1.Ok?
       <==> SameRequest(issued.request, call.request) && call.at < issued.at + ttlSeconds * 1000
  {
    var p, q := issued.request.payload, call.request.payload;
    if Printable(q) {
      CanonicalSameIff(p, q);
    } else if Same(p, q) {
      SamePrintable(p, q);
    }
  }

  lemma {:induction false} SamePrintable(a: Json, b: Json)
    requires Same(a, b) && Printable(a)
    ensures Printable(b)
    decreases b
  {
    match b {
      case Array(items) =>
        forall i | 0 <= i < |items| ensures Printable(items[i]) {
          SamePrintable(a.items[i], items[i]);
        }
      case Object(members) =>
        forall j | 0 <= j < |members| ensures Printable(members[j].value) {
          assert Keys(members)[j] in Elements(Keys(a.members));
          var i :| 0 <= i < |a.members| && Keys(a.members)[i] == members[j].key;
          SamePrintable(a.members[i].value, members[j].value);
        }
      case _ =>
    }
  }

  /** Between two successful uses of one token there is another successful issue of it. */
  lemma SingleUse(hash: Hash, ttlSeconds: int, calls: seq<Call>, first: nat, second: nat)
    requires Injective(hash) && first < second < |calls|
    requires calls[first].ConsumeCall? && calls[second].ConsumeCall? && calls[first].token == calls[second].token
    requires forall k :: 0 <= k < |calls| ==> WellFormed(calls[k].request.payload)
    requires Run(hash, ttlSeconds, calls).1[second].Ok?
    ensures exists j :: first < j < second && calls[j].IssueCall? && calls[j].token == calls[first].token
                        && Run(hash, ttlSeconds, calls).1[j].Ok?
  {
    ConsumeSucceedsIff(hash, ttlSeconds, calls, second);
    var answers := Run(hash, ttlSeconds, calls).1;
    var j: nat :| Authorises(calls, answers, j, second);
    assert Outstanding(calls, answers, calls[first].token, j, second);
  }
}

module ActionConfirmations {
  import opened Prelude
  import opened JsText
  import opened CanonicalJson
  import opened ConfirmationSpec

  class ActionConfirmationManager {
    const hash: Hash
    const ttlSeconds: int
    var store: Store

    constructor Unchecked(hash: Hash, ttlSeconds: int)
      ensures this.hash == hash && this.ttlSeconds == ttlSeconds && store == map[]
    {
      this.hash, this.ttlSeconds, store := hash, ttlSeconds, map[];
    }

    static method Create(hash: Hash, ttlSeconds: int) returns (made: Result<ActionConfirmationManager>)
      ensures made.Ok? <==> ttlSeconds >= 1
      ensures made.Err? ==> made.error == "confirmation_configuration_invalid"
      ensures made.Ok? ==> fresh(made.value) && made.value.hash == hash && made.value.ttlSeconds == ttlSeconds && made.value.store == map[]
    {
      if ttlSeconds < 1 {
        return Err("confirmation_configuration_invalid");
      }
      var manager := new ActionConfirmationManager.Unchecked(hash, ttlSeconds);
      return Ok(manager);
    }

    method Issue(now: int, token: Text, request: Request) returns (expiresAt: Result<int>)
      modifies this
      ensures (store, expiresAt) == ConfirmationSpec.Issue(hash, ttlSeconds, old(store), now, token, request)
    {
      var payloadDigest := DigestPayload(hash, request.payload);
      if payloadDigest.Err? {
        return Err(payloadDigest.error);
      }
      if Live(store, hash(token), now) {
        return Err("confirmation_conflict");
      }
      var confirmation := Confirmation(request.action, request.actorId, payloadDigest.value, request.sessionId, request.targetId);
      store := store[hash(token) := Stored(confirmation, now + ttlSeconds * 1000)];
      return Ok(now + ttlSeconds * 1000);
    }

    method Consume(now: int, token: Text, request: Request) returns (consumed: Result<int>)
      modifies this
      ensures (store, consumed) == ConfirmationSpec.Consume(hash, old(store), now, token, request)
    {
      var key := hash(token);
      var found := if Live(store, key, now) then Some(store[key].confirmation) else None;
      store := store - {key};
      if found.None? || found.value.action != request.action || found.value.actorId != request.actorId
         || found.value.sessionId != request.sessionId || found.value.targetId != request.targetId {
        return Err("confirmation_invalid");
      }
      var payloadDigest := DigestPayload(hash, request.payload);
      if payloadDigest.Err? {
        return Err(payloadDigest.error);
      }
      if found.value.payloadDigest != payloadDigest.value {
        return Err("confirmation_invalid");
      }
      return Ok(now);
    }
  }
}
