/** Properties of any sequence of coordinator calls. */
module CoordinatorRuns {
  import opened Prelude
  import opened Wire
  import opened CoordinatorSpec
  import opened CoordinatorInvariant
  import LedgerSpec

  datatype Call =
    | Upsert(device: Device)
    | Create(owner: OwnerId, request: Request, now: int, supply: Supply)
    | Dispatch(deviceId: DeviceId)
    | RestoreCommand(command: Command)
    | RestoreSequence(deviceId: DeviceId, sequence: int)
    | Move(id: CommandId, next: CommandStatus, error: Option<ErrorCode>)
    | ExpireAt(now: int)

  /** What the environment guarantees: random identifiers are new, and storage keeps sequences positive and unique per device. */
  ghost predicate Allowed(c: Coordinator, call: Call) {
    match call
    case Create(_, request, _, supply) =>
      |supply.commandIds| >= |request.deviceIds| && FreshIds(c, supply.commandIds) && supply.batchId !in c.batches
    case RestoreCommand(command) =>
      command.sequence >= 1
      && forall id :: id in c.commands && c.commands[id].deviceId == command.deviceId && id != command.commandId
           ==> c.commands[id].sequence != command.sequence
    case _ => true
  }

  ghost function Step(c: Coordinator, call: Call): Coordinator
    requires Allowed(c, call)
  {
    match call
    case Upsert(device) => UpsertDevice(c, device)
    case Create(owner, request, now, supply) => CreateBatch(c, owner, request, now, supply).0
    case Dispatch(device) => DispatchNext(c, device).0
    case RestoreCommand(command) => Restore(c, command)
    case RestoreSequence(device, sequence) => RestoreDeviceSequence(c, device, sequence).0
    case Move(id, next, error) => Transition(c, id, next, error).0
    case ExpireAt(now) => Expire(c, now).0
  }

  ghost predicate AllowedRun(c: Coordinator, calls: seq<Call>)
    decreases |calls|
  {
    calls == [] || (Allowed(c, calls[0]) && AllowedRun(Step(c, calls[0]), calls[1..]))
  }

  ghost function Run(c: Coordinator, calls: seq<Call>): Coordinator
    requires AllowedRun(c, calls)
    decreases |calls|
  {
    if calls == [] then c else Run(Step(c, calls[0]), calls[1..])
  }

  lemma StepKeeps(c: Coordinator, call: Call)
    requires Inv(c) && Allowed(c, call)
    ensures Inv(Step(c, call))
  {
    match call
    case Upsert(device) => UpsertKeeps(c, device);
    case Create(owner, request, now, supply) => CreateBatchKeeps(c, owner, request, now, supply);
    case Dispatch(device) => DispatchKeeps(c, device);
    case RestoreCommand(command) => RestoreKeeps(c, command);
    case RestoreSequence(device, sequence) => RestoreSequenceKeeps(c, device, sequence);
    case Move(id, next, error) => TransitionKeeps(c, id, next, error);
    case ExpireAt(now) => ExpireFromKeeps(c, c.inserted, now);
  }

  /** In every reachable state each queue lists exactly the device's live commands by ascending, unique sequence. */
  lemma {:induction false} RunKeeps(c: Coordinator, calls: seq<Call>)
    requires Inv(c) && AllowedRun(c, calls)
    ensures Inv(Run(c, calls))
    decreases |calls|
  {
    if calls != [] {
      StepKeeps(c, calls[0]);
      RunKeeps(Step(c, calls[0]), calls[1..]);
    }
  }

  // ---- finished commands stay finished ----

  lemma {:induction false} ExpireFromAbsorbs(c: Coordinator, ids: seq<CommandId>, now: int, x: CommandId)
    requires x in c.commands && IsTerminal(c.commands[x].status)
    ensures x in ExpireFrom(c, ids, now).0.commands && ExpireFrom(c, ids, now).0.commands[x] == c.commands[x]
    decreases |ids|
  {
    if ids != [] {
      TerminalAbsorbs(c, ids[0], Expired, None, x);
      ExpireFromAbsorbs(c, ids[1..], now, x);
      ExpireFromAbsorbs(Transition(c, ids[0], Expired, None).0, ids[1..], now, x);
    }
  }

  lemma StepAbsorbs(c: Coordinator, call: Call, x: CommandId)
    requires Inv(c) && Allowed(c, call)
    requires x in c.commands && IsTerminal(c.commands[x].status)
    ensures x in Step(c, call).commands && Step(c, call).commands[x] == c.commands[x]
  {
    match call
    case Create(owner, request, now, supply) => CreateBatchKeeps(c, owner, request, now, supply);
    case Move(id, next, error) => TerminalAbsorbs(c, id, next, error, x);
    case ExpireAt(now) => ExpireFromAbsorbs(c, c.inserted, now, x);
    case Dispatch(device) => DispatchAbsorbs(c, device, x);
    case Upsert(_) =>
    case RestoreCommand(_) =>
    case RestoreSequence(_, _) =>
  }

  lemma DispatchAbsorbs(c: Coordinator, device: DeviceId, x: CommandId)
    requires x in c.commands && IsTerminal(c.commands[x].status)
    ensures x in DispatchNext(c, device).0.commands && DispatchNext(c, device).0.commands[x] == c.commands[x]
  {
    var next := FirstLive(c, QueueOf(c, device));
    if next.Some? {
      TerminalAbsorbs(c, next.value, Sent, None, x);
    }
  }

  lemma {:induction false} TerminalForever(c: Coordinator, calls: seq<Call>, x: CommandId)
    requires Inv(c) && AllowedRun(c, calls)
    requires x in c.commands && IsTerminal(c.commands[x].status)
    ensures x in Run(c, calls).commands && Run(c, calls).commands[x] == c.commands[x]
    decreases |calls|
  {
    if calls != [] {
      StepKeeps(c, calls[0]);
      StepAbsorbs(c, calls[0], x);
      TerminalForever(Step(c, calls[0]), calls[1..], x);
    }
  }

  // ---- idempotent batches ----

  predicate Remembers(c: Coordinator, key: (OwnerId, string), batch: Batch) {
    key in c.idempotency && c.idempotency[key] in c.batches && c.batches[c.idempotency[key]] == batch
  }

  lemma {:induction false} ExpireFromRemembers(c: Coordinator, ids: seq<CommandId>, now: int, key: (OwnerId, string), batch: Batch)
    requires Remembers(c, key, batch)
    ensures Remembers(ExpireFrom(c, ids, now).0, key, batch)
    decreases |ids|
  {
    if ids != [] {
      TransitionSameTable(c, ids[0], Expired, None);
      ExpireFromRemembers(c, ids[1..], now, key, batch);
      ExpireFromRemembers(Transition(c, ids[0], Expired, None).0, ids[1..], now, key, batch);
    }
  }

  lemma CreateRemembers(c: Coordinator, owner: OwnerId, request: Request, now: int, supply: Supply, key: (OwnerId, string), batch: Batch)
    requires Inv(c) && Allowed(c, Create(owner, request, now, supply)) && Remembers(c, key, batch)
    ensures Remembers(CreateBatch(c, owner, request, now, supply).0, key, batch)
  {
    if ValidTargets(request) && (owner, request.idempotencyKey) !in c.idempotency {
      UniqueSize(request.deviceIds);
      CreateCommandsKeeps(c, supply.batchId, owner, TargetsOf(request), request.commandType, now, supply.commandIds);
    }
  }

  lemma StepRemembers(c: Coordinator, call: Call, key: (OwnerId, string), batch: Batch)
    requires Inv(c) && Allowed(c, call) && Remembers(c, key, batch)
    ensures Remembers(Step(c, call), key, batch)
  {
    match call
    case Create(owner, request, now, supply) => CreateRemembers(c, owner, request, now, supply, key, batch);
    case Move(id, next, error) => TransitionSameTable(c, id, next, error);
    case Dispatch(device) =>
      var next := FirstLive(c, QueueOf(c, device));
      if next.Some? {
        TransitionSameTable(c, next.value, Sent, None);
      }
    case ExpireAt(now) => ExpireFromRemembers(c, c.inserted, now, key, batch);
    case Upsert(_) =>
    case RestoreCommand(_) =>
    case RestoreSequence(_, _) =>
  }

  lemma {:induction false} RunRemembers(c: Coordinator, calls: seq<Call>, key: (OwnerId, string), batch: Batch)
    requires Inv(c) && AllowedRun(c, calls) && Remembers(c, key, batch)
    ensures Remembers(Run(c, calls), key, batch)
    decreases |calls|
  {
    if calls != [] {
      StepKeeps(c, calls[0]);
      StepRemembers(c, calls[0], key, batch);
      RunRemembers(Step(c, calls[0]), calls[1..], key, batch);
    }
  }

  /** Once a batch was returned for an owner and key, a valid retry after any further calls changes nothing:
      it returns that batch when it asks for the same command on the same set of devices, and a conflict otherwise. */
  lemma RetryReturnsBatch(
      c: Coordinator, owner: OwnerId, request: Request, now: int, supply: Supply,
      calls: seq<Call>, retry: Request, later: int, unused: Supply)
    requires Inv(c) && Allowed(c, Create(owner, request, now, supply))
    requires CreateBatch(c, owner, request, now, supply).1.Ok?
    requires AllowedRun(CreateBatch(c, owner, request, now, supply).0, calls)
    requires retry.idempotencyKey == request.idempotencyKey && ValidTargets(retry)
    requires |unused.commandIds| >= |retry.deviceIds|
    ensures var (after, batch) := CreateBatch(c, owner, request, now, supply);
            var end := Run(after, calls);
            CreateBatch(end, owner, retry, later, unused)
              == (end, if retry.commandType == request.commandType && Elements(retry.deviceIds) == Elements(request.deviceIds)
                       then batch else Err("idempotency_conflict"))
  {
    var (after, batch) := CreateBatch(c, owner, request, now, supply);
    var key := (owner, request.idempotencyKey);
    CreateBatchKeeps(c, owner, request, now, supply);
    assert Remembers(after, key, batch.value) && batch.value.digest == DigestOf(request);
    RunRemembers(after, calls, key, batch.value);
    DigestSameIff(retry, request);
  }

  // ---- one command in flight per device ----

  /** Only the head of the queue has left `created`. */
  ghost predicate OneInFlight(c: Coordinator, device: DeviceId) {
    forall i :: 0 < i < |QueueOf(c, device)| ==>
      QueueOf(c, device)[i] in c.commands && c.commands[QueueOf(c, device)[i]].status == Created
  }

  lemma DispatchKeepsOneInFlight(c: Coordinator, dispatched: DeviceId, device: DeviceId)
    requires Inv(c) && OneInFlight(c, device)
    ensures OneInFlight(DispatchNext(c, dispatched).0, device)
  {
    DispatchTakesSmallest(c, dispatched);
    var (after, next) := DispatchNext(c, dispatched);
    if after != c {
      assert after == SetStatus(c, next.value, Sent, None);
      assert QueueExact(c, device) && QueueExact(c, dispatched);
      var queue := QueueOf(c, device);
      forall i | 0 < i < |queue| ensures queue[i] != next.value {
        assert queue[i] in queue && queue[0] in queue;
        assert SequenceAt(c.commands, queue[0]) < SequenceAt(c.commands, queue[i]);
      }
    }
  }

  predicate IsHead(c: Coordinator, id: CommandId, device: DeviceId) {
    QueueOf(c, device) != [] && QueueOf(c, device)[0] == id
  }

  /** A status change keeps one command in flight unless it marks a waiting, non-head command as sent. */
  lemma TransitionKeepsOneInFlightIff(c: Coordinator, id: CommandId, next: CommandStatus, error: Option<ErrorCode>)
    requires Inv(c) && id in c.commands && OneInFlight(c, c.commands[id].deviceId)
    ensures var device := c.commands[id].deviceId;
            OneInFlight(Transition(c, id, next, error).0, device) <==>
            !(next == Sent && c.commands[id].status == Created && !IsHead(c, id, device))
  {
    if next in Transitions(c.commands[id].status) {
      if IsTerminal(next) {
        SettleKeepsOneInFlight(c, id, next, error);
        assert Transition(c, id, next, error).0 == DropFromQueue(SetStatus(c, id, next, error), c.commands[id].deviceId, id);
      } else {
        MoveKeepsOneInFlightIff(c, id, next, error);
        assert Transition(c, id, next, error).0 == SetStatus(c, id, next, error);
      }
    } else {
      assert Transition(c, id, next, error).0 == c;
    }
  }

  lemma SettleKeepsOneInFlight(c: Coordinator, id: CommandId, next: CommandStatus, error: Option<ErrorCode>)
    requires id in c.commands && OneInFlight(c, c.commands[id].deviceId)
    ensures OneInFlight(DropFromQueue(SetStatus(c, id, next, error), c.commands[id].deviceId, id), c.commands[id].deviceId)
  {
    var device := c.commands[id].deviceId;
    var queue := QueueOf(c, device);
    var after := DropFromQueue(SetStatus(c, id, next, error), device, id);
    WithoutKeepsOneInFlight(queue, id, c.commands, after.commands);
    assert QueueOf(after, device) == LedgerSpec.Without(queue, id);
  }

  lemma MoveKeepsOneInFlightIff(c: Coordinator, id: CommandId, next: CommandStatus, error: Option<ErrorCode>)
    requires Inv(c) && id in c.commands && OneInFlight(c, c.commands[id].deviceId)
    requires next in Transitions(c.commands[id].status) && !IsTerminal(next)
    ensures var device := c.commands[id].deviceId;
            OneInFlight(SetStatus(c, id, next, error), device) <==>
            !(next == Sent && c.commands[id].status == Created && !IsHead(c, id, device))
  {
    var device := c.commands[id].deviceId;
    var queue := QueueOf(c, device);
    var after := SetStatus(c, id, next, error);
    assert QueueExact(c, device) && IsLive(c, id);
    var i :| 0 <= i < |queue| && queue[i] == id;
    forall j | 0 <= j < |queue| && j != i ensures queue[j] != id {
      if j < i { assert SequenceAt(c.commands, queue[j]) < SequenceAt(c.commands, queue[i]); }
      if i < j { assert SequenceAt(c.commands, queue[i]) < SequenceAt(c.commands, queue[j]); }
    }
    assert QueueOf(after, device) == queue && after.commands[queue[i]].status == next;
  }

  lemma {:induction false} WithoutTail(queue: seq<CommandId>, id: CommandId, i: nat)
    requires 0 < i < |LedgerSpec.Without(queue, id)|
    ensures exists j :: 0 < j < |queue| && queue[j] == LedgerSpec.Without(queue, id)[i]
  {
    var x := LedgerSpec.Without(queue, id)[i];
    if queue[0] == id {
      WithoutElements(queue[1..], id);
      assert x in queue[1..];
      var j :| 0 <= j < |queue[1..]| && queue[1..][j] == x;
      assert queue[j + 1] == x;
    } else {
      var rest := LedgerSpec.Without(queue[1..], id);
      WithoutElements(queue[1..], id);
      assert x == rest[i - 1] && x in queue[1..];
      var j :| 0 <= j < |queue[1..]| && queue[1..][j] == x;
      assert queue[j + 1] == x;
    }
  }

  lemma WithoutKeepsOneInFlight(queue: seq<CommandId>, id: CommandId, before: map<CommandId, Command>, after: map<CommandId, Command>)
    requires forall i :: 0 < i < |queue| ==> queue[i] in before && before[queue[i]].status == Created
    requires forall x :: x in before && x != id ==> x in after && after[x] == before[x]
    ensures var left := LedgerSpec.Without(queue, id);
            forall i :: 0 < i < |left| ==> left[i] in after && after[left[i]].status == Created
  {
    var left := LedgerSpec.Without(queue, id);
    WithoutElements(queue, id);
    forall i | 0 < i < |left| ensures left[i] in after && after[left[i]].status == Created {
      WithoutTail(queue, id, i);
      assert left[i] in left;
    }
  }

  lemma RegisterKeepsOneInFlight(c: Coordinator, after: Coordinator, id: CommandId, registered: DeviceId, device: DeviceId)
    requires Inv(c) && OneInFlight(c, device) && id !in c.commands
    requires Grows(c, after) && RegisteredAs(c, after, id, registered)
    requires device != registered ==> QueueOf(after, device) == QueueOf(c, device)
    ensures OneInFlight(after, device)
  {
  }
}
