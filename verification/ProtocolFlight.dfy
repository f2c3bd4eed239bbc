/** At most one command of a device is out at a time. */
module OneCommandInFlight {
  import opened Prelude
  import opened Wire
  import opened AgentSpec
  import opened CoordinatorSpec
  import opened ProtocolSpec
  import Runs = CoordinatorRuns
  import Kept = CoordinatorInvariant
  import LedgerSpec

  ghost predicate NoneSent(reports: seq<Report>) {
    forall r :: r in reports ==> r.status != Sent
  }

  ghost predicate Single(s: System, device: DeviceId) {
    Kept.Inv(s.server) && Runs.OneInFlight(s.server, device) && NoneSent(s.link.up)
  }

  /** The executor answers anything but `sent`; process_command itself never reports that status. */
  ghost predicate Honest(e: Event) {
    e.AgentReceive? ==> e.faults.outcome != Some(Sent)
  }

  lemma ProcessNeverSent(a: Agent, capacity: nat, command: LedgerSpec.AgentCommand, now: int, f: Faults)
    requires a.memory.Some? && f.outcome != Some(Sent)
    ensures NoneSent(ProcessCommand(a, capacity, command, now, f).sent)
  {
    var handled := ProcessCommand(a, capacity, command, now, f);
    var known := a.memory.value.commands;
    var id := command.commandId;
    if LedgerSpec.HasTerminal(known, id) {
      assert handled == Reply(a, [], Report(id, PersistedStatus(known[id])), f.resultSent);
    } else if command.expiresAt.None? {
      assert handled.sent == [];
    } else if command.expiresAt.value <= now {
      assert handled == ProcessExpired(a, capacity, command, f);
    } else {
      var (accepted, ok) := StoreAccept(a, capacity, command, f.acceptCut);
      if !ok || !f.acceptedSent {
        assert handled.sent == [];
      } else {
        assert handled == ExecuteNext(accepted, [Report(id, CommandStatus.Accepted)], f);
        ExecuteNeverSent(accepted, [Report(id, CommandStatus.Accepted)], f);
      }
    }
  }

  lemma ExecuteNeverSent(a: Agent, sent: seq<Report>, f: Faults)
    requires a.memory.Some? && f.outcome != Some(Sent) && NoneSent(sent)
    ensures NoneSent(ExecuteNext(a, sent, f).sent)
  {
  }

  lemma TransitionSingle(c: Coordinator, id: CommandId, next: CommandStatus, error: Option<ErrorCode>, device: DeviceId)
    requires Kept.Inv(c) && Runs.OneInFlight(c, device) && next != Sent
    ensures Kept.Inv(Transition(c, id, next, error).0) && Runs.OneInFlight(Transition(c, id, next, error).0, device)
  {
    Kept.TransitionKeeps(c, id, next, error);
    if id in c.commands {
      if c.commands[id].deviceId == device {
        Runs.TransitionKeepsOneInFlightIff(c, id, next, error);
      } else {
        assert Kept.QueueExact(c, device);
        OtherTransitionSingle(c, id, next, error, device);
      }
    }
  }

  lemma OtherTransitionSingle(c: Coordinator, id: CommandId, next: CommandStatus, error: Option<ErrorCode>, device: DeviceId)
    requires Kept.QueueExact(c, device) && Runs.OneInFlight(c, device) && id in c.commands && c.commands[id].deviceId != device
    ensures Runs.OneInFlight(Transition(c, id, next, error).0, device)
  {
    assert id !in QueueOf(c, device);
    if next in Transitions(c.commands[id].status) {
      var moved := SetStatus(c, id, next, error);
      SingleFrame(c, moved, device);
      SingleFrame(moved, DropFromQueue(moved, c.commands[id].deviceId, id), device);
    }
  }

  lemma SingleFrame(c: Coordinator, after: Coordinator, device: DeviceId)
    requires Runs.OneInFlight(c, device) && QueueOf(after, device) == QueueOf(c, device)
    requires forall x :: x in QueueOf(c, device) && x in c.commands ==> x in after.commands && after.commands[x] == c.commands[x]
    ensures Runs.OneInFlight(after, device)
  {
    var queue := QueueOf(c, device);
    assert forall i :: 0 < i < |queue| ==> queue[i] in queue;
  }

  lemma DispatchSingle(s: System, device: DeviceId)
    requires Single(s, device)
    ensures Single(DispatchTo(s, device), device)
  {
    var (server, next) := DispatchNext(s.server, device);
    Kept.DispatchKeeps(s.server, device);
    Runs.DispatchKeepsOneInFlight(s.server, device, device);
    if next.Some? {
      TransitionSingle(server, next.value, Failed, Some(DeviceOffline), device);
    }
  }

  lemma {:induction false} ExpireSingle(c: Coordinator, ids: seq<CommandId>, now: int, device: DeviceId)
    requires Kept.Inv(c) && Runs.OneInFlight(c, device)
    ensures Kept.Inv(ExpireFrom(c, ids, now).0) && Runs.OneInFlight(ExpireFrom(c, ids, now).0, device)
    decreases |ids|
  {
    if ids != [] {
      TransitionSingle(c, ids[0], Expired, None, device);
      ExpireSingle(c, ids[1..], now, device);
      ExpireSingle(Transition(c, ids[0], Expired, None).0, ids[1..], now, device);
    }
  }

  lemma CreateCommandSingle(
      c: Coordinator, batchId: BatchId, owner: OwnerId, target: DeviceId, commandType: string, now: int, id: CommandId, device: DeviceId)
    requires Kept.Inv(c) && Runs.OneInFlight(c, device) && id !in c.commands
    ensures Runs.OneInFlight(CreateCommand(c, batchId, owner, target, commandType, now, id).0, device)
  {
    Kept.CreateCommandOutcome(c, batchId, owner, target, commandType, now, id);
    assert Kept.QueueExact(c, device);
    var (after, entry) := CreateCommand(c, batchId, owner, target, commandType, now, id);
    var queue := QueueOf(c, device);
    assert forall i :: 0 < i < |queue| ==> queue[i] in after.commands && after.commands[queue[i]] == c.commands[queue[i]];
    assert QueueOf(after, device) == queue || (entry.Ok? && entry.value.Registered? && QueueOf(after, device) == queue + [id]);
  }

  lemma {:induction false} CreateSingle(
      c: Coordinator, batchId: BatchId, owner: OwnerId, targets: seq<DeviceId>, commandType: string, now: int, ids: seq<CommandId>, device: DeviceId)
    requires Kept.Inv(c) && Runs.OneInFlight(c, device) && |ids| >= |targets| && Kept.FreshIds(c, ids)
    ensures Runs.OneInFlight(CreateCommands(c, batchId, owner, targets, commandType, now, ids).0, device)
    decreases |targets|
  {
    if targets != [] {
      var n := |targets| - 1;
      Kept.FreshPrefix(c, ids, n);
      CreateSingle(c, batchId, owner, targets[..n], commandType, now, ids[..n], device);
      Kept.CreateCommandsKeeps(c, batchId, owner, targets[..n], commandType, now, ids[..n]);
      var before := CreateCommands(c, batchId, owner, targets[..n], commandType, now, ids[..n]).0;
      assert ids[n] !in before.commands by {
        assert ids[..n][..n] == ids[..n];
      }
      CreateCommandSingle(before, batchId, owner, targets[n], commandType, now, ids[n], device);
    }
  }

  lemma BatchSingle(c: Coordinator, owner: OwnerId, request: Request, now: int, supply: Supply, device: DeviceId)
    requires Kept.Inv(c) && Runs.OneInFlight(c, device)
    requires |supply.commandIds| >= |request.deviceIds| && Kept.FreshIds(c, supply.commandIds)
    ensures Runs.OneInFlight(CreateBatch(c, owner, request, now, supply).0, device)
  {
    if ValidTargets(request) && (owner, request.idempotencyKey) !in c.idempotency {
      UniqueSize(request.deviceIds);
      CreateSingle(c, supply.batchId, owner, TargetsOf(request), request.commandType, now, supply.commandIds, device);
      var created := CreateCommands(c, supply.batchId, owner, TargetsOf(request), request.commandType, now, supply.commandIds).0;
      var after := CreateBatch(c, owner, request, now, supply).0;
      SingleFrame(created, after, device);
    }
  }

  lemma ReceiveSingle(s: System, device: DeviceId)
    requires Single(s, device)
    ensures Single(ReceiveReport(s, device), device)
  {
    if s.link.serverOpen && s.link.up != [] {
      var report := s.link.up[0];
      assert report in s.link.up && forall r :: r in s.link.up[1..] ==> r in s.link.up;
      TransitionSingle(s.server, report.commandId, report.status, None, device);
      var server := HandleAgentResult(s.server, device, report.commandId, report.status, None).0;
      DispatchSingle(s.(server := server, link := s.link.(up := s.link.up[1..])), device);
    }
  }

  lemma StepSingle(s: System, device: DeviceId, capacity: nat, e: Event)
    requires Single(s, device) && Allowed(s, device, e) && Honest(e)
    ensures Single(Step(s, device, capacity, e), device)
  {
    match e
    case ServerUpsert(d) =>
      Kept.UpsertKeeps(s.server, d);
      SingleFrame(s.server, UpsertDevice(s.server, d), device);
    case ServerCreate(owner, request, now, supply) =>
      Kept.CreateBatchKeeps(s.server, owner, request, now, supply);
      BatchSingle(s.server, owner, request, now, supply, device);
    case ServerDispatch => DispatchSingle(s, device);
    case ServerReceive => ReceiveSingle(s, device);
    case ServerExpire(now) => ExpireSingle(s.server, s.server.inserted, now, device);
    case OtherDispatch(other) =>
      Kept.DispatchKeeps(s.server, other);
      Runs.DispatchKeepsOneInFlight(s.server, other, device);
    case OtherMove(id, next, error) =>
      Kept.TransitionKeeps(s.server, id, next, error);
      if id in s.server.commands {
        assert Kept.QueueExact(s.server, device);
        OtherTransitionSingle(s.server, id, next, error, device);
      }
    case Connect => DispatchSingle(s.(link := Link([], [], true, true)), device);
    case AgentReceive(now, f) =>
      if s.link.agentOpen && s.link.down != [] && s.agent.memory.Some? {
        ProcessNeverSent(s.agent, capacity, s.link.down[0], now, f);
      }
    case CloseServer =>
    case CloseAgent =>
    case AgentCrash =>
    case AgentStart(_) =>
    case Inject(_) =>
  }

  lemma {:induction false} RunSingle(s: System, device: DeviceId, capacity: nat, events: seq<Event>)
    requires Single(s, device) && AllowedRun(s, device, capacity, events) && forall e :: e in events ==> Honest(e)
    ensures Single(Run(s, device, capacity, events), device)
    decreases |events|
  {
    if events != [] {
      assert events[0] in events && forall e :: e in events[1..] ==> e in events;
      StepSingle(s, device, capacity, events[0]);
      RunSingle(Step(s, device, capacity, events[0]), device, capacity, events[1..]);
    }
  }

  predicate Out(c: Coordinator, device: DeviceId, id: CommandId) {
    IsLive(c, id) && c.commands[id].deviceId == device && c.commands[id].status != Created
  }

  /** In every reachable state at most one command of the device is sent, accepted or executing, and it is the
      live command with the smallest sequence. */
  lemma AtMostOneOut(device: DeviceId, capacity: nat, events: seq<Event>, id: CommandId, other: CommandId)
    requires AllowedRun(INITIAL, device, capacity, events) && forall e :: e in events ==> Honest(e)
    ensures var c := Run(INITIAL, device, capacity, events).server;
            Out(c, device, id) && IsLive(c, other) && c.commands[other].deviceId == device && other != id ==>
              !Out(c, device, other) && c.commands[id].sequence < c.commands[other].sequence
  {
    Kept.EmptyInv();
    RunSingle(INITIAL, device, capacity, events);
    var c := Run(INITIAL, device, capacity, events).server;
    assert Kept.QueueExact(c, device);
    var queue := QueueOf(c, device);
    if Out(c, device, id) && IsLive(c, other) && c.commands[other].deviceId == device && other != id {
      assert id in queue && other in queue;
      var i :| 0 <= i < |queue| && queue[i] == id;
      var j :| 0 <= j < |queue| && queue[j] == other;
      assert i == 0;
      assert SequenceAt(c.commands, queue[i]) < SequenceAt(c.commands, queue[j]);
    }
  }
}
