/** The command protocol for one device: the server's coordinator, a connection that loses what is in flight
    when it is replaced, and the device's agent. Traffic of all other devices is arbitrary. */
module ProtocolSpec {
  import opened Prelude
  import opened Wire
  import opened AgentSpec
  import opened CoordinatorSpec
  import Runs = CoordinatorRuns
  import LedgerSpec
  import StoreSpec

  /** `agentOpen` and `serverOpen` say whether each end still regards the connection as usable. */
  datatype Link = Link(down: seq<LedgerSpec.AgentCommand>, up: seq<Report>, agentOpen: bool, serverOpen: bool)

  const CLOSED := Link([], [], false, false)

  /** `sentMax` and `receivedMax` record the largest device sequence sent and received so far and steer nothing. */
  datatype System = System(server: Coordinator, agent: Agent, link: Link, sentMax: nat, receivedMax: nat)

  const INITIAL := System(CoordinatorSpec.EMPTY, FRESH, CLOSED, 0, 0)

  datatype Event =
    | ServerUpsert(device: Device)
    | ServerCreate(owner: OwnerId, request: Request, now: int, supply: Supply)
    | ServerDispatch
    | ServerReceive
    | ServerExpire(now: int)
    | OtherDispatch(other: DeviceId)
    | OtherMove(id: CommandId, next: CommandStatus, error: Option<ErrorCode>)
    | Connect
    | CloseServer
    | CloseAgent
    | AgentReceive(now: int, faults: Faults)
    | AgentCrash
    | AgentStart(cut: nat)
    | Inject(command: LedgerSpec.AgentCommand)

  function ToWire(command: Command): LedgerSpec.AgentCommand {
    LedgerSpec.AgentCommand(command.commandId, command.commandType, Some(command.expiresAt))
  }

  /** `#dispatch`: choose the head, then send it or fail it when the device has no connection. */
  function DispatchTo(s: System, device: DeviceId): System {
    var (server, next) := DispatchNext(s.server, device);
    if next.None? then s.(server := server) else
    var command := server.commands[next.value];
    if s.link.serverOpen then
      s.(server := server, link := s.link.(down := s.link.down + [ToWire(command)]), sentMax := Max(s.sentMax, command.sequence))
    else
      s.(server := Transition(server, next.value, Failed, Some(DeviceOffline)).0)
  }

  /** One report from the device; a terminal status dispatches the next command. */
  function ReceiveReport(s: System, device: DeviceId): System {
    if !s.link.serverOpen || s.link.up == [] then s else
    var report := s.link.up[0];
    var (server, result) := HandleAgentResult(s.server, device, report.commandId, report.status, None);
    var handled := s.(server := server, link := s.link.(up := s.link.up[1..]));
    if result.Ok? && IsTerminal(server.commands[result.value].status) then DispatchTo(handled, device) else handled
  }

  function ReceiveCommand(s: System, capacity: nat, now: int, f: Faults): System {
    if !s.link.agentOpen || s.link.down == [] || s.agent.memory.None? then s else
    var command := s.link.down[0];
    var handled := ProcessCommand(s.agent, capacity, command, now, f);
    s.(agent := handled.agent,
       link := s.link.(down := s.link.down[1..], up := s.link.up + handled.sent, agentOpen := handled.ok),
       receivedMax := Max(s.receivedMax, SequenceAt(s.server.commands, command.commandId)))
  }

  ghost predicate Allowed(s: System, device: DeviceId, e: Event) {
    match e
    case ServerCreate(owner, request, now, supply) => Runs.Allowed(s.server, Runs.Create(owner, request, now, supply))
    case OtherDispatch(other) => other != device
    case OtherMove(id, _, _) => id in s.server.commands ==> s.server.commands[id].deviceId != device
    case _ => true
  }

  ghost function Step(s: System, device: DeviceId, capacity: nat, e: Event): System
    requires Allowed(s, device, e)
  {
    match e
    case ServerUpsert(d) => s.(server := UpsertDevice(s.server, d))
    case ServerCreate(owner, request, now, supply) => s.(server := CreateBatch(s.server, owner, request, now, supply).0)
    case ServerDispatch => DispatchTo(s, device)
    case ServerReceive => ReceiveReport(s, device)
    case ServerExpire(now) => s.(server := Expire(s.server, now).0)
    case OtherDispatch(other) => s.(server := DispatchNext(s.server, other).0)
    case OtherMove(id, next, error) => s.(server := Transition(s.server, id, next, error).0)
    case Connect => if s.agent.memory.None? then s else DispatchTo(s.(link := Link([], [], true, true)), device)
    case CloseServer => s.(link := s.link.(serverOpen := false))
    case CloseAgent => s.(link := s.link.(agentOpen := false))
    case AgentReceive(now, f) => ReceiveCommand(s, capacity, now, f)
    case AgentCrash => s.(agent := s.agent.(memory := None), link := s.link.(agentOpen := false))
    case AgentStart(cut) => s.(agent := StartAgent(s.agent, capacity, cut))
    case Inject(command) => s.(link := s.link.(down := s.link.down + [command]))
  }

  ghost predicate AllowedRun(s: System, device: DeviceId, capacity: nat, events: seq<Event>)
    decreases |events|
  {
    events == [] || (Allowed(s, device, events[0]) && AllowedRun(Step(s, device, capacity, events[0]), device, capacity, events[1..]))
  }

  ghost function Run(s: System, device: DeviceId, capacity: nat, events: seq<Event>): System
    requires AllowedRun(s, device, capacity, events)
    decreases |events|
  {
    if events == [] then s else Run(Step(s, device, capacity, events[0]), device, capacity, events[1..])
  }
}

/** A command the server calls succeeded was executed successfully by its device. */
module SuccessIsTrue {
  import opened Prelude
  import opened Wire
  import opened AgentSpec
  import opened CoordinatorSpec
  import opened ProtocolSpec
  import Runs = CoordinatorRuns
  import Kept = CoordinatorInvariant
  import LedgerSpec
  import opened StoreSpec

  predicate Ran(log: seq<Execution>, id: CommandId) {
    exists i :: 0 <= i < |log| && log[i].command.commandId == id && log[i].outcome == Some(Succeeded)
  }

  ghost predicate LedgerTrue(l: LedgerSpec.Ledger, log: seq<Execution>) {
    forall id :: id in l.commands && l.commands[id].Succeeded? ==> Ran(log, id)
  }

  ghost predicate AgentTrue(a: Agent) {
    && Sound(a.disk)
    && (a.memory.Some? ==> LedgerTrue(a.memory.value, a.log))
    && (Durable(a.disk).Some? ==> LedgerTrue(Durable(a.disk).value, a.log))
  }

  ghost predicate ReportsTrue(reports: seq<Report>, log: seq<Execution>) {
    forall r :: r in reports && r.status == Succeeded ==> Ran(log, r.commandId)
  }

  ghost predicate ServerTrue(c: Coordinator, device: DeviceId, log: seq<Execution>) {
    forall id :: id in c.commands && c.commands[id].deviceId == device && c.commands[id].status == Succeeded ==> Ran(log, id)
  }

  ghost predicate True(s: System, device: DeviceId) {
    AgentTrue(s.agent) && ReportsTrue(s.link.up, s.agent.log) && ServerTrue(s.server, device, s.agent.log)
  }

  // ---- the agent ----

  lemma CommitTrue(a: Agent, l: LedgerSpec.Ledger, cut: nat)
    requires AgentTrue(a) && LedgerTrue(l, a.log)
    ensures AgentTrue(Commit(a, l, cut).0)
  {
    PersistIsAtomic(a.disk, l, cut);
  }

  lemma AcceptTrue(a: Agent, capacity: nat, command: LedgerSpec.AgentCommand, cut: nat)
    requires a.memory.Some? && AgentTrue(a)
    ensures AgentTrue(StoreAccept(a, capacity, command, cut).0) && StoreAccept(a, capacity, command, cut).0.log == a.log
  {
    var l := LedgerSpec.Accept(a.memory.value, capacity, command).0;
    assert LedgerTrue(l, a.log);
    CommitTrue(a.(memory := Some(l), evicted := a.evicted + (a.memory.value.commands.Keys - l.commands.Keys)), l, cut);
  }

  lemma FinishTrue(a: Agent, id: CommandId, state: LedgerSpec.PersistedState, cut: nat)
    requires a.memory.Some? && AgentTrue(a) && (state.Succeeded? ==> Ran(a.log, id))
    ensures AgentTrue(StoreFinish(a, id, state, cut).0) && StoreFinish(a, id, state, cut).0.log == a.log
  {
    var l := LedgerSpec.Finish(a.memory.value, id, state).0;
    CommitTrue(a, l, cut);
  }

  /** What has run once has run for good. */
  lemma RanStays(log: seq<Execution>, later: seq<Execution>)
    requires log <= later
    ensures forall id :: Ran(log, id) ==> Ran(later, id)
  {
    forall id | Ran(log, id) ensures Ran(later, id) {
      var i :| 0 <= i < |log| && log[i].command.commandId == id && log[i].outcome == Some(Succeeded);
      assert later[i] == log[i];
    }
  }

  lemma LogAppendTrue(a: Agent, e: Execution)
    requires AgentTrue(a)
    ensures AgentTrue(a.(log := a.log + [e]))
  {
    RanStays(a.log, a.log + [e]);
  }

  lemma ExecuteTrue(a: Agent, sent: seq<Report>, f: Faults)
    requires a.memory.Some? && AgentTrue(a) && ReportsTrue(sent, a.log)
    ensures var handled := ExecuteNext(a, sent, f);
            AgentTrue(handled.agent) && ReportsTrue(handled.sent, handled.agent.log) && a.log <= handled.agent.log
  {
    var (l, next) := LedgerSpec.Dequeue(a.memory.value);
    CommitTrue(a, l, f.dequeueCut);
    var (taken, _, ok) := StoreDequeue(a, f.dequeueCut);
    if ok && next.Some? && f.executingSent {
      var id := next.value.commandId;
      LogAppendTrue(taken, Execution(next.value, f.outcome));
      var executed := taken.(log := taken.log + [Execution(next.value, f.outcome)]);
      assert executed.log[|taken.log|] == Execution(next.value, f.outcome);
      RanStays(taken.log, executed.log);
      var announced := sent + [Report(id, CommandStatus.Executing)];
      assert ReportsTrue(announced, executed.log);
      if f.outcome.Some? {
        FinishTrue(executed, id, PersistedOutcome(f.outcome.value), f.finishCut);
      }
    }
  }

  lemma ProcessTrue(a: Agent, capacity: nat, command: LedgerSpec.AgentCommand, now: int, f: Faults)
    requires a.memory.Some? && AgentTrue(a)
    ensures var handled := ProcessCommand(a, capacity, command, now, f);
            AgentTrue(handled.agent) && ReportsTrue(handled.sent, handled.agent.log) && a.log <= handled.agent.log
  {
    var id := command.commandId;
    var handled := ProcessCommand(a, capacity, command, now, f);
    if LedgerSpec.HasTerminal(a.memory.value.commands, id) || command.expiresAt.None? {
      assert handled.agent == a;
    } else {
      var (accepted, ok) := StoreAccept(a, capacity, command, f.acceptCut);
      AcceptTrue(a, capacity, command, f.acceptCut);
      if command.expiresAt.value <= now {
        var from := if id in a.memory.value.commands then a else accepted;
        FinishTrue(from, id, LedgerSpec.PersistedState.Expired, f.finishCut);
        assert handled == ProcessExpired(a, capacity, command, f);
      } else if ok && f.acceptedSent {
        assert handled == ExecuteNext(accepted, [Report(id, CommandStatus.Accepted)], f);
        ExecuteTrue(accepted, [Report(id, CommandStatus.Accepted)], f);
      }
    }
  }

  // ---- the server ----

  lemma TransitionTrue(c: Coordinator, id: CommandId, next: CommandStatus, error: Option<ErrorCode>, device: DeviceId, log: seq<Execution>)
    requires ServerTrue(c, device, log)
    requires next == Succeeded && id in c.commands && c.commands[id].deviceId == device ==> Ran(log, id)
    ensures ServerTrue(Transition(c, id, next, error).0, device, log)
  {
    Kept.TransitionSameTable(c, id, next, error);
  }

  lemma {:induction false} ExpireTrue(c: Coordinator, ids: seq<CommandId>, now: int, device: DeviceId, log: seq<Execution>)
    requires ServerTrue(c, device, log)
    ensures ServerTrue(ExpireFrom(c, ids, now).0, device, log)
    decreases |ids|
  {
    if ids != [] {
      TransitionTrue(c, ids[0], Expired, None, device, log);
      ExpireTrue(c, ids[1..], now, device, log);
      ExpireTrue(Transition(c, ids[0], Expired, None).0, ids[1..], now, device, log);
    }
  }

  lemma CreateOneTrue(
      c: Coordinator, batchId: BatchId, owner: OwnerId, target: DeviceId, commandType: string, now: int, id: CommandId, device: DeviceId, log: seq<Execution>)
    requires ServerTrue(c, device, log)
    ensures ServerTrue(CreateCommand(c, batchId, owner, target, commandType, now, id).0, device, log)
  {
  }

  lemma {:induction false} CreateTrue(
      c: Coordinator, batchId: BatchId, owner: OwnerId, devices: seq<DeviceId>, commandType: string, now: int, ids: seq<CommandId>,
      device: DeviceId, log: seq<Execution>)
    requires |ids| >= |devices| && ServerTrue(c, device, log)
    ensures ServerTrue(CreateCommands(c, batchId, owner, devices, commandType, now, ids).0, device, log)
    decreases |devices|
  {
    if devices != [] {
      var n := |devices| - 1;
      CreateTrue(c, batchId, owner, devices[..n], commandType, now, ids[..n], device, log);
      var before := CreateCommands(c, batchId, owner, devices[..n], commandType, now, ids[..n]).0;
      CreateOneTrue(before, batchId, owner, devices[n], commandType, now, ids[n], device, log);
    }
  }

  lemma DispatchTrue(s: System, device: DeviceId)
    requires True(s, device)
    ensures True(DispatchTo(s, device), device)
  {
    var (server, next) := DispatchNext(s.server, device);
    if next.Some? {
      TransitionTrue(s.server, next.value, Sent, None, device, s.agent.log);
      TransitionTrue(server, next.value, Failed, Some(DeviceOffline), device, s.agent.log);
    }
  }

  lemma ReceiveTrue(s: System, device: DeviceId)
    requires True(s, device)
    ensures True(ReceiveReport(s, device), device)
  {
    if s.link.serverOpen && s.link.up != [] {
      var report := s.link.up[0];
      var rest := s.link.up[1..];
      assert report in s.link.up && forall r :: r in rest ==> r in s.link.up;
      TransitionTrue(s.server, report.commandId, report.status, None, device, s.agent.log);
      var server := HandleAgentResult(s.server, device, report.commandId, report.status, None).0;
      DispatchTrue(s.(server := server, link := s.link.(up := rest)), device);
    }
  }

  lemma StepTrue(s: System, device: DeviceId, capacity: nat, e: Event)
    requires True(s, device) && Allowed(s, device, e)
    ensures True(Step(s, device, capacity, e), device)
  {
    match e
    case ServerCreate(owner, request, now, supply) =>
      if ValidTargets(request) {
        UniqueSize(request.deviceIds);
        CreateTrue(s.server, supply.batchId, owner, TargetsOf(request), request.commandType, now, supply.commandIds, device, s.agent.log);
      }
    case ServerDispatch => DispatchTrue(s, device);
    case ServerReceive => ReceiveTrue(s, device);
    case ServerExpire(now) => ExpireTrue(s.server, s.server.inserted, now, device, s.agent.log);
    case OtherDispatch(other) =>
      var next := FirstLive(s.server, QueueOf(s.server, other));
      if next.Some? {
        TransitionTrue(s.server, next.value, Sent, None, device, s.agent.log);
      }
    case OtherMove(id, next, error) => TransitionTrue(s.server, id, next, error, device, s.agent.log);
    case Connect => DispatchTrue(s.(link := Link([], [], true, true)), device);
    case AgentReceive(now, f) =>
      if s.link.agentOpen && s.link.down != [] && s.agent.memory.Some? {
        ProcessTrue(s.agent, capacity, s.link.down[0], now, f);
        LongerLogTrue(s, device, ProcessCommand(s.agent, capacity, s.link.down[0], now, f));
      }
    case AgentStart(cut) => OpenIsAtomic(s.agent.disk, capacity, cut);
    case ServerUpsert(_) =>
    case CloseServer =>
    case CloseAgent =>
    case AgentCrash =>
    case Inject(_) =>
  }

  lemma LongerLogTrue(s: System, device: DeviceId, handled: Handled)
    requires True(s, device) && s.agent.log <= handled.agent.log && ReportsTrue(handled.sent, handled.agent.log)
    ensures ReportsTrue(s.link.up + handled.sent, handled.agent.log)
    ensures ServerTrue(s.server, device, handled.agent.log)
  {
    RanStays(s.agent.log, handled.agent.log);
  }

  lemma {:induction false} RunTrue(s: System, device: DeviceId, capacity: nat, events: seq<Event>)
    requires True(s, device) && AllowedRun(s, device, capacity, events)
    ensures True(Run(s, device, capacity, events), device)
    decreases |events|
  {
    if events != [] {
      StepTrue(s, device, capacity, events[0]);
      RunTrue(Step(s, device, capacity, events[0]), device, capacity, events[1..]);
    }
  }

  /** In every run, with losses, crashes, stray commands and arbitrary other devices, a command of the device that
      the server holds as succeeded is in the device's execution log with that outcome. */
  lemma SucceededWasExecuted(device: DeviceId, capacity: nat, events: seq<Event>, id: CommandId)
    requires AllowedRun(INITIAL, device, capacity, events)
    ensures var end := Run(INITIAL, device, capacity, events);
            id in end.server.commands && end.server.commands[id].deviceId == device && end.server.commands[id].status == Succeeded ==>
            Ran(end.agent.log, id)
  {
    RunTrue(INITIAL, device, capacity, events);
  }
}
