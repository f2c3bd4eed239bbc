/** What the protocol does when nothing is lost: dispatching, handling reports, and a whole command from request to result. */
module ProtocolProgress {
  import opened Prelude
  import opened Wire
  import opened AgentSpec
  import opened CoordinatorSpec
  import opened CoordinatorOutcomes
  import opened ProtocolSpec
  import Batches = CoordinatorBatches
  import Kept = CoordinatorInvariant
  import Js = JsText
  import Recovery = AgentRecovery
  import Reports = AgentReports
  import LedgerSpec
  import StoreSpec

  // ---- dispatching ----

  /** Of the device's commands that have not ended, the one with the smallest sequence. */
  ghost predicate First(c: Coordinator, device: DeviceId, x: CommandId) {
    Unended(c, device, x) && forall y :: Unended(c, device, y) && y != x ==> c.commands[x].sequence < c.commands[y].sequence
  }

  predicate Unended(c: Coordinator, device: DeviceId, x: CommandId) {
    x in c.commands && c.commands[x].deviceId == device && !Ended(c.commands[x].status)
  }

  /** The first command is sent as recorded, and marked as sent if it was waiting; without a connection it fails. */
  ghost predicate FirstGoesOut(s: System, after: System, x: CommandId)
    requires x in s.server.commands
  {
    var record := s.server.commands[x];
    after.agent == s.agent
    && if s.link.serverOpen then
         after.link == s.link.(down := s.link.down + [LedgerSpec.AgentCommand(x, record.commandType, Some(record.expiresAt))])
         && if record.status == CommandStatus.Created then Moved(s.server, after.server, x, CommandStatus.Sent, None) else after.server == s.server
       else
         after.link == s.link && Moved(s.server, after.server, x, CommandStatus.Failed, Some(ErrorCode.DeviceOffline))
  }

  ghost predicate Dispatched(s: System, after: System, device: DeviceId) {
    if forall x :: !Unended(s.server, device, x) then after == s
    else exists x :: First(s.server, device, x) && FirstGoesOut(s, after, x)
  }

  lemma MovedTwice(a: Coordinator, b: Coordinator, c: Coordinator, id: CommandId, error: Option<ErrorCode>)
    requires Moved(a, b, id, CommandStatus.Sent, None) && Moved(b, c, id, CommandStatus.Failed, error)
    ensures Moved(a, c, id, CommandStatus.Failed, error)
  {
  }

  lemma ChoiceIsFirst(c: Coordinator, device: DeviceId)
    requires Kept.Inv(c)
    ensures var next := DispatchNext(c, device).1;
            if next.None? then forall x :: !Unended(c, device, x) else First(c, device, next.value)
  {
    Kept.DispatchTakesSmallest(c, device);
    forall x | x in c.commands ensures IsLive(c, x) <==> !Ended(c.commands[x].status) {
      SameEdges(CommandStatus.Created, c.commands[x].status);
    }
  }

  lemma GoesOutAs(s: System, server: Coordinator, device: DeviceId, x: CommandId)
    requires Kept.Inv(s.server) && x in s.server.commands && (server, Some(x)) == DispatchNext(s.server, device)
    requires if s.server.commands[x].status == CommandStatus.Created then Moved(s.server, server, x, CommandStatus.Sent, None) else server == s.server
    requires s.link.serverOpen
    ensures FirstGoesOut(s, DispatchTo(s, device), x)
  {
    var record := s.server.commands[x];
    assert record.commandId == x by {
      assert Kept.Recorded(s.server);
    }
    assert Kept.SameIdentity(record, server.commands[x]);
  }

  lemma FailsAs(s: System, server: Coordinator, device: DeviceId, x: CommandId)
    requires Kept.Inv(s.server) && Unended(s.server, device, x) && (server, Some(x)) == DispatchNext(s.server, device)
    requires if s.server.commands[x].status == CommandStatus.Created then Moved(s.server, server, x, CommandStatus.Sent, None) else server == s.server
    requires !s.link.serverOpen
    ensures FirstGoesOut(s, DispatchTo(s, device), x)
  {
    Kept.DispatchKeeps(s.server, device);
    OfflineFails(s.server, server, x);
  }

  /** `#dispatch`, for every state. */
  lemma DispatchIs(s: System, device: DeviceId)
    requires Kept.Inv(s.server)
    ensures Dispatched(s, DispatchTo(s, device), device)
  {
    var (server, next) := DispatchNext(s.server, device);
    ChoiceIsFirst(s.server, device);
    DispatchOutcome(s.server, device);
    if next.Some? {
      if s.link.serverOpen {
        GoesOutAs(s, server, device, next.value);
      } else {
        FailsAs(s, server, device, next.value);
      }
    }
  }

  lemma OfflineFails(c: Coordinator, sent: Coordinator, x: CommandId)
    requires Kept.Inv(c) && x in c.commands && !Ended(c.commands[x].status)
    requires if c.commands[x].status == CommandStatus.Created then Moved(c, sent, x, CommandStatus.Sent, None) else sent == c
    requires Kept.Inv(sent)
    ensures Moved(c, Transition(sent, x, Failed, Some(DeviceOffline)).0, x, CommandStatus.Failed, Some(ErrorCode.DeviceOffline))
  {
    TransitionIff(sent, x, CommandStatus.Failed, Some(ErrorCode.DeviceOffline));
    if c.commands[x].status == CommandStatus.Created {
      MovedTwice(c, sent, Transition(sent, x, Failed, Some(DeviceOffline)).0, x, Some(ErrorCode.DeviceOffline));
    }
  }

  /** A new connection starts empty, and the device's first command goes out on it. */
  lemma ConnectIs(s: System, device: DeviceId, capacity: nat)
    requires Kept.Inv(s.server)
    ensures
      var after := Step(s, device, capacity, Connect);
      if s.agent.memory.None? then after == s else Dispatched(s.(link := Link([], [], true, true)), after, device)
  {
    DispatchIs(s.(link := Link([], [], true, true)), device);
  }

  // ---- a report ----

  /** The first report is taken off the connection and applied; if it ends its command, the device's next one goes out. */
  ghost predicate ReportHandled(s: System, after: System, device: DeviceId) {
    if !s.link.serverOpen || s.link.up == [] then after == s else
    var report := s.link.up[0];
    exists handled: System ::
      handled.agent == s.agent && handled.link == s.link.(up := s.link.up[1..])
      && ReportApplied(s.server, handled.server, device, report)
      && if EndsWith(handled.server, s.server, device, report) then Dispatched(handled, after, device) else after == handled
  }

  ghost predicate ReportApplied(c: Coordinator, after: Coordinator, device: DeviceId, report: Report) {
    if report.commandId in c.commands && c.commands[report.commandId].deviceId == device && Edge(c.commands[report.commandId].status, report.status)
    then Moved(c, after, report.commandId, report.status, None) else after == c
  }

  /** The report was accepted, now or before, and its command has ended. */
  ghost predicate EndsWith(after: Coordinator, c: Coordinator, device: DeviceId, report: Report) {
    report.commandId in c.commands && c.commands[report.commandId].deviceId == device && report.commandId in after.commands
    && after.commands[report.commandId].status == report.status && Ended(report.status)
  }

  lemma AppliedAs(c: Coordinator, device: DeviceId, report: Report)
    requires Kept.Inv(c)
    ensures
      var (after, result) := HandleAgentResult(c, device, report.commandId, report.status, None);
      Kept.Inv(after) && ReportApplied(c, after, device, report)
      && (result.Ok? && IsTerminal(after.commands[result.value].status) <==> EndsWith(after, c, device, report))
  {
    ReportIff(c, device, report.commandId, report.status, None);
    Kept.TransitionKeeps(c, report.commandId, report.status, None);
    SameEdges(CommandStatus.Created, report.status);
  }

  /** `handleAgentResult` and what follows it, for every state and every report. */
  lemma ReceiveIs(s: System, device: DeviceId)
    requires Kept.Inv(s.server)
    ensures ReportHandled(s, ReceiveReport(s, device), device) && Kept.Inv(ReceiveReport(s, device).server)
  {
    if s.link.serverOpen && s.link.up != [] {
      var report := s.link.up[0];
      var server := HandleAgentResult(s.server, device, report.commandId, report.status, None).0;
      var handled := s.(server := server, link := s.link.(up := s.link.up[1..]));
      AppliedAs(s.server, device, report);
      DispatchIs(handled, device);
      DispatchToKeeps(handled, device);
    }
  }

  lemma DispatchToKeeps(s: System, device: DeviceId)
    requires Kept.Inv(s.server)
    ensures Kept.Inv(DispatchTo(s, device).server)
  {
    var (server, next) := DispatchNext(s.server, device);
    Kept.DispatchKeeps(s.server, device);
    if next.Some? {
      Kept.TransitionKeeps(server, next.value, Failed, Some(DeviceOffline));
    }
  }

  // ---- a whole command ----

  /** Nothing is on its way to or from the device, and nothing waits for it; agent and server are connected. */
  ghost predicate Idle(s: System, device: DeviceId) {
    Kept.Inv(s.server) && QueueOf(s.server, device) == [] && s.link == Link([], [], true, true)
    && s.agent.memory.Some? && s.agent.memory.value.queue == [] && StoreSpec.Sound(s.agent.disk)
  }

  /** The owner asks one device of theirs, under a new key, for something it can do. */
  ghost predicate Answerable(s: System, device: DeviceId, owner: OwnerId, request: Request, supply: Supply, capacity: nat) {
    request.deviceIds == [device] && |supply.commandIds| == 1 && Kept.FreshIds(s.server, supply.commandIds) && supply.batchId !in s.server.batches
    && (owner, request.idempotencyKey) !in s.server.idempotency
    && Batches.Capable(s.server, owner, request.commandType, device)
    && s.agent.memory.Some? && supply.commandIds[0] !in s.agent.memory.value.commands
    && Reports.HasRoom(s.agent.memory.value, capacity, supply.commandIds[0])
  }

  lemma OneTarget(request: Request, device: DeviceId)
    requires request.deviceIds == [device]
    ensures ValidTargets(request) && TargetsOf(request) == [device]
  {
    UniqueElements([device]);
    Js.SortNoDup([device]);
    assert Js.Sort([device]) == [Js.Sort([device])[0]];
    assert Js.Sort([device])[0] in Elements([device]);
  }

  /** The record that the request makes. */
  predicate Recorded(c: Coordinator, device: DeviceId, request: Request, now: int, id: CommandId, status: CommandStatus) {
    id in c.commands && c.commands[id].deviceId == device && c.commands[id].commandType == request.commandType
    && c.commands[id].expiresAt == now + 30_000 && c.commands[id].status == status
  }

  ghost predicate Busy(c: Coordinator, device: DeviceId, request: Request, now: int, id: CommandId, status: CommandStatus) {
    Kept.Inv(c) && Recorded(c, device, request, now, id, status) && QueueOf(c, device) == [id]
  }

  lemma Created(s: System, device: DeviceId, owner: OwnerId, request: Request, now: int, supply: Supply, capacity: nat)
    requires Idle(s, device) && Answerable(s, device, owner, request, supply, capacity)
    ensures Busy(CreateBatch(s.server, owner, request, now, supply).0, device, request, now, supply.commandIds[0], CommandStatus.Created)
  {
    var c, id := s.server, supply.commandIds[0];
    OneTarget(request, device);
    Kept.CreateBatchKeeps(c, owner, request, now, supply);
    assert Batches.NoneFails(c, owner, request.commandType, TargetsOf(request));
    Batches.BatchHolds(c, owner, request, now, supply);
    var (after, result) := CreateBatch(c, owner, request, now, supply);
    assert Batches.EntryFor(c, after, result.value.entries[0], supply.batchId, owner, TargetsOf(request)[0], request.commandType, now, supply.commandIds[0]);
    Batches.AllHandled(c, supply.batchId, owner, TargetsOf(request), request.commandType, now, supply.commandIds);
    var created := CreateCommands(c, supply.batchId, owner, TargetsOf(request), request.commandType, now, supply.commandIds).0;
    assert Batches.TargetHandled(c, created, owner, request.commandType, TargetsOf(request)[0], supply.commandIds[0]);
  }

  /** With one command in the queue, that one is first. */
  lemma OnlyOne(c: Coordinator, device: DeviceId, id: CommandId)
    requires Kept.Inv(c) && QueueOf(c, device) == [id]
    ensures First(c, device, id) && forall x :: Unended(c, device, x) <==> x == id
  {
    assert Kept.QueueExact(c, device);
    forall x | x in c.commands ensures IsLive(c, x) <==> !Ended(c.commands[x].status) {
      SameEdges(CommandStatus.Created, c.commands[x].status);
    }
    assert id in QueueOf(c, device);
  }

  lemma NoneLeft(c: Coordinator, device: DeviceId)
    requires Kept.Inv(c) && QueueOf(c, device) == []
    ensures forall x :: !Unended(c, device, x)
  {
    assert Kept.QueueExact(c, device);
    forall x | x in c.commands ensures IsLive(c, x) <==> !Ended(c.commands[x].status) {
      SameEdges(CommandStatus.Created, c.commands[x].status);
    }
  }

  lemma GoesOut(s: System, device: DeviceId, request: Request, now: int, id: CommandId)
    requires Busy(s.server, device, request, now, id, CommandStatus.Created) && s.link == Link([], [], true, true)
    ensures
      var after := DispatchTo(s, device);
      Busy(after.server, device, request, now, id, CommandStatus.Sent) && after.agent == s.agent
      && after.link == Link([LedgerSpec.AgentCommand(id, request.commandType, Some(now + 30_000))], [], true, true)
  {
    DispatchIs(s, device);
    OnlyOne(s.server, device, id);
    Kept.DispatchKeeps(s.server, device);
    var after := DispatchTo(s, device);
    var x :| First(s.server, device, x) && FirstGoesOut(s, after, x);
    assert x == id;
  }

  /** The agent runs it and reports three times. */
  lemma RunsHere(s: System, device: DeviceId, capacity: nat, command: LedgerSpec.AgentCommand, now: int, f: Faults)
    requires s.link == Link([command], [], true, true) && Recovery.Fresh(command, now) && Recovery.Smooth(f)
    requires s.agent.memory.Some? && s.agent.memory.value.queue == [] && StoreSpec.Sound(s.agent.disk)
    requires command.commandId !in s.agent.memory.value.commands && Reports.HasRoom(s.agent.memory.value, capacity, command.commandId)
    ensures
      var after, id := ReceiveCommand(s, capacity, now, f), command.commandId;
      after.server == s.server
      && after.link == Link([], [Report(id, CommandStatus.Accepted), Report(id, CommandStatus.Executing), Report(id, f.outcome.value)], true, true)
      && after.agent.log == s.agent.log + [Execution(command, f.outcome)]
      && after.agent.memory.Some? && after.agent.memory.value.queue == [] && StoreSpec.Sound(after.agent.disk)
  {
    Reports.DeliveryReports(s.agent, capacity, command, now, f);
    var handled := ProcessCommand(s.agent, capacity, command, now, f);
    assert Reports.FreshOutcome(s.agent, capacity, command, f, handled);
    EnoughOperations(s.agent.disk);
    assert Reports.Reached(s.agent, capacity, command, f) == 3;
    assert Reports.Head(s.agent.memory.value, command) == Some(command);
    assert Reports.Course(Some(command), command.commandId, f.outcome)[..3] == Reports.Course(Some(command), command.commandId, f.outcome);
    assert Reports.Waiting(s.agent.memory.value, command)[1..] == [];
  }

  lemma EnoughOperations(d: StoreSpec.Disk)
    ensures Reports.FileOperations(d) <= 6
  {
  }

  /** One report of the device's only command. */
  lemma Reported(s: System, device: DeviceId, request: Request, now: int, id: CommandId, from: CommandStatus)
    requires Busy(s.server, device, request, now, id, from) && s.link.serverOpen && s.link.up != [] && s.link.up[0].commandId == id
    ensures
      var after, to := ReceiveReport(s, device), s.link.up[0].status;
      after.agent == s.agent && after.link == s.link.(up := s.link.up[1..])
      && if !Edge(from, to) then Busy(after.server, device, request, now, id, from)
         else if Ended(to) then Done(after.server, device, request, now, id, to)
         else Busy(after.server, device, request, now, id, to)
  {
    var report := s.link.up[0];
    ReceiveIs(s, device);
    var handled := NothingFollows(s, device, id);
    if Edge(from, report.status) && Ended(report.status) {
      NothingLeft(s.server, handled.server, device, id, report.status);
    }
  }

  /** With one command in the queue, a report is applied and nothing goes out after it. */
  lemma NothingFollows(s: System, device: DeviceId, id: CommandId) returns (handled: System)
    requires Kept.Inv(s.server) && QueueOf(s.server, device) == [id] && s.link.serverOpen && s.link.up != [] && s.link.up[0].commandId == id
    ensures handled == ReceiveReport(s, device) && handled.agent == s.agent && handled.link == s.link.(up := s.link.up[1..])
    ensures ReportApplied(s.server, handled.server, device, s.link.up[0])
  {
    var after, report := ReceiveReport(s, device), s.link.up[0];
    ReceiveIs(s, device);
    OnlyOne(s.server, device, id);
    handled :| handled.agent == s.agent && handled.link == s.link.(up := s.link.up[1..])
      && ReportApplied(s.server, handled.server, device, report)
      && if EndsWith(handled.server, s.server, device, report) then Dispatched(handled, after, device) else after == handled;
    if EndsWith(handled.server, s.server, device, report) {
      NothingLeft(s.server, handled.server, device, id, report.status);
    }
  }

  ghost predicate Done(c: Coordinator, device: DeviceId, request: Request, now: int, id: CommandId, status: CommandStatus) {
    Kept.Inv(c) && Recorded(c, device, request, now, id, status) && QueueOf(c, device) == []
  }

  /** The only command of the device has ended. */
  lemma NothingLeft(c: Coordinator, after: Coordinator, device: DeviceId, id: CommandId, status: CommandStatus)
    requires Kept.Inv(c) && QueueOf(c, device) == [id] && Moved(c, after, id, status, None) && Ended(status) && c.commands[id].deviceId == device
    ensures QueueOf(after, device) == [] && forall x :: !Unended(after, device, x)
  {
    OnlyOne(c, device, id);
    var i: nat :| TakenAt(QueueOf(c, device), id, QueueOf(after, device), i);
    assert forall x :: Unended(after, device, x) ==> x != id && Unended(c, device, x);
  }

  /** A request for one device, and what happens if nothing is lost. */
  function Smoothly(owner: OwnerId, request: Request, now: int, supply: Supply, later: int, f: Faults): seq<Event> {
    [ServerCreate(owner, request, now, supply), ServerDispatch, AgentReceive(later, f), ServerReceive, ServerReceive, ServerReceive]
  }

  /** Reports in the order in which the agent sends them. */
  lemma ThreeReports(s: System, device: DeviceId, request: Request, now: int, id: CommandId, answer: CommandStatus)
    requires Busy(s.server, device, request, now, id, CommandStatus.Sent)
    requires s.link == Link([], [Report(id, CommandStatus.Accepted), Report(id, CommandStatus.Executing), Report(id, answer)], true, true)
    ensures
      var end := ReceiveReport(ReceiveReport(ReceiveReport(s, device), device), device);
      end.agent == s.agent && end.link == Link([], [], true, true)
      && if Edge(CommandStatus.Executing, answer) then Done(end.server, device, request, now, id, answer)
         else Busy(end.server, device, request, now, id, CommandStatus.Executing)
  {
    Reported(s, device, request, now, id, CommandStatus.Sent);
    var second := ReceiveReport(s, device);
    Reported(second, device, request, now, id, CommandStatus.Accepted);
    var third := ReceiveReport(second, device);
    Reported(third, device, request, now, id, CommandStatus.Executing);
  }

  lemma RunSix(s: System, device: DeviceId, capacity: nat, a: Event, b: Event, c: Event, d: Event)
    requires Allowed(s, device, a) && b.ServerDispatch? && c.AgentReceive? && d.ServerReceive?
    ensures AllowedRun(s, device, capacity, [a, b, c, d, d, d])
    ensures Run(s, device, capacity, [a, b, c, d, d, d])
         == ReceiveReport(ReceiveReport(ReceiveReport(
              ReceiveCommand(DispatchTo(Step(s, device, capacity, a), device), capacity, c.now, c.faults), device), device), device)
  {
    var s1 := Step(s, device, capacity, a);
    var s2 := DispatchTo(s1, device);
    var s3 := ReceiveCommand(s2, capacity, c.now, c.faults);
    ThreeReceives(s3, device, capacity);
    assert [a, b, c, d, d, d][1..] == [b, c, d, d, d] && [b, c, d, d, d][1..] == [c, d, d, d] && [c, d, d, d][1..] == [d, d, d];
    assert AllowedRun(s2, device, capacity, [c, d, d, d]) && Run(s2, device, capacity, [c, d, d, d]) == Run(s3, device, capacity, [d, d, d]);
    assert AllowedRun(s1, device, capacity, [b, c, d, d, d]) && Run(s1, device, capacity, [b, c, d, d, d]) == Run(s2, device, capacity, [c, d, d, d]);
  }

  lemma Receives(s: System, device: DeviceId, capacity: nat, rest: seq<Event>)
    requires AllowedRun(ReceiveReport(s, device), device, capacity, rest)
    ensures AllowedRun(s, device, capacity, [ServerReceive] + rest)
    ensures Run(s, device, capacity, [ServerReceive] + rest) == Run(ReceiveReport(s, device), device, capacity, rest)
  {
    assert ([ServerReceive] + rest)[1..] == rest;
  }

  lemma ThreeReceives(s: System, device: DeviceId, capacity: nat)
    ensures AllowedRun(s, device, capacity, [ServerReceive, ServerReceive, ServerReceive])
    ensures Run(s, device, capacity, [ServerReceive, ServerReceive, ServerReceive])
         == ReceiveReport(ReceiveReport(ReceiveReport(s, device), device), device)
  {
    var s1 := ReceiveReport(s, device);
    var s2 := ReceiveReport(s1, device);
    var d := Event.ServerReceive;
    Receives(s2, device, capacity, []);
    Receives(s1, device, capacity, [d] + []);
    Receives(s, device, capacity, [d] + ([d] + []));
    assert [d] + ([d] + ([d] + [])) == [d, d, d];
  }

  /**
   * From any idle state, a request that the device can answer is carried out: the device executes the command that was asked for
   * once, the server learns the outcome, and the system is idle again. An executor that answers with no outcome leaves the server
   * at executing.
   */
  lemma RequestIsAnswered(
      s: System, device: DeviceId, owner: OwnerId, request: Request, now: int, supply: Supply, capacity: nat, later: int, f: Faults)
    requires Idle(s, device) && Answerable(s, device, owner, request, supply, capacity)
    requires Recovery.Smooth(f) && later < now + 30_000
    ensures AllowedRun(s, device, capacity, Smoothly(owner, request, now, supply, later, f))
    ensures
      var end := Run(s, device, capacity, Smoothly(owner, request, now, supply, later, f));
      var id, answer := supply.commandIds[0], f.outcome.value;
      end.agent.log == s.agent.log + [Execution(LedgerSpec.AgentCommand(id, request.commandType, Some(now + 30_000)), f.outcome)]
      && if answer == CommandStatus.Succeeded || answer == CommandStatus.Failed || answer == CommandStatus.OutcomeUnknown
         then Recorded(end.server, device, request, now, id, answer) && Idle(end, device)
         else Recorded(end.server, device, request, now, id, CommandStatus.Executing)
  {
    var id := supply.commandIds[0];
    var create := ServerCreate(owner, request, now, supply);
    var s1 := s.(server := CreateBatch(s.server, owner, request, now, supply).0);
    Created(s, device, owner, request, now, supply, capacity);
    GoesOut(s1, device, request, now, id);
    var s2 := DispatchTo(s1, device);
    var command := LedgerSpec.AgentCommand(id, request.commandType, Some(now + 30_000));
    RunsHere(s2, device, capacity, command, later, f);
    var s3 := ReceiveCommand(s2, capacity, later, f);
    ThreeReports(s3, device, request, now, id, f.outcome.value);
    RunSix(s, device, capacity, create, ServerDispatch, AgentReceive(later, f), ServerReceive);
  }

  // ---- the agent's end of the connection ----

  /** The agent takes the first command, reports what the delivery comes to, and closes the connection on an error. */
  ghost predicate CommandHandled(s: System, after: System, capacity: nat, now: int, f: Faults) {
    if !s.link.agentOpen || s.link.down == [] || s.agent.memory.None? then after == s else
    exists handled: Handled ::
      Reports.DeliveryOutcome(s.agent, capacity, s.link.down[0], now, f, handled)
      && after.server == s.server && after.agent == handled.agent
      && after.link == Link(s.link.down[1..], s.link.up + handled.sent, handled.ok, s.link.serverOpen)
  }

  lemma ReceiveCommandIs(s: System, capacity: nat, now: int, f: Faults)
    requires StoreSpec.Sound(s.agent.disk)
    ensures CommandHandled(s, ReceiveCommand(s, capacity, now, f), capacity, now, f)
  {
    if s.link.agentOpen && s.link.down != [] && s.agent.memory.Some? {
      Reports.DeliveryReports(s.agent, capacity, s.link.down[0], now, f);
      var handled := ProcessCommand(s.agent, capacity, s.link.down[0], now, f);
      assert Reports.DeliveryOutcome(s.agent, capacity, s.link.down[0], now, f, handled);
    }
  }

  // ---- idle states exist ----

  /** An agent that starts, connects and is registered leaves the system idle, and the device able to answer its owner. */
  lemma StartsIdle(device: Device, capacity: nat, request: Request, supply: Supply)
    requires device.online && request.commandType in device.capabilities && request.deviceIds == [device.id]
    requires |supply.commandIds| == 1 && capacity >= 1
    ensures
      var s := Step(Step(Step(INITIAL, device.id, capacity, AgentStart(4)), device.id, capacity, Connect), device.id, capacity, ServerUpsert(device));
      Idle(s, device.id) && Answerable(s, device.id, device.owner, request, supply, capacity)
  {
    StoreSpec.OpenIsAtomic(StoreSpec.BLANK, capacity, 4);
    Kept.EmptyInv();
    var started := Step(INITIAL, device.id, capacity, AgentStart(4));
    var connected := Step(started, device.id, capacity, Connect);
    NoneLeft(INITIAL.server, device.id);
    DispatchIs(started.(link := Link([], [], true, true)), device.id);
    assert connected == started.(link := Link([], [], true, true));
    Kept.UpsertKeeps(connected.server, device);
  }
}
