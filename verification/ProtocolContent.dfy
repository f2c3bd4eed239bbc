/** What a device is told to do is what the owner asked for. */
module CommandContent {
  import opened Prelude
  import opened Wire
  import opened AgentSpec
  import opened CoordinatorSpec
  import opened ProtocolSpec
  import opened StoreSpec
  import Batches = CoordinatorBatches
  import Kept = CoordinatorInvariant
  import Once = AtMostOnce
  import LedgerSpec

  // ---- every record comes from a request ----

  /** The event is the request that the command answers. */
  predicate AskedBy(e: Event, command: Command) {
    e.ServerCreate? && command.owner == e.owner && command.commandType == e.request.commandType
    && command.deviceId in e.request.deviceIds && command.createdAt == e.now && command.expiresAt == e.now + 30_000
    && command.batchId == e.supply.batchId && command.commandId in e.supply.commandIds
  }

  ghost predicate Asked(c: Coordinator, events: seq<Event>) {
    forall id :: id in c.commands ==> exists k :: 0 <= k < |events| && AskedBy(events[k], c.commands[id])
  }

  /** Records stay what they are but for status and error; new ones answer the event. */
  ghost predicate Extends(c: Coordinator, after: Coordinator, e: Event) {
    (forall x :: x in c.commands ==> x in after.commands && Kept.SameIdentity(c.commands[x], after.commands[x]))
    && forall x :: x in after.commands && x !in c.commands ==> AskedBy(e, after.commands[x])
  }

  lemma SameExtends(c: Coordinator, after: Coordinator, e: Event)
    requires Kept.SameTable(c, after)
    ensures Extends(c, after, e)
  {
  }

  lemma AskedMore(c: Coordinator, after: Coordinator, events: seq<Event>, e: Event)
    requires Asked(c, events) && Extends(c, after, e)
    ensures Asked(after, events + [e])
  {
    var more := events + [e];
    forall id | id in after.commands ensures exists k :: 0 <= k < |more| && AskedBy(more[k], after.commands[id]) {
      if id in c.commands {
        var k :| 0 <= k < |events| && AskedBy(events[k], c.commands[id]);
        assert AskedBy(more[k], after.commands[id]);
      } else {
        assert AskedBy(more[|events|], after.commands[id]);
      }
    }
  }

  // ---- server steps ----

  lemma SameTwice(a: Coordinator, b: Coordinator, c: Coordinator)
    requires Kept.SameTable(a, b) && Kept.SameTable(b, c)
    ensures Kept.SameTable(a, c)
  {
    forall x | x in a.commands ensures Kept.SameIdentity(a.commands[x], c.commands[x]) {
      assert Kept.SameIdentity(a.commands[x], b.commands[x]) && Kept.SameIdentity(b.commands[x], c.commands[x]);
    }
  }

  lemma {:induction false} ExpireSame(c: Coordinator, ids: seq<CommandId>, now: int)
    ensures Kept.SameTable(c, ExpireFrom(c, ids, now).0)
    decreases |ids|
  {
    if ids == [] {
      Kept.SameTableSelf(c);
    } else {
      var expired := Transition(c, ids[0], Expired, None).0;
      Kept.TransitionSameTable(c, ids[0], Expired, None);
      ExpireSame(c, ids[1..], now);
      ExpireSame(expired, ids[1..], now);
      SameTwice(c, expired, ExpireFrom(expired, ids[1..], now).0);
    }
  }

  lemma DispatchSame(c: Coordinator, device: DeviceId)
    ensures Kept.SameTable(c, DispatchNext(c, device).0)
  {
    Kept.SameTableSelf(c);
    var next := FirstLive(c, QueueOf(c, device));
    if next.Some? {
      Kept.TransitionSameTable(c, next.value, Sent, None);
    }
  }

  /** What creation may add for one target. */
  predicate New(command: Command, batchId: BatchId, owner: OwnerId, devices: seq<DeviceId>, commandType: string, now: int, ids: seq<CommandId>) {
    command.batchId == batchId && command.owner == owner && command.deviceId in devices && command.commandType == commandType
    && command.createdAt == now && command.expiresAt == now + 30_000 && command.commandId in ids
  }

  ghost predicate Adds(c: Coordinator, after: Coordinator, batchId: BatchId, owner: OwnerId, devices: seq<DeviceId>, commandType: string, now: int, ids: seq<CommandId>) {
    (forall x :: x in c.commands ==> x in after.commands && after.commands[x] == c.commands[x])
    && forall x :: x in after.commands && x !in c.commands ==> New(after.commands[x], batchId, owner, devices, commandType, now, ids)
  }

  lemma CreateOneAdds(
      c: Coordinator, batchId: BatchId, owner: OwnerId, device: DeviceId, commandType: string, now: int, id: CommandId)
    requires id !in c.commands
    ensures Adds(c, CreateCommand(c, batchId, owner, device, commandType, now, id).0, batchId, owner, [device], commandType, now, [id])
  {
  }

  lemma AddsMore(
      c: Coordinator, before: Coordinator, after: Coordinator, batchId: BatchId, owner: OwnerId, devices: seq<DeviceId>, commandType: string,
      now: int, ids: seq<CommandId>, n: nat)
    requires |ids| >= |devices| == n + 1
    requires Adds(c, before, batchId, owner, devices[..n], commandType, now, ids[..n])
    requires Adds(before, after, batchId, owner, [devices[n]], commandType, now, [ids[n]])
    ensures Adds(c, after, batchId, owner, devices, commandType, now, ids)
  {
    forall x | x in after.commands && x !in c.commands ensures New(after.commands[x], batchId, owner, devices, commandType, now, ids) {
      if x in before.commands {
        assert New(before.commands[x], batchId, owner, devices[..n], commandType, now, ids[..n]);
      } else {
        assert New(after.commands[x], batchId, owner, [devices[n]], commandType, now, [ids[n]]);
      }
    }
  }

  lemma {:induction false} CreateAdds(
      c: Coordinator, batchId: BatchId, owner: OwnerId, devices: seq<DeviceId>, commandType: string, now: int, ids: seq<CommandId>)
    requires Kept.Inv(c) && |ids| >= |devices| && Kept.FreshIds(c, ids)
    ensures Adds(c, CreateCommands(c, batchId, owner, devices, commandType, now, ids).0, batchId, owner, devices, commandType, now, ids)
    decreases |devices|
  {
    if devices != [] {
      var n := |devices| - 1;
      Kept.FreshPrefix(c, ids, n);
      CreateAdds(c, batchId, owner, devices[..n], commandType, now, ids[..n]);
      Batches.StillFresh(c, batchId, owner, devices, commandType, now, ids, n);
      var (before, entries) := CreateCommands(c, batchId, owner, devices[..n], commandType, now, ids[..n]);
      if entries.Ok? {
        CreateOneAdds(before, batchId, owner, devices[n], commandType, now, ids[n]);
        AddsMore(c, before, CreateCommand(before, batchId, owner, devices[n], commandType, now, ids[n]).0,
                 batchId, owner, devices, commandType, now, ids, n);
      } else {
        AddsLonger(c, before, batchId, owner, devices, commandType, now, ids, n);
      }
    }
  }

  lemma AddsLonger(
      c: Coordinator, after: Coordinator, batchId: BatchId, owner: OwnerId, devices: seq<DeviceId>, commandType: string, now: int,
      ids: seq<CommandId>, n: nat)
    requires n <= |devices| <= |ids| && Adds(c, after, batchId, owner, devices[..n], commandType, now, ids[..n])
    ensures Adds(c, after, batchId, owner, devices, commandType, now, ids)
  {
    forall x | x in after.commands && x !in c.commands ensures New(after.commands[x], batchId, owner, devices, commandType, now, ids) {
      assert New(after.commands[x], batchId, owner, devices[..n], commandType, now, ids[..n]);
    }
  }

  lemma BatchExtends(c: Coordinator, e: Event)
    requires e.ServerCreate? && Kept.Inv(c) && |e.supply.commandIds| >= |e.request.deviceIds| && Kept.FreshIds(c, e.supply.commandIds)
    ensures Extends(c, CreateBatch(c, e.owner, e.request, e.now, e.supply).0, e)
  {
    if Batches.Loops(c, e.owner, e.request) {
      var devices := TargetsOf(e.request);
      Batches.TargetsDistinct(e.request);
      CreateAdds(c, e.supply.batchId, e.owner, devices, e.request.commandType, e.now, e.supply.commandIds);
      TargetsAsked(e.request);
      AddsExtend(c, CreateCommands(c, e.supply.batchId, e.owner, devices, e.request.commandType, e.now, e.supply.commandIds).0,
                 CreateBatch(c, e.owner, e.request, e.now, e.supply).0, e);
    }
  }

  lemma TargetsAsked(request: Request)
    requires ValidTargets(request)
    ensures forall d :: d in TargetsOf(request) ==> d in request.deviceIds
  {
    Batches.TargetsDistinct(request);
    assert forall d :: d in TargetsOf(request) ==> d in Elements(TargetsOf(request));
  }

  lemma AddsExtend(c: Coordinator, created: Coordinator, after: Coordinator, e: Event)
    requires e.ServerCreate? && after.commands == created.commands && forall d :: d in TargetsOf(e.request) ==> d in e.request.deviceIds
    requires Adds(c, created, e.supply.batchId, e.owner, TargetsOf(e.request), e.request.commandType, e.now, e.supply.commandIds)
    ensures Extends(c, after, e)
  {
    forall x | x in after.commands && x !in c.commands ensures AskedBy(e, after.commands[x]) {
      assert New(after.commands[x], e.supply.batchId, e.owner, TargetsOf(e.request), e.request.commandType, e.now, e.supply.commandIds);
    }
  }

  // ---- every command on its way is the server's record ----

  predicate Faithful(w: LedgerSpec.AgentCommand, c: Coordinator, device: DeviceId) {
    w.commandId in c.commands && c.commands[w.commandId].deviceId == device
    && w.commandType == c.commands[w.commandId].commandType && w.expiresAt == Some(c.commands[w.commandId].expiresAt)
  }

  ghost predicate AllFaithful(ws: seq<LedgerSpec.AgentCommand>, c: Coordinator, device: DeviceId) {
    forall w :: w in ws ==> Faithful(w, c, device)
  }

  ghost predicate LogFaithful(log: seq<Execution>, c: Coordinator, device: DeviceId) {
    forall k :: 0 <= k < |log| ==> Faithful(log[k].command, c, device)
  }

  ghost predicate AgentFaithful(a: Agent, c: Coordinator, device: DeviceId) {
    Sound(a.disk) && LogFaithful(a.log, c, device)
    && (a.memory.Some? ==> AllFaithful(a.memory.value.queue, c, device))
    && (Durable(a.disk).Some? ==> AllFaithful(Durable(a.disk).value.queue, c, device))
  }

  /** Whatever waits, is on the connection or was executed has the type and the expiry of the server's record. */
  ghost predicate Carries(s: System, device: DeviceId) {
    Kept.Inv(s.server) && AllFaithful(s.link.down, s.server, device) && AgentFaithful(s.agent, s.server, device)
  }

  lemma FaithfulStays(ws: seq<LedgerSpec.AgentCommand>, c: Coordinator, after: Coordinator, device: DeviceId)
    requires AllFaithful(ws, c, device)
    requires forall x :: x in c.commands ==> x in after.commands && Kept.SameIdentity(c.commands[x], after.commands[x])
    ensures AllFaithful(ws, after, device)
  {
    forall w | w in ws ensures Faithful(w, after, device) {
      assert Faithful(w, c, device);
    }
  }

  lemma AgentStays(a: Agent, c: Coordinator, after: Coordinator, device: DeviceId)
    requires AgentFaithful(a, c, device)
    requires forall x :: x in c.commands ==> x in after.commands && Kept.SameIdentity(c.commands[x], after.commands[x])
    ensures AgentFaithful(a, after, device)
  {
    if a.memory.Some? { FaithfulStays(a.memory.value.queue, c, after, device); }
    if Durable(a.disk).Some? { FaithfulStays(Durable(a.disk).value.queue, c, after, device); }
    forall k | 0 <= k < |a.log| ensures Faithful(a.log[k].command, after, device) {
      assert Faithful(a.log[k].command, c, device);
    }
  }

  lemma ServerMoves(s: System, after: Coordinator, e: Event, device: DeviceId)
    requires Carries(s, device) && Kept.Inv(after) && Extends(s.server, after, e)
    ensures Carries(s.(server := after), device)
  {
    FaithfulStays(s.link.down, s.server, after, device);
    AgentStays(s.agent, s.server, after, device);
  }

  // ---- the agent ----

  lemma CommitFaithful(a: Agent, l: LedgerSpec.Ledger, cut: nat, c: Coordinator, device: DeviceId)
    requires AgentFaithful(a, c, device) && AllFaithful(l.queue, c, device)
    ensures AgentFaithful(Commit(a, l, cut).0, c, device)
  {
    PersistIsAtomic(a.disk, l, cut);
  }

  lemma AcceptFaithful(a: Agent, capacity: nat, command: LedgerSpec.AgentCommand, cut: nat, c: Coordinator, device: DeviceId)
    requires a.memory.Some? && AgentFaithful(a, c, device) && Faithful(command, c, device)
    ensures AgentFaithful(StoreAccept(a, capacity, command, cut).0, c, device) && StoreAccept(a, capacity, command, cut).0.memory.Some?
  {
    var before := a.memory.value;
    var l := LedgerSpec.Accept(before, capacity, command).0;
    assert l.queue == before.queue || l.queue == before.queue + [command];
    CommitFaithful(a.(memory := Some(l), evicted := a.evicted + (before.commands.Keys - l.commands.Keys)), l, cut, c, device);
  }

  lemma FinishFaithful(a: Agent, id: CommandId, state: LedgerSpec.PersistedState, cut: nat, c: Coordinator, device: DeviceId)
    requires a.memory.Some? && AgentFaithful(a, c, device)
    ensures AgentFaithful(StoreFinish(a, id, state, cut).0, c, device)
  {
    CommitFaithful(a, LedgerSpec.Finish(a.memory.value, id, state).0, cut, c, device);
  }

  lemma ExecuteFaithful(a: Agent, sent: seq<Report>, f: Faults, c: Coordinator, device: DeviceId)
    requires a.memory.Some? && AgentFaithful(a, c, device)
    ensures AgentFaithful(ExecuteNext(a, sent, f).agent, c, device)
  {
    var (l, next) := LedgerSpec.Dequeue(a.memory.value);
    assert forall w :: w in l.queue ==> w in a.memory.value.queue;
    CommitFaithful(a, l, f.dequeueCut, c, device);
    var (taken, _, ok) := StoreDequeue(a, f.dequeueCut);
    if ok && next.Some? && f.executingSent {
      assert next.value in a.memory.value.queue;
      var executed := taken.(log := taken.log + [Execution(next.value, f.outcome)]);
      assert LogFaithful(executed.log, c, device);
      if f.outcome.Some? {
        FinishFaithful(executed, next.value.commandId, PersistedOutcome(f.outcome.value), f.finishCut, c, device);
      }
    }
  }

  lemma ProcessFaithful(a: Agent, capacity: nat, command: LedgerSpec.AgentCommand, now: int, f: Faults, c: Coordinator, device: DeviceId)
    requires a.memory.Some? && AgentFaithful(a, c, device) && Faithful(command, c, device)
    ensures AgentFaithful(ProcessCommand(a, capacity, command, now, f).agent, c, device)
  {
    var handled := ProcessCommand(a, capacity, command, now, f);
    if LedgerSpec.HasTerminal(a.memory.value.commands, command.commandId) || command.expiresAt.None? {
      assert handled.agent == a;
    } else {
      AcceptFaithful(a, capacity, command, f.acceptCut, c, device);
      var (accepted, ok) := StoreAccept(a, capacity, command, f.acceptCut);
      if command.expiresAt.value <= now {
        assert handled == ProcessExpired(a, capacity, command, f);
        FinishFaithful(a, command.commandId, LedgerSpec.PersistedState.Expired, f.finishCut, c, device);
        FinishFaithful(accepted, command.commandId, LedgerSpec.PersistedState.Expired, f.finishCut, c, device);
      } else if ok && f.acceptedSent {
        assert handled == ExecuteNext(accepted, [Report(command.commandId, CommandStatus.Accepted)], f);
        ExecuteFaithful(accepted, [Report(command.commandId, CommandStatus.Accepted)], f, c, device);
      }
    }
  }

  lemma StartFaithful(a: Agent, capacity: nat, cut: nat, c: Coordinator, device: DeviceId)
    requires AgentFaithful(a, c, device)
    ensures AgentFaithful(StartAgent(a, capacity, cut), c, device)
  {
    OpenIsAtomic(a.disk, capacity, cut);
    if Durable(a.disk).Some? {
      var l := Durable(a.disk).value;
      Once.KeepAcceptedSubset(l.queue, LedgerSpec.RecoveredStates(l.commands));
    }
  }

  // ---- steps and runs ----

  lemma DispatchCarries(s: System, device: DeviceId, e: Event)
    requires Carries(s, device)
    ensures Carries(DispatchTo(s, device), device) && Kept.SameTable(s.server, DispatchTo(s, device).server)
  {
    var (server, next) := DispatchNext(s.server, device);
    Kept.DispatchKeeps(s.server, device);
    DispatchSame(s.server, device);
    SameExtends(s.server, server, e);
    ServerMoves(s, server, e, device);
    if next.Some? {
      Kept.DispatchTakesSmallest(s.server, device);
      if s.link.serverOpen {
        SentFaithful(s.server, server, next.value, device);
        var down := s.link.down + [ToWire(server.commands[next.value])];
        assert AllFaithful(down, server, device);
      } else {
        var failed := Transition(server, next.value, Failed, Some(DeviceOffline)).0;
        Kept.TransitionKeeps(server, next.value, Failed, Some(DeviceOffline));
        Kept.TransitionSameTable(server, next.value, Failed, Some(DeviceOffline));
        SameTwice(s.server, server, failed);
        SameExtends(s.server, failed, e);
        ServerMoves(s, failed, e, device);
      }
    }
  }

  lemma SentFaithful(c: Coordinator, after: Coordinator, id: CommandId, device: DeviceId)
    requires id in c.commands && c.commands[id].deviceId == device && Kept.Inv(after) && Kept.SameTable(c, after)
    ensures Faithful(ToWire(after.commands[id]), after, device)
  {
    assert Kept.SameIdentity(c.commands[id], after.commands[id]);
  }

  lemma ReceiveCarries(s: System, device: DeviceId, e: Event)
    requires Carries(s, device)
    ensures Carries(ReceiveReport(s, device), device) && Kept.SameTable(s.server, ReceiveReport(s, device).server)
  {
    Kept.SameTableSelf(s.server);
    if s.link.serverOpen && s.link.up != [] {
      var report := s.link.up[0];
      Kept.TransitionKeeps(s.server, report.commandId, report.status, None);
      Kept.TransitionSameTable(s.server, report.commandId, report.status, None);
      var server := HandleAgentResult(s.server, device, report.commandId, report.status, None).0;
      SameExtends(s.server, server, e);
      ServerMoves(s, server, e, device);
      var handled := s.(server := server, link := s.link.(up := s.link.up[1..]));
      DispatchCarries(handled, device, e);
      SameTwice(s.server, server, DispatchTo(handled, device).server);
    }
  }

  /** Events that touch only the coordinator. */
  lemma ServerCarries(s: System, device: DeviceId, capacity: nat, e: Event)
    requires Carries(s, device) && Allowed(s, device, e)
    requires e.ServerUpsert? || e.ServerCreate? || e.ServerExpire? || e.OtherDispatch? || e.OtherMove?
    ensures Carries(Step(s, device, capacity, e), device) && Extends(s.server, Step(s, device, capacity, e).server, e)
  {
    var after := Step(s, device, capacity, e).server;
    match e {
      case ServerUpsert(d) => Kept.UpsertKeeps(s.server, d);
      case ServerCreate(owner, request, now, supply) =>
        Kept.CreateBatchKeeps(s.server, owner, request, now, supply);
        BatchExtends(s.server, e);
      case ServerExpire(now) =>
        Kept.ExpireFromKeeps(s.server, s.server.inserted, now);
        ExpireSame(s.server, s.server.inserted, now);
        SameExtends(s.server, after, e);
      case OtherDispatch(other) =>
        Kept.DispatchKeeps(s.server, other);
        DispatchSame(s.server, other);
        SameExtends(s.server, after, e);
      case OtherMove(id, next, error) =>
        Kept.TransitionKeeps(s.server, id, next, error);
        Kept.TransitionSameTable(s.server, id, next, error);
        SameExtends(s.server, after, e);
    }
    ServerMoves(s, after, e, device);
  }

  lemma ConnectCarries(s: System, device: DeviceId, e: Event)
    requires Carries(s, device)
    ensures var after := DispatchTo(s.(link := Link([], [], true, true)), device);
            Carries(after, device) && Kept.SameTable(s.server, after.server)
  {
    DispatchCarries(s.(link := Link([], [], true, true)), device, e);
  }

  lemma DeliverCarries(s: System, device: DeviceId, capacity: nat, now: int, f: Faults)
    requires Carries(s, device)
    ensures Carries(ReceiveCommand(s, capacity, now, f), device)
  {
    if s.link.agentOpen && s.link.down != [] && s.agent.memory.Some? {
      assert s.link.down[0] in s.link.down && forall w :: w in s.link.down[1..] ==> w in s.link.down;
      ProcessFaithful(s.agent, capacity, s.link.down[0], now, f, s.server, device);
    }
  }

  lemma StepCarries(s: System, device: DeviceId, capacity: nat, e: Event)
    requires Carries(s, device) && Allowed(s, device, e) && !e.Inject?
    ensures Carries(Step(s, device, capacity, e), device) && Extends(s.server, Step(s, device, capacity, e).server, e)
  {
    var after := Step(s, device, capacity, e).server;
    Kept.SameTableSelf(s.server);
    SameExtends(s.server, s.server, e);
    match e
    case ServerDispatch => DispatchCarries(s, device, e); SameExtends(s.server, after, e);
    case ServerReceive => ReceiveCarries(s, device, e); SameExtends(s.server, after, e);
    case Connect => ConnectCarries(s, device, e); SameExtends(s.server, after, e);
    case AgentReceive(now, f) => DeliverCarries(s, device, capacity, now, f);
    case AgentStart(cut) => StartFaithful(s.agent, capacity, cut, s.server, device);
    case CloseServer =>
    case CloseAgent =>
    case AgentCrash =>
    case _ => ServerCarries(s, device, capacity, e);
  }

  lemma {:induction false} RunCarries(s: System, device: DeviceId, capacity: nat, history: seq<Event>, events: seq<Event>)
    requires Carries(s, device) && Asked(s.server, history) && AllowedRun(s, device, capacity, events)
    requires forall e :: e in events ==> !e.Inject?
    ensures Carries(Run(s, device, capacity, events), device) && Asked(Run(s, device, capacity, events).server, history + events)
    decreases |events|
  {
    if events == [] {
      assert history + events == history;
    } else {
      assert events[0] in events && forall e :: e in events[1..] ==> e in events;
      var next := Step(s, device, capacity, events[0]);
      StepCarries(s, device, capacity, events[0]);
      AskedMore(s.server, next.server, history, events[0]);
      RunCarries(next, device, capacity, history + [events[0]], events[1..]);
      assert history + [events[0]] + events[1..] == history + events;
    }
  }

  /** The command is what some request of the run asked this device to do, with its type and its deadline. */
  ghost predicate Requested(w: LedgerSpec.AgentCommand, events: seq<Event>, device: DeviceId) {
    exists k :: 0 <= k < |events| && RequestedBy(w, events[k], device)
  }

  predicate RequestedBy(w: LedgerSpec.AgentCommand, e: Event, device: DeviceId) {
    e.ServerCreate? && device in e.request.deviceIds && w.commandId in e.supply.commandIds
    && w.commandType == e.request.commandType && w.expiresAt == Some(e.now + 30_000)
  }

  lemma FaithfulRequested(w: LedgerSpec.AgentCommand, c: Coordinator, device: DeviceId, events: seq<Event>)
    requires Kept.Inv(c) && Faithful(w, c, device) && Asked(c, events)
    ensures Requested(w, events, device)
  {
    assert Kept.Recorded(c);
    var k :| 0 <= k < |events| && AskedBy(events[k], c.commands[w.commandId]);
    assert RequestedBy(w, events[k], device);
  }

  /** In every run without stray commands: whatever is on the connection to a device, waits in its ledger, in memory or on disk, or
      was handed to its executor is what a request asked that device to do. */
  lemma DeviceDoesWhatWasAsked(device: DeviceId, capacity: nat, events: seq<Event>, w: LedgerSpec.AgentCommand)
    requires AllowedRun(INITIAL, device, capacity, events) && forall e :: e in events ==> !e.Inject?
    requires var end := Run(INITIAL, device, capacity, events);
             w in end.link.down || (end.agent.memory.Some? && w in end.agent.memory.value.queue)
             || (Durable(end.agent.disk).Some? && w in Durable(end.agent.disk).value.queue)
             || exists k :: 0 <= k < |end.agent.log| && end.agent.log[k].command == w
    ensures Faithful(w, Run(INITIAL, device, capacity, events).server, device) && Requested(w, events, device)
  {
    Kept.EmptyInv();
    RunCarries(INITIAL, device, capacity, [], events);
    assert [] + events == events;
    FaithfulRequested(w, Run(INITIAL, device, capacity, events).server, device, events);
  }

  /** In every run, every command of the server is what some request asked for. */
  lemma RecordsWereAsked(device: DeviceId, capacity: nat, events: seq<Event>)
    requires AllowedRun(INITIAL, device, capacity, events) && forall e :: e in events ==> !e.Inject?
    ensures Asked(Run(INITIAL, device, capacity, events).server, events)
  {
    Kept.EmptyInv();
    RunCarries(INITIAL, device, capacity, [], events);
    assert [] + events == events;
  }
}
