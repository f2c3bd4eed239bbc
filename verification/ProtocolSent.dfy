/** Commands of a device are first sent in the order of their sequences. */
module SendingOrder {
  import opened Prelude
  import opened Wire
  import opened AgentSpec
  import opened CoordinatorSpec
  import opened ProtocolSpec
  import opened OneCommandInFlight
  import Kept = CoordinatorInvariant
  import LedgerSpec

  /** Records stay and never return to `created`; the device's new commands have sequences above its counter. */
  ghost predicate Later(c: Coordinator, after: Coordinator, device: DeviceId) {
    && SequenceOf(c, device) <= SequenceOf(after, device)
    && (forall x :: x in c.commands ==> x in after.commands && SameCommand(c.commands[x], after.commands[x]))
    && (forall x :: x in after.commands && x !in c.commands && after.commands[x].deviceId == device ==>
          after.commands[x].sequence > SequenceOf(c, device))
  }

  predicate SameCommand(a: Command, b: Command) {
    b.deviceId == a.deviceId && b.sequence == a.sequence && (b.status == Created ==> a.status == Created)
  }

  lemma LaterTransitive(a: Coordinator, b: Coordinator, c: Coordinator, device: DeviceId)
    requires Later(a, b, device) && Later(b, c, device)
    ensures Later(a, c, device)
  {
    forall x | x in a.commands ensures x in c.commands && SameCommand(a.commands[x], c.commands[x]) {
      assert SameCommand(a.commands[x], b.commands[x]) && SameCommand(b.commands[x], c.commands[x]);
    }
    forall x | x in c.commands && x !in a.commands && c.commands[x].deviceId == device
      ensures c.commands[x].sequence > SequenceOf(a, device)
    {
      if x in b.commands {
        assert SameCommand(b.commands[x], c.commands[x]);
      }
    }
  }

  // ---- one server operation ----

  lemma TransitionLater(c: Coordinator, id: CommandId, next: CommandStatus, error: Option<ErrorCode>, device: DeviceId)
    ensures Later(c, Transition(c, id, next, error).0, device)
  {
    if id in c.commands && next in Transitions(c.commands[id].status) {
      var moved := SetStatus(c, id, next, error);
      assert Later(c, moved, device);
      assert Later(c, DropFromQueue(moved, c.commands[id].deviceId, id), device);
    } else {
      assert Transition(c, id, next, error).0 == c;
    }
  }

  lemma {:induction false} ExpireLater(c: Coordinator, ids: seq<CommandId>, now: int, device: DeviceId)
    ensures Later(c, ExpireFrom(c, ids, now).0, device)
    decreases |ids|
  {
    if ids != [] {
      var expired := Transition(c, ids[0], Expired, None).0;
      TransitionLater(c, ids[0], Expired, None, device);
      ExpireLater(c, ids[1..], now, device);
      ExpireLater(expired, ids[1..], now, device);
      LaterTransitive(c, expired, ExpireFrom(expired, ids[1..], now).0, device);
    }
  }

  lemma CreateCommandLater(
      c: Coordinator, batchId: BatchId, owner: OwnerId, target: DeviceId, commandType: string, now: int, id: CommandId, device: DeviceId)
    requires id !in c.commands
    ensures Later(c, CreateCommand(c, batchId, owner, target, commandType, now, id).0, device)
  {
    Kept.CreateCommandOutcome(c, batchId, owner, target, commandType, now, id);
    var (after, entry) := CreateCommand(c, batchId, owner, target, commandType, now, id);
    if entry.Ok? && entry.value.Registered? {
      assert after.commands.Keys == c.commands.Keys + {id};
    }
  }

  lemma {:induction false} CreateLater(
      c: Coordinator, batchId: BatchId, owner: OwnerId, targets: seq<DeviceId>, commandType: string, now: int, ids: seq<CommandId>, device: DeviceId)
    requires Kept.Inv(c) && |ids| >= |targets| && Kept.FreshIds(c, ids)
    ensures Later(c, CreateCommands(c, batchId, owner, targets, commandType, now, ids).0, device)
    decreases |targets|
  {
    if targets != [] {
      var n := |targets| - 1;
      Kept.FreshPrefix(c, ids, n);
      CreateLater(c, batchId, owner, targets[..n], commandType, now, ids[..n], device);
      Kept.CreateCommandsKeeps(c, batchId, owner, targets[..n], commandType, now, ids[..n]);
      var (before, entries) := CreateCommands(c, batchId, owner, targets[..n], commandType, now, ids[..n]);
      assert ids[..n][..n] == ids[..n];
      if entries.Ok? {
        CreateCommandLater(before, batchId, owner, targets[n], commandType, now, ids[n], device);
        LaterTransitive(c, before, CreateCommand(before, batchId, owner, targets[n], commandType, now, ids[n]).0, device);
      }
    }
  }

  lemma BatchLater(c: Coordinator, owner: OwnerId, request: Request, now: int, supply: Supply, device: DeviceId)
    requires Kept.Inv(c) && |supply.commandIds| >= |request.deviceIds| && Kept.FreshIds(c, supply.commandIds)
    ensures Later(c, CreateBatch(c, owner, request, now, supply).0, device)
  {
    if ValidTargets(request) && (owner, request.idempotencyKey) !in c.idempotency {
      UniqueSize(request.deviceIds);
      CreateLater(c, supply.batchId, owner, TargetsOf(request), request.commandType, now, supply.commandIds, device);
    }
  }

  lemma DispatchLater(c: Coordinator, other: DeviceId, device: DeviceId)
    ensures Later(c, DispatchNext(c, other).0, device)
  {
    var next := FirstLive(c, QueueOf(c, other));
    if next.Some? {
      TransitionLater(c, next.value, Sent, None, device);
    }
  }

  lemma DispatchToLater(s: System, device: DeviceId)
    ensures Later(s.server, DispatchTo(s, device).server, device)
  {
    var (server, next) := DispatchNext(s.server, device);
    DispatchLater(s.server, device, device);
    if next.Some? && !s.link.serverOpen {
      TransitionLater(server, next.value, Failed, Some(DeviceOffline), device);
      LaterTransitive(s.server, server, Transition(server, next.value, Failed, Some(DeviceOffline)).0, device);
    }
  }

  lemma ReceiveLater(s: System, device: DeviceId)
    ensures Later(s.server, ReceiveReport(s, device).server, device)
  {
    if s.link.serverOpen && s.link.up != [] {
      var report := s.link.up[0];
      TransitionLater(s.server, report.commandId, report.status, None, device);
      var server := HandleAgentResult(s.server, device, report.commandId, report.status, None).0;
      var handled := s.(server := server, link := s.link.(up := s.link.up[1..]));
      DispatchToLater(handled, device);
      LaterTransitive(s.server, server, DispatchTo(handled, device).server, device);
    }
  }

  lemma StepLater(s: System, device: DeviceId, capacity: nat, e: Event)
    requires Kept.Inv(s.server) && Allowed(s, device, e)
    ensures Later(s.server, Step(s, device, capacity, e).server, device)
  {
    match e
    case ServerCreate(owner, request, now, supply) => BatchLater(s.server, owner, request, now, supply, device);
    case ServerDispatch => DispatchToLater(s, device);
    case ServerReceive => ReceiveLater(s, device);
    case ServerExpire(now) => ExpireLater(s.server, s.server.inserted, now, device);
    case OtherDispatch(other) => DispatchLater(s.server, other, device);
    case OtherMove(id, next, error) => TransitionLater(s.server, id, next, error, device);
    case Connect => DispatchToLater(s.(link := Link([], [], true, true)), device);
    case ServerUpsert(_) =>
    case AgentReceive(_, _) =>
    case CloseServer =>
    case CloseAgent =>
    case AgentCrash =>
    case AgentStart(_) =>
    case Inject(_) =>
  }

  lemma {:induction false} RunLater(s: System, device: DeviceId, capacity: nat, events: seq<Event>)
    requires Single(s, device) && AllowedRun(s, device, capacity, events) && forall e :: e in events ==> Honest(e)
    ensures Later(s.server, Run(s, device, capacity, events).server, device) && Single(Run(s, device, capacity, events), device)
    decreases |events|
  {
    if events != [] {
      assert events[0] in events && forall e :: e in events[1..] ==> e in events;
      var next := Step(s, device, capacity, events[0]);
      StepLater(s, device, capacity, events[0]);
      StepSingle(s, device, capacity, events[0]);
      RunLater(next, device, capacity, events[1..]);
      LaterTransitive(s.server, next.server, Run(next, device, capacity, events[1..]).server, device);
    }
  }

  // ---- the order of first sendings ----

  predicate Waiting(c: Coordinator, device: DeviceId, id: CommandId) {
    id in c.commands && c.commands[id].deviceId == device && c.commands[id].status == Created
  }

  /** A command that is out precedes every command of its device that is not yet sent. */
  lemma OutIsFirst(s: System, device: DeviceId, x: CommandId, y: CommandId)
    requires Single(s, device) && Out(s.server, device, x) && Waiting(s.server, device, y)
    ensures s.server.commands[x].sequence < s.server.commands[y].sequence
  {
    var c := s.server;
    var queue := QueueOf(c, device);
    assert Kept.QueueExact(c, device) && IsLive(c, y);
    var i :| 0 <= i < |queue| && queue[i] == x;
    var j :| 0 <= j < |queue| && queue[j] == y;
    assert i == 0 && SequenceAt(c.commands, queue[i]) < SequenceAt(c.commands, queue[j]);
  }

  /** The event sends a command that was not sent before. */
  ghost predicate FirstSent(s: System, device: DeviceId, capacity: nat, e: Event, y: CommandId)
    requires Allowed(s, device, e)
  {
    (Waiting(s.server, device, y) || y !in s.server.commands) && Out(Step(s, device, capacity, e).server, device, y)
  }

  /** In every run, a command of the device that is sent for the first time has a larger sequence than every command of the
      device that was out at any earlier moment, whatever has become of that one since. */
  lemma FirstSentInOrder(device: DeviceId, capacity: nat, before: seq<Event>, between: seq<Event>, e: Event, x: CommandId, y: CommandId)
    requires AllowedRun(INITIAL, device, capacity, before)
    requires AllowedRun(Run(INITIAL, device, capacity, before), device, capacity, between)
    requires forall a :: a in before || a in between ==> Honest(a)
    requires Out(Run(INITIAL, device, capacity, before).server, device, x)
    requires var s := Run(Run(INITIAL, device, capacity, before), device, capacity, between);
             Allowed(s, device, e) && FirstSent(s, device, capacity, e, y)
    ensures var end := Step(Run(Run(INITIAL, device, capacity, before), device, capacity, between), device, capacity, e).server;
            x in end.commands && y in end.commands && end.commands[x].sequence < end.commands[y].sequence
  {
    var first := Run(INITIAL, device, capacity, before);
    var s := Run(first, device, capacity, between);
    var end := Step(s, device, capacity, e);
    Kept.EmptyInv();
    RunSingle(INITIAL, device, capacity, before);
    RunLater(first, device, capacity, between);
    StepLater(s, device, capacity, e);
    LaterTransitive(first.server, s.server, end.server, device);
    SentLater(first, s, end, device, x, y);
  }

  lemma SentLater(first: System, s: System, end: System, device: DeviceId, x: CommandId, y: CommandId)
    requires Single(first, device) && Out(first.server, device, x)
    requires Later(first.server, s.server, device) && Later(first.server, end.server, device) && Later(s.server, end.server, device)
    requires (Waiting(s.server, device, y) || y !in s.server.commands) && Out(end.server, device, y)
    ensures x in end.server.commands && y in end.server.commands && end.server.commands[x].sequence < end.server.commands[y].sequence
  {
    assert SameCommand(first.server.commands[x], end.server.commands[x]);
    if y in first.server.commands {
      assert SameCommand(first.server.commands[y], s.server.commands[y]) && SameCommand(s.server.commands[y], end.server.commands[y]);
      OutIsFirst(first, device, x, y);
    } else {
      assert Kept.Recorded(first.server);
    }
  }
}
