/** A device executes its commands in the order the server numbered them. */
module ExecutionOrder {
  import opened Prelude
  import opened Wire
  import opened AgentSpec
  import opened CoordinatorSpec
  import opened ProtocolSpec
  import opened StoreSpec
  import Runs = CoordinatorRuns
  import Kept = CoordinatorInvariant
  import Once = AtMostOnce
  import LedgerSpec

  type Records = map<CommandId, Command>

  predicate Known(records: Records, device: DeviceId, id: CommandId, bound: nat) {
    id in records && records[id].deviceId == device && records[id].sequence <= bound
  }

  /** No two of the device's commands share a sequence. */
  ghost predicate Numbered(records: Records, device: DeviceId) {
    forall a, b :: a in records && b in records && a != b && records[a].deviceId == device && records[b].deviceId == device ==>
      records[a].sequence != records[b].sequence
  }

  ghost predicate QueueAscending(queue: seq<LedgerSpec.AgentCommand>, records: Records) {
    forall i, j :: 0 <= i < j < |queue| ==> SequenceAt(records, queue[i].commandId) < SequenceAt(records, queue[j].commandId)
  }

  ghost predicate LogAscending(log: seq<Execution>, records: Records) {
    forall i, j :: 0 <= i < j < |log| ==> SequenceAt(records, log[i].command.commandId) < SequenceAt(records, log[j].command.commandId)
  }

  /** Everything recorded is known; everything waiting is recorded and comes after everything executed. */
  ghost predicate LedgerOrdered(l: LedgerSpec.Ledger, log: seq<Execution>, records: Records, device: DeviceId, bound: nat) {
    && (forall id :: id in l.commands ==> Known(records, device, id, bound))
    && (forall i :: 0 <= i < |l.queue| ==> l.queue[i].commandId in l.commands)
    && QueueAscending(l.queue, records)
    && (forall k :: 0 <= k < |log| ==> log[k].command.commandId in l.commands)
    && (forall k, i :: 0 <= k < |log| && 0 <= i < |l.queue| ==>
          SequenceAt(records, log[k].command.commandId) < SequenceAt(records, l.queue[i].commandId))
  }

  ghost predicate AgentOrdered(a: Agent, records: Records, device: DeviceId, bound: nat) {
    && Sound(a.disk)
    && LogAscending(a.log, records)
    && (a.memory.Some? ==> LedgerOrdered(a.memory.value, a.log, records, device, bound))
    && (Durable(a.disk).Some? ==> LedgerOrdered(Durable(a.disk).value, a.log, records, device, bound))
    && (a.log != [] ==> Durable(a.disk).Some?)
  }

  // ---- ledger steps ----

  lemma CommitOrdered(a: Agent, l: LedgerSpec.Ledger, cut: nat, records: Records, device: DeviceId, bound: nat)
    requires AgentOrdered(a, records, device, bound) && LedgerOrdered(l, a.log, records, device, bound)
    ensures AgentOrdered(Commit(a, l, cut).0, records, device, bound)
    ensures Commit(a, l, cut).1 ==> Durable(Commit(a, l, cut).0.disk) == Some(l)
  {
    PersistIsAtomic(a.disk, l, cut);
  }

  lemma BoundGrows(a: Agent, records: Records, device: DeviceId, bound: nat, larger: nat)
    requires AgentOrdered(a, records, device, bound) && bound <= larger
    ensures AgentOrdered(a, records, device, larger)
  {
  }

  /** A command whose sequence is at least everything received so far may join the queue. */
  lemma AcceptOrdered(a: Agent, capacity: nat, command: LedgerSpec.AgentCommand, cut: nat, records: Records, device: DeviceId, bound: nat)
    requires a.memory.Some? && AgentOrdered(a, records, device, bound) && Numbered(records, device)
    requires Known(records, device, command.commandId, bound) && records[command.commandId].sequence == bound
    ensures var after := StoreAccept(a, capacity, command, cut).0;
            after.memory.Some? && a.evicted <= after.evicted && after.log == a.log
            && (after.evicted == {} ==> AgentOrdered(after, records, device, bound))
  {
    var before := a.memory.value;
    var l := LedgerSpec.Accept(before, capacity, command).0;
    var noted := a.(memory := Some(l), evicted := a.evicted + (before.commands.Keys - l.commands.Keys));
    if noted.evicted == {} {
      AcceptedLedgerOrdered(before, capacity, command, a.log, records, device, bound);
      CommitOrdered(noted, l, cut, records, device, bound);
    }
  }

  lemma AcceptedLedgerOrdered(
      before: LedgerSpec.Ledger, capacity: nat, command: LedgerSpec.AgentCommand, log: seq<Execution>,
      records: Records, device: DeviceId, bound: nat)
    requires LedgerOrdered(before, log, records, device, bound) && Numbered(records, device)
    requires Known(records, device, command.commandId, bound) && records[command.commandId].sequence == bound
    requires before.commands.Keys - LedgerSpec.Accept(before, capacity, command).0.commands.Keys == {}
    ensures LedgerOrdered(LedgerSpec.Accept(before, capacity, command).0, log, records, device, bound)
  {
    var l := LedgerSpec.Accept(before, capacity, command).0;
    AcceptWithoutEviction(before, capacity, command);
    if l != before {
      JoinOrdered(before, l, command, log, records, device, bound);
    }
  }

  lemma AcceptWithoutEviction(before: LedgerSpec.Ledger, capacity: nat, command: LedgerSpec.AgentCommand)
    requires before.commands.Keys - LedgerSpec.Accept(before, capacity, command).0.commands.Keys == {}
    ensures var l := LedgerSpec.Accept(before, capacity, command).0;
            l == before
            || (command.commandId !in before.commands && l.commands.Keys == before.commands.Keys + {command.commandId}
                && l.queue == before.queue + [command])
  {
  }

  lemma JoinOrdered(
      before: LedgerSpec.Ledger, l: LedgerSpec.Ledger, command: LedgerSpec.AgentCommand, log: seq<Execution>,
      records: Records, device: DeviceId, bound: nat)
    requires LedgerOrdered(before, log, records, device, bound) && Numbered(records, device)
    requires Known(records, device, command.commandId, bound) && records[command.commandId].sequence == bound
    requires command.commandId !in before.commands
    requires l.commands.Keys == before.commands.Keys + {command.commandId} && l.queue == before.queue + [command]
    ensures LedgerOrdered(l, log, records, device, bound)
  {
    forall id | id in before.commands ensures SequenceAt(records, id) < bound {
      assert Known(records, device, id, bound);
    }
  }

  lemma FinishOrdered(a: Agent, id: CommandId, state: LedgerSpec.PersistedState, cut: nat, records: Records, device: DeviceId, bound: nat)
    requires a.memory.Some? && AgentOrdered(a, records, device, bound)
    ensures var after := StoreFinish(a, id, state, cut).0;
            after.memory.Some? && after.evicted == a.evicted && after.log == a.log && AgentOrdered(after, records, device, bound)
  {
    var l := LedgerSpec.Finish(a.memory.value, id, state).0;
    assert l.commands.Keys == a.memory.value.commands.Keys;
    CommitOrdered(a, l, cut, records, device, bound);
  }

  lemma DequeueLedgerOrdered(l: LedgerSpec.Ledger, log: seq<Execution>, records: Records, device: DeviceId, bound: nat, outcome: Option<CommandStatus>)
    requires LedgerOrdered(l, log, records, device, bound) && l.queue != []
    ensures var after := LedgerSpec.Dequeue(l).0;
            LedgerOrdered(after, log, records, device, bound)
            && LedgerOrdered(after, log + [Execution(l.queue[0], outcome)], records, device, bound)
  {
    var after := LedgerSpec.Dequeue(l).0;
    assert after.commands.Keys == l.commands.Keys;
    assert forall i :: 0 <= i < |after.queue| ==> after.queue[i] == l.queue[i + 1];
  }

  lemma ExecuteOrdered(a: Agent, sent: seq<Report>, f: Faults, records: Records, device: DeviceId, bound: nat)
    requires a.memory.Some? && AgentOrdered(a, records, device, bound)
    ensures var after := ExecuteNext(a, sent, f).agent;
            after.evicted == a.evicted && AgentOrdered(after, records, device, bound)
  {
    var (l, next) := LedgerSpec.Dequeue(a.memory.value);
    if next.Some? {
      DequeueLedgerOrdered(a.memory.value, a.log, records, device, bound, f.outcome);
    }
    CommitOrdered(a, l, f.dequeueCut, records, device, bound);
    var (taken, _, ok) := StoreDequeue(a, f.dequeueCut);
    if ok && next.Some? && f.executingSent {
      var executed := taken.(log := taken.log + [Execution(next.value, f.outcome)]);
      assert AgentOrdered(executed, records, device, bound);
      if f.outcome.Some? {
        FinishOrdered(executed, next.value.commandId, PersistedOutcome(f.outcome.value), f.finishCut, records, device, bound);
      }
    }
  }

  lemma ProcessOrdered(a: Agent, capacity: nat, command: LedgerSpec.AgentCommand, now: int, f: Faults, records: Records, device: DeviceId, bound: nat)
    requires a.memory.Some? && AgentOrdered(a, records, device, bound) && Numbered(records, device)
    requires Known(records, device, command.commandId, bound) && records[command.commandId].sequence == bound
    ensures var after := ProcessCommand(a, capacity, command, now, f).agent;
            a.evicted <= after.evicted && (after.evicted == {} ==> AgentOrdered(after, records, device, bound))
  {
    var id := command.commandId;
    var handled := ProcessCommand(a, capacity, command, now, f);
    if LedgerSpec.HasTerminal(a.memory.value.commands, id) || command.expiresAt.None? {
      assert handled.agent == a;
    } else {
      var (accepted, ok) := StoreAccept(a, capacity, command, f.acceptCut);
      AcceptOrdered(a, capacity, command, f.acceptCut, records, device, bound);
      if command.expiresAt.value <= now {
        assert handled == ProcessExpired(a, capacity, command, f);
        ExpiredOrdered(a, capacity, command, f, records, device, bound);
      } else if !ok || !f.acceptedSent {
        assert handled.agent == accepted;
      } else {
        assert handled == ExecuteNext(accepted, [Report(id, CommandStatus.Accepted)], f);
        ExecuteEvictsNothing(accepted, [Report(id, CommandStatus.Accepted)], f);
        if accepted.evicted == {} {
          ExecuteOrdered(accepted, [Report(id, CommandStatus.Accepted)], f, records, device, bound);
        }
      }
    }
  }

  lemma ExecuteEvictsNothing(a: Agent, sent: seq<Report>, f: Faults)
    requires a.memory.Some?
    ensures ExecuteNext(a, sent, f).agent.evicted == a.evicted
  {
  }

  lemma ExpiredOrdered(a: Agent, capacity: nat, command: LedgerSpec.AgentCommand, f: Faults, records: Records, device: DeviceId, bound: nat)
    requires a.memory.Some? && AgentOrdered(a, records, device, bound) && Numbered(records, device)
    requires Known(records, device, command.commandId, bound) && records[command.commandId].sequence == bound
    ensures var after := ProcessExpired(a, capacity, command, f).agent;
            a.evicted <= after.evicted && (after.evicted == {} ==> AgentOrdered(after, records, device, bound))
  {
    var id := command.commandId;
    if id in a.memory.value.commands {
      FinishOrdered(a, id, LedgerSpec.PersistedState.Expired, f.finishCut, records, device, bound);
      assert ProcessExpired(a, capacity, command, f).agent == StoreFinish(a, id, LedgerSpec.PersistedState.Expired, f.finishCut).0;
    } else {
      var (accepted, ok) := StoreAccept(a, capacity, command, f.acceptCut);
      AcceptOrdered(a, capacity, command, f.acceptCut, records, device, bound);
      if !ok {
        assert ProcessExpired(a, capacity, command, f).agent == accepted;
      } else {
        assert ProcessExpired(a, capacity, command, f).agent == StoreFinish(accepted, id, LedgerSpec.PersistedState.Expired, f.finishCut).0;
        FinishEvictsNothing(accepted, id, f.finishCut);
        if accepted.evicted == {} {
          FinishOrdered(accepted, id, LedgerSpec.PersistedState.Expired, f.finishCut, records, device, bound);
        }
      }
    }
  }

  lemma FinishEvictsNothing(a: Agent, id: CommandId, cut: nat)
    requires a.memory.Some?
    ensures StoreFinish(a, id, LedgerSpec.PersistedState.Expired, cut).0.evicted == a.evicted
  {
  }

  predicate After(x: LedgerSpec.AgentCommand, queue: seq<LedgerSpec.AgentCommand>, records: Records) {
    forall c :: c in queue ==> SequenceAt(records, x.commandId) < SequenceAt(records, c.commandId)
  }

  lemma PrependAscending(x: LedgerSpec.AgentCommand, queue: seq<LedgerSpec.AgentCommand>, records: Records)
    ensures QueueAscending([x] + queue, records) <==> QueueAscending(queue, records) && After(x, queue, records)
  {
    var whole := [x] + queue;
    assert forall i :: 0 <= i < |queue| ==> whole[i + 1] == queue[i];
    if QueueAscending(whole, records) {
      forall c | c in queue ensures SequenceAt(records, x.commandId) < SequenceAt(records, c.commandId) {
        var j :| 0 <= j < |queue| && queue[j] == c;
        assert whole[0] == x && whole[j + 1] == c;
      }
    }
  }

  lemma {:induction false} KeptAscending(queue: seq<LedgerSpec.AgentCommand>, m: map<CommandId, LedgerSpec.PersistedState>, records: Records)
    requires QueueAscending(queue, records)
    ensures QueueAscending(LedgerSpec.KeepAccepted(queue, m), records)
  {
    if queue != [] {
      var rest := queue[1..];
      var kept := LedgerSpec.KeepAccepted(rest, m);
      assert queue == [queue[0]] + rest;
      PrependAscending(queue[0], rest, records);
      KeptAscending(rest, m, records);
      Once.KeepAcceptedSubset(rest, m);
      PrependAscending(queue[0], kept, records);
      assert [] + kept == kept;
    }
  }

  lemma RecoverOrdered(l: LedgerSpec.Ledger, log: seq<Execution>, records: Records, device: DeviceId, bound: nat)
    requires LedgerOrdered(l, log, records, device, bound)
    ensures LedgerOrdered(LedgerSpec.Recover(l), log, records, device, bound)
  {
    var m := LedgerSpec.RecoveredStates(l.commands);
    var kept := LedgerSpec.KeepAccepted(l.queue, m);
    KeptAscending(l.queue, m, records);
    Once.KeepAcceptedSubset(l.queue, m);
    forall i | 0 <= i < |kept| ensures kept[i] in l.queue { }
  }

  lemma StartOrdered(a: Agent, capacity: nat, cut: nat, records: Records, device: DeviceId, bound: nat)
    requires AgentOrdered(a, records, device, bound)
    ensures AgentOrdered(StartAgent(a, capacity, cut), records, device, bound)
  {
    OpenIsAtomic(a.disk, capacity, cut);
    if Durable(a.disk).Some? {
      RecoverOrdered(Durable(a.disk).value, a.log, records, device, bound);
    }
  }

  // ---- the whole protocol ----

  /** Records only change status, and new ones only get sequences above `counter`. */
  ghost predicate Extends(before: Records, after: Records) {
    forall id :: id in before ==> id in after && Kept.SameIdentity(before[id], after[id])
  }

  lemma AgentFrame(a: Agent, before: Records, after: Records, device: DeviceId, bound: nat)
    requires AgentOrdered(a, before, device, bound) && Extends(before, after)
    ensures AgentOrdered(a, after, device, bound)
  {
    assert forall id :: id in before ==> SequenceAt(after, id) == SequenceAt(before, id);
    LogFrame(a, before, after, device, bound);
    if a.memory.Some? {
      LedgerFrame(a.memory.value, a.log, before, after, device, bound);
    }
    if Durable(a.disk).Some? {
      LedgerFrame(Durable(a.disk).value, a.log, before, after, device, bound);
    }
  }

  lemma LogFrame(a: Agent, before: Records, after: Records, device: DeviceId, bound: nat)
    requires AgentOrdered(a, before, device, bound) && Extends(before, after)
    ensures LogAscending(a.log, after)
  {
    forall k | 0 <= k < |a.log| ensures SequenceAt(after, a.log[k].command.commandId) == SequenceAt(before, a.log[k].command.commandId) {
      assert a.log[k].command.commandId in Durable(a.disk).value.commands;
      assert Known(before, device, a.log[k].command.commandId, bound);
    }
  }

  lemma LedgerFrame(l: LedgerSpec.Ledger, log: seq<Execution>, before: Records, after: Records, device: DeviceId, bound: nat)
    requires LedgerOrdered(l, log, before, device, bound) && Extends(before, after)
    ensures LedgerOrdered(l, log, after, device, bound)
  {
    forall id | id in l.commands
      ensures SequenceAt(after, id) == SequenceAt(before, id) && Known(after, device, id, bound)
    {
      assert Known(before, device, id, bound);
    }
  }

  ghost predicate DownOrdered(down: seq<LedgerSpec.AgentCommand>, records: Records, device: DeviceId, low: nat, high: nat) {
    && (forall i :: 0 <= i < |down| ==>
          Known(records, device, down[i].commandId, high) && low <= SequenceAt(records, down[i].commandId))
    && (forall i, j :: 0 <= i < j < |down| ==> SequenceAt(records, down[i].commandId) <= SequenceAt(records, down[j].commandId))
  }

  /** Every live command of the device is numbered at least `sentMax`. */
  ghost predicate LiveAbove(c: Coordinator, device: DeviceId, sentMax: nat) {
    forall id :: IsLive(c, id) && c.commands[id].deviceId == device ==> sentMax <= c.commands[id].sequence
  }

  ghost predicate ServerOrdered(c: Coordinator, device: DeviceId, sentMax: nat) {
    Kept.Inv(c) && sentMax <= SequenceOf(c, device) && LiveAbove(c, device, sentMax)
  }

  ghost predicate Ordered(s: System, device: DeviceId) {
    && ServerOrdered(s.server, device, s.sentMax)
    && s.receivedMax <= s.sentMax
    && DownOrdered(s.link.down, s.server.commands, device, s.receivedMax, s.sentMax)
    && AgentOrdered(s.agent, s.server.commands, device, s.receivedMax)
  }

  /** How a server step may change the records: old ones keep their identity, and what is live was live or is new. */
  ghost predicate Advances(c: Coordinator, after: Coordinator, device: DeviceId) {
    && Extends(c.commands, after.commands)
    && SequenceOf(c, device) <= SequenceOf(after, device)
    && (forall id :: IsLive(after, id) && after.commands[id].deviceId == device ==>
          IsLive(c, id) || (id !in c.commands && after.commands[id].sequence > SequenceOf(c, device)))
  }

  lemma SameTableAdvances(c: Coordinator, after: Coordinator, device: DeviceId)
    requires Kept.SameTable(c, after)
    requires forall id :: IsLive(after, id) ==> IsLive(c, id)
    ensures Advances(c, after, device)
  {
  }

  lemma TransitionAdvances(c: Coordinator, id: CommandId, next: CommandStatus, error: Option<ErrorCode>, device: DeviceId)
    ensures Advances(c, Transition(c, id, next, error).0, device)
  {
    Kept.TransitionSameTable(c, id, next, error);
    SameTableAdvances(c, Transition(c, id, next, error).0, device);
  }

  lemma AdvancesTransitive(a: Coordinator, b: Coordinator, c: Coordinator, device: DeviceId)
    requires Advances(a, b, device) && Advances(b, c, device)
    ensures Advances(a, c, device)
  {
  }

  lemma {:induction false} ExpireAdvances(c: Coordinator, ids: seq<CommandId>, now: int, device: DeviceId)
    ensures Advances(c, ExpireFrom(c, ids, now).0, device)
    decreases |ids|
  {
    if ids != [] {
      var middle := Transition(c, ids[0], Expired, None).0;
      TransitionAdvances(c, ids[0], Expired, None, device);
      ExpireAdvances(c, ids[1..], now, device);
      ExpireAdvances(middle, ids[1..], now, device);
      AdvancesTransitive(c, middle, ExpireFrom(middle, ids[1..], now).0, device);
    }
  }

  lemma CreateCommandAdvances(
      c: Coordinator, batchId: BatchId, owner: OwnerId, target: DeviceId, commandType: string, now: int, id: CommandId, device: DeviceId)
    requires id !in c.commands
    ensures Advances(c, CreateCommand(c, batchId, owner, target, commandType, now, id).0, device)
  {
    Kept.CreateCommandOutcome(c, batchId, owner, target, commandType, now, id);
  }

  lemma {:induction false} CreateAdvances(
      c: Coordinator, batchId: BatchId, owner: OwnerId, targets: seq<DeviceId>, commandType: string, now: int, ids: seq<CommandId>, device: DeviceId)
    requires Kept.Inv(c) && |ids| >= |targets| && Kept.FreshIds(c, ids)
    ensures Advances(c, CreateCommands(c, batchId, owner, targets, commandType, now, ids).0, device)
    decreases |targets|
  {
    if targets != [] {
      var n := |targets| - 1;
      assert Kept.FreshIds(c, ids[..n]) by {
        assert forall i :: 0 <= i < n ==> ids[..n][i] == ids[i];
      }
      CreateAdvances(c, batchId, owner, targets[..n], commandType, now, ids[..n], device);
      Kept.CreateCommandsKeeps(c, batchId, owner, targets[..n], commandType, now, ids[..n]);
      var before := CreateCommands(c, batchId, owner, targets[..n], commandType, now, ids[..n]).0;
      assert ids[n] !in before.commands by {
        assert ids[..n][..n] == ids[..n];
        assert forall x :: x in ids[..n] ==> x != ids[n];
        assert ids[n] in ids;
      }
      CreateCommandAdvances(before, batchId, owner, targets[n], commandType, now, ids[n], device);
      AdvancesTransitive(c, before, CreateCommand(before, batchId, owner, targets[n], commandType, now, ids[n]).0, device);
    }
  }

  lemma BatchAdvances(c: Coordinator, owner: OwnerId, request: Request, now: int, supply: Supply, device: DeviceId)
    requires Kept.Inv(c) && |supply.commandIds| >= |request.deviceIds| && Kept.FreshIds(c, supply.commandIds)
    ensures Advances(c, CreateBatch(c, owner, request, now, supply).0, device)
  {
    if ValidTargets(request) && (owner, request.idempotencyKey) !in c.idempotency {
      UniqueSize(request.deviceIds);
      CreateAdvances(c, supply.batchId, owner, TargetsOf(request), request.commandType, now, supply.commandIds, device);
    }
  }

  lemma ServerStepOrdered(s: System, device: DeviceId, after: Coordinator)
    requires Ordered(s, device) && Advances(s.server, after, device) && Kept.Inv(after)
    ensures Ordered(s.(server := after), device)
  {
    AgentFrame(s.agent, s.server.commands, after.commands, device, s.receivedMax);
    var down := s.link.down;
    forall i | 0 <= i < |down|
      ensures SequenceAt(after.commands, down[i].commandId) == SequenceAt(s.server.commands, down[i].commandId)
      ensures Known(after.commands, device, down[i].commandId, s.sentMax)
    {
      assert Known(s.server.commands, device, down[i].commandId, s.sentMax);
    }
  }

  lemma DispatchOrdered(s: System, device: DeviceId)
    requires Ordered(s, device)
    ensures Ordered(DispatchTo(s, device), device)
  {
    var (server, next) := DispatchNext(s.server, device);
    DispatchNextOrdered(s, device);
    if next.Some? {
      if s.link.serverOpen {
        SendOrdered(s, server, device, next.value);
      } else {
        TransitionAdvances(server, next.value, Failed, Some(DeviceOffline), device);
        Kept.TransitionKeeps(server, next.value, Failed, Some(DeviceOffline));
        ServerStepOrdered(s.(server := server), device, Transition(server, next.value, Failed, Some(DeviceOffline)).0);
      }
    }
  }

  /** Choosing a command leaves the system ordered, and the choice is the smallest live command. */
  lemma DispatchNextOrdered(s: System, device: DeviceId)
    requires Ordered(s, device)
    ensures var (server, next) := DispatchNext(s.server, device);
            Ordered(s.(server := server), device)
            && (next.Some? ==> Smallest(server, device, next.value))
  {
    var (server, next) := DispatchNext(s.server, device);
    DispatchAdvances(s.server, device, device);
    ServerStepOrdered(s, device, server);
    DispatchSmallest(s.server, device);
  }

  lemma DispatchSmallest(c: Coordinator, device: DeviceId)
    requires Kept.Inv(c)
    ensures var (server, next) := DispatchNext(c, device); next.Some? ==> Smallest(server, device, next.value)
  {
    var (server, next) := DispatchNext(c, device);
    Kept.DispatchTakesSmallest(c, device);
    if next.Some? && server != c {
      Kept.TransitionSameTable(c, next.value, Sent, None);
      assert server == SetStatus(c, next.value, Sent, None);
    }
  }

  ghost predicate Smallest(c: Coordinator, device: DeviceId, id: CommandId) {
    && IsLive(c, id) && c.commands[id].deviceId == device
    && forall x :: IsLive(c, x) && c.commands[x].deviceId == device && x != id ==> c.commands[id].sequence < c.commands[x].sequence
  }

  /** The head is numbered at least everything sent before and at most everything still live. */
  lemma SendOrdered(s: System, server: Coordinator, device: DeviceId, id: CommandId)
    requires Ordered(s.(server := server), device)
    requires Smallest(server, device, id)
    ensures var command := server.commands[id];
            Ordered(s.(server := server, link := s.link.(down := s.link.down + [ToWire(command)]), sentMax := Max(s.sentMax, command.sequence)), device)
  {
    var command := server.commands[id];
    assert command.commandId == id;
    assert Max(s.sentMax, command.sequence) == command.sequence;
    var down := s.link.down + [ToWire(command)];
    assert DownOrdered(down, server.commands, device, s.receivedMax, command.sequence) by {
      forall i | 0 <= i < |s.link.down| ensures SequenceAt(server.commands, s.link.down[i].commandId) <= command.sequence {
        assert Known(server.commands, device, s.link.down[i].commandId, s.sentMax);
      }
    }
  }

  lemma ReceiveOrdered(s: System, device: DeviceId)
    requires Ordered(s, device)
    ensures Ordered(ReceiveReport(s, device), device)
  {
    if s.link.serverOpen && s.link.up != [] {
      var report := s.link.up[0];
      var server := HandleAgentResult(s.server, device, report.commandId, report.status, None).0;
      TransitionAdvances(s.server, report.commandId, report.status, None, device);
      SameTableAdvances(s.server, s.server, device);
      Kept.TransitionKeeps(s.server, report.commandId, report.status, None);
      ServerStepOrdered(s, device, server);
      var handled := s.(server := server, link := s.link.(up := s.link.up[1..]));
      assert Ordered(handled, device);
      DispatchOrdered(handled, device);
    }
  }

  lemma DeliverOrdered(s: System, device: DeviceId, capacity: nat, now: int, f: Faults)
    requires Ordered(s, device)
    ensures var after := ReceiveCommand(s, capacity, now, f);
            s.agent.evicted <= after.agent.evicted && (after.agent.evicted == {} ==> Ordered(after, device))
  {
    if s.link.agentOpen && s.link.down != [] && s.agent.memory.Some? {
      var down := s.link.down;
      var records := s.server.commands;
      var bound := SequenceAt(records, down[0].commandId);
      assert Known(records, device, down[0].commandId, s.sentMax);
      assert Max(s.receivedMax, bound) == bound;
      BoundGrows(s.agent, records, device, s.receivedMax, bound);
      ProcessOrdered(s.agent, capacity, down[0], now, f, records, device, bound);
      assert DownOrdered(down[1..], records, device, bound, s.sentMax) by {
        assert forall i :: 0 <= i < |down[1..]| ==> down[1..][i] == down[i + 1];
      }
    }
  }

  lemma StepOrdered(s: System, device: DeviceId, capacity: nat, e: Event)
    requires Ordered(s, device) && Allowed(s, device, e) && !e.Inject?
    ensures var after := Step(s, device, capacity, e);
            s.agent.evicted <= after.agent.evicted && (after.agent.evicted == {} ==> Ordered(after, device))
  {
    match e
    case ServerUpsert(_) => ServerEventOrdered(s, device, capacity, e);
    case ServerCreate(_, _, _, _) => ServerEventOrdered(s, device, capacity, e);
    case ServerExpire(_) => ServerEventOrdered(s, device, capacity, e);
    case OtherDispatch(_) => ServerEventOrdered(s, device, capacity, e);
    case OtherMove(_, _, _) => ServerEventOrdered(s, device, capacity, e);
    case ServerDispatch => DispatchOrdered(s, device);
    case ServerReceive => ReceiveOrdered(s, device);
    case Connect =>
      if s.agent.memory.Some? {
        assert Ordered(s.(link := Link([], [], true, true)), device);
        DispatchOrdered(s.(link := Link([], [], true, true)), device);
      }
    case AgentReceive(now, f) => DeliverOrdered(s, device, capacity, now, f);
    case AgentStart(cut) => StartOrdered(s.agent, capacity, cut, s.server.commands, device, s.receivedMax);
    case CloseServer =>
    case CloseAgent =>
    case AgentCrash =>
  }

  /** Events that touch only the coordinator. */
  lemma ServerEventOrdered(s: System, device: DeviceId, capacity: nat, e: Event)
    requires Ordered(s, device) && Allowed(s, device, e)
    requires e.ServerUpsert? || e.ServerCreate? || e.ServerExpire? || e.OtherDispatch? || e.OtherMove?
    ensures Ordered(Step(s, device, capacity, e), device)
  {
    var after: Coordinator;
    match e {
      case ServerUpsert(d) =>
        Kept.UpsertKeeps(s.server, d);
        after := UpsertDevice(s.server, d);
      case ServerCreate(owner, request, now, supply) =>
        Kept.CreateBatchKeeps(s.server, owner, request, now, supply);
        BatchAdvances(s.server, owner, request, now, supply, device);
        after := CreateBatch(s.server, owner, request, now, supply).0;
      case ServerExpire(now) =>
        Kept.ExpireFromKeeps(s.server, s.server.inserted, now);
        ExpireAdvances(s.server, s.server.inserted, now, device);
        after := Expire(s.server, now).0;
      case OtherDispatch(other) =>
        DispatchAdvances(s.server, other, device);
        after := DispatchNext(s.server, other).0;
      case OtherMove(id, next, error) =>
        Kept.TransitionKeeps(s.server, id, next, error);
        TransitionAdvances(s.server, id, next, error, device);
        after := Transition(s.server, id, next, error).0;
    }
    ServerStepOrdered(s, device, after);
  }

  lemma DispatchAdvances(c: Coordinator, other: DeviceId, device: DeviceId)
    requires Kept.Inv(c)
    ensures Kept.Inv(DispatchNext(c, other).0) && Advances(c, DispatchNext(c, other).0, device)
  {
    Kept.DispatchKeeps(c, other);
    SameTableAdvances(c, c, device);
    var next := FirstLive(c, QueueOf(c, other));
    if next.Some? {
      TransitionAdvances(c, next.value, Sent, None, device);
    }
  }

  /** Evictions are never undone. */
  lemma StepEvicted(s: System, device: DeviceId, capacity: nat, e: Event)
    requires Allowed(s, device, e)
    ensures s.agent.evicted <= Step(s, device, capacity, e).agent.evicted
  {
    match e
    case AgentReceive(now, f) =>
      if s.link.agentOpen && s.link.down != [] && s.agent.memory.Some? {
        ProcessEvicted(s.agent, capacity, s.link.down[0], now, f);
      }
    case _ =>
  }

  lemma ProcessEvicted(a: Agent, capacity: nat, command: LedgerSpec.AgentCommand, now: int, f: Faults)
    requires a.memory.Some?
    ensures a.evicted <= ProcessCommand(a, capacity, command, now, f).agent.evicted
  {
    var handled := ProcessCommand(a, capacity, command, now, f);
    var (accepted, ok) := StoreAccept(a, capacity, command, f.acceptCut);
    AcceptEvicted(a, capacity, command, f.acceptCut);
    if LedgerSpec.HasTerminal(a.memory.value.commands, command.commandId) || command.expiresAt.None? {
      assert handled.agent == a;
    } else if command.expiresAt.value <= now {
      assert handled == ProcessExpired(a, capacity, command, f);
      FinishEvictsNothing(a, command.commandId, f.finishCut);
      FinishEvictsNothing(accepted, command.commandId, f.finishCut);
    } else if !ok || !f.acceptedSent {
      assert handled.agent == accepted;
    } else {
      assert handled == ExecuteNext(accepted, [Report(command.commandId, CommandStatus.Accepted)], f);
      ExecuteEvictsNothing(accepted, [Report(command.commandId, CommandStatus.Accepted)], f);
    }
  }

  lemma AcceptEvicted(a: Agent, capacity: nat, command: LedgerSpec.AgentCommand, cut: nat)
    requires a.memory.Some?
    ensures a.evicted <= StoreAccept(a, capacity, command, cut).0.evicted && StoreAccept(a, capacity, command, cut).0.memory.Some?
  {
  }

  lemma {:induction false} RunOrdered(s: System, device: DeviceId, capacity: nat, events: seq<Event>)
    requires Ordered(s, device) && AllowedRun(s, device, capacity, events)
    requires forall e :: e in events ==> !e.Inject?
    ensures s.agent.evicted <= Run(s, device, capacity, events).agent.evicted
    ensures Run(s, device, capacity, events).agent.evicted == {} ==> Ordered(Run(s, device, capacity, events), device)
    decreases |events|
  {
    if events != [] {
      assert events[0] in events && forall e :: e in events[1..] ==> e in events;
      var next := Step(s, device, capacity, events[0]);
      StepOrdered(s, device, capacity, events[0]);
      if next.agent.evicted == {} {
        RunOrdered(next, device, capacity, events[1..]);
      } else {
        RunEvicted(next, device, capacity, events[1..]);
      }
    }
  }

  lemma {:induction false} RunEvicted(s: System, device: DeviceId, capacity: nat, events: seq<Event>)
    requires AllowedRun(s, device, capacity, events)
    ensures s.agent.evicted <= Run(s, device, capacity, events).agent.evicted
    decreases |events|
  {
    if events != [] {
      StepEvicted(s, device, capacity, events[0]);
      RunEvicted(Step(s, device, capacity, events[0]), device, capacity, events[1..]);
    }
  }

  lemma InitialOrdered(device: DeviceId)
    ensures Ordered(INITIAL, device)
  {
    Kept.EmptyInv();
  }

  /** In every run without stray commands and without eviction, a device executes its commands in strictly
      increasing device sequence, whatever is lost, re-sent or crashes. */
  lemma ExecutedInOrder(device: DeviceId, capacity: nat, events: seq<Event>)
    requires AllowedRun(INITIAL, device, capacity, events)
    requires forall e :: e in events ==> !e.Inject?
    ensures var end := Run(INITIAL, device, capacity, events);
            end.agent.evicted == {} ==>
              forall i, j :: 0 <= i < j < |end.agent.log| ==>
                SequenceAt(end.server.commands, end.agent.log[i].command.commandId) < SequenceAt(end.server.commands, end.agent.log[j].command.commandId)
  {
    InitialOrdered(device);
    RunOrdered(INITIAL, device, capacity, events);
  }
}
