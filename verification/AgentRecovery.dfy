/** What a crash leaves behind, and what the ledger's guarantees do not cover. */
module AgentRecovery {
  import opened Prelude
  import opened LedgerSpec
  import opened StoreSpec
  import opened Wire
  import opened AgentSpec

  /** A reopened ledger in which `id` ended in `state`, nothing waits but the commands `waiting`, in that order. */
  ghost predicate ReopenedWith(l: Ledger, capacity: nat, id: CommandId, state: PersistedState, waiting: seq<CommandId>) {
    && Exact(l, capacity)
    && id in l.commands && l.commands[id] == state
    && id !in Ids(l.queue)
    && Ids(l.queue) == waiting
  }

  lemma SnapshotReopens(d: Disk, capacity: nat, cut: nat, snapshot: Ledger, id: CommandId)
    requires Sound(d) && Durable(d) == Some(snapshot) && id in snapshot.commands && !snapshot.commands[id].Accepted?
    ensures var result := StoreSpec.Open(d, capacity, cut).1;
            result.Ok? ==>
              (ReopenedWith(result.value, capacity, id, RecoveredState(snapshot.commands[id]), AcceptedOf(snapshot.order, snapshot.commands))
               <==> Mendable(snapshot, capacity))
    ensures var result := StoreSpec.Open(d, capacity, cut).1;
            result.Ok? && !Mendable(snapshot, capacity) ==> !Exact(result.value, capacity)
  {
    RecoverRepairsIff(snapshot, capacity);
    OpenIsAtomic(d, capacity, cut);
    var r := Recover(snapshot);
    AcceptedOfMember(r.order, r.commands, id);
  }

  /** What a crash after a committed dequeue of `id`, or inside the finish that follows it, leaves for the next start. */
  ghost predicate CrashRecovers(a: Agent, capacity: nat, dequeueCut: nat, state: PersistedState, finishCut: nat, openCut: nat)
    requires a.memory.Some? && StoreDequeue(a, dequeueCut).1.Some?
  {
    var (taken, next, _) := StoreDequeue(a, dequeueCut);
    var id := next.value.commandId;
    var waiting := Without(AcceptedOf(a.memory.value.order, a.memory.value.commands), id);
    var reopened := StoreSpec.Open(taken.disk, capacity, openCut).1;
    var (finished, written) := StoreFinish(taken, id, state, finishCut);
    var later := StoreSpec.Open(finished.disk, capacity, openCut).1;
    && (reopened.Ok? ==> ReopenedWith(reopened.value, capacity, id, PersistedState.OutcomeUnknown, waiting))
    && (later.Ok? ==>
          ReopenedWith(later.value, capacity, id, state, waiting)
          || (!written && ReopenedWith(later.value, capacity, id, PersistedState.OutcomeUnknown, waiting)))
  }

  /** Write-ahead: once a dequeue is committed, a crash before the finish is committed reopens with that id
      OutcomeUnknown, out of the queue, and with every other waiting command kept in order.
      A crash while the finish is being written reopens with OutcomeUnknown or with the finished state.
      It is so, wherever a start succeeds, exactly when the dequeued id was still recorded. */
  lemma CrashAfterDequeue(a: Agent, capacity: nat, dequeueCut: nat, state: PersistedState, finishCut: nat, openCut: nat)
    requires a.memory.Some? && Mendable(a.memory.value, capacity) && Sound(a.disk)
    requires var (_, next, ok) := StoreDequeue(a, dequeueCut); ok && next.Some?
    requires IsTerminal(state)
    ensures var (taken, next, _) := StoreDequeue(a, dequeueCut);
            if next.value.commandId in a.memory.value.commands
            then CrashRecovers(a, capacity, dequeueCut, state, finishCut, openCut)
            else StoreSpec.Open(taken.disk, capacity, openCut).1.Ok? ==> !CrashRecovers(a, capacity, dequeueCut, state, finishCut, openCut)
  {
    var l := a.memory.value;
    var (taken, next, _) := StoreDequeue(a, dequeueCut);
    var id := next.value.commandId;
    var dequeued := Dequeue(l).0;
    PersistIsAtomic(a.disk, dequeued, dequeueCut);
    DequeueKeepsMendableIff(l, capacity);
    AcceptedOfSettled(l.order, l.commands, id, PersistedState.Executing);
    SnapshotReopens(taken.disk, capacity, openCut, dequeued, id);
    if id in l.commands {
      CrashInFinish(a, taken, capacity, id, state, finishCut, openCut);
    }
  }

  lemma CrashInFinish(a: Agent, taken: Agent, capacity: nat, id: CommandId, state: PersistedState, finishCut: nat, openCut: nat)
    requires a.memory.Some? && taken.memory.Some? && taken.memory.value.commands == a.memory.value.commands[id := PersistedState.Executing]
    requires taken.memory.value.order == a.memory.value.order && Mendable(taken.memory.value, capacity)
    requires Sound(taken.disk) && Durable(taken.disk) == taken.memory && IsTerminal(state)
    ensures var (finished, written) := StoreFinish(taken, id, state, finishCut);
            var waiting := Without(AcceptedOf(a.memory.value.order, a.memory.value.commands), id);
            var later := StoreSpec.Open(finished.disk, capacity, openCut).1;
            later.Ok? ==>
              ReopenedWith(later.value, capacity, id, state, waiting)
              || (!written && ReopenedWith(later.value, capacity, id, PersistedState.OutcomeUnknown, waiting))
  {
    var l, dequeued := a.memory.value, taken.memory.value;
    var ended := Finish(dequeued, id, state).0;
    var finished := StoreFinish(taken, id, state, finishCut).0;
    PersistIsAtomic(taken.disk, ended, finishCut);
    FinishKeepsMendable(dequeued, capacity, id, state);
    AcceptedOfSettled(l.order, l.commands, id, PersistedState.Executing);
    AcceptedOfSettled(l.order, dequeued.commands, id, state);
    WithoutTwice(AcceptedOf(l.order, l.commands), id);
    if Durable(finished.disk) == Some(ended) {
      SnapshotReopens(finished.disk, capacity, openCut, ended, id);
    } else {
      SnapshotReopens(finished.disk, capacity, openCut, dequeued, id);
    }
  }

  lemma {:induction false} WithoutTwice(ids: seq<CommandId>, id: CommandId)
    ensures Without(Without(ids, id), id) == Without(ids, id)
  {
    if ids != [] {
      WithoutTwice(ids[1..], id);
      WithoutConcat(if ids[0] == id then [] else [ids[0]], Without(ids[1..], id), id);
    }
  }

  /** Nothing fails and the executor answers. */
  predicate Smooth(f: Faults) {
    f.acceptCut > 6 && f.dequeueCut > 6 && f.finishCut > 6
    && f.acceptedSent && f.executingSent && f.resultSent && f.outcome.Some?
  }

  predicate Fresh(command: AgentCommand, now: int) {
    command.expiresAt.Some? && command.expiresAt.value > now
  }

  /** With an empty queue, a delivery that meets no failure executes its command exactly when the ledger has no
      record of it: so a command whose record was evicted runs again. */
  lemma DeliveryExecutesIffForgotten(a: Agent, capacity: nat, command: AgentCommand, now: int, f: Faults)
    requires a.memory.Some? && a.memory.value.queue == [] && Fresh(command, now) && Smooth(f)
    requires Accept(a.memory.value, capacity, command).1.Ok?
    ensures var id := command.commandId;
            ProcessCommand(a, capacity, command, now, f).agent.log ==
              if id in a.memory.value.commands then a.log else a.log + [Execution(command, f.outcome)]
  {
    var l := a.memory.value;
    var id := command.commandId;
    if !HasTerminal(l.commands, id) {
      var (accepted, ok) := StoreAccept(a, capacity, command, f.acceptCut);
      assert ok;
      if id in l.commands {
        assert Dequeue(accepted.memory.value).1.None?;
      } else {
        assert accepted.memory.value.queue == [command];
      }
    }
  }

  /** The statuses with which a command can end. */
  predicate IsOutcome(status: CommandStatus) {
    status.Succeeded? || status.Failed? || status.Expired? || status.OutcomeUnknown?
  }

  /** Delivering a command again, at any time, repeats the outcome that was reported the first time, unless the executor
      answered with no outcome at all; it executes nothing and changes nothing. */
  lemma RedeliveryRepeatsOutcome(
      a: Agent, capacity: nat, command: AgentCommand, again: AgentCommand, now: int, later: int, f: Faults, g: Faults)
    requires a.memory.Some? && a.memory.value.queue == [] && command.commandId !in a.memory.value.commands
    requires Accept(a.memory.value, capacity, command).1.Ok? && Fresh(command, now) && Smooth(f)
    requires again.commandId == command.commandId && g.resultSent
    ensures var id := command.commandId;
            var first := ProcessCommand(a, capacity, command, now, f);
            first.agent.memory.Some? && |first.sent| == 3 && first.sent[2] == Report(id, f.outcome.value)
            && var second := ProcessCommand(first.agent, capacity, again, later, g);
               second.agent == first.agent && |second.sent| == 1
               && (second.sent[0] == first.sent[2] <==> IsOutcome(f.outcome.value))
  {
    var (accepted, ok) := StoreAccept(a, capacity, command, f.acceptCut);
    assert ok && accepted.memory.value.queue == [command];
    var first := ProcessCommand(a, capacity, command, now, f);
    assert first.agent.memory.value.commands[command.commandId] == PersistedOutcome(f.outcome.value);
  }

  /** An expired command that is new to the ledger is recorded as Expired but stays in the queue, and the next
      delivery executes it, ahead of the command that was delivered. */
  lemma ExpiredCommandRunsNext(
      a: Agent, capacity: nat, expired: AgentCommand, command: AgentCommand, now: int, later: int, f: Faults, g: Faults)
    requires a.memory.Some? && a.memory.value.queue == [] && |a.memory.value.commands| + 2 <= capacity
    requires expired.commandId !in a.memory.value.commands && command.commandId !in a.memory.value.commands
    requires expired.commandId != command.commandId
    requires expired.expiresAt.Some? && expired.expiresAt.value <= now && Fresh(command, later) && Smooth(f) && Smooth(g)
    ensures var first := ProcessCommand(a, capacity, expired, now, f);
            var l := first.agent.memory;
            first.sent == [Report(expired.commandId, CommandStatus.Expired)] && first.agent.log == a.log
            && l.Some? && l.value.commands[expired.commandId] == PersistedState.Expired && l.value.queue == [expired]
            && ProcessCommand(first.agent, capacity, command, later, g).agent.log
               == a.log + [Execution(expired, g.outcome)]
  {
    var first := ProcessCommand(a, capacity, expired, now, f);
    var l := first.agent.memory.value;
    assert l.commands == a.memory.value.commands[expired.commandId := PersistedState.Expired];
    var (accepted, ok) := StoreAccept(first.agent, capacity, command, g.acceptCut);
    assert ok && accepted.memory.value.queue == [expired, command];
  }

  /** After the expired path, the command is still waiting exactly when it was new or waiting before. */
  lemma ExpiredStillQueuedIff(a: Agent, capacity: nat, command: AgentCommand, now: int, f: Faults)
    requires a.memory.Some? && Smooth(f) && Accept(a.memory.value, capacity, command).1.Ok?
    requires !HasTerminal(a.memory.value.commands, command.commandId)
    requires command.expiresAt.Some? && command.expiresAt.value <= now
    ensures var l := a.memory.value; var id := command.commandId;
            var after := ProcessCommand(a, capacity, command, now, f).agent.memory;
            after.Some? && after.value.commands[id] == PersistedState.Expired
            && (id in Ids(after.value.queue) <==> id !in l.commands || id in Ids(l.queue))
  {
    var l := a.memory.value;
    if command.commandId !in l.commands {
      var queue := l.queue + [command];
      assert Ids(queue)[|l.queue|] == command.commandId;
    }
  }
}

/** The agent's message handler as a stateful object. */
module AgentService {
  import opened Prelude
  import opened LedgerSpec
  import opened StoreSpec
  import opened CommandLedgers
  import opened Wire
  import opened AgentSpec

  class CommandProcessor {
    const store: FileCommandLedger
    var alive: bool
    var log: seq<Execution>
    ghost var evicted: set<CommandId>

    constructor (store: FileCommandLedger)
      ensures this.store == store && alive && log == [] && evicted == {}
    {
      this.store, alive, log, evicted := store, true, [], {};
    }

    ghost function View(): Agent
      reads this, store.ledger, store.directory
    {
      Agent(if alive then Some(store.ledger.View()) else None, store.directory.disk, log, evicted)
    }

    method ProcessCommand(command: AgentCommand, now: int, f: Faults) returns (sent: seq<Report>, ok: bool)
      requires alive
      modifies this, store.ledger, store.directory
      ensures Handled(View(), sent, ok) == AgentSpec.ProcessCommand(old(View()), store.ledger.capacity, command, now, f)
    {
      sent := [];
      var existing := store.ledger.State(command.commandId);
      if existing.Some? && IsTerminal(existing.value) {
        ok := f.resultSent;
        sent := if ok then [Report(command.commandId, PersistedStatus(existing.value))] else [];
        return;
      }
      if command.expiresAt.None? {
        return [], false;
      }
      if command.expiresAt.value <= now {
        sent, ok := RefuseExpired(command, f);
        return;
      }
      ghost var known := store.ledger.commands.Keys;
      var accepted := store.Accept(command, f.acceptCut);
      evicted := evicted + (known - store.ledger.commands.Keys);
      if accepted.Err? || !f.acceptedSent {
        return [], false;
      }
      sent := [Report(command.commandId, CommandStatus.Accepted)];
      var more: seq<Report>;
      more, ok := ExecuteQueued(f);
      sent := sent + more;
    }

    /** Record an expired command as such and say so. */
    method RefuseExpired(command: AgentCommand, f: Faults) returns (sent: seq<Report>, ok: bool)
      requires alive
      modifies this, store.ledger, store.directory
      ensures Handled(View(), sent, ok) == AgentSpec.ProcessExpired(old(View()), store.ledger.capacity, command, f)
    {
      var existing := store.ledger.State(command.commandId);
      if existing.None? {
        ghost var known := store.ledger.commands.Keys;
        var accepted := store.Accept(command, f.acceptCut);
        evicted := evicted + (known - store.ledger.commands.Keys);
        if accepted.Err? {
          return [], false;
        }
      }
      var finished := store.Finish(command.commandId, PersistedState.Expired, f.finishCut);
      ok := finished.Ok? && f.resultSent;
      sent := if ok then [Report(command.commandId, CommandStatus.Expired)] else [];
    }

    /** Dequeue, announce, execute, record and report one command. */
    method ExecuteQueued(f: Faults) returns (more: seq<Report>, ok: bool)
      requires alive
      modifies this, store.ledger, store.directory
      ensures forall sent :: Handled(View(), sent + more, ok) == AgentSpec.ExecuteNext(old(View()), sent, f)
    {
      var queued := store.Dequeue(f.dequeueCut);
      if queued.Err? {
        return [], false;
      }
      if queued.value.None? {
        return [], true;
      }
      var id := queued.value.value.commandId;
      if !f.executingSent {
        return [], false;
      }
      more := [Report(id, CommandStatus.Executing)];
      log := log + [Execution(queued.value.value, f.outcome)];
      if f.outcome.None? {
        alive := false;
        return more, false;
      }
      var finished := store.Finish(id, PersistedOutcome(f.outcome.value), f.finishCut);
      ok := finished.Ok? && f.resultSent;
      if ok {
        ghost var announced := more;
        more := more + [Report(id, f.outcome.value)];
        assert forall sent: seq<Report> :: sent + announced + [Report(id, f.outcome.value)] == sent + more;
      }
    }
  }
}
