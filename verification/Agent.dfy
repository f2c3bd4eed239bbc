/** The statuses a command has on the wire and at the server. */
module Wire {
  import LedgerSpec

  datatype CommandStatus =
    | Created | Sent | Accepted | Executing
    | Succeeded | Failed | Expired | OutcomeUnknown

  datatype Report = Report(commandId: LedgerSpec.CommandId, status: CommandStatus)

  function PersistedStatus(state: LedgerSpec.PersistedState): CommandStatus {
    match state
    case Accepted => Accepted
    case Executing => Executing
    case Succeeded => Succeeded
    case Failed => Failed
    case Expired => Expired
    case OutcomeUnknown => OutcomeUnknown
  }

  /** What the ledger records for the executor's answer. */
  function PersistedOutcome(status: CommandStatus): LedgerSpec.PersistedState {
    match status
    case Succeeded => LedgerSpec.Succeeded
    case OutcomeUnknown => LedgerSpec.OutcomeUnknown
    case Expired => LedgerSpec.Expired
    case _ => LedgerSpec.Failed
  }
}

/** One device agent: its ledger in memory and on disk, and everything it has handed to the executor. */
module AgentSpec {
  import opened Prelude
  import opened LedgerSpec
  import opened StoreSpec
  import opened Wire

  /** The command handed to the executor and its answer; `outcome` is None when the process died before the executor answered. */
  datatype Execution = Execution(command: AgentCommand, outcome: Option<CommandStatus>)

  /** `memory` is None while the process is down. `log` and `evicted` record history and steer nothing. */
  datatype Agent = Agent(memory: Option<Ledger>, disk: Disk, log: seq<Execution>, evicted: set<CommandId>)

  const FRESH := Agent(None, BLANK, [], {})

  /** What the environment does to one command: where each persist is cut off, which sends fail,
      and what the executor answers. */
  datatype Faults = Faults(
    acceptCut: nat, dequeueCut: nat, finishCut: nat,
    acceptedSent: bool, executingSent: bool, resultSent: bool,
    outcome: Option<CommandStatus>)

  datatype Handled = Handled(agent: Agent, sent: seq<Report>, ok: bool)

  // ---- the ledger calls of process_command ----

  function Commit(a: Agent, l: Ledger, cut: nat): (Agent, bool) {
    var (disk, ok) := StoreSpec.Persist(a.disk, l, cut);
    (a.(memory := Some(l), disk := disk), ok)
  }

  function StoreAccept(a: Agent, capacity: nat, command: AgentCommand, cut: nat): (Agent, bool)
    requires a.memory.Some?
  {
    var before := a.memory.value;
    var (l, result) := LedgerSpec.Accept(before, capacity, command);
    var noted := a.(memory := Some(l), evicted := a.evicted + (before.commands.Keys - l.commands.Keys));
    if result.Err? then (noted, false) else Commit(noted, l, cut)
  }

  function StoreDequeue(a: Agent, cut: nat): (Agent, Option<AgentCommand>, bool)
    requires a.memory.Some?
  {
    var (l, command) := LedgerSpec.Dequeue(a.memory.value);
    var (after, ok) := Commit(a, l, cut);
    (after, command, ok)
  }

  function StoreFinish(a: Agent, id: CommandId, state: PersistedState, cut: nat): (Agent, bool)
    requires a.memory.Some?
  {
    var (l, changed) := LedgerSpec.Finish(a.memory.value, id, state);
    if changed then Commit(a, l, cut) else (a, true)
  }

  function Reply(a: Agent, sent: seq<Report>, report: Report, delivered: bool): Handled {
    if delivered then Handled(a, sent + [report], true) else Handled(a, sent, false)
  }

  /** `process_command`. `ok` is false when it returns an error, which drops the connection. */
  function ProcessCommand(a: Agent, capacity: nat, command: AgentCommand, now: int, f: Faults): Handled
    requires a.memory.Some?
  {
    var id := command.commandId;
    var known := a.memory.value.commands;
    if HasTerminal(known, id) then
      Reply(a, [], Report(id, PersistedStatus(known[id])), f.resultSent)
    else if command.expiresAt.None? then
      Handled(a, [], false)
    else if command.expiresAt.value <= now then
      ProcessExpired(a, capacity, command, f)
    else
      var (accepted, ok) := StoreAccept(a, capacity, command, f.acceptCut);
      if !ok || !f.acceptedSent then Handled(accepted, [], false) else
      ExecuteNext(accepted, [Report(id, CommandStatus.Accepted)], f)
  }

  function ProcessExpired(a: Agent, capacity: nat, command: AgentCommand, f: Faults): Handled
    requires a.memory.Some?
  {
    var id := command.commandId;
    var (accepted, ok) := if id in a.memory.value.commands then (a, true) else StoreAccept(a, capacity, command, f.acceptCut);
    if !ok then Handled(accepted, [], false) else
    var (finished, written) := StoreFinish(accepted, id, PersistedState.Expired, f.finishCut);
    if !written then Handled(finished, [], false) else
    Reply(finished, [], Report(id, CommandStatus.Expired), f.resultSent)
  }

  function ExecuteNext(a: Agent, sent: seq<Report>, f: Faults): Handled
    requires a.memory.Some?
  {
    var (taken, next, ok) := StoreDequeue(a, f.dequeueCut);
    if !ok then Handled(taken, sent, false) else
    if next.None? then Handled(taken, sent, true) else
    if !f.executingSent then Handled(taken, sent, false) else
    var id := next.value.commandId;
    var announced := sent + [Report(id, CommandStatus.Executing)];
    var executed := taken.(log := taken.log + [Execution(next.value, f.outcome)]);
    if f.outcome.None? then Handled(executed.(memory := None), announced, false) else
    var (finished, written) := StoreFinish(executed, id, PersistedOutcome(f.outcome.value), f.finishCut);
    if !written then Handled(finished, announced, false) else
    Reply(finished, announced, Report(id, f.outcome.value), f.resultSent)
  }

  // ---- runs ----

  datatype AgentEvent =
    | Deliver(command: AgentCommand, now: int, faults: Faults)
    | Crash
    | Start(cut: nat)

  function StartAgent(a: Agent, capacity: nat, cut: nat): Agent {
    if a.memory.Some? then a else
    var (disk, result) := StoreSpec.Open(a.disk, capacity, cut);
    a.(disk := disk, memory := if result.Ok? then Some(result.value) else None)
  }

  function StepAgent(a: Agent, capacity: nat, e: AgentEvent): Agent {
    match e
    case Deliver(command, now, f) => if a.memory.None? then a else ProcessCommand(a, capacity, command, now, f).agent
    case Crash => a.(memory := None)
    case Start(cut) => StartAgent(a, capacity, cut)
  }

  function RunAgent(a: Agent, capacity: nat, events: seq<AgentEvent>): Agent
    decreases |events|
  {
    if events == [] then a else RunAgent(StepAgent(a, capacity, events[0]), capacity, events[1..])
  }

  function Runs(log: seq<Execution>, id: CommandId): nat {
    if log == [] then 0 else Runs(log[..|log| - 1], id) + if log[|log| - 1].command.commandId == id then 1 else 0
  }
}

/** No command reaches the executor twice. */
module AtMostOnce {
  import opened Prelude
  import opened LedgerSpec
  import opened StoreSpec
  import opened Wire
  import opened AgentSpec

  ghost predicate WaitsOnce(queue: seq<AgentCommand>, id: CommandId) {
    forall i, j :: 0 <= i < j < |queue| && queue[i].commandId == id ==> queue[j].commandId != id
  }

  /** `id` waits at most once, and only while it is recorded. */
  ghost predicate Once(l: Ledger, id: CommandId) {
    WaitsOnce(l.queue, id)
    && ((exists i :: 0 <= i < |l.queue| && l.queue[i].commandId == id) ==> id in l.commands)
  }

  /** `id` is recorded and not waiting, so it cannot be dequeued again. */
  ghost predicate Settled(l: Ledger, id: CommandId) {
    id in l.commands && forall i :: 0 <= i < |l.queue| ==> l.queue[i].commandId != id
  }

  ghost predicate LedgerFits(l: Ledger, id: CommandId, ran: bool) {
    Once(l, id) && (ran ==> Settled(l, id))
  }

  /** The invariant for one id that has not been evicted: it runs at most `n` times in all, and not again after the n-th. */
  ghost predicate Guarded(a: Agent, id: CommandId, n: nat) {
    && Runs(a.log, id) <= n
    && (a.memory.Some? ==> LedgerFits(a.memory.value, id, Runs(a.log, id) == n))
    && (Durable(a.disk).Some? ==> LedgerFits(Durable(a.disk).value, id, Runs(a.log, id) == n))
    && (Runs(a.log, id) == n ==> Durable(a.disk).Some?)
  }

  ghost predicate Inv(a: Agent, id: CommandId, n: nat) {
    Sound(a.disk) && (id !in a.evicted ==> Guarded(a, id, n))
  }

  lemma AcceptFits(l: Ledger, capacity: nat, command: AgentCommand, id: CommandId, ran: bool)
    requires LedgerFits(l, id, ran)
    requires id in l.commands ==> id in Accept(l, capacity, command).0.commands
    ensures LedgerFits(Accept(l, capacity, command).0, id, ran)
  {
    var after := Accept(l, capacity, command).0;
    assert after.queue == l.queue || (command.commandId !in l.commands && after.queue == l.queue + [command]);
  }

  lemma DequeueFits(l: Ledger, id: CommandId, ran: bool)
    requires LedgerFits(l, id, ran)
    ensures var (after, command) := Dequeue(l);
            LedgerFits(after, id, ran)
            && (command.Some? && command.value.commandId == id ==> !ran && Settled(after, id))
  {
    var (after, command) := Dequeue(l);
    if command.Some? {
      assert forall i :: 0 <= i < |after.queue| ==> after.queue[i] == l.queue[i + 1];
      assert l.queue[0] == command.value;
    }
  }

  lemma FinishFits(l: Ledger, id: CommandId, ran: bool, finished: CommandId, state: PersistedState)
    requires LedgerFits(l, id, ran)
    ensures LedgerFits(Finish(l, finished, state).0, id, ran)
  {
  }

  lemma {:induction false} KeepAcceptedSubset(queue: seq<AgentCommand>, m: map<CommandId, PersistedState>)
    ensures forall c :: c in KeepAccepted(queue, m) ==> c in queue
  {
    if queue != [] {
      KeepAcceptedSubset(queue[1..], m);
      assert queue == [queue[0]] + queue[1..];
    }
  }

  lemma {:induction false} KeepAcceptedOnce(queue: seq<AgentCommand>, m: map<CommandId, PersistedState>, id: CommandId)
    requires WaitsOnce(queue, id)
    ensures WaitsOnce(KeepAccepted(queue, m), id)
  {
    if queue != [] {
      var rest := queue[1..];
      var kept := KeepAccepted(rest, m);
      assert forall i :: 0 <= i < |rest| ==> rest[i] == queue[i + 1];
      KeepAcceptedOnce(rest, m, id);
      KeepAcceptedSubset(rest, m);
      forall i | 0 <= i < |kept| ensures queue[0].commandId == id ==> kept[i].commandId != id {
        assert kept[i] in rest;
      }
      assert WaitsOnce([queue[0]] + kept, id);
      assert [] + kept == kept;
    }
  }

  lemma RecoverFits(l: Ledger, id: CommandId, ran: bool)
    requires LedgerFits(l, id, ran)
    ensures LedgerFits(Recover(l), id, ran)
  {
    var commands := RecoveredStates(l.commands);
    KeepAcceptedOnce(l.queue, commands, id);
    KeepAcceptedSubset(l.queue, commands);
    var kept := KeepAccepted(l.queue, commands);
    assert forall i :: 0 <= i < |kept| ==> kept[i] in l.queue;
  }

  lemma RunsAppend(log: seq<Execution>, e: Execution, id: CommandId)
    ensures Runs(log + [e], id) == Runs(log, id) + if e.command.commandId == id then 1 else 0
  {
    assert (log + [e])[..|log|] == log;
  }

  lemma CommitKeeps(a: Agent, l: Ledger, cut: nat, id: CommandId, n: nat)
    requires Sound(a.disk) && Guarded(a, id, n) && LedgerFits(l, id, Runs(a.log, id) == n)
    ensures Sound(Commit(a, l, cut).0.disk) && Guarded(Commit(a, l, cut).0, id, n)
    ensures Commit(a, l, cut).1 ==> Durable(Commit(a, l, cut).0.disk) == Some(l)
  {
    PersistIsAtomic(a.disk, l, cut);
  }

  lemma CommitSound(a: Agent, l: Ledger, cut: nat)
    requires Sound(a.disk)
    ensures Sound(Commit(a, l, cut).0.disk)
    ensures Commit(a, l, cut).1 ==> Durable(Commit(a, l, cut).0.disk) == Some(l)
  {
    PersistIsAtomic(a.disk, l, cut);
  }

  lemma AcceptKeeps(a: Agent, capacity: nat, command: AgentCommand, cut: nat, id: CommandId, n: nat)
    requires a.memory.Some? && Inv(a, id, n)
    ensures Inv(StoreAccept(a, capacity, command, cut).0, id, n)
    ensures StoreAccept(a, capacity, command, cut).0.memory.Some?
  {
    var l := Accept(a.memory.value, capacity, command).0;
    var noted := a.(memory := Some(l), evicted := a.evicted + (a.memory.value.commands.Keys - l.commands.Keys));
    CommitSound(noted, l, cut);
    if id !in noted.evicted {
      AcceptFits(a.memory.value, capacity, command, id, Runs(a.log, id) == n);
      CommitKeeps(noted, l, cut, id, n);
    }
  }

  lemma FinishKeeps(a: Agent, finished: CommandId, state: PersistedState, cut: nat, id: CommandId, n: nat)
    requires a.memory.Some? && Inv(a, id, n)
    ensures Inv(StoreFinish(a, finished, state, cut).0, id, n)
    ensures StoreFinish(a, finished, state, cut).0.memory.Some?
  {
    var l := Finish(a.memory.value, finished, state).0;
    CommitSound(a, l, cut);
    if id !in a.evicted {
      FinishFits(a.memory.value, id, Runs(a.log, id) == n, finished, state);
      CommitKeeps(a, l, cut, id, n);
    }
  }

  /** Dequeue, then hand the command over: the committed snapshot already forbids a second time. */
  lemma DequeueKeeps(a: Agent, cut: nat, outcome: Option<CommandStatus>, id: CommandId, n: nat)
    requires a.memory.Some? && Inv(a, id, n)
    ensures var (taken, next, ok) := StoreDequeue(a, cut);
            Inv(taken, id, n) && taken.memory.Some?
            && (ok && next.Some? ==> Inv(taken.(log := taken.log + [Execution(next.value, outcome)]), id, n))
  {
    var (l, next) := Dequeue(a.memory.value);
    var (taken, _, ok) := StoreDequeue(a, cut);
    CommitSound(a, l, cut);
    if id !in a.evicted {
      DequeueFits(a.memory.value, id, Runs(a.log, id) == n);
      CommitKeeps(a, l, cut, id, n);
      if ok && next.Some? {
        RunsAppend(taken.log, Execution(next.value, outcome), id);
      }
    }
  }

  lemma ProcessKeeps(a: Agent, capacity: nat, command: AgentCommand, now: int, f: Faults, id: CommandId, n: nat)
    requires a.memory.Some? && Inv(a, id, n)
    ensures Inv(ProcessCommand(a, capacity, command, now, f).agent, id, n)
  {
    var known := a.memory.value.commands;
    if !HasTerminal(known, command.commandId) && command.expiresAt.Some? {
      AcceptKeeps(a, capacity, command, f.acceptCut, id, n);
      var accepted := StoreAccept(a, capacity, command, f.acceptCut).0;
      if command.expiresAt.value <= now {
        var from := if command.commandId in known then a else accepted;
        FinishKeeps(from, command.commandId, PersistedState.Expired, f.finishCut, id, n);
      } else {
        ExecuteKeeps(accepted, [Report(command.commandId, CommandStatus.Accepted)], f, id, n);
      }
    }
  }

  lemma ExecuteKeeps(a: Agent, sent: seq<Report>, f: Faults, id: CommandId, n: nat)
    requires a.memory.Some? && Inv(a, id, n)
    ensures Inv(ExecuteNext(a, sent, f).agent, id, n)
  {
    DequeueKeeps(a, f.dequeueCut, f.outcome, id, n);
    var (taken, next, ok) := StoreDequeue(a, f.dequeueCut);
    if ok && next.Some? && f.outcome.Some? {
      var executed := taken.(log := taken.log + [Execution(next.value, f.outcome)]);
      FinishKeeps(executed, next.value.commandId, PersistedOutcome(f.outcome.value), f.finishCut, id, n);
    }
  }

  lemma StartKeeps(a: Agent, capacity: nat, cut: nat, id: CommandId, n: nat)
    requires Inv(a, id, n)
    ensures Inv(StartAgent(a, capacity, cut), id, n)
  {
    OpenIsAtomic(a.disk, capacity, cut);
    if id !in a.evicted && Durable(a.disk).Some? {
      RecoverFits(Durable(a.disk).value, id, Runs(a.log, id) == n);
    }
  }

  lemma StepKeeps(a: Agent, capacity: nat, e: AgentEvent, id: CommandId, n: nat)
    requires Inv(a, id, n)
    ensures Inv(StepAgent(a, capacity, e), id, n)
  {
    match e
    case Deliver(command, now, f) => if a.memory.Some? { ProcessKeeps(a, capacity, command, now, f, id, n); }
    case Crash =>
    case Start(cut) => StartKeeps(a, capacity, cut, id, n);
  }

  lemma {:induction false} RunKeeps(a: Agent, capacity: nat, events: seq<AgentEvent>, id: CommandId, n: nat)
    requires Inv(a, id, n)
    ensures Inv(RunAgent(a, capacity, events), id, n)
    decreases |events|
  {
    if events != [] {
      StepKeeps(a, capacity, events[0], id, n);
      RunKeeps(StepAgent(a, capacity, events[0]), capacity, events[1..], id, n);
    }
  }

  /** In every run, over any redelivery, failed persist, lost send, crash or restart,
      an id that was never evicted is handed to the executor at most once. */
  lemma ExecutedAtMostOnce(capacity: nat, events: seq<AgentEvent>, id: CommandId)
    ensures var end := RunAgent(FRESH, capacity, events);
            id !in end.evicted ==> Runs(end.log, id) <= 1
  {
    RunKeeps(FRESH, capacity, events, id, 1);
  }

  // ---- when nothing is ever evicted ----

  function Presented(events: seq<AgentEvent>): set<CommandId>
    decreases |events|
  {
    if events == [] then {} else
    (if events[0].Deliver? then {events[0].command.commandId} else {}) + Presented(events[1..])
  }

  ghost predicate LedgerWithin(l: Ledger, ids: set<CommandId>) {
    l.commands.Keys <= ids && forall c :: c in l.queue ==> c.commandId in ids
  }

  ghost predicate Within(a: Agent, ids: set<CommandId>) {
    && a.evicted == {}
    && Sound(a.disk)
    && (a.memory.Some? ==> LedgerWithin(a.memory.value, ids))
    && (Durable(a.disk).Some? ==> LedgerWithin(Durable(a.disk).value, ids))
  }

  lemma CommitWithin(a: Agent, l: Ledger, cut: nat, ids: set<CommandId>)
    requires Within(a, ids) && LedgerWithin(l, ids)
    ensures Within(Commit(a, l, cut).0, ids)
  {
    PersistIsAtomic(a.disk, l, cut);
  }

  lemma AcceptWithin(a: Agent, capacity: nat, command: AgentCommand, cut: nat, ids: set<CommandId>)
    requires a.memory.Some? && Within(a, ids) && command.commandId in ids && |ids| <= capacity
    ensures Within(StoreAccept(a, capacity, command, cut).0, ids)
    ensures StoreAccept(a, capacity, command, cut).0.memory.Some?
  {
    var l := a.memory.value;
    if command.commandId !in l.commands {
      SubsetSize(l.commands.Keys + {command.commandId}, ids);
      assert |l.commands| < capacity;
    }
    var after := Accept(l, capacity, command).0;
    assert l.commands.Keys - after.commands.Keys == {};
    assert forall c :: c in after.queue ==> c in l.queue || c == command;
    CommitWithin(a.(memory := Some(after), evicted := {}), after, cut, ids);
  }

  lemma ExecuteWithin(a: Agent, sent: seq<Report>, f: Faults, ids: set<CommandId>)
    requires a.memory.Some? && Within(a, ids)
    ensures Within(ExecuteNext(a, sent, f).agent, ids)
  {
    var (l, next) := Dequeue(a.memory.value);
    assert forall c :: c in l.queue ==> c in a.memory.value.queue;
    CommitWithin(a, l, f.dequeueCut, ids);
    var (taken, _, ok) := StoreDequeue(a, f.dequeueCut);
    if ok && next.Some? && f.outcome.Some? {
      var id := next.value.commandId;
      var executed := taken.(log := taken.log + [Execution(next.value, f.outcome)]);
      CommitWithin(executed, Finish(l, id, PersistedOutcome(f.outcome.value)).0, f.finishCut, ids);
    }
  }

  lemma FinishWithin(a: Agent, id: CommandId, state: PersistedState, cut: nat, ids: set<CommandId>)
    requires a.memory.Some? && Within(a, ids)
    ensures Within(StoreFinish(a, id, state, cut).0, ids)
  {
    CommitWithin(a, Finish(a.memory.value, id, state).0, cut, ids);
  }

  lemma ExpiredWithin(a: Agent, capacity: nat, command: AgentCommand, f: Faults, ids: set<CommandId>)
    requires a.memory.Some? && Within(a, ids) && |ids| <= capacity && command.commandId in ids
    ensures Within(ProcessExpired(a, capacity, command, f).agent, ids)
  {
    AcceptWithin(a, capacity, command, f.acceptCut, ids);
    var accepted := StoreAccept(a, capacity, command, f.acceptCut).0;
    FinishWithin(accepted, command.commandId, PersistedState.Expired, f.finishCut, ids);
    FinishWithin(a, command.commandId, PersistedState.Expired, f.finishCut, ids);
  }

  lemma ProcessWithin(a: Agent, capacity: nat, command: AgentCommand, now: int, f: Faults, ids: set<CommandId>)
    requires a.memory.Some? && Within(a, ids) && |ids| <= capacity && command.commandId in ids
    ensures Within(ProcessCommand(a, capacity, command, now, f).agent, ids)
  {
    var handled := ProcessCommand(a, capacity, command, now, f);
    if HasTerminal(a.memory.value.commands, command.commandId) || command.expiresAt.None? {
      assert handled.agent == a;
    } else if command.expiresAt.value <= now {
      assert handled == ProcessExpired(a, capacity, command, f);
      ExpiredWithin(a, capacity, command, f, ids);
    } else {
      var (accepted, ok) := StoreAccept(a, capacity, command, f.acceptCut);
      AcceptWithin(a, capacity, command, f.acceptCut, ids);
      if !ok || !f.acceptedSent {
        assert handled.agent == accepted;
      } else {
        var sent := [Report(command.commandId, CommandStatus.Accepted)];
        assert handled == ExecuteNext(accepted, sent, f);
        ExecuteWithin(accepted, sent, f, ids);
      }
    }
  }

  lemma StepWithin(a: Agent, capacity: nat, e: AgentEvent, ids: set<CommandId>)
    requires Within(a, ids) && |ids| <= capacity
    requires e.Deliver? ==> e.command.commandId in ids
    ensures Within(StepAgent(a, capacity, e), ids)
  {
    match e
    case Deliver(command, now, f) => if a.memory.Some? { ProcessWithin(a, capacity, command, now, f, ids); }
    case Crash =>
    case Start(cut) =>
      OpenIsAtomic(a.disk, capacity, cut);
      if Durable(a.disk).Some? {
        var l := Durable(a.disk).value;
        KeepAcceptedSubset(l.queue, RecoveredStates(l.commands));
      }
  }

  lemma {:induction false} RunWithin(a: Agent, capacity: nat, events: seq<AgentEvent>, ids: set<CommandId>)
    requires Within(a, ids) && |ids| <= capacity && Presented(events) <= ids
    ensures RunAgent(a, capacity, events).evicted == {}
    decreases |events|
  {
    if events != [] {
      StepWithin(a, capacity, events[0], ids);
      RunWithin(StepAgent(a, capacity, events[0]), capacity, events[1..], ids);
    }
  }

  /** A run that presents at most `capacity` distinct ids executes each of them at most once. */
  lemma WithinCapacityAtMostOnce(capacity: nat, events: seq<AgentEvent>, id: CommandId)
    requires |Presented(events)| <= capacity
    ensures Runs(RunAgent(FRESH, capacity, events).log, id) <= 1
  {
    RunWithin(FRESH, capacity, events, Presented(events));
    ExecutedAtMostOnce(capacity, events, id);
  }
}
