/** What one delivery makes the agent report, execute and record: for every ledger, every command and every fault. */
module AgentReports {
  import opened Prelude
  import opened LedgerSpec
  import opened StoreSpec
  import opened Wire
  import opened AgentSpec

  /** How many file operations it takes to replace the snapshot. */
  function FileOperations(d: Disk): nat {
    3 + (if d.main.Some? && d.previous.Some? then 1 else 0) + (if d.main.Some? then 1 else 0)
    + (if d.main.Some? || d.previous.Some? then 1 else 0)
  }

  lemma PersistsIff(d: Disk, l: Ledger, cut: nat)
    requires Sound(d)
    ensures Persist(d, l, cut).1 <==> cut > FileOperations(d)
    ensures Persist(d, l, cut).1 ==> Persist(d, l, cut).0 == Disk(Some(Whole(l)), None, None)
    ensures Persist(d, l, cut).1 ==> FileOperations(Persist(d, l, cut).0) == 5
  {
    PersistIsAtomic(d, l, cut);
  }

  // ---- the three ways a delivery can go ----

  predicate Ended(state: PersistedState) {
    state == PersistedState.Succeeded || state == PersistedState.Failed || state == PersistedState.Expired
    || state == PersistedState.OutcomeUnknown
  }

  /** The status that names a recorded end. */
  predicate Names(status: CommandStatus, state: PersistedState) {
    || (status == CommandStatus.Succeeded && state == PersistedState.Succeeded)
    || (status == CommandStatus.Failed && state == PersistedState.Failed)
    || (status == CommandStatus.Expired && state == PersistedState.Expired)
    || (status == CommandStatus.OutcomeUnknown && state == PersistedState.OutcomeUnknown)
  }

  /** What is recorded for the executor's answer: an end as it is, and anything else as failed. */
  predicate Records(state: PersistedState, answer: CommandStatus) {
    Names(answer, state)
    || (state == PersistedState.Failed && answer != CommandStatus.Succeeded && answer != CommandStatus.Expired
        && answer != CommandStatus.OutcomeUnknown)
  }

  /** There is room for the command: it is recorded already, or a slot is free or holds an ended command. */
  ghost predicate HasRoom(l: Ledger, capacity: nat, id: CommandId) {
    id in l.commands || |l.commands| < capacity
    || exists x :: x in l.order && x in l.commands && Ended(l.commands[x]) && |l.commands - {x}| < capacity
  }

  lemma HasRoomIff(l: Ledger, capacity: nat, command: AgentCommand)
    ensures Accept(l, capacity, command).1.Ok? <==> HasRoom(l, capacity, command.commandId)
  {
    var id := command.commandId;
    if id !in l.commands && |l.commands| >= capacity {
      var i := FirstTerminal(l, 0);
      if i < |l.order| {
        assert l.order[i] in l.order;
        forall x | x in l.order && x in l.commands && Ended(l.commands[x]) ensures |l.commands - {x}| == |l.commands - {l.order[i]}| {
          assert (l.commands - {x}).Keys == l.commands.Keys - {x};
          assert (l.commands - {l.order[i]}).Keys == l.commands.Keys - {l.order[i]};
        }
      } else {
        forall x | x in l.order && x in l.commands ensures !Ended(l.commands[x]) {
          var k :| 0 <= k < |l.order| && l.order[k] == x;
          assert !HasTerminal(l.commands, l.order[k]);
        }
      }
    }
  }

  /** What the executor is given next: the first in the queue, or the delivered command if nothing waits and it is new. */
  function Head(l: Ledger, command: AgentCommand): Option<AgentCommand> {
    if l.queue != [] then Some(l.queue[0]) else if command.commandId in l.commands then None else Some(command)
  }

  /** What waits once the command is recorded. */
  function Waiting(l: Ledger, command: AgentCommand): (queue: seq<AgentCommand>)
    ensures queue != [] <==> Head(l, command).Some?
  {
    if command.commandId in l.commands then l.queue else l.queue + [command]
  }

  /** The reports of a delivery that nothing interrupts. */
  function Course(head: Option<AgentCommand>, id: CommandId, answer: Option<CommandStatus>): seq<Report> {
    if head.None? then [Report(id, CommandStatus.Accepted)]
    else if answer.None? then [Report(id, CommandStatus.Accepted), Report(head.value.commandId, CommandStatus.Executing)]
    else [Report(id, CommandStatus.Accepted), Report(head.value.commandId, CommandStatus.Executing), Report(head.value.commandId, answer.value)]
  }

  /** How many of them are sent: up to the first write or send that fails. */
  ghost function Reached(a: Agent, capacity: nat, command: AgentCommand, f: Faults): nat
    requires a.memory.Some?
  {
    var l := a.memory.value;
    if !HasRoom(l, capacity, command.commandId) || f.acceptCut <= FileOperations(a.disk) || !f.acceptedSent then 0
    else if f.dequeueCut <= 5 || Head(l, command).None? || !f.executingSent then 1
    else if f.outcome.None? || f.finishCut <= 5 || !f.resultSent then 2
    else 3
  }

  /** A fresh delivery: what is sent, what is executed, and whether the connection stays. */
  ghost predicate FreshOutcome(a: Agent, capacity: nat, command: AgentCommand, f: Faults, handled: Handled)
    requires a.memory.Some?
  {
    var head := Head(a.memory.value, command);
    var course := Course(head, command.commandId, f.outcome);
    var n := Reached(a, capacity, command, f);
    n <= |course| && handled.sent == course[..n]
    && handled.agent.log == (if n >= 2 then a.log + [Execution(head.value, f.outcome)] else a.log)
    && (handled.ok <==> n == 3 || (n == 1 && f.dequeueCut > 5 && head.None?))
    && (handled.agent.memory.None? <==> n == 2 && f.outcome.None?)
    && (n == 3 ==> RecordsEnd(handled.agent, head.value.commandId, f.outcome.value))
    && (n >= 2 && handled.agent.memory.Some? ==> handled.agent.memory.value.queue == Waiting(a.memory.value, command)[1..])
  }

  /** Memory and disk record the end of the command. */
  ghost predicate RecordsEnd(a: Agent, id: CommandId, answer: CommandStatus) {
    a.memory.Some? && id in a.memory.value.commands && Records(a.memory.value.commands[id], answer)
    && a.disk == Disk(Some(Whole(a.memory.value)), None, None)
  }

  ghost predicate ExpiredOutcome(a: Agent, capacity: nat, command: AgentCommand, f: Faults, handled: Handled)
    requires a.memory.Some?
  {
    var id := command.commandId;
    var known := id in a.memory.value.commands;
    var recorded := known || (HasRoom(a.memory.value, capacity, id) && f.acceptCut > FileOperations(a.disk));
    var finished := recorded && f.finishCut > (if known then FileOperations(a.disk) else 5);
    handled.ok == (finished && f.resultSent) && handled.agent.log == a.log
    && handled.sent == (if handled.ok then [Report(id, CommandStatus.Expired)] else [])
    && (finished ==> RecordsEnd(handled.agent, id, CommandStatus.Expired))
  }

  ghost predicate KnownOutcome(a: Agent, command: AgentCommand, f: Faults, handled: Handled)
    requires a.memory.Some? && command.commandId in a.memory.value.commands
  {
    handled.agent == a && handled.ok == f.resultSent
    && if !f.resultSent then handled.sent == []
       else |handled.sent| == 1 && handled.sent[0].commandId == command.commandId
            && Names(handled.sent[0].status, a.memory.value.commands[command.commandId])
  }

  /** The whole of `process_command` as it shows outside. */
  ghost predicate DeliveryOutcome(a: Agent, capacity: nat, command: AgentCommand, now: int, f: Faults, handled: Handled)
    requires a.memory.Some?
  {
    var id, known := command.commandId, a.memory.value.commands;
    if id in known && Ended(known[id]) then KnownOutcome(a, command, f, handled)
    else if command.expiresAt.None? then handled == Handled(a, [], false)
    else if command.expiresAt.value <= now then ExpiredOutcome(a, capacity, command, f, handled)
    else FreshOutcome(a, capacity, command, f, handled)
  }

  lemma FreshReports(a: Agent, capacity: nat, command: AgentCommand, now: int, f: Faults)
    requires a.memory.Some? && Sound(a.disk) && !HasTerminal(a.memory.value.commands, command.commandId)
    requires command.expiresAt.Some? && command.expiresAt.value > now
    ensures FreshOutcome(a, capacity, command, f, ProcessCommand(a, capacity, command, now, f))
  {
    var handled := ProcessCommand(a, capacity, command, now, f);
    var (accepted, ok) := StoreAccept(a, capacity, command, f.acceptCut);
    var l := Accept(a.memory.value, capacity, command).0;
    var first := Report(command.commandId, CommandStatus.Accepted);
    HasRoomIff(a.memory.value, capacity, command);
    PersistsIff(a.disk, l, f.acceptCut);
    if ok && f.acceptedSent {
      assert handled == ExecuteNext(accepted, [first], f);
      QueueAfter(a.memory.value, capacity, command);
      ExecuteReports(accepted, first, f, l, Head(a.memory.value, command));
    } else {
      assert handled.sent == [] && handled.agent == accepted;
    }
  }

  lemma QueueAfter(l: Ledger, capacity: nat, command: AgentCommand)
    requires Accept(l, capacity, command).1.Ok?
    ensures var queue := Accept(l, capacity, command).0.queue;
            queue == Waiting(l, command)
            && if Head(l, command).None? then queue == [] else queue != [] && queue[0] == Head(l, command).value
  {
  }

  /** From a written accept on. */
  lemma ExecuteReports(a: Agent, first: Report, f: Faults, l: Ledger, head: Option<AgentCommand>)
    requires a.memory == Some(l) && a.disk == Disk(Some(Whole(l)), None, None)
    requires if head.None? then l.queue == [] else l.queue != [] && l.queue[0] == head.value
    ensures
      var handled := ExecuteNext(a, [first], f);
      var course := Course(head, first.commandId, f.outcome)[1..];
      var n := if f.dequeueCut <= 5 || head.None? || !f.executingSent then 0
               else if f.outcome.None? || f.finishCut <= 5 || !f.resultSent then 1 else 2;
      n <= |course| && handled.sent == [first] + course[..n]
      && handled.agent.log == (if n >= 1 then a.log + [Execution(head.value, f.outcome)] else a.log)
      && (handled.ok <==> n == 2 || (n == 0 && f.dequeueCut > 5 && head.None?))
      && (handled.agent.memory.None? <==> n == 1 && f.outcome.None?)
      && (n == 2 ==> RecordsEnd(handled.agent, head.value.commandId, f.outcome.value))
      && (n >= 1 && handled.agent.memory.Some? ==> handled.agent.memory.value.queue == l.queue[1..])
  {
    var (dequeued, next) := Dequeue(l);
    var (taken, _, ok) := StoreDequeue(a, f.dequeueCut);
    PersistsIff(a.disk, dequeued, f.dequeueCut);
    assert next == head;
    if ok && next.Some? && f.executingSent && f.outcome.Some? {
      var id := next.value.commandId;
      var ended := Finish(dequeued, id, PersistedOutcome(f.outcome.value)).0;
      PersistsIff(taken.disk, ended, f.finishCut);
      EndRecorded(taken.(log := taken.log + [Execution(next.value, f.outcome)]), dequeued, id, f.outcome.value, f.finishCut);
    }
  }

  lemma EndRecorded(a: Agent, l: Ledger, id: CommandId, answer: CommandStatus, cut: nat)
    requires a.memory == Some(l) && Sound(a.disk) && id in l.commands
    ensures var (finished, written) := StoreFinish(a, id, PersistedOutcome(answer), cut);
            (written <==> cut > FileOperations(a.disk)) && finished.log == a.log && finished.memory.Some?
            && (written ==> RecordsEnd(finished, id, answer)) && finished.memory.value.queue == l.queue
  {
    PersistsIff(a.disk, Finish(l, id, PersistedOutcome(answer)).0, cut);
  }

  lemma ExpiredReports(a: Agent, capacity: nat, command: AgentCommand, now: int, f: Faults)
    requires a.memory.Some? && Sound(a.disk) && !HasTerminal(a.memory.value.commands, command.commandId)
    requires command.expiresAt.Some? && command.expiresAt.value <= now
    ensures ExpiredOutcome(a, capacity, command, f, ProcessCommand(a, capacity, command, now, f))
  {
    var l, id := a.memory.value, command.commandId;
    var (accepted, ok) := StoreAccept(a, capacity, command, f.acceptCut);
    HasRoomIff(l, capacity, command);
    PersistsIff(a.disk, Accept(l, capacity, command).0, f.acceptCut);
    assert ProcessCommand(a, capacity, command, now, f) == ProcessExpired(a, capacity, command, f);
    if id in l.commands {
      EndRecorded(a, l, id, CommandStatus.Expired, f.finishCut);
    } else if ok {
      EndRecorded(accepted, accepted.memory.value, id, CommandStatus.Expired, f.finishCut);
    }
  }

  /** For every agent, command, clock and fault. */
  lemma DeliveryReports(a: Agent, capacity: nat, command: AgentCommand, now: int, f: Faults)
    requires a.memory.Some? && Sound(a.disk)
    ensures DeliveryOutcome(a, capacity, command, now, f, ProcessCommand(a, capacity, command, now, f))
  {
    if HasTerminal(a.memory.value.commands, command.commandId) || command.expiresAt.None? {
    } else if command.expiresAt.value <= now {
      ExpiredReports(a, capacity, command, now, f);
    } else {
      FreshReports(a, capacity, command, now, f);
    }
  }

  /** What was handed to the executor in between. */
  predicate Executes(a: Agent, after: Agent, id: CommandId) {
    |after.log| == |a.log| + 1 && after.log[|a.log|].command.commandId == id
  }

  lemma FreshAnnounces(a: Agent, capacity: nat, command: AgentCommand, f: Faults, handled: Handled, id: CommandId)
    requires a.memory.Some? && FreshOutcome(a, capacity, command, f, handled)
    ensures handled.agent.log == a.log || (|handled.agent.log| == |a.log| + 1 && a.log <= handled.agent.log)
    ensures Executes(a, handled.agent, id) <==> Report(id, CommandStatus.Executing) in handled.sent
  {
    var n := Reached(a, capacity, command, f);
    assert n >= 2 ==> handled.sent[1].status == CommandStatus.Executing;
    assert n == 3 ==> handled.sent[2].commandId == handled.sent[1].commandId;
    assert n >= 1 ==> handled.sent[0].status == CommandStatus.Accepted;
  }

  lemma OthersExecuteNothing(a: Agent, capacity: nat, command: AgentCommand, now: int, f: Faults, handled: Handled, id: CommandId)
    requires a.memory.Some? && DeliveryOutcome(a, capacity, command, now, f, handled)
    requires HasTerminal(a.memory.value.commands, command.commandId) || command.expiresAt.None? || command.expiresAt.value <= now
    ensures handled.agent.log == a.log && Report(id, CommandStatus.Executing) !in handled.sent
  {
  }

  /** A delivery executes at most one command, and the one it executes is the one it announced before. */
  lemma ExecutedIffAnnounced(a: Agent, capacity: nat, command: AgentCommand, now: int, f: Faults, id: CommandId)
    requires a.memory.Some? && Sound(a.disk)
    ensures
      var handled := ProcessCommand(a, capacity, command, now, f);
      (handled.agent.log == a.log || (|handled.agent.log| == |a.log| + 1 && a.log <= handled.agent.log))
      && (Executes(a, handled.agent, id) <==> Report(id, CommandStatus.Executing) in handled.sent)
  {
    DeliveryReports(a, capacity, command, now, f);
    var handled := ProcessCommand(a, capacity, command, now, f);
    if HasTerminal(a.memory.value.commands, command.commandId) || command.expiresAt.None? || command.expiresAt.value <= now {
      OthersExecuteNothing(a, capacity, command, now, f, handled, id);
    } else {
      FreshAnnounces(a, capacity, command, f, handled, id);
    }
  }
}
