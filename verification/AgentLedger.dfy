/** The ledger over whole runs of the agent: which runs keep it mendable, and what happens in the others. */
module LedgerOverRuns {
  import opened Prelude
  import opened LedgerSpec
  import opened StoreSpec
  import opened Wire
  import opened AgentSpec
  import Once = AtMostOnce
  import Recovery = AgentRecovery

  // ---- runs that keep the ledger ----

  /** The waiting ids that accepting the command would evict. */
  function Lost(l: Ledger, capacity: nat, command: AgentCommand): set<CommandId> {
    set id | id in Ids(l.queue) && id in l.commands && id !in Accept(l, capacity, command).0.commands
  }

  /** The delivery records a forgotten id that still waits, or takes such an id from the queue. */
  predicate TakesForgotten(l: Ledger, capacity: nat, command: AgentCommand) {
    AcceptsWaiting(l, capacity, command)
    || var accepted := Accept(l, capacity, command).0;
       accepted.queue != [] && accepted.queue[0].commandId !in accepted.commands
  }

  /** With `strict`, the event evicts no waiting id; without, it takes no forgotten one. */
  predicate Careful(a: Agent, capacity: nat, e: AgentEvent, strict: bool) {
    e.Deliver? && a.memory.Some? && e.command.expiresAt.Some? ==>
      if strict then Lost(a.memory.value, capacity, e.command) == {} else !TakesForgotten(a.memory.value, capacity, e.command)
  }

  predicate CarefulRun(a: Agent, capacity: nat, events: seq<AgentEvent>, strict: bool)
    decreases |events|
  {
    events == [] || (Careful(a, capacity, events[0], strict) && CarefulRun(StepAgent(a, capacity, events[0]), capacity, events[1..], strict))
  }

  ghost predicate Good(l: Ledger, capacity: nat, strict: bool) {
    if strict then Recoverable(l, capacity) else Mendable(l, capacity)
  }

  ghost predicate DiskGood(a: Agent, capacity: nat, strict: bool) {
    Sound(a.disk) && (Durable(a.disk).Some? ==> Good(Durable(a.disk).value, capacity, strict))
  }

  ghost predicate BothGood(a: Agent, capacity: nat, strict: bool) {
    DiskGood(a, capacity, strict) && (a.memory.Some? ==> Good(a.memory.value, capacity, strict))
  }

  lemma CommitGood(a: Agent, l: Ledger, cut: nat, capacity: nat, strict: bool)
    requires DiskGood(a, capacity, strict) && Good(l, capacity, strict)
    ensures BothGood(Commit(a, l, cut).0, capacity, strict)
  {
    PersistIsAtomic(a.disk, l, cut);
  }

  lemma AcceptGood(a: Agent, capacity: nat, command: AgentCommand, cut: nat, strict: bool)
    requires a.memory.Some? && BothGood(a, capacity, strict) && command.expiresAt.Some?
    requires if strict then Lost(a.memory.value, capacity, command) == {} else !TakesForgotten(a.memory.value, capacity, command)
    ensures BothGood(StoreAccept(a, capacity, command, cut).0, capacity, strict)
    ensures StoreAccept(a, capacity, command, cut).0.memory == Some(Accept(a.memory.value, capacity, command).0)
  {
    var l := a.memory.value;
    var after := Accept(l, capacity, command).0;
    if strict {
      forall id | id in Ids(l.queue) ensures id in after.commands {
        assert id in Elements(Ids(l.queue));
        assert id !in Lost(l, capacity, command);
      }
      AcceptKeepsRecoverableIff(l, capacity, command);
    } else {
      AcceptKeepsMendableIff(l, capacity, command);
    }
    var noted := a.(memory := Some(after), evicted := a.evicted + (l.commands.Keys - after.commands.Keys));
    CommitGood(noted, after, cut, capacity, strict);
  }

  lemma FinishGood(a: Agent, id: CommandId, state: PersistedState, cut: nat, capacity: nat, strict: bool)
    requires a.memory.Some? && BothGood(a, capacity, strict)
    ensures BothGood(StoreFinish(a, id, state, cut).0, capacity, strict)
  {
    FinishKeepsMendable(a.memory.value, capacity, id, state);
    CommitGood(a, Finish(a.memory.value, id, state).0, cut, capacity, strict);
  }

  lemma DequeueGood(l: Ledger, capacity: nat, strict: bool)
    requires Good(l, capacity, strict) && (strict || l.queue == [] || l.queue[0].commandId in l.commands)
    ensures Good(Dequeue(l).0, capacity, strict)
  {
    if strict {
      DequeueKeepsRecoverable(l, capacity);
    } else {
      DequeueKeepsMendableIff(l, capacity);
    }
  }

  lemma ExecuteGood(a: Agent, sent: seq<Report>, f: Faults, capacity: nat, strict: bool)
    requires a.memory.Some? && BothGood(a, capacity, strict)
    requires strict || a.memory.value.queue == [] || a.memory.value.queue[0].commandId in a.memory.value.commands
    ensures BothGood(ExecuteNext(a, sent, f).agent, capacity, strict)
  {
    var (l, next) := Dequeue(a.memory.value);
    DequeueGood(a.memory.value, capacity, strict);
    CommitGood(a, l, f.dequeueCut, capacity, strict);
    var (taken, _, ok) := StoreDequeue(a, f.dequeueCut);
    if ok && next.Some? && f.executingSent {
      var executed := taken.(log := taken.log + [Execution(next.value, f.outcome)]);
      if f.outcome.Some? {
        FinishGood(executed, next.value.commandId, PersistedOutcome(f.outcome.value), f.finishCut, capacity, strict);
      }
    }
  }

  lemma ExpiredGood(a: Agent, capacity: nat, command: AgentCommand, f: Faults, strict: bool)
    requires a.memory.Some? && BothGood(a, capacity, strict) && command.expiresAt.Some?
    requires if strict then Lost(a.memory.value, capacity, command) == {} else !TakesForgotten(a.memory.value, capacity, command)
    ensures BothGood(ProcessExpired(a, capacity, command, f).agent, capacity, strict)
  {
    var id := command.commandId;
    var end := ProcessExpired(a, capacity, command, f).agent;
    if id in a.memory.value.commands {
      FinishGood(a, id, PersistedState.Expired, f.finishCut, capacity, strict);
      assert end == StoreFinish(a, id, PersistedState.Expired, f.finishCut).0;
    } else {
      AcceptGood(a, capacity, command, f.acceptCut, strict);
      var (accepted, ok) := StoreAccept(a, capacity, command, f.acceptCut);
      FinishGood(accepted, id, PersistedState.Expired, f.finishCut, capacity, strict);
      assert end == if ok then StoreFinish(accepted, id, PersistedState.Expired, f.finishCut).0 else accepted;
    }
  }

  lemma ProcessGood(a: Agent, capacity: nat, command: AgentCommand, now: int, f: Faults, strict: bool)
    requires a.memory.Some? && BothGood(a, capacity, strict) && Careful(a, capacity, Deliver(command, now, f), strict)
    ensures BothGood(ProcessCommand(a, capacity, command, now, f).agent, capacity, strict)
  {
    var handled := ProcessCommand(a, capacity, command, now, f);
    var id := command.commandId;
    if HasTerminal(a.memory.value.commands, id) || command.expiresAt.None? {
      assert handled.agent == a;
    } else if command.expiresAt.value <= now {
      assert handled == ProcessExpired(a, capacity, command, f);
      ExpiredGood(a, capacity, command, f, strict);
    } else {
      AcceptGood(a, capacity, command, f.acceptCut, strict);
      var (accepted, ok) := StoreAccept(a, capacity, command, f.acceptCut);
      if !ok || !f.acceptedSent {
        assert handled.agent == accepted;
      } else {
        assert handled == ExecuteNext(accepted, [Report(id, CommandStatus.Accepted)], f);
        ExecuteGood(accepted, [Report(id, CommandStatus.Accepted)], f, capacity, strict);
      }
    }
  }

  lemma StartGood(a: Agent, capacity: nat, cut: nat, strict: bool)
    requires BothGood(a, capacity, strict)
    ensures BothGood(StartAgent(a, capacity, cut), capacity, strict)
  {
    OpenIsAtomic(a.disk, capacity, cut);
    assert Exact(EMPTY, capacity) by { assert Ids(EMPTY.queue) == []; }
    ExactIsRecoverable(EMPTY, capacity);
    if Durable(a.disk).Some? {
      var l := Durable(a.disk).value;
      RecoverRepairsIff(l, capacity);
      ExactIsRecoverable(Recover(l), capacity);
    }
  }

  lemma {:induction false} RunGood(a: Agent, capacity: nat, events: seq<AgentEvent>, strict: bool)
    requires BothGood(a, capacity, strict) && CarefulRun(a, capacity, events, strict)
    ensures BothGood(RunAgent(a, capacity, events), capacity, strict)
    decreases |events|
  {
    if events != [] {
      var e := events[0];
      match e {
        case Deliver(command, now, f) => if a.memory.Some? { ProcessGood(a, capacity, command, now, f, strict); }
        case Crash =>
        case Start(cut) => StartGood(a, capacity, cut, strict);
      }
      RunGood(StepAgent(a, capacity, e), capacity, events[1..], strict);
    }
  }

  /** A start fails only if its own persist is cut short. */
  lemma GoodStarts(d: Disk, capacity: nat, cut: nat)
    requires Sound(d) && (Durable(d).Some? ==> Mendable(Durable(d).value, capacity)) && cut > 6
    ensures StoreSpec.Open(d, capacity, cut).1.Ok?
  {
    OpenIsAtomic(d, capacity, cut);
    if Durable(d).Some? {
      ConsistentSize(Durable(d).value, capacity);
    }
  }

  /** Over every run that takes no forgotten id, the ledger stays mendable in memory and on disk, and every start that can write succeeds. */
  lemma MendableOverRuns(capacity: nat, events: seq<AgentEvent>, cut: nat)
    requires CarefulRun(FRESH, capacity, events, false) && cut > 6
    ensures var end := RunAgent(FRESH, capacity, events);
            (end.memory.Some? ==> Mendable(end.memory.value, capacity))
            && (Durable(end.disk).Some? ==> Mendable(Durable(end.disk).value, capacity))
            && StoreSpec.Open(end.disk, capacity, cut).1.Ok?
  {
    RunGood(FRESH, capacity, events, false);
    GoodStarts(RunAgent(FRESH, capacity, events).disk, capacity, cut);
  }

  /** Over every run that evicts no waiting id, in addition, every waiting id stays recorded. */
  lemma RecoverableOverRuns(capacity: nat, events: seq<AgentEvent>, cut: nat)
    requires CarefulRun(FRESH, capacity, events, true) && cut > 6
    ensures var end := RunAgent(FRESH, capacity, events);
            (end.memory.Some? ==> Recoverable(end.memory.value, capacity))
            && (Durable(end.disk).Some? ==> Recoverable(Durable(end.disk).value, capacity))
            && StoreSpec.Open(end.disk, capacity, cut).1.Ok?
  {
    RunGood(FRESH, capacity, events, true);
    GoodStarts(RunAgent(FRESH, capacity, events).disk, capacity, cut);
  }

  lemma {:induction false} WithinIsCareful(a: Agent, capacity: nat, events: seq<AgentEvent>, ids: set<CommandId>)
    requires Once.Within(a, ids) && |ids| <= capacity && Once.Presented(events) <= ids
    ensures CarefulRun(a, capacity, events, true)
    decreases |events|
  {
    if events != [] {
      var e := events[0];
      if e.Deliver? && a.memory.Some? {
        Once.AcceptWithin(a, capacity, e.command, 0, ids);
        assert a.memory.value.commands.Keys - Accept(a.memory.value, capacity, e.command).0.commands.Keys <= StoreAccept(a, capacity, e.command, 0).0.evicted;
      }
      Once.StepWithin(a, capacity, e, ids);
      WithinIsCareful(StepAgent(a, capacity, e), capacity, events[1..], ids);
    }
  }

  /** In particular over every run that presents at most `capacity` distinct ids. */
  lemma WithinCapacityRecoverable(capacity: nat, events: seq<AgentEvent>, cut: nat)
    requires |Once.Presented(events)| <= capacity && cut > 6
    ensures var end := RunAgent(FRESH, capacity, events);
            (end.memory.Some? ==> Recoverable(end.memory.value, capacity))
            && (Durable(end.disk).Some? ==> Recoverable(Durable(end.disk).value, capacity))
            && StoreSpec.Open(end.disk, capacity, cut).1.Ok?
  {
    WithinIsCareful(FRESH, capacity, events, Once.Presented(events));
    RecoverableOverRuns(capacity, events, cut);
  }

  /** The write-ahead guarantee in every state such a run reaches. */
  lemma CrashAfterDequeueOverRuns(
      capacity: nat, events: seq<AgentEvent>, dequeueCut: nat, state: PersistedState, finishCut: nat, openCut: nat)
    requires CarefulRun(FRESH, capacity, events, true) && RunAgent(FRESH, capacity, events).memory.Some? && IsTerminal(state)
    requires var (_, next, ok) := StoreDequeue(RunAgent(FRESH, capacity, events), dequeueCut); ok && next.Some?
    ensures Recovery.CrashRecovers(RunAgent(FRESH, capacity, events), capacity, dequeueCut, state, finishCut, openCut)
  {
    var a := RunAgent(FRESH, capacity, events);
    RunGood(FRESH, capacity, events, true);
    assert Ids(a.memory.value.queue)[0] in Elements(Ids(a.memory.value.queue));
    Recovery.CrashAfterDequeue(a, capacity, dequeueCut, state, finishCut, openCut);
  }

  // ---- a run that loses the ledger ----

  const OK := Faults(7, 7, 7, true, true, true, Some(CommandStatus.Succeeded))

  const X := AgentCommand("x", "media.play_pause", Some(1))
  const Y := AgentCommand("y", "media.play_pause", Some(3))

  lemma FirstStart(capacity: nat)
    ensures StepAgent(FRESH, capacity, Start(7)) == Agent(Some(EMPTY), Disk(Some(Whole(EMPTY)), None, None), [], {})
  {
    PersistIsAtomic(BLANK, EMPTY, 7);
  }

  /** A fault-free delivery of a fresh command, against any ledger that accepts it. */
  lemma SmoothDelivery(a: Agent, capacity: nat, command: AgentCommand, now: int)
    requires a.memory.Some? && Sound(a.disk) && !HasTerminal(a.memory.value.commands, command.commandId)
    requires command.expiresAt.Some? && now < command.expiresAt.value && Accept(a.memory.value, capacity, command).1.Ok?
    requires Accept(a.memory.value, capacity, command).0.queue != []
    ensures var accepted := Accept(a.memory.value, capacity, command).0;
            var id := accepted.queue[0].commandId;
            var l := Finish(Dequeue(accepted).0, id, PersistedState.Succeeded).0;
            StepAgent(a, capacity, Deliver(command, now, OK))
              == Agent(Some(l), Disk(Some(Whole(l)), None, None), a.log + [Execution(accepted.queue[0], Some(CommandStatus.Succeeded))],
                       a.evicted + (a.memory.value.commands.Keys - accepted.commands.Keys))
  {
    var accepted := Accept(a.memory.value, capacity, command).0;
    var dequeued := Dequeue(accepted).0;
    var id := accepted.queue[0].commandId;
    var l := Finish(dequeued, id, PersistedState.Succeeded).0;
    PersistIsAtomic(a.disk, accepted, 7);
    PersistIsAtomic(Disk(Some(Whole(accepted)), None, None), dequeued, 7);
    PersistIsAtomic(Disk(Some(Whole(dequeued)), None, None), l, 7);
  }

  /** A fault-free delivery of an expired command that is new to the ledger. */
  lemma SmoothExpiry(a: Agent, capacity: nat, command: AgentCommand, now: int)
    requires a.memory.Some? && Sound(a.disk) && command.commandId !in a.memory.value.commands
    requires command.expiresAt.Some? && command.expiresAt.value <= now && Accept(a.memory.value, capacity, command).1.Ok?
    ensures var accepted := Accept(a.memory.value, capacity, command).0;
            var l := Finish(accepted, command.commandId, PersistedState.Expired).0;
            StepAgent(a, capacity, Deliver(command, now, OK))
              == Agent(Some(l), Disk(Some(Whole(l)), None, None), a.log, a.evicted + (a.memory.value.commands.Keys - accepted.commands.Keys))
  {
    var accepted := Accept(a.memory.value, capacity, command).0;
    var l := Finish(accepted, command.commandId, PersistedState.Expired).0;
    PersistIsAtomic(a.disk, accepted, 7);
    PersistIsAtomic(Disk(Some(Whole(accepted)), None, None), l, 7);
  }

  /** With one slot: an expired command waits, is evicted by the next one, and is taken from the queue into `commands` but not
      into `order`. From then on every start is refused for size. */
  lemma ForgottenIdBricksLedger(cut: nat)
    ensures var events := [Start(7), Deliver(X, 1, OK), Deliver(Y, 2, OK)];
            var end := RunAgent(FRESH, 1, events);
            end.memory == Some(BROKEN) && StoreSpec.Open(end.disk, 1, cut) == (end.disk, Err("command_log_capacity_exceeded"))
  {
    var one := Agent(Some(EMPTY), Disk(Some(Whole(EMPTY)), None, None), [], {});
    FirstStart(1);
    AcceptFirst(X);
    SmoothExpiry(one, 1, X, 1);
    var two := StepAgent(one, 1, Deliver(X, 1, OK));
    ExpiredWaits();
    AcceptEvictsX();
    TakenFromQueue();
    SmoothDelivery(two, 1, Y, 2);
    RunThree(FRESH, 1, Start(7), Deliver(X, 1, OK), Deliver(Y, 2, OK));
    assert BROKEN.commands.Keys == {"x", "y"};
  }

  const WAITING := Ledger(map["x" := PersistedState.Expired], ["x"], [X])
  const BROKEN := Ledger(map["x" := PersistedState.Succeeded, "y" := PersistedState.Accepted], ["y"], [Y])

  lemma ExpiredWaits()
    ensures Finish(Ledger(map["x" := PersistedState.Accepted], ["x"], [X]), "x", PersistedState.Expired).0 == WAITING
  {
    assert map["x" := PersistedState.Accepted]["x" := PersistedState.Expired] == map["x" := PersistedState.Expired];
  }

  lemma TakenFromQueue()
    ensures Finish(Dequeue(Ledger(map["y" := PersistedState.Accepted], ["y"], [X, Y])).0, "x", PersistedState.Succeeded).0 == BROKEN
  {
    assert [X, Y][1..] == [Y];
    assert map["y" := PersistedState.Accepted]["x" := PersistedState.Executing]["x" := PersistedState.Succeeded] == BROKEN.commands;
  }

  lemma AcceptFirst(command: AgentCommand)
    ensures Accept(EMPTY, 1, command)
         == (Ledger(map[command.commandId := PersistedState.Accepted], [command.commandId], [command]), Ok(PersistedState.Accepted))
  {
    assert |EMPTY.commands| == 0 && WithoutOldestTerminal(EMPTY, 1) == EMPTY;
    assert [] + [command.commandId] == [command.commandId] && [] + [command] == [command];
  }

  lemma AcceptEvictsX()
    ensures Accept(WAITING, 1, Y)
         == (Ledger(map["y" := PersistedState.Accepted], ["y"], [X, Y]), Ok(PersistedState.Accepted))
  {
    assert FirstTerminal(WAITING, 0) == 0;
    assert ForgetAt(WAITING, 0) == Ledger(map[], [], [X]);
    assert [] + ["y"] == ["y"] && [X] + [Y] == [X, Y];
  }

  lemma RunThree(a: Agent, capacity: nat, x: AgentEvent, y: AgentEvent, z: AgentEvent)
    ensures RunAgent(a, capacity, [x, y, z]) == StepAgent(StepAgent(StepAgent(a, capacity, x), capacity, y), capacity, z)
  {
    var one := StepAgent(a, capacity, x);
    var two := StepAgent(one, capacity, y);
    assert [x, y, z][1..] == [y, z] && [y, z][1..] == [z] && [z][1..] == [];
    assert RunAgent(two, capacity, [z]) == RunAgent(StepAgent(two, capacity, z), capacity, []);
    assert RunAgent(one, capacity, [y, z]) == RunAgent(two, capacity, [z]);
  }

  /** No later start helps: an agent that is down on a snapshot above the capacity stays as it is whatever happens. */
  lemma {:induction false} BrickedForever(a: Agent, capacity: nat, events: seq<AgentEvent>)
    requires a.memory.None? && Sound(a.disk) && Durable(a.disk).Some? && |Durable(a.disk).value.commands| > capacity
    ensures RunAgent(a, capacity, events) == a
    decreases |events|
  {
    if events != [] {
      assert StepAgent(a, capacity, events[0]) == a;
      BrickedForever(a, capacity, events[1..]);
    }
  }

  // ---- which commands run again ----

  lemma StepLogGrows(a: Agent, capacity: nat, e: AgentEvent)
    ensures a.log <= StepAgent(a, capacity, e).log
  {
  }

  lemma {:induction false} LogGrows(a: Agent, capacity: nat, events: seq<AgentEvent>)
    ensures a.log <= RunAgent(a, capacity, events).log
    decreases |events|
  {
    if events != [] {
      StepLogGrows(a, capacity, events[0]);
      LogGrows(StepAgent(a, capacity, events[0]), capacity, events[1..]);
    }
  }

  lemma {:induction false} RunsGrow(log: seq<Execution>, later: seq<Execution>, id: CommandId)
    requires log <= later
    ensures Runs(log, id) <= Runs(later, id)
  {
    if |log| < |later| {
      RunsGrow(log, later[..|later| - 1], id);
    } else {
      assert log == later;
    }
  }

  /** In memory, if the process is up, and on disk, the id is recorded and does not wait. */
  ghost predicate Rests(a: Agent, id: CommandId) {
    Sound(a.disk) && Durable(a.disk).Some? && Once.Settled(Durable(a.disk).value, id)
    && (a.memory.Some? ==> Once.Settled(a.memory.value, id))
  }

  /** An id that rests, whatever its state, is not executed in any later run that does not evict it: so an expired command that
      does not wait never runs. Evictions count from here. */
  lemma RestingNeverRuns(a: Agent, capacity: nat, events: seq<AgentEvent>, id: CommandId)
    requires Rests(a, id)
    ensures var end := RunAgent(a.(evicted := {}), capacity, events);
            id !in end.evicted ==> Runs(end.log, id) == Runs(a.log, id)
  {
    var from := a.(evicted := {});
    Once.RunKeeps(from, capacity, events, id, Runs(a.log, id));
    LogGrows(from, capacity, events);
    RunsGrow(a.log, RunAgent(from, capacity, events).log, id);
  }

  /** The delivery gets as far as the executor: everything before it is written and sent. */
  predicate ReachesExecutor(a: Agent, capacity: nat, e: AgentEvent) {
    e.Deliver? && a.memory.Some? && !HasTerminal(a.memory.value.commands, e.command.commandId)
    && e.command.expiresAt.Some? && e.now < e.command.expiresAt.value
    && var (accepted, ok) := StoreAccept(a, capacity, e.command, e.faults.acceptCut);
       ok && e.faults.acceptedSent && accepted.memory.value.queue != []
       && StoreDequeue(accepted, e.faults.dequeueCut).2 && e.faults.executingSent
  }

  /** Each delivery does so in the state its predecessors lead to. */
  ghost predicate AllReach(a: Agent, capacity: nat, events: seq<AgentEvent>) {
    forall i :: 0 <= i < |events| ==> ReachesExecutor(RunAgent(a, capacity, events[..i]), capacity, events[i])
  }

  lemma {:induction false} RunOneMore(a: Agent, capacity: nat, events: seq<AgentEvent>, e: AgentEvent)
    ensures RunAgent(a, capacity, events + [e]) == StepAgent(RunAgent(a, capacity, events), capacity, e)
    decreases |events|
  {
    if events == [] {
      assert [] + [e] == [e] && [e][1..] == [];
      assert RunAgent(StepAgent(a, capacity, e), capacity, []) == StepAgent(a, capacity, e);
    } else {
      assert (events + [e])[1..] == events[1..] + [e];
      RunOneMore(StepAgent(a, capacity, events[0]), capacity, events[1..], e);
    }
  }

  /** One such delivery executes the head of the queue, with the delivered command behind it if it was new. */
  lemma ReachExecutesHead(a: Agent, capacity: nat, e: AgentEvent)
    requires ReachesExecutor(a, capacity, e)
    ensures var after := StepAgent(a, capacity, e);
            var queue := Accept(a.memory.value, capacity, e.command).0.queue;
            queue != [] && after.log == a.log + [Execution(queue[0], e.faults.outcome)]
            && (after.memory.Some? ==> after.memory.value.queue == queue[1..])
            && (queue == a.memory.value.queue || queue == a.memory.value.queue + [e.command])
  {
    var (accepted, ok) := StoreAccept(a, capacity, e.command, e.faults.acceptCut);
    var handled := ProcessCommand(a, capacity, e.command, e.now, e.faults);
    assert handled == ExecuteNext(accepted, [Report(e.command.commandId, CommandStatus.Accepted)], e.faults);
  }

  /** After k such deliveries k commands have run, and what waited behind them waits in front. */
  ghost predicate Advanced(a: Agent, after: Agent, k: nat) {
    a.memory.Some? && k <= |a.memory.value.queue| && |after.log| == |a.log| + k
    && (after.memory.Some? ==> a.memory.value.queue[k..] <= after.memory.value.queue)
  }

  /** One delivery that reaches the executor, and the states around it. */
  predicate Passed(before: Agent, capacity: nat, e: AgentEvent, after: Agent) {
    ReachesExecutor(before, capacity, e) && after == StepAgent(before, capacity, e)
  }

  /** The states of such a run, from the first. */
  ghost predicate Passes(states: seq<Agent>, capacity: nat, events: seq<AgentEvent>) {
    |states| == |events| + 1 && forall i: nat :: i < |events| ==> Passed(states[i], capacity, events[i], states[i + 1])
  }

  lemma StatesOf(a: Agent, capacity: nat, events: seq<AgentEvent>) returns (states: seq<Agent>)
    requires AllReach(a, capacity, events)
    ensures Passes(states, capacity, events)
    ensures forall i :: 0 <= i <= |events| ==> states[i] == RunAgent(a, capacity, events[..i])
  {
    states := seq(|events| + 1, i requires 0 <= i <= |events| => RunAgent(a, capacity, events[..i]));
    forall i: nat | i < |events| ensures Passed(states[i], capacity, events[i], states[i + 1]) {
      assert events[..i + 1] == events[..i] + [events[i]];
      RunOneMore(a, capacity, events[..i], events[i]);
    }
  }

  lemma {:induction false} ReachAdvances(states: seq<Agent>, capacity: nat, events: seq<AgentEvent>, k: nat)
    requires Passes(states, capacity, events) && k <= |events|
    requires states[0].memory.Some? && k <= |states[0].memory.value.queue|
    ensures Advanced(states[0], states[k], k)
  {
    if k > 0 {
      ReachAdvances(states, capacity, events, k - 1);
      assert Passed(states[k - 1], capacity, events[k - 1], states[(k - 1) + 1]);
      AdvanceOne(states[0], states[k - 1], capacity, events[k - 1], k - 1);
    }
  }

  lemma AdvanceOne(a: Agent, before: Agent, capacity: nat, e: AgentEvent, k: nat)
    requires Advanced(a, before, k) && k < |a.memory.value.queue| && ReachesExecutor(before, capacity, e)
    ensures Advanced(a, StepAgent(before, capacity, e), k + 1)
  {
    ReachExecutesHead(before, capacity, e);
    TailPrefix(a.memory.value.queue, k, Accept(before.memory.value, capacity, e.command).0.queue);
  }

  lemma TailPrefix(queue: seq<AgentCommand>, k: nat, later: seq<AgentCommand>)
    requires k < |queue| && queue[k..] <= later
    ensures queue[k + 1..] <= later[1..]
  {
    assert queue[k..][1..] == queue[k + 1..];
  }

  /** A waiting command is executed, whatever its state, by the committed dequeue that reaches it: the k-th for the k-th in the queue. */
  lemma WaitingRuns(a: Agent, capacity: nat, events: seq<AgentEvent>, k: nat)
    requires a.memory.Some? && k < |a.memory.value.queue| && k < |events| && AllReach(a, capacity, events)
    ensures var after := RunAgent(a, capacity, events[..k + 1]);
            |after.log| == |a.log| + k + 1 && after.log[|a.log| + k].command == a.memory.value.queue[k]
  {
    var states := StatesOf(a, capacity, events);
    assert events[..0] == [] && RunAgent(a, capacity, []) == a;
    ReachAdvances(states, capacity, events, k);
    assert Passed(states[k], capacity, events[k], states[k + 1]);
    ReachExecutesHead(states[k], capacity, events[k]);
    assert a.memory.value.queue[k..][0] == a.memory.value.queue[k];
  }

  /** After the expired path: if the command was new or waiting, some number of committed dequeues executes it; if not, nothing does. */
  lemma ExpiredRunsIffWaiting(a: Agent, capacity: nat, command: AgentCommand, now: int, f: Faults, events: seq<AgentEvent>)
    requires a.memory.Some? && Sound(a.disk) && Recovery.Smooth(f) && Accept(a.memory.value, capacity, command).1.Ok?
    requires !HasTerminal(a.memory.value.commands, command.commandId)
    requires command.expiresAt.Some? && command.expiresAt.value <= now
    ensures var l := a.memory.value; var id := command.commandId;
            var after := ProcessCommand(a, capacity, command, now, f).agent;
            after.memory.Some? && id in after.memory.value.commands && after.memory.value.commands[id].Expired?
            && if id !in l.commands || id in Ids(l.queue)
               then exists k :: 0 <= k < |after.memory.value.queue| && after.memory.value.queue[k].commandId == id
                                && RunsAtTurn(after, capacity, events, k, id)
               else var end := RunAgent(after.(evicted := {}), capacity, events);
                    id !in end.evicted ==> Runs(end.log, id) == Runs(after.log, id)
  {
    var l := a.memory.value;
    var id := command.commandId;
    var after := ProcessCommand(a, capacity, command, now, f).agent;
    Recovery.ExpiredStillQueuedIff(a, capacity, command, now, f);
    if id !in l.commands || id in Ids(l.queue) {
      assert id in Ids(after.memory.value.queue);
      var k :| 0 <= k < |after.memory.value.queue| && Ids(after.memory.value.queue)[k] == id;
      if AllReach(after, capacity, events) && k < |events| {
        WaitingRuns(after, capacity, events, k);
      }
      assert RunsAtTurn(after, capacity, events, k, id);
    } else {
      ExpiredRests(a, capacity, command, now, f);
      RestingNeverRuns(after, capacity, events, id);
    }
  }

  ghost predicate RunsAtTurn(a: Agent, capacity: nat, events: seq<AgentEvent>, k: nat, id: CommandId) {
    AllReach(a, capacity, events) && k < |events| ==>
      var log := RunAgent(a, capacity, events[..k + 1]).log;
      |log| == |a.log| + k + 1 && log[|a.log| + k].command.commandId == id
  }

  lemma ExpiredRests(a: Agent, capacity: nat, command: AgentCommand, now: int, f: Faults)
    requires a.memory.Some? && Sound(a.disk) && Recovery.Smooth(f)
    requires var l := a.memory.value;
             !HasTerminal(l.commands, command.commandId) && command.commandId in l.commands && command.commandId !in Ids(l.queue)
    requires command.expiresAt.Some? && command.expiresAt.value <= now
    ensures Rests(ProcessCommand(a, capacity, command, now, f).agent, command.commandId)
  {
    var l := a.memory.value;
    var ended := Finish(l, command.commandId, PersistedState.Expired).0;
    PersistIsAtomic(a.disk, ended, f.finishCut);
    assert ProcessCommand(a, capacity, command, now, f) == ProcessExpired(a, capacity, command, f);
    forall i | 0 <= i < |l.queue| ensures l.queue[i].commandId != command.commandId {
      assert Ids(l.queue)[i] in Ids(l.queue);
    }
    assert Once.Settled(ended, command.commandId);
  }

  /** With one slot, a command that another one has evicted runs a second time when it is delivered again. */
  lemma EvictedRunsAgain()
    ensures var x, y := AgentCommand("x", "media.play_pause", Some(9)), AgentCommand("y", "media.play_pause", Some(9));
            Runs(RunAgent(FRESH, 1, [Start(7), Deliver(x, 1, OK), Deliver(y, 2, OK), Deliver(x, 3, OK)]).log, "x") == 2
  {
    var x, y := AgentCommand("x", "media.play_pause", Some(9)), AgentCommand("y", "media.play_pause", Some(9));
    var one := Agent(Some(EMPTY), Disk(Some(Whole(EMPTY)), None, None), [], {});
    FirstStart(1);
    AcceptFirst(x);
    RunsAlone(x);
    SmoothDelivery(one, 1, x, 1);
    var log := ThreeInTurn(one, x, y);
    var events := [Deliver(x, 1, OK), Deliver(y, 2, OK), Deliver(x, 3, OK)];
    assert ([Start(7)] + events)[1..] == events && [Start(7)] + events == [Start(7), Deliver(x, 1, OK), Deliver(y, 2, OK), Deliver(x, 3, OK)];
    assert RunAgent(FRESH, 1, [Start(7)] + events) == RunAgent(one, 1, events);
    RunsTwice(Execution(x, Some(CommandStatus.Succeeded)), Execution(y, Some(CommandStatus.Succeeded)));
  }

  lemma ThreeInTurn(a: Agent, x: AgentCommand, y: AgentCommand) returns (log: seq<Execution>)
    requires Holds(StepAgent(a, 1, Deliver(x, 1, OK)), x) && x.commandId != y.commandId
    requires StepAgent(a, 1, Deliver(x, 1, OK)).log == [Execution(x, Some(CommandStatus.Succeeded))]
    requires x.expiresAt == Some(9) && y.expiresAt == Some(9)
    ensures log == RunAgent(a, 1, [Deliver(x, 1, OK), Deliver(y, 2, OK), Deliver(x, 3, OK)]).log
    ensures var first, second := Execution(x, Some(CommandStatus.Succeeded)), Execution(y, Some(CommandStatus.Succeeded));
            log == [first, second, first]
  {
    var two := StepAgent(a, 1, Deliver(x, 1, OK));
    OneSlot(two, x, y, 2);
    var three := StepAgent(two, 1, Deliver(y, 2, OK));
    OneSlot(three, y, x, 3);
    RunThree(a, 1, Deliver(x, 1, OK), Deliver(y, 2, OK), Deliver(x, 3, OK));
    log := StepAgent(three, 1, Deliver(x, 3, OK)).log;
  }

  lemma RunsTwice(first: Execution, second: Execution)
    requires first.command.commandId != second.command.commandId
    ensures Runs([first, second, first], first.command.commandId) == 2
  {
    assert [first, second, first][..2] == [first, second] && [first, second][..1] == [first] && [first][..0] == [];
    assert Runs([first], first.command.commandId) == 1;
    assert Runs([first, second], first.command.commandId) == 1;
  }

  /** A one-slot ledger that holds a finished command and is idle. */
  ghost predicate Holds(a: Agent, last: AgentCommand) {
    Sound(a.disk) && a.memory == Some(Ledger(map[last.commandId := PersistedState.Succeeded], [last.commandId], []))
  }

  lemma OneSlot(a: Agent, last: AgentCommand, command: AgentCommand, now: int)
    requires Holds(a, last) && command.commandId != last.commandId && command.expiresAt.Some? && now < command.expiresAt.value
    ensures var after := StepAgent(a, 1, Deliver(command, now, OK));
            Holds(after, command) && after.log == a.log + [Execution(command, Some(CommandStatus.Succeeded))]
  {
    var l := a.memory.value;
    assert FirstTerminal(l, 0) == 0;
    assert ForgetAt(l, 0) == EMPTY;
    AcceptFirst(command);
    assert Accept(l, 1, command) == Accept(EMPTY, 1, command);
    SmoothDelivery(a, 1, command, now);
    RunsAlone(command);
  }

  lemma RunsAlone(command: AgentCommand)
    ensures var id := command.commandId;
            Finish(Dequeue(Ledger(map[id := PersistedState.Accepted], [id], [command])).0, id, PersistedState.Succeeded).0
              == Ledger(map[id := PersistedState.Succeeded], [id], [])
  {
    var id := command.commandId;
    assert [command][1..] == [];
    assert map[id := PersistedState.Accepted][id := PersistedState.Executing][id := PersistedState.Succeeded] == map[id := PersistedState.Succeeded];
  }
}
