/** The agent's command ledger as values: what each operation computes and what it keeps. */
module LedgerSpec {
  import opened Prelude

  type CommandId = string

  datatype PersistedState = Accepted | Executing | Succeeded | Failed | Expired | OutcomeUnknown

  /** `expiresAt` is None when the text on the wire is not a date. */
  datatype AgentCommand = AgentCommand(commandId: CommandId, commandType: string, expiresAt: Option<int>)

  datatype Ledger = Ledger(
    commands: map<CommandId, PersistedState>,
    order: seq<CommandId>,
    queue: seq<AgentCommand>)

  const EMPTY := Ledger(map[], [], [])

  predicate IsTerminal(state: PersistedState) {
    state.Succeeded? || state.Failed? || state.Expired? || state.OutcomeUnknown?
  }

  predicate HasTerminal(commands: map<CommandId, PersistedState>, id: CommandId) {
    id in commands && IsTerminal(commands[id])
  }

  // ---- operations ----

  function FirstTerminal(l: Ledger, from: nat): (i: nat)
    requires from <= |l.order|
    ensures from <= i <= |l.order|
    ensures i < |l.order| ==> HasTerminal(l.commands, l.order[i])
    ensures forall k :: from <= k < i ==> !HasTerminal(l.commands, l.order[k])
    decreases |l.order| - from
  {
    if from == |l.order| || HasTerminal(l.commands, l.order[from]) then from else FirstTerminal(l, from + 1)
  }

  function ForgetAt(l: Ledger, i: nat): Ledger
    requires i < |l.order|
  {
    Ledger(l.commands - {l.order[i]}, l.order[..i] + l.order[i + 1..], l.queue)
  }

  function WithoutOldestTerminal(l: Ledger, capacity: nat): Ledger {
    if |l.commands| < capacity then l else
    var i := FirstTerminal(l, 0);
    if i == |l.order| then l else ForgetAt(l, i)
  }

  function Accept(l: Ledger, capacity: nat, command: AgentCommand): (Ledger, Result<PersistedState>) {
    var id := command.commandId;
    if id in l.commands then (l, Ok(l.commands[id])) else
    var kept := WithoutOldestTerminal(l, capacity);
    if |kept.commands| >= capacity then (kept, Err("command_log_capacity_exceeded")) else
    (Ledger(kept.commands[id := Accepted], kept.order + [id], kept.queue + [command]), Ok(Accepted))
  }

  function Dequeue(l: Ledger): (Ledger, Option<AgentCommand>) {
    if l.queue == [] then (l, None) else
    (l.(commands := l.commands[l.queue[0].commandId := Executing], queue := l.queue[1..]), Some(l.queue[0]))
  }

  function Finish(l: Ledger, id: CommandId, state: PersistedState): (Ledger, bool) {
    if !IsTerminal(state) || id !in l.commands then (l, false) else
    (l.(commands := l.commands[id := state]), true)
  }

  function RecoveredState(state: PersistedState): PersistedState {
    if state.Executing? then OutcomeUnknown else state
  }

  function RecoveredStates(commands: map<CommandId, PersistedState>): map<CommandId, PersistedState> {
    map id | id in commands :: RecoveredState(commands[id])
  }

  function KeepAccepted(queue: seq<AgentCommand>, commands: map<CommandId, PersistedState>): seq<AgentCommand> {
    if queue == [] then [] else
    (if queue[0].commandId in commands && commands[queue[0].commandId].Accepted? then [queue[0]] else [])
    + KeepAccepted(queue[1..], commands)
  }

  /** What `open` makes of the snapshot it read. */
  function Recover(l: Ledger): Ledger {
    var commands := RecoveredStates(l.commands);
    Ledger(commands, l.order, KeepAccepted(l.queue, commands))
  }

  // ---- invariants ----

  function Ids(queue: seq<AgentCommand>): (ids: seq<CommandId>)
    ensures |ids| == |queue| && forall i :: 0 <= i < |queue| ==> ids[i] == queue[i].commandId
  {
    seq(|queue|, i requires 0 <= i < |queue| => queue[i].commandId)
  }

  /** The ids of `ids` that are recorded as Accepted, in order. */
  function AcceptedOf(ids: seq<CommandId>, commands: map<CommandId, PersistedState>): seq<CommandId> {
    if ids == [] then [] else
    (if ids[0] in commands && commands[ids[0]].Accepted? then [ids[0]] else []) + AcceptedOf(ids[1..], commands)
  }

  /** `order` lists exactly the recorded ids, once each, within the capacity. */
  ghost predicate Consistent(l: Ledger, capacity: nat) {
    NoDup(l.order) && Elements(l.order) == l.commands.Keys && |l.order| <= capacity
  }

  /** The queue holds exactly the Accepted ids, in the order they arrived. */
  ghost predicate Exact(l: Ledger, capacity: nat) {
    Consistent(l, capacity) && Ids(l.queue) == AcceptedOf(l.order, l.commands)
  }

  /** Weaker: the queue may also hold ids that were finished while they waited, and even ids that were forgotten since. */
  ghost predicate Mendable(l: Ledger, capacity: nat) {
    Consistent(l, capacity) && AcceptedOf(Ids(l.queue), l.commands) == AcceptedOf(l.order, l.commands)
  }

  /** In between: every id in the queue is still recorded. */
  ghost predicate Recoverable(l: Ledger, capacity: nat) {
    Mendable(l, capacity) && Elements(Ids(l.queue)) <= l.commands.Keys
  }

  // ---- AcceptedOf ----

  lemma {:induction false} AcceptedOfConcat(a: seq<CommandId>, b: seq<CommandId>, m: map<CommandId, PersistedState>)
    ensures AcceptedOf(a + b, m) == AcceptedOf(a, m) + AcceptedOf(b, m)
  {
    if a == [] {
      assert a + b == b;
    } else {
      assert (a + b)[1..] == a[1..] + b;
      AcceptedOfConcat(a[1..], b, m);
    }
  }

  lemma {:induction false} AcceptedOfFrame(ids: seq<CommandId>, m: map<CommandId, PersistedState>, n: map<CommandId, PersistedState>)
    requires forall id :: id in ids ==> (id in m && m[id].Accepted? <==> id in n && n[id].Accepted?)
    ensures AcceptedOf(ids, m) == AcceptedOf(ids, n)
  {
    if ids != [] {
      assert ids[0] in ids;
      assert forall id :: id in ids[1..] ==> id in ids;
      AcceptedOfFrame(ids[1..], m, n);
    }
  }

  lemma {:induction false} AcceptedOfMember(ids: seq<CommandId>, m: map<CommandId, PersistedState>, id: CommandId)
    ensures id in AcceptedOf(ids, m) <==> id in ids && id in m && m[id].Accepted?
  {
    if ids != [] {
      assert ids == [ids[0]] + ids[1..];
      AcceptedOfMember(ids[1..], m, id);
    }
  }

  function Without(ids: seq<CommandId>, id: CommandId): seq<CommandId> {
    if ids == [] then [] else (if ids[0] == id then [] else [ids[0]]) + Without(ids[1..], id)
  }

  lemma {:induction false} WithoutConcat(a: seq<CommandId>, b: seq<CommandId>, id: CommandId)
    ensures Without(a + b, id) == Without(a, id) + Without(b, id)
  {
    if a == [] {
      assert a + b == b;
    } else {
      assert (a + b)[1..] == a[1..] + b;
      WithoutConcat(a[1..], b, id);
    }
  }

  lemma {:induction false} AcceptedOfSettled(ids: seq<CommandId>, m: map<CommandId, PersistedState>, id: CommandId, state: PersistedState)
    requires !state.Accepted?
    ensures AcceptedOf(ids, m[id := state]) == Without(AcceptedOf(ids, m), id)
  {
    if ids != [] {
      AcceptedOfSettled(ids[1..], m, id, state);
      var here := if ids[0] in m && m[ids[0]].Accepted? then [ids[0]] else [];
      WithoutConcat(here, AcceptedOf(ids[1..], m), id);
    }
  }

  lemma {:induction false} WithoutAbsent(ids: seq<CommandId>, id: CommandId)
    requires id !in ids
    ensures Without(ids, id) == ids
  {
    if ids != [] {
      assert ids[0] in ids;
      assert forall x :: x in ids[1..] ==> x in ids;
      WithoutAbsent(ids[1..], id);
    }
  }

  lemma {:induction false} AcceptedOfSelf(ids: seq<CommandId>, m: map<CommandId, PersistedState>)
    requires forall id :: id in ids ==> id in m && m[id].Accepted?
    ensures AcceptedOf(ids, m) == ids
  {
    if ids != [] {
      assert ids[0] in ids;
      assert forall x :: x in ids[1..] ==> x in ids;
      AcceptedOfSelf(ids[1..], m);
    }
  }

  lemma {:induction false} AcceptedOfNoDup(ids: seq<CommandId>, m: map<CommandId, PersistedState>)
    requires NoDup(ids)
    ensures NoDup(AcceptedOf(ids, m))
  {
    if ids != [] {
      AcceptedOfNoDup(ids[1..], m);
      AcceptedOfMember(ids[1..], m, ids[0]);
    }
  }

  lemma ExactIsRecoverable(l: Ledger, capacity: nat)
    requires Exact(l, capacity)
    ensures Recoverable(l, capacity)
  {
    forall id | id in Ids(l.queue) ensures id in l.commands && l.commands[id].Accepted? {
      AcceptedOfMember(l.order, l.commands, id);
    }
    AcceptedOfSelf(Ids(l.queue), l.commands);
  }

  // ---- what accept does ----

  lemma ConsistentSize(l: Ledger, capacity: nat)
    requires Consistent(l, capacity)
    ensures |l.commands| == |l.order|
  {
    NoDupSize(l.order);
  }

  ghost predicate OldestTerminal(l: Ledger, i: nat) {
    i < |l.order| && HasTerminal(l.commands, l.order[i]) && forall k :: 0 <= k < i ==> !HasTerminal(l.commands, l.order[k])
  }

  lemma ForgetKeepsConsistent(l: Ledger, capacity: nat, i: nat)
    requires Consistent(l, capacity) && i < |l.order|
    ensures Consistent(ForgetAt(l, i), capacity)
    ensures |ForgetAt(l, i).order| < capacity
    ensures l.order[i] !in ForgetAt(l, i).order
  {
    var kept := ForgetAt(l, i);
    assert l.order == l.order[..i] + [l.order[i]] + l.order[i + 1..];
    forall id ensures id in kept.order <==> id in l.order && id != l.order[i] {
      if id in l.order && id != l.order[i] {
        var k :| 0 <= k < |l.order| && l.order[k] == id;
        assert k < i ==> kept.order[k] == id;
        assert k > i ==> kept.order[k - 1] == id;
      }
    }
  }

  /** Eviction happens exactly when the ledger is full and holds a terminal id; it forgets the oldest one. */
  lemma EvictionOutcome(l: Ledger, capacity: nat) returns (evicted: Option<nat>)
    requires Consistent(l, capacity)
    ensures evicted.None? ==> WithoutOldestTerminal(l, capacity) == l
    ensures evicted.None? ==> |l.order| < capacity || forall id :: id in l.order ==> !HasTerminal(l.commands, id)
    ensures evicted.Some? ==> |l.order| == capacity && OldestTerminal(l, evicted.value)
    ensures evicted.Some? ==> WithoutOldestTerminal(l, capacity) == ForgetAt(l, evicted.value)
  {
    ConsistentSize(l, capacity);
    var i := FirstTerminal(l, 0);
    evicted := if |l.commands| < capacity || i == |l.order| then None else Some(i);
  }

  /** Refused exactly when the id is new and every one of the `capacity` slots is non-terminal;
      otherwise the id is recorded last and queued last, at the cost of at most the oldest terminal id. */
  lemma AcceptOutcome(l: Ledger, capacity: nat, command: AgentCommand)
    requires Consistent(l, capacity)
    ensures var (after, result) := Accept(l, capacity, command); var id := command.commandId;
            Consistent(after, capacity)
            && (result.Err? <==> id !in l.commands && |l.order| == capacity && forall x :: x in l.order ==> !HasTerminal(l.commands, x))
            && (result.Err? || id in l.commands ==> after == l)
            && (id in l.commands ==> result == Ok(l.commands[id]))
            && (id !in l.commands && result.Ok? ==> result.value == Accepted && Recorded(l, capacity, command, after))
  {
    ConsistentSize(l, capacity);
    var evicted := EvictionOutcome(l, capacity);
    if evicted.Some? {
      ForgetKeepsConsistent(l, capacity, evicted.value);
      assert l.order[evicted.value] in l.order;
    }
    var kept := WithoutOldestTerminal(l, capacity);
    ConsistentSize(kept, capacity);
    if command.commandId !in l.commands && |kept.commands| < capacity {
      RecordingKeepsConsistent(kept, capacity, command);
    }
  }

  /** `after` is `l`, less its oldest terminal id if it was full, with the command recorded last and queued last. */
  ghost predicate Recorded(l: Ledger, capacity: nat, command: AgentCommand, after: Ledger) {
    exists kept: Ledger ::
      && (if |l.order| < capacity then kept == l else exists i: nat :: OldestTerminal(l, i) && kept == ForgetAt(l, i))
      && after == Ledger(kept.commands[command.commandId := Accepted], kept.order + [command.commandId], l.queue + [command])
  }

  lemma RecordingKeepsConsistent(l: Ledger, capacity: nat, command: AgentCommand)
    requires Consistent(l, capacity) && |l.order| < capacity && command.commandId !in l.commands
    ensures Consistent(Ledger(l.commands[command.commandId := Accepted], l.order + [command.commandId], l.queue + [command]), capacity)
  {
    var id := command.commandId;
    assert id !in Elements(l.order);
    assert Elements(l.order + [id]) == Elements(l.order) + {id};
  }

  lemma {:induction false} AcceptedOfDrop(ids: seq<CommandId>, i: nat, m: map<CommandId, PersistedState>)
    requires i < |ids| && !(ids[i] in m && m[ids[i]].Accepted?)
    ensures AcceptedOf(ids, m) == AcceptedOf(ids[..i] + ids[i + 1..], m)
  {
    assert ids == ids[..i] + ([ids[i]] + ids[i + 1..]);
    AcceptedOfConcat(ids[..i], [ids[i]] + ids[i + 1..], m);
    AcceptedOfConcat([ids[i]], ids[i + 1..], m);
    AcceptedOfConcat(ids[..i], ids[i + 1..], m);
    assert AcceptedOf([ids[i]], m) == [];
  }

  lemma EvictionKeepsAccepted(l: Ledger, capacity: nat)
    requires Consistent(l, capacity)
    ensures var kept := WithoutOldestTerminal(l, capacity);
            Consistent(kept, capacity) && kept.queue == l.queue && kept.commands.Keys <= l.commands.Keys
            && AcceptedOf(kept.order, kept.commands) == AcceptedOf(l.order, l.commands)
  {
    var evicted := EvictionOutcome(l, capacity);
    if evicted.Some? {
      var i := evicted.value;
      var kept := ForgetAt(l, i);
      ForgetKeepsConsistent(l, capacity, i);
      AcceptedOfDrop(l.order, i, l.commands);
      assert l.order[i] !in kept.order;
      AcceptedOfFrame(kept.order, l.commands, kept.commands);
    }
  }

  lemma AppendAccepted(ids: seq<CommandId>, m: map<CommandId, PersistedState>, id: CommandId)
    requires id !in ids
    ensures AcceptedOf(ids + [id], m[id := Accepted]) == AcceptedOf(ids, m) + [id]
  {
    AcceptedOfConcat(ids, [id], m[id := Accepted]);
    AcceptedOfFrame(ids, m, m[id := Accepted]);
    assert AcceptedOf([id], m[id := Accepted]) == [id];
  }

  lemma AcceptKeepsExact(l: Ledger, capacity: nat, command: AgentCommand)
    requires Exact(l, capacity)
    ensures Exact(Accept(l, capacity, command).0, capacity)
  {
    AcceptOutcome(l, capacity, command);
    EvictionKeepsAccepted(l, capacity);
    var kept := WithoutOldestTerminal(l, capacity);
    var after := Accept(l, capacity, command).0;
    if command.commandId !in l.commands && |kept.commands| < capacity {
      assert command.commandId !in Elements(kept.order);
      AppendAccepted(kept.order, kept.commands, command.commandId);
      assert Ids(after.queue) == Ids(l.queue) + [command.commandId];
    }
  }

  lemma {:induction false} AcceptedOfGrows(ids: seq<CommandId>, m: map<CommandId, PersistedState>, id: CommandId)
    requires id !in m
    ensures if id in ids then |AcceptedOf(ids, m[id := Accepted])| > |AcceptedOf(ids, m)|
            else AcceptedOf(ids, m[id := Accepted]) == AcceptedOf(ids, m)
  {
    if ids != [] {
      assert ids == [ids[0]] + ids[1..];
      AcceptedOfGrows(ids[1..], m, id);
    }
  }

  /** The command is new, is accepted, and an earlier copy of it still waits in the queue. */
  predicate AcceptsWaiting(l: Ledger, capacity: nat, command: AgentCommand) {
    command.commandId !in l.commands && Accept(l, capacity, command).1.Ok? && command.commandId in Ids(l.queue)
  }

  /** Accepting keeps a ledger mendable if and only if it does not record a forgotten id that still waits in the queue. */
  lemma AcceptKeepsMendableIff(l: Ledger, capacity: nat, command: AgentCommand)
    requires Mendable(l, capacity)
    ensures Mendable(Accept(l, capacity, command).0, capacity) <==> !AcceptsWaiting(l, capacity, command)
  {
    var id := command.commandId;
    var kept := WithoutOldestTerminal(l, capacity);
    EvictionKeepsAccepted(l, capacity);
    EvictionKeepsWaiting(l, capacity, Ids(l.queue));
    ConsistentSize(kept, capacity);
    if id !in l.commands && |kept.commands| < capacity {
      RecordingKeepsConsistent(kept, capacity, command);
      assert id !in Elements(kept.order);
      AppendBothIff(Ids(l.queue), kept.order, kept.commands, id);
      assert Ids(l.queue + [command]) == Ids(l.queue) + [id];
    }
  }

  lemma AppendBothIff(queue: seq<CommandId>, order: seq<CommandId>, m: map<CommandId, PersistedState>, id: CommandId)
    requires id !in m && id !in order && AcceptedOf(queue, m) == AcceptedOf(order, m)
    ensures AcceptedOf(queue + [id], m[id := Accepted]) == AcceptedOf(order + [id], m[id := Accepted]) <==> id !in queue
  {
    AppendAccepted(order, m, id);
    AcceptedOfConcat(queue, [id], m[id := Accepted]);
    assert AcceptedOf([id], m[id := Accepted]) == [id];
    AcceptedOfGrows(queue, m, id);
  }

  /** What is evicted was not Accepted. */
  lemma EvictionKeepsWaiting(l: Ledger, capacity: nat, ids: seq<CommandId>)
    requires Consistent(l, capacity)
    ensures AcceptedOf(ids, WithoutOldestTerminal(l, capacity).commands) == AcceptedOf(ids, l.commands)
  {
    var evicted := EvictionOutcome(l, capacity);
    AcceptedOfFrame(ids, l.commands, WithoutOldestTerminal(l, capacity).commands);
  }

  /** Accepting keeps every waiting id recorded if and only if it evicts none of them. */
  lemma AcceptKeepsRecoverableIff(l: Ledger, capacity: nat, command: AgentCommand)
    requires Recoverable(l, capacity)
    ensures Recoverable(Accept(l, capacity, command).0, capacity)
       <==> forall id :: id in Ids(l.queue) ==> id in Accept(l, capacity, command).0.commands
  {
    var after := Accept(l, capacity, command).0;
    AcceptOutcome(l, capacity, command);
    assert command.commandId in Ids(l.queue) ==> command.commandId in Elements(Ids(l.queue));
    AcceptKeepsMendableIff(l, capacity, command);
    AcceptQueueIds(l, capacity, command);
  }

  lemma AcceptQueueIds(l: Ledger, capacity: nat, command: AgentCommand)
    ensures
      var after := Accept(l, capacity, command).0;
      (forall id :: id in Ids(l.queue) ==> id in Elements(Ids(after.queue)))
      && (forall id :: id in Elements(Ids(after.queue)) ==> id in Ids(l.queue) || id == command.commandId)
      && (after.queue != l.queue ==> command.commandId in after.commands)
  {
    var after := Accept(l, capacity, command).0;
    assert after.queue == l.queue || Ids(after.queue) == Ids(l.queue) + [command.commandId];
  }

  // ---- dequeue, finish, recovery ----

  /** Dequeuing keeps a ledger mendable if and only if the id it takes, if any, is recorded. */
  lemma DequeueKeepsMendableIff(l: Ledger, capacity: nat)
    requires Mendable(l, capacity)
    ensures Mendable(Dequeue(l).0, capacity) <==> (l.queue == [] || l.queue[0].commandId in l.commands)
  {
    if l.queue != [] {
      var ids := Ids(l.queue);
      var id := l.queue[0].commandId;
      var after := Dequeue(l).0;
      assert ids == [id] + ids[1..] && Ids(after.queue) == ids[1..];
      AcceptedOfSettled(l.order, l.commands, id, Executing);
      AcceptedOfSettled(ids, l.commands, id, Executing);
      if id in l.commands {
        assert after.commands.Keys == l.commands.Keys;
        assert AcceptedOf(ids, after.commands) == AcceptedOf(ids[1..], after.commands);
      } else {
        assert id in after.commands.Keys && id !in Elements(l.order);
      }
    }
  }

  lemma DequeueKeepsRecoverable(l: Ledger, capacity: nat)
    requires Recoverable(l, capacity)
    ensures Recoverable(Dequeue(l).0, capacity)
  {
    DequeueKeepsMendableIff(l, capacity);
    if l.queue != [] {
      assert Ids(l.queue)[0] in Elements(Ids(l.queue));
      assert Ids(Dequeue(l).0.queue) == Ids(l.queue)[1..];
      assert forall x :: x in Ids(l.queue)[1..] ==> x in Elements(Ids(l.queue));
    }
  }

  /** The dequeued id is the oldest Accepted one, and it is the only entry that changes. */
  lemma DequeueKeepsExact(l: Ledger, capacity: nat)
    requires Exact(l, capacity)
    ensures Exact(Dequeue(l).0, capacity)
    ensures l.queue == [] <==> AcceptedOf(l.order, l.commands) == []
    ensures l.queue != [] ==> l.queue[0].commandId == AcceptedOf(l.order, l.commands)[0]
  {
    ExactIsRecoverable(l, capacity);
    DequeueKeepsRecoverable(l, capacity);
    if l.queue != [] {
      var ids := Ids(l.queue);
      var id := l.queue[0].commandId;
      AcceptedOfSettled(l.order, l.commands, id, Executing);
      AcceptedOfNoDup(l.order, l.commands);
      assert id == ids[0] && ids == [id] + ids[1..];
      assert id !in ids[1..];
      WithoutAbsent(ids[1..], id);
      assert Ids(Dequeue(l).0.queue) == ids[1..];
    }
  }

  /** Finishing any id keeps a ledger mendable, and every waiting id recorded. */
  lemma FinishKeepsMendable(l: Ledger, capacity: nat, id: CommandId, state: PersistedState)
    requires Mendable(l, capacity)
    ensures Mendable(Finish(l, id, state).0, capacity)
    ensures Recoverable(l, capacity) ==> Recoverable(Finish(l, id, state).0, capacity)
  {
    if IsTerminal(state) && id in l.commands {
      AcceptedOfSettled(l.order, l.commands, id, state);
      AcceptedOfSettled(Ids(l.queue), l.commands, id, state);
      assert Finish(l, id, state).0.commands.Keys == l.commands.Keys;
    }
  }

  /** Finishing keeps the queue exact if and only if the finished id is not waiting in the queue. */
  lemma FinishKeepsExactIff(l: Ledger, capacity: nat, id: CommandId, state: PersistedState)
    requires Exact(l, capacity)
    ensures Exact(Finish(l, id, state).0, capacity) <==> !(IsTerminal(state) && id in Ids(l.queue))
  {
    ExactIsRecoverable(l, capacity);
    FinishKeepsMendable(l, capacity, id, state);
    var after := Finish(l, id, state).0;
    assert id in Ids(l.queue) ==> id in Elements(Ids(l.queue));
    AcceptedOfMember(l.order, after.commands, id);
    if IsTerminal(state) && id in l.commands && id !in Ids(l.queue) {
      AcceptedOfSettled(l.order, l.commands, id, state);
      WithoutAbsent(Ids(l.queue), id);
    }
  }

  lemma {:induction false} KeepAcceptedConcat(a: seq<AgentCommand>, b: seq<AgentCommand>, m: map<CommandId, PersistedState>)
    ensures KeepAccepted(a + b, m) == KeepAccepted(a, m) + KeepAccepted(b, m)
  {
    if a == [] {
      assert a + b == b;
    } else {
      assert (a + b)[1..] == a[1..] + b;
      KeepAcceptedConcat(a[1..], b, m);
    }
  }

  lemma {:induction false} KeepAcceptedIds(queue: seq<AgentCommand>, m: map<CommandId, PersistedState>)
    ensures Ids(KeepAccepted(queue, m)) == AcceptedOf(Ids(queue), m)
  {
    if queue != [] {
      KeepAcceptedIds(queue[1..], m);
      assert Ids(queue)[1..] == Ids(queue[1..]);
      var rest := KeepAccepted(queue[1..], m);
      assert Ids([queue[0]] + rest) == [queue[0].commandId] + Ids(rest);
    }
  }

  lemma {:induction false} KeepAcceptedFixed(queue: seq<AgentCommand>, m: map<CommandId, PersistedState>)
    ensures KeepAccepted(KeepAccepted(queue, m), m) == KeepAccepted(queue, m)
  {
    if queue != [] {
      KeepAcceptedFixed(queue[1..], m);
      var rest := KeepAccepted(queue[1..], m);
      assert ([queue[0]] + rest)[1..] == rest;
      assert [] + rest == rest;
    }
  }

  /** Opening restores the exact queue if and only if the ledger is mendable; it always keeps every Accepted command in order
      and every state but Executing, and leaves nothing Executing. */
  lemma RecoverRepairsIff(l: Ledger, capacity: nat)
    ensures var r := Recover(l);
            (Exact(r, capacity) <==> Mendable(l, capacity))
            && AcceptedOf(r.order, r.commands) == AcceptedOf(l.order, l.commands)
            && r.commands.Keys == l.commands.Keys
            && (forall id :: id in l.commands ==> r.commands[id] == RecoveredState(l.commands[id]))
            && (forall id :: id in r.commands ==> !r.commands[id].Executing?)
  {
    var r := Recover(l);
    KeepAcceptedIds(l.queue, r.commands);
    AcceptedOfFrame(Ids(l.queue), l.commands, r.commands);
    AcceptedOfFrame(l.order, l.commands, r.commands);
  }

  lemma RecoverTwice(l: Ledger)
    ensures Recover(Recover(l)) == Recover(l)
  {
    var r := Recover(l);
    assert RecoveredStates(r.commands) == r.commands;
    KeepAcceptedFixed(l.queue, r.commands);
  }
}
