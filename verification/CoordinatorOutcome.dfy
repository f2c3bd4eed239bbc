/** What each call of the coordinator does to the state, for every input, in terms of the state before it. */
module CoordinatorOutcomes {
  import opened Prelude
  import opened Wire
  import opened CoordinatorSpec
  import opened CoordinatorInvariant
  import LedgerSpec

  // ---- status changes ----

  /** The status changes the server allows. */
  predicate Edge(from: CommandStatus, to: CommandStatus) {
    || (from == CommandStatus.Created && (to == CommandStatus.Sent || to == CommandStatus.Failed || to == CommandStatus.Expired))
    || (from == CommandStatus.Sent && (to == CommandStatus.Accepted || to == CommandStatus.Failed || to == CommandStatus.Expired))
    || (from == CommandStatus.Accepted && (to == CommandStatus.Executing || to == CommandStatus.Failed || to == CommandStatus.Expired))
    || (from == CommandStatus.Executing
        && (to == CommandStatus.Succeeded || to == CommandStatus.Failed || to == CommandStatus.OutcomeUnknown))
  }

  predicate Ended(status: CommandStatus) {
    status == CommandStatus.Succeeded || status == CommandStatus.Failed || status == CommandStatus.Expired
    || status == CommandStatus.OutcomeUnknown
  }

  /** `left` is `queue` without its one entry `id`. */
  ghost predicate TakenOff(queue: seq<CommandId>, id: CommandId, left: seq<CommandId>) {
    exists i: nat :: TakenAt(queue, id, left, i)
  }

  predicate TakenAt(queue: seq<CommandId>, id: CommandId, left: seq<CommandId>, i: nat) {
    i < |queue| && queue[i] == id && left == queue[..i] + queue[i + 1..] && id !in left
  }

  /** Exactly the record `id` and, if it has ended, the queue of its device changed. */
  ghost predicate Moved(c: Coordinator, after: Coordinator, id: CommandId, next: CommandStatus, error: Option<ErrorCode>) {
    id in c.commands && after.commands.Keys == c.commands.Keys
    && (forall x :: x in c.commands && x != id ==> after.commands[x] == c.commands[x])
    && after.commands[id].status == next && after.commands[id].errorCode == error
    && SameIdentity(c.commands[id], after.commands[id])
    && (forall d :: d != c.commands[id].deviceId ==> QueueOf(after, d) == QueueOf(c, d))
    && (if Ended(next) then TakenOff(QueueOf(c, c.commands[id].deviceId), id, QueueOf(after, c.commands[id].deviceId))
        else QueueOf(after, c.commands[id].deviceId) == QueueOf(c, c.commands[id].deviceId))
    && after.batches == c.batches && after.inserted == c.inserted && after.devices == c.devices
    && after.idempotency == c.idempotency && after.sequences == c.sequences
  }

  /** The whole effect of a requested status change. */
  ghost predicate ChangeOutcome(
      c: Coordinator, id: CommandId, next: CommandStatus, error: Option<ErrorCode>, after: Coordinator, result: Result<CommandId>)
  {
    if id !in c.commands then after == c && result == Err("command_not_found")
    else if Edge(c.commands[id].status, next) then Moved(c, after, id, next, error) && result == Ok(id)
    else after == c && result == if c.commands[id].status == next then Ok(id) else Err("command_transition_invalid")
  }

  lemma {:induction false} WithoutTakesOff(queue: seq<CommandId>, id: CommandId)
    requires NoDup(queue) && id in queue
    ensures TakenOff(queue, id, LedgerSpec.Without(queue, id))
  {
    var rest := queue[1..];
    assert queue == [queue[0]] + rest;
    if queue[0] == id {
      WithoutAbsent(rest, id);
      assert TakenAt(queue, id, LedgerSpec.Without(queue, id), 0);
    } else {
      RestDistinct(queue);
      WithoutTakesOff(rest, id);
      var i: nat :| TakenAt(rest, id, LedgerSpec.Without(rest, id), i);
      TakenBehind(queue, id, LedgerSpec.Without(rest, id), i);
      assert LedgerSpec.Without(queue, id) == [queue[0]] + LedgerSpec.Without(rest, id);
    }
  }

  lemma RestDistinct(queue: seq<CommandId>)
    requires NoDup(queue) && queue != []
    ensures NoDup(queue[1..])
  {
  }

  lemma TakenBehind(queue: seq<CommandId>, id: CommandId, left: seq<CommandId>, i: nat)
    requires queue != [] && queue[0] != id && TakenAt(queue[1..], id, left, i)
    ensures TakenAt(queue, id, [queue[0]] + left, i + 1)
  {
    assert queue[..i + 1] == [queue[0]] + queue[1..][..i] && queue[i + 1 + 1..] == queue[1..][i + 1..];
    assert [queue[0]] + left == queue[..i + 1] + queue[i + 1 + 1..];
  }

  lemma {:induction false} WithoutAbsent(queue: seq<CommandId>, id: CommandId)
    requires id !in queue
    ensures LedgerSpec.Without(queue, id) == queue
  {
    if queue != [] {
      WithoutAbsent(queue[1..], id);
    }
  }

  lemma AscendingDistinct(queue: seq<CommandId>, commands: map<CommandId, Command>)
    requires Ascending(queue, commands)
    ensures NoDup(queue)
  {
    forall i, j | 0 <= i < j < |queue| ensures queue[i] != queue[j] {
      assert SequenceAt(commands, queue[i]) < SequenceAt(commands, queue[j]);
    }
  }

  lemma SameEdges(from: CommandStatus, to: CommandStatus)
    ensures to in Transitions(from) <==> Edge(from, to)
    ensures IsTerminal(to) <==> Ended(to)
  {
  }

  /** For every record and every pair of statuses. */
  lemma TransitionIff(c: Coordinator, id: CommandId, next: CommandStatus, error: Option<ErrorCode>)
    requires Inv(c)
    ensures ChangeOutcome(c, id, next, error, Transition(c, id, next, error).0, Transition(c, id, next, error).1)
  {
    if id in c.commands {
      SameEdges(c.commands[id].status, next);
      if Edge(c.commands[id].status, next) {
        MoveTakesOff(c, id, next, error);
      }
    }
  }

  lemma MoveTakesOff(c: Coordinator, id: CommandId, next: CommandStatus, error: Option<ErrorCode>)
    requires Inv(c) && id in c.commands && Edge(c.commands[id].status, next)
    ensures Moved(c, Transition(c, id, next, error).0, id, next, error) && Transition(c, id, next, error).1 == Ok(id)
  {
    var device := c.commands[id].deviceId;
    var moved := SetStatus(c, id, next, error);
    SameEdges(c.commands[id].status, next);
    LiveTakesOff(c, id);
    assert Transition(c, id, next, error) == (if Ended(next) then DropFromQueue(moved, device, id) else moved, Ok(id));
    if Ended(next) {
      DropMoves(c, id, next, error);
    }
  }

  lemma LiveTakesOff(c: Coordinator, id: CommandId)
    requires Inv(c) && IsLive(c, id)
    ensures var queue := QueueOf(c, c.commands[id].deviceId);
            TakenOff(queue, id, LedgerSpec.Without(queue, id))
  {
    var device := c.commands[id].deviceId;
    assert QueueExact(c, device) && id in QueueOf(c, device);
    AscendingDistinct(QueueOf(c, device), c.commands);
    WithoutTakesOff(QueueOf(c, device), id);
  }

  lemma DropMoves(c: Coordinator, id: CommandId, next: CommandStatus, error: Option<ErrorCode>)
    requires id in c.commands && Ended(next)
    requires var queue := QueueOf(c, c.commands[id].deviceId);
             TakenOff(queue, id, LedgerSpec.Without(queue, id))
    ensures Moved(c, DropFromQueue(SetStatus(c, id, next, error), c.commands[id].deviceId, id), id, next, error)
  {
    var device := c.commands[id].deviceId;
    var queue := QueueOf(c, device);
    var i: nat :| TakenAt(queue, id, LedgerSpec.Without(queue, id), i);
    var moved := SetStatus(c, id, next, error);
    var after := DropFromQueue(moved, device, id);
    assert device in c.queues;
    assert after == moved.(queues := c.queues[device := LedgerSpec.Without(queue, id)]);
  }

  /** The same of an agent's report, which must come from the command's own device. */
  lemma ReportIff(c: Coordinator, device: DeviceId, id: CommandId, status: CommandStatus, error: Option<ErrorCode>)
    requires Inv(c)
    ensures
      var (after, result) := HandleAgentResult(c, device, id, status, error);
      if id in c.commands && c.commands[id].deviceId == device then ChangeOutcome(c, id, status, error, after, result)
      else after == c && result == Err("command_not_found")
  {
    TransitionIff(c, id, status, error);
  }

  // ---- dispatch ----

  /** The device's first live command is chosen, and marked as sent if it was waiting; nothing else moves. */
  lemma DispatchOutcome(c: Coordinator, device: DeviceId)
    requires Inv(c)
    ensures
      var (after, next) := DispatchNext(c, device);
      if next.Some? && c.commands[next.value].status == CommandStatus.Created then Moved(c, after, next.value, CommandStatus.Sent, None)
      else after == c
  {
    var next := FirstLive(c, QueueOf(c, device));
    if next.Some? && c.commands[next.value].status == CommandStatus.Created {
      TransitionIff(c, next.value, CommandStatus.Sent, None);
    }
  }

  // ---- stored commands ----

  ghost predicate RestoredAs(c: Coordinator, after: Coordinator, command: Command) {
    var id, device := command.commandId, command.deviceId;
    if id in c.commands then after == c else
      after.commands == c.commands[id := command] && after.inserted == c.inserted + [id]
      && (forall x :: x in QueueOf(after, device) <==> x in QueueOf(c, device) || (x == id && !Ended(command.status)))
      && (forall d :: d != device ==> QueueOf(after, d) == QueueOf(c, d) && SequenceOf(after, d) == SequenceOf(c, d))
      && SequenceOf(after, device) >= SequenceOf(c, device) && SequenceOf(after, device) >= command.sequence
      && (SequenceOf(after, device) == SequenceOf(c, device) || SequenceOf(after, device) == command.sequence)
      && after.devices == c.devices && after.batches == c.batches && after.idempotency == c.idempotency
  }

  /** A record that is not yet known is taken over as it is, and waits if it has not ended; a known one changes nothing. */
  lemma RestoreOutcome(c: Coordinator, command: Command)
    requires Inv(c)
    requires forall id :: id in c.commands && c.commands[id].deviceId == command.deviceId && id != command.commandId
               ==> c.commands[id].sequence != command.sequence
    ensures RestoredAs(c, Restore(c, command), command)
  {
    SameEdges(CommandStatus.Created, command.status);
    if command.commandId !in c.commands {
      RememberedAs(c, command);
      if !Ended(command.status) {
        QueuesOneMore(c, command);
        QueuedAs(c, command, SortBySequence(QueueOf(c, command.deviceId) + [command.commandId], Remember(c, command).commands));
      }
    }
  }

  lemma RememberedAs(c: Coordinator, command: Command)
    requires command.commandId !in c.commands
    ensures Ended(command.status) ==> RestoredAs(c, Remember(c, command), command)
  {
  }

  lemma QueuedAs(c: Coordinator, command: Command, queue: seq<CommandId>)
    requires command.commandId !in c.commands && !Ended(command.status)
    requires forall x :: x in queue <==> x in QueueOf(c, command.deviceId) || x == command.commandId
    ensures RestoredAs(c, Remember(c, command).(queues := c.queues[command.deviceId := queue]), command)
  {
  }

  lemma QueuesOneMore(c: Coordinator, command: Command)
    requires Inv(c) && command.commandId !in c.commands
    requires forall id :: id in c.commands && c.commands[id].deviceId == command.deviceId ==> c.commands[id].sequence != command.sequence
    ensures var queue := QueueOf(c, command.deviceId);
            forall x :: x in SortBySequence(queue + [command.commandId], Remember(c, command).commands) <==> x in queue || x == command.commandId
  {
    var id := command.commandId;
    var queue := QueueOf(c, command.deviceId);
    var commands := c.commands[id := command];
    assert QueueExact(c, command.deviceId);
    assert forall x :: x in queue ==> IsLive(c, x) && c.commands[x].deviceId == command.deviceId;
    assert Ascending(queue, commands) by {
      assert forall i :: 0 <= i < |queue| ==> queue[i] in queue;
    }
    SortOneMore(queue, id, commands);
  }

  // ---- expiry ----

  predicate Overdue(c: Coordinator, id: CommandId, now: int) {
    id in c.commands && !Ended(c.commands[id].status) && c.commands[id].expiresAt <= now
  }

  predicate Throws(c: Coordinator, id: CommandId, now: int) {
    Overdue(c, id, now) && c.commands[id].status == CommandStatus.Executing
  }

  /** The record after expiry has passed it. */
  function Passed(c: Coordinator, id: CommandId, now: int): Command
    requires id in c.commands
  {
    if Overdue(c, id, now) then c.commands[id].(status := CommandStatus.Expired, errorCode := None) else c.commands[id]
  }

  /** The overdue ids, in order. */
  function OverdueOf(c: Coordinator, ids: seq<CommandId>, now: int): seq<CommandId> {
    if ids == [] then [] else (if Overdue(c, ids[0], now) then [ids[0]] else []) + OverdueOf(c, ids[1..], now)
  }

  /** Expiry went over the first k ids and touched no other record. */
  ghost predicate PassedOver(c: Coordinator, after: Coordinator, ids: seq<CommandId>, now: int, k: nat)
    requires k <= |ids|
  {
    after.commands.Keys == c.commands.Keys
    && forall x :: x in c.commands ==> after.commands[x] == if x in ids[..k] then Passed(c, x, now) else c.commands[x]
  }

  ghost predicate ExpiryOutcome(c: Coordinator, ids: seq<CommandId>, now: int, after: Coordinator, result: Result<seq<CommandId>>) {
    if NoneThrows(c, ids, now) then result == Ok(OverdueOf(c, ids, now)) && PassedOver(c, after, ids, now, |ids|)
    else result == Err("command_transition_invalid") && ThrowsAt(c, ids, now, after)
  }

  ghost predicate NoneThrows(c: Coordinator, ids: seq<CommandId>, now: int) {
    forall x :: x in ids ==> !Throws(c, x, now)
  }

  ghost predicate ThrowsAt(c: Coordinator, ids: seq<CommandId>, now: int, after: Coordinator) {
    exists k: nat :: StopsThere(c, ids, now, after, k)
  }

  /** The k-th id is the first that throws. */
  ghost predicate StopsThere(c: Coordinator, ids: seq<CommandId>, now: int, after: Coordinator, k: nat) {
    k < |ids| && Throws(c, ids[k], now) && NoneThrows(c, ids[..k], now) && PassedOver(c, after, ids, now, k)
  }

  lemma OverdueIs(c: Coordinator, id: CommandId, now: int)
    ensures IsLive(c, id) && c.commands[id].expiresAt <= now <==> Overdue(c, id, now)
  {
    if id in c.commands {
      SameEdges(CommandStatus.Created, c.commands[id].status);
    }
  }

  lemma {:induction false} OverdueSame(c: Coordinator, middle: Coordinator, ids: seq<CommandId>, now: int)
    requires forall x :: x in ids ==> (x in c.commands <==> x in middle.commands)
    requires forall x :: x in ids && x in c.commands ==> middle.commands[x] == c.commands[x]
    ensures OverdueOf(middle, ids, now) == OverdueOf(c, ids, now)
  {
    if ids != [] {
      assert ids[0] in ids && forall x :: x in ids[1..] ==> x in ids;
      OverdueSame(c, middle, ids[1..], now);
    }
  }

  /** One id that does not throw. */
  lemma OnePassed(c: Coordinator, ids: seq<CommandId>, now: int) returns (middle: Coordinator)
    requires ids != [] && ids[0] in c.commands && !Throws(c, ids[0], now)
    ensures middle.commands == c.commands[ids[0] := Passed(c, ids[0], now)]
    ensures
      var (end, rest) := ExpireFrom(middle, ids[1..], now);
      ExpireFrom(c, ids, now) == (end, if rest.Err? || !Overdue(c, ids[0], now) then rest else Ok([ids[0]] + rest.value))
  {
    var id := ids[0];
    OverdueIs(c, id, now);
    if Overdue(c, id, now) {
      SameEdges(c.commands[id].status, CommandStatus.Expired);
      middle := Transition(c, id, Expired, None).0;
    } else {
      middle := c;
      assert c.commands[id := c.commands[id]] == c.commands;
    }
  }

  lemma PassedMore(c: Coordinator, middle: Coordinator, after: Coordinator, ids: seq<CommandId>, now: int, k: nat)
    requires ids != [] && NoDup(ids) && ids[0] in c.commands && k < |ids|
    requires middle.commands == c.commands[ids[0] := Passed(c, ids[0], now)] && PassedOver(middle, after, ids[1..], now, k)
    ensures PassedOver(c, after, ids, now, k + 1)
  {
    assert ids[..k + 1] == [ids[0]] + ids[1..][..k];
    assert ids[0] !in ids[1..];
    forall x | x in c.commands ensures after.commands[x] == if x in ids[..k + 1] then Passed(c, x, now) else c.commands[x] {
      if x in ids[1..][..k] {
        assert x in ids[1..];
      }
    }
  }

  /** `expire` over any ids: it throws at the first executing command that is overdue and leaves the rest as they were; otherwise it
      expires the overdue ones and names them in their order. */
  lemma {:induction false} ExpiryIs(c: Coordinator, ids: seq<CommandId>, now: int)
    requires NoDup(ids) && forall id :: id in ids ==> id in c.commands
    ensures ExpiryOutcome(c, ids, now, ExpireFrom(c, ids, now).0, ExpireFrom(c, ids, now).1)
    decreases |ids|
  {
    if ids != [] {
      assert ids[0] in ids && forall x :: x in ids[1..] ==> x in ids && x != ids[0];
      OverdueIs(c, ids[0], now);
      if Throws(c, ids[0], now) {
        SameEdges(CommandStatus.Executing, CommandStatus.Expired);
        assert ids[..0] == [];
        assert StopsThere(c, ids, now, c, 0);
      } else {
        var middle := OnePassed(c, ids, now);
        ExpiryIs(middle, ids[1..], now);
        ExpiryMore(c, middle, ids, now, ExpireFrom(middle, ids[1..], now).0, ExpireFrom(middle, ids[1..], now).1);
      }
    }
  }

  /** `expire`, which goes over the whole table. */
  lemma ExpireIs(c: Coordinator, now: int)
    requires Inv(c)
    ensures ExpiryOutcome(c, c.inserted, now, Expire(c, now).0, Expire(c, now).1) && Elements(c.inserted) == c.commands.Keys
  {
    assert forall id :: id in c.inserted <==> id in c.commands.Keys;
    ExpiryIs(c, c.inserted, now);
  }

  lemma ExpiryMore(c: Coordinator, middle: Coordinator, ids: seq<CommandId>, now: int, after: Coordinator, rest: Result<seq<CommandId>>)
    requires ids != [] && NoDup(ids) && ids[0] in c.commands && !Throws(c, ids[0], now)
    requires middle.commands == c.commands[ids[0] := Passed(c, ids[0], now)] && ExpiryOutcome(middle, ids[1..], now, after, rest)
    ensures ExpiryOutcome(c, ids, now, after, if rest.Err? || !Overdue(c, ids[0], now) then rest else Ok([ids[0]] + rest.value))
  {
    NoneThrowsMore(c, middle, ids, now);
    if NoneThrows(middle, ids[1..], now) {
      PassedAll(c, middle, ids, now, after);
    } else {
      ThrowsLater(c, middle, ids, now, after);
    }
  }

  lemma NoneThrowsMore(c: Coordinator, middle: Coordinator, ids: seq<CommandId>, now: int)
    requires ids != [] && NoDup(ids) && ids[0] in c.commands && !Throws(c, ids[0], now)
    requires middle.commands == c.commands[ids[0] := Passed(c, ids[0], now)]
    ensures NoneThrows(c, ids, now) <==> NoneThrows(middle, ids[1..], now)
    ensures forall x :: x in ids[1..] ==> (Throws(middle, x, now) <==> Throws(c, x, now))
  {
    assert ids == [ids[0]] + ids[1..] && ids[0] !in ids[1..];
    assert forall x :: x in ids <==> x == ids[0] || x in ids[1..];
    assert forall x :: x in ids[1..] ==> (Throws(middle, x, now) <==> Throws(c, x, now));
    if NoneThrows(c, ids, now) {
      assert NoneThrows(middle, ids[1..], now);
    }
    if NoneThrows(middle, ids[1..], now) {
      assert NoneThrows(c, ids, now);
    }
  }

  lemma PassedAll(c: Coordinator, middle: Coordinator, ids: seq<CommandId>, now: int, after: Coordinator)
    requires ids != [] && NoDup(ids) && ids[0] in c.commands && !Throws(c, ids[0], now)
    requires middle.commands == c.commands[ids[0] := Passed(c, ids[0], now)] && PassedOver(middle, after, ids[1..], now, |ids| - 1)
    ensures PassedOver(c, after, ids, now, |ids|)
    ensures OverdueOf(c, ids, now) == (if Overdue(c, ids[0], now) then [ids[0]] else []) + OverdueOf(middle, ids[1..], now)
    ensures [] + OverdueOf(middle, ids[1..], now) == OverdueOf(middle, ids[1..], now)
  {
    assert ids == [ids[0]] + ids[1..] && ids[0] !in ids[1..];
    OverdueSame(c, middle, ids[1..], now);
    PassedMore(c, middle, after, ids, now, |ids| - 1);
  }

  lemma ThrowsLater(c: Coordinator, middle: Coordinator, ids: seq<CommandId>, now: int, after: Coordinator)
    requires ids != [] && NoDup(ids) && ids[0] in c.commands && !Throws(c, ids[0], now)
    requires middle.commands == c.commands[ids[0] := Passed(c, ids[0], now)] && ThrowsAt(middle, ids[1..], now, after)
    ensures ThrowsAt(c, ids, now, after)
  {
    var k: nat :| StopsThere(middle, ids[1..], now, after, k);
    PassedMore(c, middle, after, ids, now, k);
    NoneThrowsMore(c, middle, ids, now);
    FirstsMore(c, middle, ids, now, k);
    assert StopsThere(c, ids, now, after, k + 1);
  }

  lemma FirstsMore(c: Coordinator, middle: Coordinator, ids: seq<CommandId>, now: int, k: nat)
    requires ids != [] && !Throws(c, ids[0], now) && k < |ids[1..]| && Throws(middle, ids[1..][k], now) && NoneThrows(middle, ids[1..][..k], now)
    requires forall x :: x in ids[1..] ==> (Throws(middle, x, now) <==> Throws(c, x, now))
    ensures Throws(c, ids[k + 1], now) && NoneThrows(c, ids[..k + 1], now)
  {
    assert ids[1..][k] == ids[k + 1] && ids[1..][k] in ids[1..];
    assert ids[..k + 1] == [ids[0]] + ids[1..][..k] && forall x :: x in ids[1..][..k] ==> x in ids[1..];
  }
}
