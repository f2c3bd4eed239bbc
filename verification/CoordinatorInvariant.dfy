/** What every operation of the coordinator keeps. */
module CoordinatorInvariant {
  import opened Prelude
  import opened Wire
  import opened CoordinatorSpec
  import LedgerSpec
  import Js = JsText

  // ---- the invariant ----

  /** Every record sits under its own id with a positive sequence its device has already issued. */
  ghost predicate Recorded(c: Coordinator) {
    forall id :: id in c.commands ==>
      c.commands[id].commandId == id && 1 <= c.commands[id].sequence <= SequenceOf(c, c.commands[id].deviceId)
  }

  /** No two commands of a device share a sequence. */
  ghost predicate DistinctSequences(c: Coordinator) {
    forall a, b :: a in c.commands && b in c.commands && a != b && c.commands[a].deviceId == c.commands[b].deviceId
      ==> c.commands[a].sequence != c.commands[b].sequence
  }

  ghost predicate Ascending(queue: seq<CommandId>, commands: map<CommandId, Command>) {
    forall i, j :: 0 <= i < j < |queue| ==> SequenceAt(commands, queue[i]) < SequenceAt(commands, queue[j])
  }

  /** The queue lists exactly the device's live commands, by ascending sequence. */
  ghost predicate QueueExact(c: Coordinator, device: DeviceId) {
    && (forall id :: id in QueueOf(c, device) <==> IsLive(c, id) && c.commands[id].deviceId == device)
    && Ascending(QueueOf(c, device), c.commands)
  }

  ghost predicate Table(c: Coordinator) {
    NoDup(c.inserted) && Elements(c.inserted) == c.commands.Keys
  }

  ghost predicate BatchesKept(c: Coordinator) {
    forall key :: key in c.idempotency ==> c.idempotency[key] in c.batches
  }

  ghost predicate Records(c: Coordinator) {
    Recorded(c) && DistinctSequences(c) && Table(c) && BatchesKept(c)
  }

  ghost predicate Inv(c: Coordinator) {
    Records(c) && forall device :: QueueExact(c, device)
  }

  lemma EmptyInv()
    ensures Inv(EMPTY)
  {
  }

  // ---- transitions ----

  lemma {:induction false} WithoutElements(queue: seq<CommandId>, id: CommandId)
    ensures forall x :: x in LedgerSpec.Without(queue, id) <==> x in queue && x != id
  {
    if queue != [] {
      WithoutElements(queue[1..], id);
      assert queue == [queue[0]] + queue[1..];
    }
  }

  lemma {:induction false} WithoutAscending(queue: seq<CommandId>, id: CommandId, commands: map<CommandId, Command>)
    requires Ascending(queue, commands)
    ensures Ascending(LedgerSpec.Without(queue, id), commands)
  {
    if queue != [] {
      var rest := LedgerSpec.Without(queue[1..], id);
      WithoutAscending(queue[1..], id, commands);
      WithoutElements(queue[1..], id);
      forall i | 0 <= i < |rest| ensures SequenceAt(commands, queue[0]) < SequenceAt(commands, rest[i]) {
        assert rest[i] in queue[1..];
        var j :| 0 <= j < |queue[1..]| && queue[1..][j] == rest[i];
        assert queue[j + 1] == rest[i];
      }
    }
  }

  /** `after` has the same records as `c` up to status and error. */
  ghost predicate SameTable(c: Coordinator, after: Coordinator) {
    && after.inserted == c.inserted && after.sequences == c.sequences
    && after.batches == c.batches && after.idempotency == c.idempotency && after.devices == c.devices
    && after.commands.Keys == c.commands.Keys
    && forall x :: x in c.commands ==> SameIdentity(c.commands[x], after.commands[x])
  }

  predicate SameIdentity(a: Command, b: Command) {
    a.commandId == b.commandId && a.deviceId == b.deviceId && a.sequence == b.sequence
    && a.batchId == b.batchId && a.commandType == b.commandType && a.createdAt == b.createdAt
    && a.expiresAt == b.expiresAt && a.owner == b.owner
  }

  lemma TransitionSameTable(c: Coordinator, id: CommandId, next: CommandStatus, error: Option<ErrorCode>)
    ensures SameTable(c, Transition(c, id, next, error).0)
  {
    if id in c.commands && next in Transitions(c.commands[id].status) {
      SetStatusSameTable(c, id, next, error);
      DropSameTable(c, SetStatus(c, id, next, error), c.commands[id].deviceId, id);
    } else {
      SameTableSelf(c);
    }
  }

  lemma SameTableSelf(c: Coordinator)
    ensures SameTable(c, c)
  {
  }

  lemma SetStatusSameTable(c: Coordinator, id: CommandId, next: CommandStatus, error: Option<ErrorCode>)
    requires id in c.commands
    ensures SameTable(c, SetStatus(c, id, next, error))
  {
  }

  lemma DropSameTable(c: Coordinator, moved: Coordinator, device: DeviceId, id: CommandId)
    requires SameTable(c, moved)
    ensures SameTable(c, DropFromQueue(moved, device, id))
  {
  }

  lemma RecordsFrame(c: Coordinator, after: Coordinator)
    requires Records(c) && SameTable(c, after)
    ensures Records(after)
  {
  }

  lemma QueueFrame(c: Coordinator, after: Coordinator, device: DeviceId)
    requires QueueExact(c, device) && QueueOf(after, device) == QueueOf(c, device)
    requires forall x :: IsLive(after, x) && after.commands[x].deviceId == device <==> IsLive(c, x) && c.commands[x].deviceId == device
    requires forall x :: x in QueueOf(c, device) ==> SequenceAt(after.commands, x) == SequenceAt(c.commands, x)
    ensures QueueExact(after, device)
  {
    var queue := QueueOf(c, device);
    assert forall i :: 0 <= i < |queue| ==> queue[i] in queue;
  }

  lemma TransitionKeepsQueue(c: Coordinator, id: CommandId, next: CommandStatus, error: Option<ErrorCode>, device: DeviceId)
    requires QueueExact(c, device)
    ensures QueueExact(Transition(c, id, next, error).0, device)
  {
    var after := Transition(c, id, next, error).0;
    if id in c.commands && next in Transitions(c.commands[id].status) {
      TransitionSameTable(c, id, next, error);
      if IsTerminal(next) && device == c.commands[id].deviceId {
        SettleKeepsQueue(c, after, id, device);
      } else {
        MoveKeepsQueue(c, after, id, next, error, device);
      }
    } else {
      assert after == c;
    }
  }

  /** A transition of another device's command, or to a status that is not terminal. */
  lemma MoveKeepsQueue(c: Coordinator, after: Coordinator, id: CommandId, next: CommandStatus, error: Option<ErrorCode>, device: DeviceId)
    requires QueueExact(c, device) && IsLive(c, id) && (c.commands[id].deviceId != device || !IsTerminal(next))
    requires QueueOf(after, device) == QueueOf(c, device)
    requires after.commands == c.commands[id := c.commands[id].(status := next, errorCode := error)]
    ensures QueueExact(after, device)
  {
    QueueFrame(c, after, device);
  }

  /** A live command that became terminal leaves its queue. */
  lemma SettleKeepsQueue(c: Coordinator, after: Coordinator, id: CommandId, device: DeviceId)
    requires QueueExact(c, device) && SameTable(c, after)
    requires IsLive(c, id) && c.commands[id].deviceId == device && !IsLive(after, id)
    requires forall x :: x in c.commands && x != id ==> after.commands[x] == c.commands[x]
    requires QueueOf(after, device) == LedgerSpec.Without(QueueOf(c, device), id)
    ensures QueueExact(after, device)
  {
    var queue := QueueOf(c, device);
    WithoutElements(queue, id);
    WithoutAscending(queue, id, c.commands);
    var left := LedgerSpec.Without(queue, id);
    forall i | 0 <= i < |left| ensures SequenceAt(after.commands, left[i]) == SequenceAt(c.commands, left[i]) {
      assert left[i] in left;
    }
  }

  /** A status change touches one record and at most one queue. */
  lemma TransitionKeeps(c: Coordinator, id: CommandId, next: CommandStatus, error: Option<ErrorCode>)
    requires Inv(c)
    ensures Inv(Transition(c, id, next, error).0)
  {
    TransitionSameTable(c, id, next, error);
    RecordsFrame(c, Transition(c, id, next, error).0);
    forall device ensures QueueExact(Transition(c, id, next, error).0, device) {
      assert QueueExact(c, device);
      TransitionKeepsQueue(c, id, next, error, device);
    }
  }

  /** Terminal statuses are absorbing. */
  lemma TerminalAbsorbs(c: Coordinator, id: CommandId, next: CommandStatus, error: Option<ErrorCode>, x: CommandId)
    requires x in c.commands && IsTerminal(c.commands[x].status)
    ensures Transition(c, id, next, error).0.commands[x] == c.commands[x]
  {
  }

  lemma DispatchKeeps(c: Coordinator, device: DeviceId)
    requires Inv(c)
    ensures Inv(DispatchNext(c, device).0)
  {
    var next := FirstLive(c, QueueOf(c, device));
    if next.Some? {
      TransitionKeeps(c, next.value, Sent, None);
    }
  }

  /** The command chosen for dispatch is the live command of the device with the smallest sequence. */
  lemma DispatchTakesSmallest(c: Coordinator, device: DeviceId)
    requires Inv(c)
    ensures var next := DispatchNext(c, device).1;
            (next.None? <==> forall id :: IsLive(c, id) ==> c.commands[id].deviceId != device)
            && (next.Some? ==>
                  IsLive(c, next.value) && c.commands[next.value].deviceId == device && next.value == QueueOf(c, device)[0]
                  && forall id :: IsLive(c, id) && c.commands[id].deviceId == device && id != next.value
                       ==> c.commands[next.value].sequence < c.commands[id].sequence)
  {
    var queue := QueueOf(c, device);
    assert QueueExact(c, device);
    if queue != [] {
      assert queue[0] in queue;
      assert FirstLive(c, queue) == Some(queue[0]);
      forall id | IsLive(c, id) && c.commands[id].deviceId == device && id != queue[0]
        ensures c.commands[queue[0]].sequence < c.commands[id].sequence
      {
        assert id in queue;
        var i :| 0 <= i < |queue| && queue[i] == id;
        assert SequenceAt(c.commands, queue[0]) < SequenceAt(c.commands, queue[i]);
      }
    }
  }

  // ---- restore ----

  lemma AscendingAppend(queue: seq<CommandId>, id: CommandId, commands: map<CommandId, Command>)
    requires Ascending(queue, commands)
    requires forall x :: x in queue ==> SequenceAt(commands, x) < SequenceAt(commands, id)
    ensures Ascending(queue + [id], commands)
  {
  }

  lemma {:induction false} PlaceElements(queue: seq<CommandId>, id: CommandId, commands: map<CommandId, Command>)
    ensures forall x :: x in PlaceBySequence(queue, id, commands) <==> x in queue || x == id
  {
    if queue != [] {
      PlaceElements(queue[..|queue| - 1], id, commands);
      assert queue == queue[..|queue| - 1] + [queue[|queue| - 1]];
    }
  }

  lemma {:induction false} PlaceAscending(queue: seq<CommandId>, id: CommandId, commands: map<CommandId, Command>)
    requires Ascending(queue, commands)
    requires forall x :: x in queue ==> SequenceAt(commands, x) != SequenceAt(commands, id)
    ensures Ascending(PlaceBySequence(queue, id, commands), commands)
  {
    if queue == [] {
    } else {
      var n := |queue| - 1;
      var last := queue[n];
      assert last in queue;
      if SequenceAt(commands, last) <= SequenceAt(commands, id) {
        AscendingAppend(queue, id, commands);
      } else {
        assert forall x :: x in queue[..n] ==> x in queue && SequenceAt(commands, x) < SequenceAt(commands, last);
        PlaceAscending(queue[..n], id, commands);
        PlaceElements(queue[..n], id, commands);
        AscendingAppend(PlaceBySequence(queue[..n], id, commands), last, commands);
      }
    }
  }

  lemma {:induction false} SortAscending(queue: seq<CommandId>, commands: map<CommandId, Command>)
    requires Ascending(queue, commands)
    ensures SortBySequence(queue, commands) == queue
  {
    if queue != [] {
      var n := |queue| - 1;
      SortAscending(queue[..n], commands);
      assert queue == queue[..n] + [queue[n]];
      if n > 0 {
        assert queue[..n][n - 1] == queue[n - 1];
      }
    }
  }

  lemma SortOneMore(queue: seq<CommandId>, id: CommandId, commands: map<CommandId, Command>)
    requires Ascending(queue, commands)
    requires forall x :: x in queue ==> SequenceAt(commands, x) != SequenceAt(commands, id)
    ensures var sorted := SortBySequence(queue + [id], commands);
            Ascending(sorted, commands) && forall x :: x in sorted <==> x in queue || x == id
  {
    assert (queue + [id])[..|queue|] == queue;
    SortAscending(queue, commands);
    PlaceAscending(queue, id, commands);
    PlaceElements(queue, id, commands);
  }

  lemma RememberKeepsRecords(c: Coordinator, command: Command)
    requires Records(c) && command.commandId !in c.commands && command.sequence >= 1
    requires forall id :: id in c.commands && c.commands[id].deviceId == command.deviceId ==> c.commands[id].sequence != command.sequence
    ensures Records(Remember(c, command))
  {
    var id := command.commandId;
    assert id !in Elements(c.inserted);
    assert Elements(c.inserted + [id]) == Elements(c.inserted) + {id};
  }

  /** A live command inserted by its sequence. */
  lemma InsertKeepsQueue(c: Coordinator, after: Coordinator, command: Command)
    requires QueueExact(c, command.deviceId) && command.commandId !in c.commands && !IsTerminal(command.status)
    requires after.commands == c.commands[command.commandId := command]
    requires forall x :: x in QueueOf(c, command.deviceId) ==> SequenceAt(c.commands, x) != command.sequence
    requires QueueOf(after, command.deviceId) == SortBySequence(QueueOf(c, command.deviceId) + [command.commandId], after.commands)
    ensures QueueExact(after, command.deviceId)
  {
    var queue := QueueOf(c, command.deviceId);
    assert forall x :: x in queue ==> SequenceAt(after.commands, x) == SequenceAt(c.commands, x);
    assert forall i :: 0 <= i < |queue| ==> queue[i] in queue;
    SortOneMore(queue, command.commandId, after.commands);
  }

  lemma RestoreKeepsQueue(c: Coordinator, command: Command, device: DeviceId)
    requires QueueExact(c, device) && command.commandId !in c.commands
    requires device == command.deviceId ==>
               forall x :: x in QueueOf(c, device) ==> SequenceAt(c.commands, x) != command.sequence
    ensures QueueExact(Restore(c, command), device)
  {
    if device == command.deviceId && !IsTerminal(command.status) {
      InsertKeepsQueue(c, Restore(c, command), command);
    } else {
      QueueFrame(c, Restore(c, command), device);
    }
  }

  lemma RestoreKeepsRecords(c: Coordinator, command: Command)
    requires Records(c) && command.commandId !in c.commands && command.sequence >= 1
    requires forall id :: id in c.commands && c.commands[id].deviceId == command.deviceId ==> c.commands[id].sequence != command.sequence
    ensures Records(Restore(c, command))
  {
    RememberKeepsRecords(c, command);
    RecordsFrame(Remember(c, command), Restore(c, command));
  }

  /** A stored record may be restored in any order; storage keeps sequences positive and unique per device. */
  lemma RestoreKeeps(c: Coordinator, command: Command)
    requires Inv(c)
    requires command.sequence >= 1
    requires forall id :: id in c.commands && c.commands[id].deviceId == command.deviceId && id != command.commandId
               ==> c.commands[id].sequence != command.sequence
    ensures Inv(Restore(c, command))
  {
    if command.commandId !in c.commands {
      RestoreKeepsRecords(c, command);
      forall d ensures QueueExact(Restore(c, command), d) {
        assert QueueExact(c, d);
        assert forall x :: x in QueueOf(c, d) ==> IsLive(c, x) && c.commands[x].deviceId == d;
        RestoreKeepsQueue(c, command, d);
      }
    }
  }

  /** A stored sequence raises its device's counter to at least itself and changes nothing else; an invalid one is refused. */
  lemma RestoreSequenceKeeps(c: Coordinator, device: DeviceId, sequence: int)
    requires Inv(c)
    ensures
      var (after, result) := RestoreDeviceSequence(c, device, sequence);
      Inv(after) && (result.Ok? <==> 1 <= sequence <= MAX_SAFE)
      && if result.Err? then after == c
         else SequenceOf(after, device) == Max(SequenceOf(c, device), sequence)
              && (forall d :: d != device ==> SequenceOf(after, d) == SequenceOf(c, d)) && after.(sequences := c.sequences) == c
  {
    var after := RestoreDeviceSequence(c, device, sequence).0;
    forall d ensures QueueExact(after, d) {
      assert QueueExact(c, d);
    }
  }

  lemma UpsertKeeps(c: Coordinator, device: Device)
    requires Inv(c)
    ensures Inv(UpsertDevice(c, device))
  {
    forall d ensures QueueExact(UpsertDevice(c, device), d) {
      assert QueueExact(c, d);
    }
  }

  // ---- expire ----

  lemma {:induction false} ExpireFromKeeps(c: Coordinator, ids: seq<CommandId>, now: int)
    requires Inv(c)
    ensures Inv(ExpireFrom(c, ids, now).0)
    decreases |ids|
  {
    if ids != [] {
      TransitionKeeps(c, ids[0], Expired, None);
      ExpireFromKeeps(c, ids[1..], now);
      ExpireFromKeeps(Transition(c, ids[0], Expired, None).0, ids[1..], now);
    }
  }

  predicate Overdue(c: Coordinator, id: CommandId, now: int) {
    IsLive(c, id) && c.commands[id].expiresAt <= now
  }

  predicate Stuck(c: Coordinator, id: CommandId, now: int) {
    Overdue(c, id, now) && c.commands[id].status == Executing
  }

  ghost predicate ExpireOutcome(c: Coordinator, ids: seq<CommandId>, now: int, after: Coordinator, ok: bool) {
    && (ok <==> forall id :: id in ids ==> !Stuck(c, id, now))
    && after.commands.Keys == c.commands.Keys
    && (forall id :: id in c.commands && id !in ids ==> after.commands[id] == c.commands[id])
    && (ok ==> forall id :: id in c.commands && id in ids ==> after.commands[id] == ExpiredRecord(c, id, now))
  }

  function ExpiredRecord(c: Coordinator, id: CommandId, now: int): Command
    requires id in c.commands
  {
    if Overdue(c, id, now) then c.commands[id].(status := Expired, errorCode := None) else c.commands[id]
  }

  lemma ExpireOneMore(c: Coordinator, middle: Coordinator, id: CommandId, rest: seq<CommandId>, now: int, after: Coordinator, ok: bool)
    requires id in c.commands && id !in rest && !Stuck(c, id, now)
    requires middle.commands == c.commands[id := ExpiredRecord(c, id, now)]
    requires ExpireOutcome(middle, rest, now, after, ok)
    ensures ExpireOutcome(c, [id] + rest, now, after, ok)
  {
    assert forall x :: x in rest ==> (Stuck(middle, x, now) <==> Stuck(c, x, now));
    assert forall x :: x in c.commands && x in rest ==> ExpiredRecord(middle, x, now) == ExpiredRecord(c, x, now);
  }

  lemma {:induction false} ExpireFromOutcome(c: Coordinator, ids: seq<CommandId>, now: int)
    requires NoDup(ids) && forall id :: id in ids ==> id in c.commands
    ensures var (after, result) := ExpireFrom(c, ids, now); ExpireOutcome(c, ids, now, after, result.Ok?)
    decreases |ids|
  {
    if ids != [] {
      var id := ids[0];
      var rest := ids[1..];
      assert ids == [id] + rest;
      assert id !in rest && id in ids;
      if Stuck(c, id, now) {
        assert ExpireFrom(c, ids, now).1.Err?;
        assert ExpireFrom(c, ids, now).0 == c;
      } else {
        var middle := if Overdue(c, id, now) then Transition(c, id, Expired, None).0 else c;
        var (after, result) := ExpireFrom(middle, rest, now);
        ExpireFromOutcome(middle, rest, now);
        assert middle.commands == c.commands[id := ExpiredRecord(c, id, now)];
        ExpireOneMore(c, middle, id, rest, now, after, result.Ok?);
        assert ExpireFrom(c, ids, now).0 == after;
        assert ExpireFrom(c, ids, now).1.Ok? <==> result.Ok?;
      }
    }
  }

  function ExpiredRecords(c: Coordinator, now: int): map<CommandId, Command> {
    map id | id in c.commands :: ExpiredRecord(c, id, now)
  }

  /** `expire` succeeds exactly when no executing command is overdue; then it expires the overdue commands and changes no other record. */
  lemma ExpireSucceedsIff(c: Coordinator, now: int)
    requires Inv(c)
    ensures var (after, result) := Expire(c, now);
            Inv(after)
            && (result.Ok? <==> forall id :: id in c.commands ==> !Stuck(c, id, now))
            && (result.Ok? ==> after.commands == ExpiredRecords(c, now))
  {
    ExpireFromKeeps(c, c.inserted, now);
    ExpireFromOutcome(c, c.inserted, now);
    assert forall id :: id in c.inserted <==> id in c.commands.Keys;
  }

  // ---- create ----

  lemma CountKeeps(c: Coordinator, device: DeviceId, sequence: nat)
    requires Inv(c) && sequence >= SequenceOf(c, device)
    ensures Inv(Count(c, device, sequence))
  {
    var after := Count(c, device, sequence);
    forall d ensures QueueExact(after, d) {
      assert QueueExact(c, d);
    }
  }

  lemma RegisterKeepsQueue(c: Coordinator, command: Command, device: DeviceId)
    requires QueueExact(c, device) && command.commandId !in c.commands && command.status == Created
    requires device == command.deviceId ==> forall x :: x in QueueOf(c, device) ==> SequenceAt(c.commands, x) < command.sequence
    ensures QueueExact(Register(c, command), device)
  {
    var after := Register(c, command);
    if device == command.deviceId {
      var queue := QueueOf(c, device);
      assert forall x :: x in queue ==> SequenceAt(after.commands, x) == SequenceAt(c.commands, x);
      assert forall i :: 0 <= i < |queue| ==> queue[i] in queue;
      AscendingAppend(queue, command.commandId, after.commands);
      assert QueueOf(after, device) == queue + [command.commandId];
    } else {
      QueueFrame(c, after, device);
    }
  }

  lemma RegisterKeepsRecords(c: Coordinator, command: Command)
    requires Records(c) && command.commandId !in c.commands
    requires 1 <= command.sequence <= SequenceOf(c, command.deviceId)
    requires forall id :: id in c.commands && c.commands[id].deviceId == command.deviceId ==> c.commands[id].sequence < command.sequence
    ensures Records(Register(c, command))
  {
    assert command.commandId !in Elements(c.inserted);
    assert Elements(c.inserted + [command.commandId]) == Elements(c.inserted) + {command.commandId};
  }

  lemma RegisterKeeps(c: Coordinator, command: Command)
    requires Inv(c) && command.commandId !in c.commands && command.status == Created
    requires 1 <= command.sequence <= SequenceOf(c, command.deviceId)
    requires forall id :: id in c.commands && c.commands[id].deviceId == command.deviceId ==> c.commands[id].sequence < command.sequence
    ensures Inv(Register(c, command))
  {
    RegisterKeepsRecords(c, command);
    forall d ensures QueueExact(Register(c, command), d) {
      assert QueueExact(c, d);
      RegisterKeepsQueue(c, command, d);
    }
  }

  lemma CreateCommandKeepsInv(
      c: Coordinator, batchId: BatchId, owner: OwnerId, device: DeviceId, commandType: string, now: int, id: CommandId)
    requires Inv(c) && id !in c.commands
    ensures Inv(CreateCommand(c, batchId, owner, device, commandType, now, id).0)
  {
    if device in c.devices && c.devices[device].owner == owner {
      var sequence := SequenceOf(c, device) + 1;
      CountKeeps(c, device, sequence);
      if c.devices[device].online && commandType in c.devices[device].capabilities && |QueueOf(c, device)| < MAX_QUEUED {
        var command := Command(batchId, id, commandType, now, device, None, now + LIFETIME_MILLISECONDS, owner, sequence, Created);
        RegisterNextKeeps(c, command);
        assert CreateCommand(c, batchId, owner, device, commandType, now, id).0 == Register(Count(c, device, sequence), command);
      } else {
        assert CreateCommand(c, batchId, owner, device, commandType, now, id).0 == Count(c, device, sequence);
      }
    }
  }

  lemma RegisterNextKeeps(c: Coordinator, command: Command)
    requires Inv(c) && command.commandId !in c.commands && command.status == Created
    requires command.sequence == SequenceOf(c, command.deviceId) + 1
    requires Inv(Count(c, command.deviceId, command.sequence))
    ensures Inv(Register(Count(c, command.deviceId, command.sequence), command))
  {
    RegisterKeeps(Count(c, command.deviceId, command.sequence), command);
  }

  /** What creation leaves alone: existing records, other queues' growth, batches. */
  ghost predicate Grows(c: Coordinator, after: Coordinator) {
    && (forall x :: x in c.commands ==> x in after.commands && after.commands[x] == c.commands[x])
    && (forall d :: SequenceOf(c, d) <= SequenceOf(after, d))
    && (forall d :: |QueueOf(after, d)| <= Max(|QueueOf(c, d)|, MAX_QUEUED))
    && after.batches == c.batches && after.idempotency == c.idempotency
  }

  /** A command's sequence is one above everything its device ever issued, even when it is refused;
      a queue that creation extends holds at most eight commands. */
  lemma CreateCommandOutcome(
      c: Coordinator, batchId: BatchId, owner: OwnerId, device: DeviceId, commandType: string, now: int, id: CommandId)
    requires id !in c.commands
    ensures var (after, entry) := CreateCommand(c, batchId, owner, device, commandType, now, id);
            Grows(c, after)
            && (entry.Ok? ==> SequenceOf(after, device) == SequenceOf(c, device) + 1)
            && (if entry.Ok? && entry.value.Registered? then RegisteredAs(c, after, id, device)
                else after.commands == c.commands && after.queues == c.queues)
            && (entry.Ok? && entry.value.Refused? ==> entry.value.command.sequence == SequenceOf(after, device))
  {
    if device in c.devices && c.devices[device].owner == owner {
      var sequence := SequenceOf(c, device) + 1;
      var counted := Count(c, device, sequence);
      CountOutcome(c, device);
      if c.devices[device].online && commandType in c.devices[device].capabilities && |QueueOf(c, device)| < MAX_QUEUED {
        var command := Command(batchId, id, commandType, now, device, None, now + LIFETIME_MILLISECONDS, owner, sequence, Created);
        RegisterOutcome(counted, command);
        assert CreateCommand(c, batchId, owner, device, commandType, now, id) == (Register(counted, command), Ok(Registered(id)));
      } else {
        assert CreateCommand(c, batchId, owner, device, commandType, now, id).0 == counted;
      }
    }
  }

  lemma CountOutcome(c: Coordinator, device: DeviceId)
    ensures Grows(c, Count(c, device, SequenceOf(c, device) + 1))
  {
  }

  lemma RegisterOutcome(c: Coordinator, command: Command)
    requires command.commandId !in c.commands
    requires |QueueOf(c, command.deviceId)| < MAX_QUEUED && command.sequence == SequenceOf(c, command.deviceId) && command.status == Created
    ensures var after := Register(c, command);
            Grows(c, after) && RegisteredAs(c, after, command.commandId, command.deviceId)
  {
  }

  /** `id` is the one new record: numbered by the device counter, not yet sent, queued last. */
  ghost predicate RegisteredAs(c: Coordinator, after: Coordinator, id: CommandId, device: DeviceId) {
    && after.commands.Keys == c.commands.Keys + {id}
    && after.commands[id].deviceId == device
    && after.commands[id].sequence == SequenceOf(after, device)
    && after.commands[id].status == Created
    && QueueOf(after, device) == QueueOf(c, device) + [id]
    && |QueueOf(after, device)| <= MAX_QUEUED
  }

  ghost predicate FreshIds(c: Coordinator, ids: seq<CommandId>) {
    NoDup(ids) && forall id :: id in ids ==> id !in c.commands
  }

  lemma FreshPrefix(c: Coordinator, ids: seq<CommandId>, n: nat)
    requires n < |ids| && FreshIds(c, ids)
    ensures FreshIds(c, ids[..n]) && ids[n] !in ids[..n] && ids[n] !in c.commands
  {
    assert forall i :: 0 <= i < n ==> ids[..n][i] == ids[i];
    assert ids[n] in ids;
  }

  /** Creation for a list of devices, also when it stops in the middle, keeps the invariant and every existing record. */
  lemma {:induction false} CreateCommandsKeeps(
      c: Coordinator, batchId: BatchId, owner: OwnerId, devices: seq<DeviceId>, commandType: string, now: int, ids: seq<CommandId>)
    requires Inv(c) && |ids| >= |devices| && FreshIds(c, ids)
    ensures var after := CreateCommands(c, batchId, owner, devices, commandType, now, ids).0;
            Inv(after) && Grows(c, after)
            && (forall x :: x in after.commands ==> x in c.commands || x in ids[..|devices|])
    decreases |devices|
  {
    if devices != [] {
      var n := |devices| - 1;
      FreshPrefix(c, ids, n);
      CreateCommandsKeeps(c, batchId, owner, devices[..n], commandType, now, ids[..n]);
      var (before, entries) := CreateCommands(c, batchId, owner, devices[..n], commandType, now, ids[..n]);
      assert ids[..n][..n] == ids[..n];
      assert ids[..n + 1] == ids[..n] + [ids[n]];
      if entries.Ok? {
        assert ids[n] !in before.commands;
        CreateCommandKeepsInv(before, batchId, owner, devices[n], commandType, now, ids[n]);
        CreateCommandOutcome(before, batchId, owner, devices[n], commandType, now, ids[n]);
        GrowsTransitive(c, before, CreateCommand(before, batchId, owner, devices[n], commandType, now, ids[n]).0);
      }
    }
  }

  lemma GrowsTransitive(a: Coordinator, b: Coordinator, c: Coordinator)
    requires Grows(a, b) && Grows(b, c)
    ensures Grows(a, c)
  {
  }

  lemma CreateBatchKeeps(c: Coordinator, owner: OwnerId, request: Request, now: int, supply: Supply)
    requires Inv(c) && |supply.commandIds| >= |request.deviceIds| && FreshIds(c, supply.commandIds)
    ensures var after := CreateBatch(c, owner, request, now, supply).0;
            Inv(after)
            && (forall x :: x in c.commands ==> x in after.commands && after.commands[x] == c.commands[x])
            && (forall d :: SequenceOf(c, d) <= SequenceOf(after, d))
            && (forall d :: |QueueOf(after, d)| <= Max(|QueueOf(c, d)|, MAX_QUEUED))
  {
    if ValidTargets(request) && (owner, request.idempotencyKey) !in c.idempotency {
      UniqueSize(request.deviceIds);
      var devices := Js.Sort(Unique(request.deviceIds));
      CreateCommandsKeeps(c, supply.batchId, owner, devices, request.commandType, now, supply.commandIds);
      var created := CreateCommands(c, supply.batchId, owner, devices, request.commandType, now, supply.commandIds).0;
      RememberBatchKeeps(created, CreateBatch(c, owner, request, now, supply).0);
    }
  }

  /** Recording the batch itself changes no command, queue or counter. */
  lemma RememberBatchKeeps(created: Coordinator, after: Coordinator)
    requires Inv(created) && BatchesKept(after)
    requires after == created.(batches := after.batches, idempotency := after.idempotency)
    ensures Inv(after)
  {
    forall d ensures QueueExact(after, d) {
      assert QueueExact(created, d);
    }
  }
}
