/** What a batch leaves behind, also when it fails in the middle: creation is not atomic over its targets. */
module CoordinatorBatches {
  import opened Prelude
  import opened Wire
  import opened CoordinatorSpec
  import opened CoordinatorInvariant
  import Js = JsText

  // ---- one target ----

  predicate Missing(c: Coordinator, owner: OwnerId, device: DeviceId) {
    device !in c.devices || c.devices[device].owner != owner
  }

  predicate Capable(c: Coordinator, owner: OwnerId, commandType: string, device: DeviceId) {
    !Missing(c, owner, device) && c.devices[device].online && commandType in c.devices[device].capabilities
  }

  /** The target gets a queued command. */
  predicate Creates(c: Coordinator, owner: OwnerId, commandType: string, device: DeviceId) {
    Capable(c, owner, commandType, device) && |QueueOf(c, device)| < 8
  }

  /** The target makes the batch throw. */
  predicate Fails(c: Coordinator, owner: OwnerId, commandType: string, device: DeviceId) {
    Missing(c, owner, device) || (Capable(c, owner, commandType, device) && |QueueOf(c, device)| >= 8)
  }

  predicate NoneFails(c: Coordinator, owner: OwnerId, commandType: string, devices: seq<DeviceId>) {
    forall i :: 0 <= i < |devices| ==> !Fails(c, owner, commandType, devices[i])
  }

  predicate FirstFailing(c: Coordinator, owner: OwnerId, commandType: string, devices: seq<DeviceId>, f: nat) {
    f < |devices| && NoneFails(c, owner, commandType, devices[..f]) && Fails(c, owner, commandType, devices[f])
  }

  predicate NoneCreates(c: Coordinator, owner: OwnerId, commandType: string, devices: seq<DeviceId>) {
    forall i :: 0 <= i < |devices| ==> !Creates(c, owner, commandType, devices[i])
  }

  lemma NoneFailsPrefix(c: Coordinator, owner: OwnerId, commandType: string, devices: seq<DeviceId>, f: nat, i: nat)
    requires i <= f <= |devices| && NoneFails(c, owner, commandType, devices[..f])
    ensures NoneFails(c, owner, commandType, devices[..i])
  {
    assert forall j: nat :: j < i ==> devices[..i][j] == devices[..f][j];
  }

  lemma NoneFailsAt(c: Coordinator, owner: OwnerId, commandType: string, devices: seq<DeviceId>, i: nat, f: nat)
    requires f < i <= |devices| && NoneFails(c, owner, commandType, devices[..i])
    ensures !Fails(c, owner, commandType, devices[f])
  {
    assert devices[..i][f] == devices[f];
  }

  // ---- the loop over the targets ----

  predicate TargetHandled(c: Coordinator, after: Coordinator, owner: OwnerId, commandType: string, device: DeviceId, id: CommandId) {
    QueueOf(after, device) == (if Creates(c, owner, commandType, device) then QueueOf(c, device) + [id] else QueueOf(c, device))
    && SequenceOf(after, device) == SequenceOf(c, device) + 1
  }

  predicate Untouched(c: Coordinator, after: Coordinator, device: DeviceId) {
    QueueOf(after, device) == QueueOf(c, device) && SequenceOf(after, device) == SequenceOf(c, device)
  }

  /** Every target got its number, and a command at the end of its queue if it is able and has room; nothing else moved. */
  ghost predicate Handled(c: Coordinator, after: Coordinator, owner: OwnerId, commandType: string, devices: seq<DeviceId>, ids: seq<CommandId>)
    requires |ids| >= |devices|
  {
    (forall i :: 0 <= i < |devices| ==> TargetHandled(c, after, owner, commandType, devices[i], ids[i]))
    && (forall d :: d !in devices ==> Untouched(c, after, d))
    && (NoneCreates(c, owner, commandType, devices) ==> after.commands == c.commands && after.queues == c.queues)
    && after.devices == c.devices && after.batches == c.batches && after.idempotency == c.idempotency
  }

  /** One more target: it is handled, and the others stay as they were. */
  ghost predicate OneMore(c: Coordinator, before: Coordinator, after: Coordinator, owner: OwnerId, commandType: string, device: DeviceId, id: CommandId) {
    TargetHandled(c, after, owner, commandType, device, id)
    && (forall d :: d != device ==> Untouched(before, after, d))
    && (!Creates(c, owner, commandType, device) ==> after.commands == before.commands && after.queues == before.queues)
    && after.devices == before.devices && after.batches == before.batches && after.idempotency == before.idempotency
  }

  lemma OneTarget(
      c: Coordinator, before: Coordinator, batchId: BatchId, owner: OwnerId, device: DeviceId, commandType: string, now: int, id: CommandId)
    requires before.devices == c.devices && Untouched(c, before, device) && !Fails(c, owner, commandType, device)
    ensures
      var (after, entry) := CreateCommand(before, batchId, owner, device, commandType, now, id);
      entry.Ok? && OneMore(c, before, after, owner, commandType, device, id)
  {
    var after := CreateCommand(before, batchId, owner, device, commandType, now, id).0;
    var counted := Count(before, device, SequenceOf(before, device) + 1);
    if Creates(c, owner, commandType, device) {
      var command := after.commands[id];
      assert after == Register(counted, command) && command.deviceId == device && command.commandId == id;
      RegisterMore(c, before, counted, command, owner, commandType);
    } else {
      assert after == counted;
    }
  }

  lemma RegisterMore(c: Coordinator, before: Coordinator, counted: Coordinator, command: Command, owner: OwnerId, commandType: string)
    requires Untouched(c, before, command.deviceId) && Creates(c, owner, commandType, command.deviceId)
    requires counted == Count(before, command.deviceId, SequenceOf(before, command.deviceId) + 1)
    ensures OneMore(c, before, Register(counted, command), owner, commandType, command.deviceId, command.commandId)
  {
  }

  lemma MoreHandled(
      c: Coordinator, before: Coordinator, after: Coordinator, owner: OwnerId, commandType: string, devices: seq<DeviceId>, ids: seq<CommandId>, n: nat)
    requires |ids| >= |devices| == n + 1 && NoDup(devices) && Handled(c, before, owner, commandType, devices[..n], ids[..n])
    requires OneMore(c, before, after, owner, commandType, devices[n], ids[n])
    ensures Handled(c, after, owner, commandType, devices, ids)
  {
    forall i | 0 <= i < n + 1 ensures TargetHandled(c, after, owner, commandType, devices[i], ids[i]) {
      if i < n {
        assert TargetHandled(c, before, owner, commandType, devices[..n][i], ids[..n][i]);
        assert Untouched(before, after, devices[i]);
      }
    }
    forall d | d !in devices ensures Untouched(c, after, d) {
      assert d !in devices[..n] && d != devices[n];
      assert Untouched(c, before, d) && Untouched(before, after, d);
    }
    if NoneCreates(c, owner, commandType, devices) {
      assert NoneCreates(c, owner, commandType, devices[..n]) by {
        assert forall i: nat :: i < n ==> devices[..n][i] == devices[i];
      }
    }
  }

  /** The loop over one target more. */
  lemma CreateLast(
      c: Coordinator, batchId: BatchId, owner: OwnerId, devices: seq<DeviceId>, commandType: string, now: int, ids: seq<CommandId>, n: nat)
    requires |ids| >= |devices| == n + 1
    ensures
      var (before, entries) := CreateCommands(c, batchId, owner, devices[..n], commandType, now, ids[..n]);
      entries.Ok? ==>
        var (after, entry) := CreateCommand(before, batchId, owner, devices[n], commandType, now, ids[n]);
        CreateCommands(c, batchId, owner, devices, commandType, now, ids)
        == (after, if entry.Err? then Err(entry.error) else Ok(entries.value + [entry.value]))
  {
  }

  /** A target behind those that were handled. */
  lemma HandlesOneMore(
      c: Coordinator, before: Coordinator, batchId: BatchId, owner: OwnerId, devices: seq<DeviceId>, commandType: string, now: int,
      ids: seq<CommandId>, n: nat)
    requires |ids| >= |devices| == n + 1 && NoDup(devices) && !Fails(c, owner, commandType, devices[n])
    requires Handled(c, before, owner, commandType, devices[..n], ids[..n])
    ensures
      var (after, entry) := CreateCommand(before, batchId, owner, devices[n], commandType, now, ids[n]);
      entry.Ok? && Handled(c, after, owner, commandType, devices, ids)
  {
    LastUntouched(c, before, owner, commandType, devices, ids, n);
    OneTarget(c, before, batchId, owner, devices[n], commandType, now, ids[n]);
    MoreHandled(c, before, CreateCommand(before, batchId, owner, devices[n], commandType, now, ids[n]).0, owner, commandType, devices, ids, n);
  }

  /** No target twice, and none that fails. */
  ghost predicate Servable(c: Coordinator, owner: OwnerId, commandType: string, devices: seq<DeviceId>) {
    NoDup(devices) && NoneFails(c, owner, commandType, devices)
  }

  lemma ServableButLast(c: Coordinator, owner: OwnerId, commandType: string, devices: seq<DeviceId>, n: nat)
    requires Servable(c, owner, commandType, devices) && |devices| == n + 1
    ensures Servable(c, owner, commandType, devices[..n]) && !Fails(c, owner, commandType, devices[n])
  {
    NoneFailsPrefix(c, owner, commandType, devices, n + 1, n);
  }

  /** The loop ends well and every target is handled. */
  ghost predicate Loop(
      c: Coordinator, result: (Coordinator, Result<seq<Entry>>), owner: OwnerId, commandType: string, devices: seq<DeviceId>, ids: seq<CommandId>)
    requires |ids| >= |devices|
  {
    result.1.Ok? && Handled(c, result.0, owner, commandType, devices, ids)
  }

  lemma {:induction false} LoopHandles(
      c: Coordinator, batchId: BatchId, owner: OwnerId, devices: seq<DeviceId>, commandType: string, now: int, ids: seq<CommandId>)
    requires |ids| >= |devices| && Servable(c, owner, commandType, devices)
    ensures Loop(c, CreateCommands(c, batchId, owner, devices, commandType, now, ids), owner, commandType, devices, ids)
    decreases |devices|
  {
    if devices != [] {
      var n := |devices| - 1;
      ServableButLast(c, owner, commandType, devices, n);
      LoopHandles(c, batchId, owner, devices[..n], commandType, now, ids[..n]);
      HandlesOneMore(c, CreateCommands(c, batchId, owner, devices[..n], commandType, now, ids[..n]).0, batchId, owner, devices, commandType, now, ids, n);
      CreateLast(c, batchId, owner, devices, commandType, now, ids, n);
    }
  }

  lemma AllHandled(
      c: Coordinator, batchId: BatchId, owner: OwnerId, devices: seq<DeviceId>, commandType: string, now: int, ids: seq<CommandId>)
    requires |ids| >= |devices| && NoDup(devices) && NoneFails(c, owner, commandType, devices)
    ensures
      var (after, entries) := CreateCommands(c, batchId, owner, devices, commandType, now, ids);
      entries.Ok? && Handled(c, after, owner, commandType, devices, ids)
  {
    LoopHandles(c, batchId, owner, devices, commandType, now, ids);
  }

  lemma LastUntouched(c: Coordinator, before: Coordinator, owner: OwnerId, commandType: string, devices: seq<DeviceId>, ids: seq<CommandId>, n: nat)
    requires n < |devices| <= |ids| && NoDup(devices) && Handled(c, before, owner, commandType, devices[..n], ids[..n])
    ensures Untouched(c, before, devices[n])
  {
  }

  lemma FailsOn(
      c: Coordinator, before: Coordinator, batchId: BatchId, owner: OwnerId, device: DeviceId, commandType: string, now: int, id: CommandId)
    requires before.devices == c.devices && Untouched(c, before, device) && Fails(c, owner, commandType, device)
    ensures
      CreateCommand(before, batchId, owner, device, commandType, now, id)
        == if Missing(c, owner, device) then (before, Err("device_not_found"))
           else (Count(before, device, SequenceOf(c, device) + 1), Err("device_command_capacity_exceeded"))
  {
  }

  /** The loop stops at the first target that fails; a full queue has used up a number. */
  lemma {:induction false} StopsAt(
      c: Coordinator, batchId: BatchId, owner: OwnerId, devices: seq<DeviceId>, commandType: string, now: int, ids: seq<CommandId>, f: nat)
    requires |ids| >= |devices| && NoDup(devices) && FirstFailing(c, owner, commandType, devices, f)
    ensures
      var before := CreateCommands(c, batchId, owner, devices[..f], commandType, now, ids[..f]).0;
      CreateCommands(c, batchId, owner, devices, commandType, now, ids)
        == if Missing(c, owner, devices[f]) then (before, Err("device_not_found"))
           else (Count(before, devices[f], SequenceOf(c, devices[f]) + 1), Err("device_command_capacity_exceeded"))
    decreases |devices|
  {
    var n := |devices| - 1;
    if f < n {
      assert devices[..n][..f] == devices[..f] && ids[..n][..f] == ids[..f];
      StopsAt(c, batchId, owner, devices[..n], commandType, now, ids[..n], f);
    } else {
      StopsAtLast(c, batchId, owner, devices, commandType, now, ids, f);
    }
  }

  lemma StopsAtLast(
      c: Coordinator, batchId: BatchId, owner: OwnerId, devices: seq<DeviceId>, commandType: string, now: int, ids: seq<CommandId>, f: nat)
    requires |ids| >= |devices| == f + 1 && NoDup(devices) && FirstFailing(c, owner, commandType, devices, f)
    ensures
      var before := CreateCommands(c, batchId, owner, devices[..f], commandType, now, ids[..f]).0;
      CreateCommands(c, batchId, owner, devices, commandType, now, ids)
        == if Missing(c, owner, devices[f]) then (before, Err("device_not_found"))
           else (Count(before, devices[f], SequenceOf(c, devices[f]) + 1), Err("device_command_capacity_exceeded"))
  {
    ServableBefore(c, owner, commandType, devices, f);
    LoopHandles(c, batchId, owner, devices[..f], commandType, now, ids[..f]);
    FailsBehind(c, CreateCommands(c, batchId, owner, devices[..f], commandType, now, ids[..f]).0, batchId, owner, devices, commandType, now, ids, f);
    CreateLast(c, batchId, owner, devices, commandType, now, ids, f);
  }

  lemma ServableBefore(c: Coordinator, owner: OwnerId, commandType: string, devices: seq<DeviceId>, f: nat)
    requires NoDup(devices) && FirstFailing(c, owner, commandType, devices, f)
    ensures Servable(c, owner, commandType, devices[..f])
  {
  }

  lemma FailsBehind(
      c: Coordinator, before: Coordinator, batchId: BatchId, owner: OwnerId, devices: seq<DeviceId>, commandType: string, now: int,
      ids: seq<CommandId>, f: nat)
    requires f < |devices| <= |ids| && NoDup(devices) && Fails(c, owner, commandType, devices[f])
    requires Handled(c, before, owner, commandType, devices[..f], ids[..f])
    ensures
      CreateCommand(before, batchId, owner, devices[f], commandType, now, ids[f])
        == if Missing(c, owner, devices[f]) then (before, Err("device_not_found"))
           else (Count(before, devices[f], SequenceOf(c, devices[f]) + 1), Err("device_command_capacity_exceeded"))
  {
    LastUntouched(c, before, owner, commandType, devices, ids, f);
    FailsOn(c, before, batchId, owner, devices[f], commandType, now, ids[f]);
  }

  // ---- the whole batch ----

  /** The call gets to the loop: its targets are valid and its key is new. */
  predicate Loops(c: Coordinator, owner: OwnerId, request: Request) {
    ValidTargets(request) && (owner, request.idempotencyKey) !in c.idempotency
  }

  lemma {:induction false} FindFirst(c: Coordinator, owner: OwnerId, commandType: string, devices: seq<DeviceId>) returns (f: nat)
    requires !NoneFails(c, owner, commandType, devices)
    ensures FirstFailing(c, owner, commandType, devices, f)
    decreases |devices|
  {
    var n := |devices| - 1;
    if NoneFails(c, owner, commandType, devices[..n]) {
      f := n;
      assert forall i :: 0 <= i < n ==> devices[i] == devices[..n][i];
    } else {
      f := FindFirst(c, owner, commandType, devices[..n]);
      assert devices[..n][..f] == devices[..f];
    }
  }

  lemma TargetsDistinct(request: Request)
    requires ValidTargets(request)
    ensures NoDup(TargetsOf(request)) && |TargetsOf(request)| == |request.deviceIds| && Elements(TargetsOf(request)) == Elements(request.deviceIds)
  {
    UniqueElements(request.deviceIds);
    Js.SortNoDup(Unique(request.deviceIds));
  }

  /** A new batch fails exactly when some target is not the owner's, or is able and has no room. */
  lemma BatchFailsIff(c: Coordinator, owner: OwnerId, request: Request, now: int, supply: Supply)
    requires |supply.commandIds| >= |request.deviceIds| && Loops(c, owner, request)
    ensures CreateBatch(c, owner, request, now, supply).1.Err? <==> !NoneFails(c, owner, request.commandType, TargetsOf(request))
  {
    var devices := TargetsOf(request);
    TargetsDistinct(request);
    if NoneFails(c, owner, request.commandType, devices) {
      AllHandled(c, supply.batchId, owner, devices, request.commandType, now, supply.commandIds);
    } else {
      var f := FindFirst(c, owner, request.commandType, devices);
      StopsAt(c, supply.batchId, owner, devices, request.commandType, now, supply.commandIds, f);
    }
  }

  /** The targets before the f-th are served as if the batch had succeeded; a full f-th target has used up a number; nothing else moved. */
  ghost predicate StoppedAt(c: Coordinator, after: Coordinator, owner: OwnerId, commandType: string, devices: seq<DeviceId>, ids: seq<CommandId>, f: nat)
    requires f < |devices| <= |ids|
  {
    (forall i :: 0 <= i < f ==> TargetHandled(c, after, owner, commandType, devices[i], ids[i]))
    && (forall d :: d !in devices[..f + 1] ==> Untouched(c, after, d))
    && QueueOf(after, devices[f]) == QueueOf(c, devices[f])
    && SequenceOf(after, devices[f]) == SequenceOf(c, devices[f]) + (if Missing(c, owner, devices[f]) then 0 else 1)
    && (NoneCreates(c, owner, commandType, devices[..f]) ==> after.commands == c.commands && after.queues == c.queues)
    && after.devices == c.devices && after.batches == c.batches && after.idempotency == c.idempotency
  }

  lemma LeavesStopped(
      c: Coordinator, before: Coordinator, after: Coordinator, owner: OwnerId, commandType: string, devices: seq<DeviceId>, ids: seq<CommandId>, f: nat)
    requires f < |devices| <= |ids| && NoDup(devices) && Handled(c, before, owner, commandType, devices[..f], ids[..f])
    requires after == if Missing(c, owner, devices[f]) then before else Count(before, devices[f], SequenceOf(c, devices[f]) + 1)
    ensures StoppedAt(c, after, owner, commandType, devices, ids, f)
  {
    forall i | 0 <= i < f ensures TargetHandled(c, after, owner, commandType, devices[i], ids[i]) {
      assert TargetHandled(c, before, owner, commandType, devices[..f][i], ids[..f][i]);
    }
    forall d | d !in devices[..f + 1] ensures Untouched(c, after, d) {
      assert devices[..f + 1] == devices[..f] + [devices[f]];
      assert Untouched(c, before, d);
    }
    assert Untouched(c, before, devices[f]);
  }

  /** A batch is refused for its targets exactly when there are none, more than a hundred, or one of them twice. */
  lemma TargetsRefusedIff(c: Coordinator, owner: OwnerId, request: Request, now: int, supply: Supply)
    requires |supply.commandIds| >= |request.deviceIds|
    ensures CreateBatch(c, owner, request, now, supply).1 == Err("command_targets_invalid")
       <==> |request.deviceIds| == 0 || |request.deviceIds| > 100 || !NoDup(request.deviceIds)
  {
    UniqueElements(request.deviceIds);
    if Loops(c, owner, request) {
      var devices := TargetsOf(request);
      TargetsDistinct(request);
      if !NoneFails(c, owner, request.commandType, devices) {
        var f := FindFirst(c, owner, request.commandType, devices);
        StopsAt(c, supply.batchId, owner, devices, request.commandType, now, supply.commandIds, f);
      } else {
        AllHandled(c, supply.batchId, owner, devices, request.commandType, now, supply.commandIds);
      }
    }
  }

  /** What a failing batch leaves: it stops at the first target that fails, and neither batch nor key is recorded. */
  lemma FailedBatchLeaves(c: Coordinator, owner: OwnerId, request: Request, now: int, supply: Supply, f: nat)
    requires |supply.commandIds| >= |request.deviceIds| && Loops(c, owner, request)
    requires FirstFailing(c, owner, request.commandType, TargetsOf(request), f)
    ensures
      var (after, result) := CreateBatch(c, owner, request, now, supply);
      |TargetsOf(request)| <= |supply.commandIds| && result.Err?
      && StoppedAt(c, after, owner, request.commandType, TargetsOf(request), supply.commandIds, f)
  {
    var devices, ids := TargetsOf(request), supply.commandIds;
    TargetsDistinct(request);
    AllHandled(c, supply.batchId, owner, devices[..f], request.commandType, now, ids[..f]);
    StopsAt(c, supply.batchId, owner, devices, request.commandType, now, ids, f);
    var before := CreateCommands(c, supply.batchId, owner, devices[..f], request.commandType, now, ids[..f]).0;
    LeavesStopped(c, before, CreateBatch(c, owner, request, now, supply).0, owner, request.commandType, devices, ids, f);
  }

  /** Some target that the loop reaches gets a command. */
  predicate CreatesBeforeFailing(c: Coordinator, owner: OwnerId, request: Request) {
    Loops(c, owner, request)
    && exists i :: 0 <= i < |TargetsOf(request)| && Creates(c, owner, request.commandType, TargetsOf(request)[i])
                   && NoneFails(c, owner, request.commandType, TargetsOf(request)[..i])
  }

  /**
   * A failing batch leaves commands and queues alone exactly when no target before the first that fails can get a command, and the
   * whole coordinator exactly when it is refused before its loop or its first target is not the owner's.
   */
  lemma FailedBatchKeepsIff(c: Coordinator, owner: OwnerId, request: Request, now: int, supply: Supply)
    requires |supply.commandIds| >= |request.deviceIds| && CreateBatch(c, owner, request, now, supply).1.Err?
    ensures
      var after := CreateBatch(c, owner, request, now, supply).0;
      (after.commands == c.commands && after.queues == c.queues <==> !CreatesBeforeFailing(c, owner, request))
      && (after == c <==> !Loops(c, owner, request) || (TargetsOf(request) != [] && Missing(c, owner, TargetsOf(request)[0])))
  {
    if Loops(c, owner, request) {
      var devices := TargetsOf(request);
      BatchFailsIff(c, owner, request, now, supply);
      var f := FindFirst(c, owner, request.commandType, devices);
      FailedBatchLeaves(c, owner, request, now, supply, f);
      StoppedKeepsIff(c, CreateBatch(c, owner, request, now, supply).0, owner, request, supply.commandIds, f);
      StoppedSameIff(c, owner, request, now, supply, f);
    }
  }

  lemma StoppedKeepsIff(c: Coordinator, after: Coordinator, owner: OwnerId, request: Request, ids: seq<CommandId>, f: nat)
    requires Loops(c, owner, request) && |ids| >= |TargetsOf(request)| && FirstFailing(c, owner, request.commandType, TargetsOf(request), f)
    requires StoppedAt(c, after, owner, request.commandType, TargetsOf(request), ids, f)
    ensures after.commands == c.commands && after.queues == c.queues <==> !CreatesBeforeFailing(c, owner, request)
  {
    var devices := TargetsOf(request);
    if CreatesBeforeFailing(c, owner, request) {
      var i :| 0 <= i < |devices| && Creates(c, owner, request.commandType, devices[i]) && NoneFails(c, owner, request.commandType, devices[..i]);
      if f < i {
        NoneFailsAt(c, owner, request.commandType, devices, i, f);
      }
      assert i != f;
      assert TargetHandled(c, after, owner, request.commandType, devices[i], ids[i]);
      assert |QueueOf(after, devices[i])| == |QueueOf(c, devices[i])| + 1;
    } else {
      forall i | 0 <= i < f ensures !Creates(c, owner, request.commandType, devices[..f][i]) {
        NoneFailsPrefix(c, owner, request.commandType, devices, f, i);
      }
      assert NoneCreates(c, owner, request.commandType, devices[..f]);
    }
  }

  lemma StoppedSameIff(c: Coordinator, owner: OwnerId, request: Request, now: int, supply: Supply, f: nat)
    requires |supply.commandIds| >= |request.deviceIds| && Loops(c, owner, request)
    requires FirstFailing(c, owner, request.commandType, TargetsOf(request), f)
    ensures CreateBatch(c, owner, request, now, supply).0 == c <==> Missing(c, owner, TargetsOf(request)[0])
  {
    var devices := TargetsOf(request);
    TargetsDistinct(request);
    FailedBatchLeaves(c, owner, request, now, supply, f);
    StopsAt(c, supply.batchId, owner, devices, request.commandType, now, supply.commandIds, f);
    if f > 0 {
      assert devices[..f][0] == devices[0];
      assert TargetHandled(c, CreateBatch(c, owner, request, now, supply).0, owner, request.commandType, devices[0], supply.commandIds[0]);
    }
  }

  // ---- what a batch that succeeds holds ----

  /** Everything about a new command but its status and error. */
  predicate IdentityFor(
      c: Coordinator, command: Command, batchId: BatchId, owner: OwnerId, device: DeviceId, commandType: string, now: int, id: CommandId)
  {
    command.batchId == batchId && command.commandId == id && command.commandType == commandType && command.createdAt == now
    && command.deviceId == device && command.expiresAt == now + 30_000 && command.owner == owner
    && command.sequence == SequenceOf(c, device) + 1
  }

  /** The entry of one target: a waiting command if the device is online and able, and otherwise one that has failed and that only
      the batch holds. */
  predicate EntryFor(
      c: Coordinator, after: Coordinator, entry: Entry, batchId: BatchId, owner: OwnerId, device: DeviceId, commandType: string,
      now: int, id: CommandId)
  {
    if Capable(c, owner, commandType, device) then
      entry == Registered(id) && id in after.commands
      && IdentityFor(c, after.commands[id], batchId, owner, device, commandType, now, id)
      && after.commands[id].status == CommandStatus.Created && after.commands[id].errorCode == None
    else
      entry.Refused? && IdentityFor(c, entry.command, batchId, owner, device, commandType, now, id)
      && entry.command.status == CommandStatus.Failed
      && entry.command.errorCode
         == Some(if device in c.devices && c.devices[device].online then ErrorCode.Unsupported else ErrorCode.DeviceOffline)
  }

  ghost predicate EntriesFor(
      c: Coordinator, after: Coordinator, entries: seq<Entry>, batchId: BatchId, owner: OwnerId, devices: seq<DeviceId>,
      commandType: string, now: int, ids: seq<CommandId>)
    requires |ids| >= |devices|
  {
    |entries| == |devices|
    && forall i :: 0 <= i < |devices| ==> EntryFor(c, after, entries[i], batchId, owner, devices[i], commandType, now, ids[i])
  }

  lemma OneEntry(
      c: Coordinator, before: Coordinator, batchId: BatchId, owner: OwnerId, device: DeviceId, commandType: string, now: int, id: CommandId)
    requires before.devices == c.devices && Untouched(c, before, device) && !Fails(c, owner, commandType, device)
    ensures
      var (after, entry) := CreateCommand(before, batchId, owner, device, commandType, now, id);
      entry.Ok? && EntryFor(c, after, entry.value, batchId, owner, device, commandType, now, id)
  {
  }

  lemma EntryStays(
      c: Coordinator, before: Coordinator, after: Coordinator, entry: Entry, batchId: BatchId, owner: OwnerId, device: DeviceId,
      commandType: string, now: int, id: CommandId)
    requires EntryFor(c, before, entry, batchId, owner, device, commandType, now, id) && Grows(before, after)
    ensures EntryFor(c, after, entry, batchId, owner, device, commandType, now, id)
  {
  }

  lemma MoreEntries(
      c: Coordinator, before: Coordinator, after: Coordinator, entries: seq<Entry>, entry: Entry, batchId: BatchId, owner: OwnerId,
      devices: seq<DeviceId>, commandType: string, now: int, ids: seq<CommandId>, n: nat)
    requires |ids| >= |devices| == n + 1 && Grows(before, after)
    requires EntriesFor(c, before, entries, batchId, owner, devices[..n], commandType, now, ids[..n])
    requires EntryFor(c, after, entry, batchId, owner, devices[n], commandType, now, ids[n])
    ensures EntriesFor(c, after, entries + [entry], batchId, owner, devices, commandType, now, ids)
  {
    forall i | 0 <= i < n + 1
      ensures EntryFor(c, after, (entries + [entry])[i], batchId, owner, devices[i], commandType, now, ids[i])
    {
      if i < n {
        assert EntryFor(c, before, entries[i], batchId, owner, devices[..n][i], commandType, now, ids[..n][i]);
        EntryStays(c, before, after, entries[i], batchId, owner, devices[i], commandType, now, ids[i]);
      }
    }
  }

  /** The entry of a target behind those that were handled. */
  lemma EntryBehind(
      c: Coordinator, before: Coordinator, entries: seq<Entry>, batchId: BatchId, owner: OwnerId, devices: seq<DeviceId>, commandType: string,
      now: int, ids: seq<CommandId>, n: nat)
    requires |ids| >= |devices| == n + 1 && NoDup(devices) && !Fails(c, owner, commandType, devices[n]) && ids[n] !in before.commands
    requires Handled(c, before, owner, commandType, devices[..n], ids[..n])
    requires EntriesFor(c, before, entries, batchId, owner, devices[..n], commandType, now, ids[..n])
    ensures
      var (after, entry) := CreateCommand(before, batchId, owner, devices[n], commandType, now, ids[n]);
      entry.Ok? && EntriesFor(c, after, entries + [entry.value], batchId, owner, devices, commandType, now, ids)
  {
    var (after, entry) := CreateCommand(before, batchId, owner, devices[n], commandType, now, ids[n]);
    LastUntouched(c, before, owner, commandType, devices, ids, n);
    OneEntry(c, before, batchId, owner, devices[n], commandType, now, ids[n]);
    CreateCommandOutcome(before, batchId, owner, devices[n], commandType, now, ids[n]);
    MoreEntries(c, before, after, entries, entry.value, batchId, owner, devices, commandType, now, ids, n);
  }

  lemma {:induction false} AllEntries(
      c: Coordinator, batchId: BatchId, owner: OwnerId, devices: seq<DeviceId>, commandType: string, now: int, ids: seq<CommandId>)
    requires Inv(c) && FreshIds(c, ids) && |ids| >= |devices| && Servable(c, owner, commandType, devices)
    ensures
      var (after, entries) := CreateCommands(c, batchId, owner, devices, commandType, now, ids);
      entries.Ok? && EntriesFor(c, after, entries.value, batchId, owner, devices, commandType, now, ids)
    decreases |devices|
  {
    if devices != [] {
      var n := |devices| - 1;
      ServableButLast(c, owner, commandType, devices, n);
      FreshPrefix(c, ids, n);
      StillFresh(c, batchId, owner, devices, commandType, now, ids, n);
      AllEntries(c, batchId, owner, devices[..n], commandType, now, ids[..n]);
      LoopHandles(c, batchId, owner, devices[..n], commandType, now, ids[..n]);
      var (before, entries) := CreateCommands(c, batchId, owner, devices[..n], commandType, now, ids[..n]);
      EntryBehind(c, before, entries.value, batchId, owner, devices, commandType, now, ids, n);
      CreateLast(c, batchId, owner, devices, commandType, now, ids, n);
    }
  }

  lemma StillFresh(
      c: Coordinator, batchId: BatchId, owner: OwnerId, devices: seq<DeviceId>, commandType: string, now: int, ids: seq<CommandId>, n: nat)
    requires Inv(c) && FreshIds(c, ids) && n < |devices| <= |ids|
    ensures ids[n] !in CreateCommands(c, batchId, owner, devices[..n], commandType, now, ids[..n]).0.commands
  {
    FreshPrefix(c, ids, n);
    CreateCommandsKeeps(c, batchId, owner, devices[..n], commandType, now, ids[..n]);
    assert ids[..n][..n] == ids[..n];
  }

  /** A batch that succeeds is stored under its id and key, with one entry per target, each for its own device and with its own
      sequence, and every command as it was asked for. */
  lemma BatchHolds(c: Coordinator, owner: OwnerId, request: Request, now: int, supply: Supply)
    requires Inv(c) && |supply.commandIds| >= |request.deviceIds| && FreshIds(c, supply.commandIds)
    requires Loops(c, owner, request) && NoneFails(c, owner, request.commandType, TargetsOf(request))
    ensures
      var (after, result) := CreateBatch(c, owner, request, now, supply);
      |supply.commandIds| >= |TargetsOf(request)| && result.Ok?
      && result.value.batchId == supply.batchId && result.value.owner == owner && result.value.createdAt == now
      && result.value.digest == Digest(request.commandType, TargetsOf(request))
      && EntriesFor(c, after, result.value.entries, supply.batchId, owner, TargetsOf(request), request.commandType, now, supply.commandIds)
      && after.batches == c.batches[supply.batchId := result.value]
      && after.idempotency == c.idempotency[(owner, request.idempotencyKey) := supply.batchId]
  {
    var devices := TargetsOf(request);
    TargetsDistinct(request);
    AllEntries(c, supply.batchId, owner, devices, request.commandType, now, supply.commandIds);
    AllHandled(c, supply.batchId, owner, devices, request.commandType, now, supply.commandIds);
    var (created, entries) := CreateCommands(c, supply.batchId, owner, devices, request.commandType, now, supply.commandIds);
    SameEntries(c, created, CreateBatch(c, owner, request, now, supply).0, entries.value, supply.batchId, owner, devices, request.commandType, now,
                supply.commandIds);
  }

  lemma SameEntries(
      c: Coordinator, created: Coordinator, after: Coordinator, entries: seq<Entry>, batchId: BatchId, owner: OwnerId,
      devices: seq<DeviceId>, commandType: string, now: int, ids: seq<CommandId>)
    requires |ids| >= |devices| && EntriesFor(c, created, entries, batchId, owner, devices, commandType, now, ids)
    requires after.commands == created.commands
    ensures EntriesFor(c, after, entries, batchId, owner, devices, commandType, now, ids)
  {
    forall i | 0 <= i < |devices| ensures EntryFor(c, after, entries[i], batchId, owner, devices[i], commandType, now, ids[i]) {
      assert EntryFor(c, created, entries[i], batchId, owner, devices[i], commandType, now, ids[i]);
    }
  }

  // ---- a failing batch that queues a command ----

  const A: DeviceId := [65]
  const B: DeviceId := [66]

  /** The owner has one device, A, online and able to do what is asked; B is nobody's. */
  const ONE_DEVICE: Coordinator := EMPTY.(devices := map[A := Device({"ping"}, A, true, "owner")])
  const BOTH: Request := Request("ping", [B, A], "key")

  lemma BothSorted()
    ensures Js.Sorted([A, B])
  {
    assert Js.Less(A, B) && !Js.Less(B, A);
  }

  lemma BothUnique()
    ensures Unique(BOTH.deviceIds) == [B, A]
  {
    assert A != B && NoDup([B, A]);
    UniqueElements([B, A]);
  }

  lemma TargetsOfBoth()
    ensures ValidTargets(BOTH) && TargetsOf(BOTH) == [A, B]
  {
    BothUnique();
    Js.SortSorts([B, A]);
    BothSorted();
    assert multiset([B, A]) == multiset([A, B]);
    Js.SortedUnique(TargetsOf(BOTH), [A, B]);
  }

  lemma BothFails(c: Coordinator, now: int, supply: Supply)
    requires c.devices == ONE_DEVICE.devices && c.idempotency == map[] && |QueueOf(c, A)| < MAX_QUEUED && |supply.commandIds| == 2
    ensures
      var (after, result) := CreateBatch(c, "owner", BOTH, now, supply);
      result == Err("device_not_found") && QueueOf(after, A) == QueueOf(c, A) + [supply.commandIds[0]]
      && after.devices == c.devices && after.batches == c.batches && after.idempotency == map[]
  {
    TargetsOfBoth();
    var devices := TargetsOf(BOTH);
    assert devices[..1] == [A];
    assert FirstFailing(c, "owner", "ping", devices, 1);
    FailedBatchLeaves(c, "owner", BOTH, now, supply, 1);
    TargetsDistinct(BOTH);
    StopsAt(c, supply.batchId, "owner", devices, "ping", now, supply.commandIds, 1);
    var after := CreateBatch(c, "owner", BOTH, now, supply).0;
    assert TargetHandled(c, after, "owner", "ping", devices[0], supply.commandIds[0]);
  }

  /** The batch fails because B is unknown and leaves a command queued for A; a retry under the same key leaves a second one. */
  lemma FailedBatchQueues(now: int, later: int)
    ensures
      var (after, result) := CreateBatch(ONE_DEVICE, "owner", BOTH, now, Supply("batch", ["first", "unused"]));
      var (end, retried) := CreateBatch(after, "owner", BOTH, later, Supply("retry", ["second", "unused too"]));
      result == retried == Err("device_not_found") && QueueOf(after, A) == ["first"] && QueueOf(end, A) == ["first", "second"]
      && end.batches == map[]
  {
    BothFails(ONE_DEVICE, now, Supply("batch", ["first", "unused"]));
    var after := CreateBatch(ONE_DEVICE, "owner", BOTH, now, Supply("batch", ["first", "unused"])).0;
    BothFails(after, later, Supply("retry", ["second", "unused too"]));
  }
}
