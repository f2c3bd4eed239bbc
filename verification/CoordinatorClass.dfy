/** The coordinator as the stateful object the server keeps. */
module CommandCoordinators {
  import opened Prelude
  import opened Wire
  import opened CoordinatorSpec
  import opened CoordinatorOutcomes
  import Kept = CoordinatorInvariant
  import LedgerSpec
  import Js = JsText

  class CommandCoordinator {
    var batches: map<BatchId, Batch>
    var commands: map<CommandId, Command>
    var inserted: seq<CommandId>
    var devices: map<DeviceId, Device>
    var idempotency: map<(OwnerId, string), BatchId>
    var queues: map<DeviceId, seq<CommandId>>
    var sequences: map<DeviceId, nat>

    constructor ()
      ensures View() == EMPTY
    {
      batches, commands, inserted, devices, idempotency, queues, sequences := map[], map[], [], map[], map[], map[], map[];
    }

    function View(): Coordinator
      reads this
    {
      Coordinator(batches, commands, inserted, devices, idempotency, queues, sequences)
    }

    method UpsertDevice(device: Device)
      modifies this
      ensures View() == CoordinatorSpec.UpsertDevice(old(View()), device)
    {
      devices := devices[device.id := device];
    }

    method CreateBatch(owner: OwnerId, request: Request, now: int, supply: Supply) returns (result: Result<Batch>)
      requires |supply.commandIds| >= |request.deviceIds|
      modifies this
      ensures (View(), result) == CoordinatorSpec.CreateBatch(old(View()), owner, request, now, supply)
    {
      var unique := Unique(request.deviceIds);
      if |unique| == 0 || |unique| > MAX_TARGETS || |unique| != |request.deviceIds| {
        return Err("command_targets_invalid");
      }
      var targets := Js.Sort(unique);
      UniqueSize(request.deviceIds);
      var digest := DigestOf(request);
      var key := (owner, request.idempotencyKey);
      if key in idempotency {
        if idempotency[key] !in batches {
          return Err("command_state_invalid");
        }
        var existing := batches[idempotency[key]];
        if existing.digest != digest {
          return Err("idempotency_conflict");
        }
        return Ok(existing);
      }
      var entries := CreateTargets(supply.batchId, owner, targets, request.commandType, now, supply.commandIds);
      if entries.Err? {
        return Err(entries.error);
      }
      var batch := Batch(supply.batchId, entries.value, now, owner, digest);
      batches := batches[supply.batchId := batch];
      idempotency := idempotency[key := supply.batchId];
      result := Ok(batch);
    }

    method CreateTargets(batchId: BatchId, owner: OwnerId, targets: seq<DeviceId>, commandType: string, now: int, ids: seq<CommandId>)
      returns (result: Result<seq<Entry>>)
      requires |ids| >= |targets|
      modifies this
      ensures (View(), result) == CreateCommands(old(View()), batchId, owner, targets, commandType, now, ids)
    {
      var entries: seq<Entry> := [];
      ghost var start := View();
      for i := 0 to |targets|
        invariant (View(), Ok(entries)) == CreateCommands(start, batchId, owner, targets[..i], commandType, now, ids[..i])
        invariant |entries| == i
      {
        assert targets[..i + 1][..i] == targets[..i] && ids[..i + 1][..i] == ids[..i];
        var entry := CreateCommand(batchId, owner, targets[i], commandType, now, ids[i]);
        if entry.Err? {
          CreateStopsEarly(start, batchId, owner, targets, commandType, now, ids, i + 1);
          return Err(entry.error);
        }
        entries := entries + [entry.value];
      }
      CreateUsesPrefix(start, batchId, owner, targets, commandType, now, ids);
      assert targets[..|targets|] == targets;
      result := Ok(entries);
    }

    method CreateCommand(batchId: BatchId, owner: OwnerId, device: DeviceId, commandType: string, now: int, id: CommandId)
      returns (result: Result<Entry>)
      modifies this
      ensures (View(), result) == CoordinatorSpec.CreateCommand(old(View()), batchId, owner, device, commandType, now, id)
    {
      if device !in devices || devices[device].owner != owner {
        return Err("device_not_found");
      }
      var sequence := (if device in sequences then sequences[device] else 0) + 1;
      sequences := sequences[device := sequence];
      var base := Command(batchId, id, commandType, now, device, None, now + LIFETIME_MILLISECONDS, owner, sequence, Created);
      if !devices[device].online {
        return Ok(Refused(base.(errorCode := Some(DeviceOffline), status := Failed)));
      }
      if commandType !in devices[device].capabilities {
        return Ok(Refused(base.(errorCode := Some(Unsupported), status := Failed)));
      }
      var queue := if device in queues then queues[device] else [];
      if |queue| >= MAX_QUEUED {
        return Err("device_command_capacity_exceeded");
      }
      queues := queues[device := queue + [id]];
      if id !in commands {
        inserted := inserted + [id];
      }
      commands := commands[id := base];
      result := Ok(Registered(id));
    }

    method DispatchNext(device: DeviceId) returns (next: Option<CommandId>)
      modifies this
      ensures (View(), next) == CoordinatorSpec.DispatchNext(old(View()), device)
    {
      var queue := if device in queues then queues[device] else [];
      var i := 0;
      while i < |queue| && !(queue[i] in commands && !IsTerminal(commands[queue[i]].status))
        invariant i <= |queue|
        invariant FirstLive(View(), queue) == FirstLive(View(), queue[i..])
      {
        i := i + 1;
      }
      if i == |queue| {
        return None;
      }
      next := Some(queue[i]);
      if commands[queue[i]].status == Created {
        var _ := Transition(queue[i], Sent, None);
      }
    }

    method Restore(command: Command)
      modifies this
      ensures View() == CoordinatorSpec.Restore(old(View()), command)
    {
      if command.commandId in commands {
        return;
      }
      var device := command.deviceId;
      commands := commands[command.commandId := command];
      inserted := inserted + [command.commandId];
      sequences := sequences[device := Max(if device in sequences then sequences[device] else 0, command.sequence)];
      if !IsTerminal(command.status) {
        var queue := (if device in queues then queues[device] else []) + [command.commandId];
        queues := queues[device := SortBySequence(queue, commands)];
      }
    }

    method RestoreDeviceSequence(device: DeviceId, sequence: int) returns (result: Result<()>)
      modifies this
      ensures (View(), result) == CoordinatorSpec.RestoreDeviceSequence(old(View()), device, sequence)
    {
      if !(1 <= sequence <= MAX_SAFE) {
        return Err("command_record_invalid");
      }
      sequences := sequences[device := Max(if device in sequences then sequences[device] else 0, sequence)];
      result := Ok(());
    }

    method HandleAgentResult(device: DeviceId, id: CommandId, status: CommandStatus, error: Option<ErrorCode>)
      returns (result: Result<CommandId>)
      modifies this
      ensures (View(), result) == CoordinatorSpec.HandleAgentResult(old(View()), device, id, status, error)
      ensures Kept.Inv(old(View())) ==>
                if id in old(commands) && old(commands)[id].deviceId == device
                then ChangeOutcome(old(View()), id, status, error, View(), result)
                else View() == old(View()) && result == Err("command_not_found")
    {
      if id !in commands || commands[id].deviceId != device {
        return Err("command_not_found");
      }
      result := Transition(id, status, error);
    }

    method Transition(id: CommandId, next: CommandStatus, error: Option<ErrorCode>) returns (result: Result<CommandId>)
      modifies this
      ensures (View(), result) == CoordinatorSpec.Transition(old(View()), id, next, error)
      ensures Kept.Inv(old(View())) ==> ChangeOutcome(old(View()), id, next, error, View(), result)
    {
      if Kept.Inv(View()) {
        TransitionIff(View(), id, next, error);
      }
      if id !in commands {
        return Err("command_not_found");
      }
      var command := commands[id];
      if next !in Transitions(command.status) {
        return if command.status == next then Ok(id) else Err("command_transition_invalid");
      }
      commands := commands[id := command.(status := next, errorCode := error)];
      if IsTerminal(next) && command.deviceId in queues {
        queues := queues[command.deviceId := LedgerSpec.Without(queues[command.deviceId], id)];
      }
      result := Ok(id);
    }

    method Expire(now: int) returns (result: Result<seq<CommandId>>)
      modifies this
      ensures (View(), result) == CoordinatorSpec.Expire(old(View()), now)
    {
      ghost var start := View();
      var ids := inserted;
      var expired: seq<CommandId> := [];
      assert ids[0..] == ids;
      assert forall s: seq<CommandId> :: expired + s == s;
      for i := 0 to |ids|
        invariant ExpireFrom(start, ids, now).0 == ExpireFrom(View(), ids[i..], now).0
        invariant var rest := ExpireFrom(View(), ids[i..], now).1;
                  ExpireFrom(start, ids, now).1 == if rest.Err? then rest else Ok(expired + rest.value)
      {
        var id := ids[i];
        if id in commands && !IsTerminal(commands[id].status) && commands[id].expiresAt <= now {
          ghost var rest := ExpireFrom(CoordinatorSpec.Transition(View(), id, Expired, None).0, ids[i..][1..], now).1;
          assert rest.Ok? ==> expired + ([id] + rest.value) == (expired + [id]) + rest.value;
          var moved := Transition(id, Expired, None);
          if moved.Err? {
            return Err(moved.error);
          }
          expired := expired + [id];
        }
      }
      assert ids[|ids|..] == [] && expired + [] == expired;
      result := Ok(expired);
    }
  }

  lemma {:induction false} CreateStopsEarly(
      c: Coordinator, batchId: BatchId, owner: OwnerId, devices: seq<DeviceId>, commandType: string, now: int, ids: seq<CommandId>, n: nat)
    requires |ids| >= |devices| >= n
    requires CreateCommands(c, batchId, owner, devices[..n], commandType, now, ids[..n]).1.Err?
    ensures CreateCommands(c, batchId, owner, devices, commandType, now, ids)
         == CreateCommands(c, batchId, owner, devices[..n], commandType, now, ids[..n])
    decreases |devices|
  {
    var m := |devices| - 1;
    if n <= m {
      assert devices[..m][..n] == devices[..n] && ids[..m][..n] == ids[..n];
      CreateStopsEarly(c, batchId, owner, devices[..m], commandType, now, ids[..m], n);
    } else {
      assert devices[..n] == devices;
      CreateUsesPrefix(c, batchId, owner, devices, commandType, now, ids);
    }
  }

  lemma CreateUsesPrefix(
      c: Coordinator, batchId: BatchId, owner: OwnerId, devices: seq<DeviceId>, commandType: string, now: int, ids: seq<CommandId>)
    requires |ids| >= |devices|
    ensures CreateCommands(c, batchId, owner, devices, commandType, now, ids)
         == CreateCommands(c, batchId, owner, devices, commandType, now, ids[..|devices|])
  {
    if devices != [] {
      assert ids[..|devices|][..|devices| - 1] == ids[..|devices| - 1];
    }
  }
}
