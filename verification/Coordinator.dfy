/** The server's per-device command queues, as values. */
module CoordinatorSpec {
  import opened Prelude
  import opened Wire
  import LedgerSpec
  import Js = JsText

  type CommandId = LedgerSpec.CommandId
  type DeviceId = Js.Text
  type OwnerId = string
  type BatchId = string

  datatype ErrorCode = DeviceOffline | Unsupported | Reported(code: string)

  datatype Device = Device(capabilities: set<string>, id: DeviceId, online: bool, owner: OwnerId)

  datatype Command = Command(
    batchId: BatchId, commandId: CommandId, commandType: string, createdAt: int, deviceId: DeviceId,
    errorCode: Option<ErrorCode>, expiresAt: int, owner: OwnerId, sequence: nat, status: CommandStatus)

  /** A batch holds the command objects themselves: a registered command is shared with the command table,
      a refused one exists only here. */
  datatype Entry = Registered(commandId: CommandId) | Refused(command: Command)

  /** An ideal digest: the canonical request itself. */
  datatype Digest = Digest(commandType: string, deviceIds: seq<DeviceId>)

  datatype Batch = Batch(batchId: BatchId, entries: seq<Entry>, createdAt: int, owner: OwnerId, digest: Digest)

  datatype Request = Request(commandType: string, deviceIds: seq<DeviceId>, idempotencyKey: string)

  /** `inserted` is the iteration order of the command table. */
  datatype Coordinator = Coordinator(
    batches: map<BatchId, Batch>,
    commands: map<CommandId, Command>,
    inserted: seq<CommandId>,
    devices: map<DeviceId, Device>,
    idempotency: map<(OwnerId, string), BatchId>,
    queues: map<DeviceId, seq<CommandId>>,
    sequences: map<DeviceId, nat>)

  const EMPTY := Coordinator(map[], map[], [], map[], map[], map[], map[])

  const MAX_QUEUED := 8
  const MAX_TARGETS := 100
  const LIFETIME_MILLISECONDS := 30_000
  const MAX_SAFE := 0x1F_FFFF_FFFF_FFFF

  predicate IsTerminal(status: CommandStatus) {
    status.Succeeded? || status.Failed? || status.Expired? || status.OutcomeUnknown?
  }

  function Transitions(status: CommandStatus): set<CommandStatus> {
    match status
    case Created => {Sent, Failed, Expired}
    case Sent => {Accepted, Failed, Expired}
    case Accepted => {Executing, Failed, Expired}
    case Executing => {Succeeded, Failed, OutcomeUnknown}
    case _ => {}
  }

  function QueueOf(c: Coordinator, device: DeviceId): seq<CommandId> {
    if device in c.queues then c.queues[device] else []
  }

  function SequenceOf(c: Coordinator, device: DeviceId): nat {
    if device in c.sequences then c.sequences[device] else 0
  }

  function Max(a: nat, b: nat): nat {
    if a < b then b else a
  }

  // ---- operations ----

  function UpsertDevice(c: Coordinator, device: Device): Coordinator {
    c.(devices := c.devices[device.id := device])
  }

  function DropFromQueue(c: Coordinator, device: DeviceId, id: CommandId): Coordinator {
    if device in c.queues then c.(queues := c.queues[device := LedgerSpec.Without(c.queues[device], id)]) else c
  }

  function SetStatus(c: Coordinator, id: CommandId, next: CommandStatus, error: Option<ErrorCode>): Coordinator
    requires id in c.commands
  {
    c.(commands := c.commands[id := c.commands[id].(status := next, errorCode := error)])
  }

  function Transition(c: Coordinator, id: CommandId, next: CommandStatus, error: Option<ErrorCode>): (Coordinator, Result<CommandId>) {
    if id !in c.commands then (c, Err("command_not_found")) else
    var command := c.commands[id];
    if next !in Transitions(command.status) then
      (c, if command.status == next then Ok(id) else Err("command_transition_invalid"))
    else
      var moved := SetStatus(c, id, next, error);
      (if IsTerminal(next) then DropFromQueue(moved, command.deviceId, id) else moved, Ok(id))
  }

  function HandleAgentResult(c: Coordinator, device: DeviceId, id: CommandId, status: CommandStatus, error: Option<ErrorCode>)
    : (Coordinator, Result<CommandId>)
  {
    if id !in c.commands || c.commands[id].deviceId != device then (c, Err("command_not_found")) else
    Transition(c, id, status, error)
  }

  predicate IsLive(c: Coordinator, id: CommandId) {
    id in c.commands && !IsTerminal(c.commands[id].status)
  }

  function FirstLive(c: Coordinator, queue: seq<CommandId>): (found: Option<CommandId>)
    ensures found.Some? ==> found.value in queue && IsLive(c, found.value)
  {
    if queue == [] then None else if IsLive(c, queue[0]) then Some(queue[0]) else FirstLive(c, queue[1..])
  }

  function DispatchNext(c: Coordinator, device: DeviceId): (Coordinator, Option<CommandId>) {
    var next := FirstLive(c, QueueOf(c, device));
    if next.None? then (c, None) else
    if c.commands[next.value].status == Created then (Transition(c, next.value, Sent, None).0, next) else (c, next)
  }

  function SequenceAt(commands: map<CommandId, Command>, id: CommandId): nat {
    if id in commands then commands[id].sequence else 0
  }

  /** One step of a stable sort by sequence: `id` goes after everything not greater. */
  function PlaceBySequence(queue: seq<CommandId>, id: CommandId, commands: map<CommandId, Command>): seq<CommandId> {
    if queue == [] || SequenceAt(commands, queue[|queue| - 1]) <= SequenceAt(commands, id) then queue + [id] else
    PlaceBySequence(queue[..|queue| - 1], id, commands) + [queue[|queue| - 1]]
  }

  function SortBySequence(queue: seq<CommandId>, commands: map<CommandId, Command>): seq<CommandId> {
    if queue == [] then [] else
    PlaceBySequence(SortBySequence(queue[..|queue| - 1], commands), queue[|queue| - 1], commands)
  }

  function Remember(c: Coordinator, command: Command): Coordinator {
    c.(commands := c.commands[command.commandId := command],
       inserted := c.inserted + [command.commandId],
       sequences := c.sequences[command.deviceId := Max(SequenceOf(c, command.deviceId), command.sequence)])
  }

  function Restore(c: Coordinator, command: Command): Coordinator {
    var id := command.commandId;
    if id in c.commands then c else
    var known := Remember(c, command);
    if IsTerminal(command.status) then known else
    known.(queues := c.queues[command.deviceId := SortBySequence(QueueOf(c, command.deviceId) + [id], known.commands)])
  }

  function RestoreDeviceSequence(c: Coordinator, device: DeviceId, sequence: int): (Coordinator, Result<()>) {
    if !(1 <= sequence <= MAX_SAFE) then (c, Err("command_record_invalid")) else
    (Count(c, device, Max(SequenceOf(c, device), sequence)), Ok(()))
  }

  function ExpireFrom(c: Coordinator, ids: seq<CommandId>, now: int): (Coordinator, Result<seq<CommandId>>)
    decreases |ids|
  {
    if ids == [] then (c, Ok([])) else
    var id := ids[0];
    if !(IsLive(c, id) && c.commands[id].expiresAt <= now) then ExpireFrom(c, ids[1..], now) else
    var (after, result) := Transition(c, id, Expired, None);
    if result.Err? then (after, Err(result.error)) else
    var (end, rest) := ExpireFrom(after, ids[1..], now);
    (end, if rest.Err? then rest else Ok([id] + rest.value))
  }

  function Expire(c: Coordinator, now: int): (Coordinator, Result<seq<CommandId>>) {
    ExpireFrom(c, c.inserted, now)
  }

  function Count(c: Coordinator, device: DeviceId, sequence: nat): Coordinator {
    c.(sequences := c.sequences[device := sequence])
  }

  /** Record a command and queue it last. */
  function Register(c: Coordinator, command: Command): Coordinator {
    c.(queues := c.queues[command.deviceId := QueueOf(c, command.deviceId) + [command.commandId]],
       commands := c.commands[command.commandId := command],
       inserted := if command.commandId in c.commands then c.inserted else c.inserted + [command.commandId])
  }

  /** `id` is the identifier the random generator would return. */
  function CreateCommand(
      c: Coordinator, batchId: BatchId, owner: OwnerId, device: DeviceId, commandType: string, now: int, id: CommandId)
    : (Coordinator, Result<Entry>)
  {
    if device !in c.devices || c.devices[device].owner != owner then (c, Err("device_not_found")) else
    var sequence := SequenceOf(c, device) + 1;
    var counted := Count(c, device, sequence);
    var base := Command(batchId, id, commandType, now, device, None, now + LIFETIME_MILLISECONDS, owner, sequence, Created);
    if !c.devices[device].online then
      (counted, Ok(Refused(base.(errorCode := Some(DeviceOffline), status := Failed))))
    else if commandType !in c.devices[device].capabilities then
      (counted, Ok(Refused(base.(errorCode := Some(Unsupported), status := Failed))))
    else if |QueueOf(c, device)| >= MAX_QUEUED then
      (counted, Err("device_command_capacity_exceeded"))
    else
      (Register(counted, base), Ok(Registered(id)))
  }

  function CreateCommands(
      c: Coordinator, batchId: BatchId, owner: OwnerId, devices: seq<DeviceId>, commandType: string, now: int, ids: seq<CommandId>)
    : (r: (Coordinator, Result<seq<Entry>>))
    requires |ids| >= |devices|
    decreases |devices|
  {
    if devices == [] then (c, Ok([])) else
    var n := |devices| - 1;
    var (before, entries) := CreateCommands(c, batchId, owner, devices[..n], commandType, now, ids[..n]);
    if entries.Err? then (before, entries) else
    var (after, entry) := CreateCommand(before, batchId, owner, devices[n], commandType, now, ids[n]);
    (after, if entry.Err? then Err(entry.error) else Ok(entries.value + [entry.value]))
  }

  function Unique(ids: seq<DeviceId>): seq<DeviceId> {
    if ids == [] then [] else
    var rest := Unique(ids[..|ids| - 1]);
    if ids[|ids| - 1] in rest then rest else rest + [ids[|ids| - 1]]
  }

  predicate ValidTargets(request: Request) {
    var unique := Unique(request.deviceIds);
    0 < |unique| <= MAX_TARGETS && |unique| == |request.deviceIds|
  }

  function TargetsOf(request: Request): seq<DeviceId> {
    Js.Sort(Unique(request.deviceIds))
  }

  function DigestOf(request: Request): Digest {
    Digest(request.commandType, TargetsOf(request))
  }

  /** Identifiers for one batch, as the random generator would return them. */
  datatype Supply = Supply(batchId: BatchId, commandIds: seq<CommandId>)

  function CreateBatch(c: Coordinator, owner: OwnerId, request: Request, now: int, supply: Supply): (Coordinator, Result<Batch>)
    requires |supply.commandIds| >= |request.deviceIds|
  {
    if !ValidTargets(request) then (c, Err("command_targets_invalid")) else
    var key := (owner, request.idempotencyKey);
    if key in c.idempotency then
      if c.idempotency[key] !in c.batches then (c, Err("command_state_invalid")) else
      var existing := c.batches[c.idempotency[key]];
      (c, if existing.digest != DigestOf(request) then Err("idempotency_conflict") else Ok(existing))
    else
      UniqueSize(request.deviceIds);
      var devices := TargetsOf(request);
      var (created, entries) := CreateCommands(c, supply.batchId, owner, devices, request.commandType, now, supply.commandIds);
      if entries.Err? then (created, Err(entries.error)) else
      var batch := Batch(supply.batchId, entries.value, now, owner, DigestOf(request));
      (created.(batches := created.batches[supply.batchId := batch], idempotency := created.idempotency[key := supply.batchId]),
       Ok(batch))
  }

  // ---- target lists ----

  lemma NoDupLast<T>(s: seq<T>, n: nat)
    requires |s| == n + 1
    ensures NoDup(s) <==> NoDup(s[..n]) && s[n] !in s[..n]
  {
    if NoDup(s[..n]) && s[n] !in s[..n] {
      forall i, j | 0 <= i < j < |s| ensures s[i] != s[j] {
        assert s[i] == s[..n][i] && (j < n ==> s[j] == s[..n][j]);
      }
    }
    if NoDup(s) {
      assert forall i: nat :: i < n ==> s[..n][i] == s[i];
    }
  }

  lemma ElementsLast<T>(s: seq<T>, x: T)
    ensures Elements(s + [x]) == Elements(s) + {x}
  {
  }

  lemma {:induction false} UniqueElements(ids: seq<DeviceId>)
    ensures NoDup(Unique(ids)) && Elements(Unique(ids)) == Elements(ids)
    ensures |Unique(ids)| <= |ids|
    ensures |Unique(ids)| == |ids| <==> NoDup(ids)
    ensures NoDup(ids) ==> Unique(ids) == ids
  {
    if ids != [] {
      var n := |ids| - 1;
      UniqueElements(ids[..n]);
      assert ids == ids[..n] + [ids[n]];
      ElementsLast(ids[..n], ids[n]);
      ElementsLast(Unique(ids[..n]), ids[n]);
      assert ids[n] in Unique(ids[..n]) <==> ids[n] in Elements(ids[..n]);
      NoDupLast(ids, n);
    }
  }

  lemma UniqueSize(ids: seq<DeviceId>)
    ensures |Js.Sort(Unique(ids))| <= |ids|
  {
    UniqueElements(ids);
    Js.SortSorts(Unique(ids));
    assert |multiset(Js.Sort(Unique(ids)))| == |multiset(Unique(ids))|;
  }

  /** Two valid requests have the same digest exactly when they ask for the same command on the same set of devices. */
  lemma DigestSameIff(a: Request, b: Request)
    requires ValidTargets(a) && ValidTargets(b)
    ensures DigestOf(a) == DigestOf(b) <==> a.commandType == b.commandType && Elements(a.deviceIds) == Elements(b.deviceIds)
  {
    UniqueElements(a.deviceIds);
    UniqueElements(b.deviceIds);
    Js.SortSameIff(Unique(a.deviceIds), Unique(b.deviceIds));
  }
}
