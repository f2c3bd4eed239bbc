# Verified models of Remote Control Hub

Remote Control Hub lets an owner send commands from a browser through a server to a Windows agent. This project models the
parts whose mistakes would be hard to see, and proves what they promise.

The centre is the **command protocol**. `CommandCoordinator` on the server keeps, per device, a first-in-first-out queue, a
sequence counter, a status table and an index of idempotency keys. `CommandRuntime` sends the head of the queue again after
every reconnection and every new batch, so the agent sees commands more than once. The agent keeps a bounded, de-duplicating
ledger in three files; it commits `Executing` to disk before it calls the executor, and turns `Executing` into
`OutcomeUnknown` when it reopens. The model is a state machine over server, connection and agent, with a crash at every file
operation and a log of what was executed.

Around it stand six self-contained cores: the canonical JSON and the one-time confirmation tokens bound to it, the Redis
session index, the service worker's releases, the pages of the audit log, the rotation of the TOTP key, and the second factor
under concurrent attempts.

## Layout

| files | subject |
|---|---|
| `Prelude.dfy`, `JsText.dfy` | options, results, sets and lists; JavaScript strings and their order |
| `Ledger.dfy`, `LedgerFile.dfy` | the command ledger, its three files, and the classes that keep them |
| `Agent*.dfy` | `process_command`, runs with faults and crashes, at-most-once execution, recovery, what each delivery reports, the ledger over runs |
| `Coordinator*.dfy` | the coordinator: functions, invariant, runs, the outcome of every call, batches, and the class |
| `Protocol*.dfy` | both ends and the connection: soundness of success, execution order, one command in flight, sending order, content, and a whole command from request to result |
| `CanonicalJson.dfy`, `CanonicalParser.dfy`, `Confirmations.dfy` | the canonical printer, the parser that undoes it, confirmation tokens |
| `Session*.dfy` | the three-structure session index, its scripts, the manager against a plain map, and sessions over runs |
| `Release*.dfy` | manifests and bodies, the service worker's durable writes, their integrity, the one way it is lost, what requests are answered with, and the handlers |
| `AuditPages.dfy` | keyset pagination |
| `KeyRotation.dfy`, `RotationSafety.dfy`, `KeyRotationClass.dfy` | envelopes and keyring, safety of rotation, the rotation command |
| `SecondFactor*.dfy` | challenges, counters and recovery codes in every interleaving; when a call is accepted; the service |

Code that updates fields in place is a class whose methods are proved against functions on values; what the code promises is
proved about those functions, over runs of any length. `dafny verify dfyconfig.toml` checks everything.

## Where the code does less than one might expect

- An expired command can still run. The expired path records `Expired` for an id that waits in the queue, and the next
  dequeue takes it. `ExpiredCommandRunsNext` gives the course of events; `ExpiredRunsIffWaiting` says when: exactly if the id
  was new or waiting, so that it waits afterwards (`RestingNeverRuns` and `WaitingRuns` are its two halves).
- A command can run twice if the full ledger forgets it in between (`EvictedRunsAgain`).
- Finishing a waiting id breaks the ledger's exact queue, and nothing else does (`FinishKeepsExactIff`). `open` repairs that,
  unless the finished id is evicted while it waits and then accepted or taken from the queue again: taking it records an id
  that `order` does not have (`AcceptKeepsMendableIff`, `DequeueKeepsMendableIff`, `RecoverRepairsIff`). The ledger can then
  outgrow its capacity, and every later start refuses it (`ForgottenIdBricksLedger`, `BrickedForever`). A run that evicts no
  waiting id never gets there (`RecoverableOverRuns`).
- `expire` throws when an executing command is overdue, because `executing` has no edge to `expired`
  (`ExpireSucceedsIff`).
- A failing `createBatch` keeps what it created for earlier devices, and as its key is not recorded a retry creates more
  (`FailedBatchQueues`). `FailedBatchKeepsIff` has the exact conditions under which it leaves commands and queues, or
  everything, alone.
- Terminal statuses are final on the server; on the agent an expired id can become `Executing` again.
- A report of an outcome is rejected unless the server is at `executing`, and `failed` on the server does not mean that the
  command was not executed. Only safety is stated.
- Renewal moves the absolute session expiry as well as the idle one (`ExpiryFollowsUse`).
- A revoking script can count a session whose time passed less than a second ago, because records live to the next full
  second.
- Nothing ties a release id to one list of resources. If two manifests share an id, a download of the second that is killed
  between its first file and its end leaves that file in the cache of the stored candidate, which can still be activated
  (`StrayActivated`). `StepKeepsIff` and `RunKeepsIff` say that this is the only way.
- An empty TOTP secret could be encrypted but never decrypted (`DecryptsIff`).

## Model

| member | source | states |
|---|---|---|
| AtMostOnce.ExecutedAtMostOnce | agent/apps/agent-service/src/network.rs:412-516 | In every run of the agent (redelivery, dropped connections, persists cut short at any file operation, crashes, reopens) a command id that the full ledger has not had to forget is handed to the executor at most once. |
| AtMostOnce.WithinCapacityAtMostOnce | agent/apps/agent-service/src/network.rs:412-516 | The same with a condition on the input alone: a run that presents at most `capacity` distinct ids executes each of them at most once. |
| SuccessIsTrue.SucceededWasExecuted | apps/server/src/commands/coordinator.ts:178-222 | In every reachable state of server, connection and agent together, a command of the device that the server shows as `succeeded` stands in the agent's execution log with the outcome Succeeded. |
| ExecutionOrder.ExecutedInOrder | apps/server/src/commands/command-runtime.ts:137-162 | While no id was evicted, the execution log of the device is strictly increasing in device sequence, across re-sends, replaced connections and agent crashes. |
| OneCommandInFlight.AtMostOneOut | apps/server/src/commands/coordinator.ts:129-145 | When the device reports only what `process_command` sends, at most one live command of a device is sent, accepted or executing, and it has the smallest sequence of the live ones. |
| SendingOrder.FirstSentInOrder | apps/server/src/commands/command-runtime.ts:137-162 | Over every run, a command of a device that is sent for the first time has a larger sequence than every command of that device that was sent, accepted or executing at any earlier moment. |
| LedgerOverRuns.MendableOverRuns | agent/crates/agent-core/src/lib.rs:46-158 | Over every run in which no forgotten id that still waits is recorded or taken, `order` has the ids of `commands` once each, the queue has the Accepted ids in order, in memory and on disk, the size stays within the capacity, and a start that can write its files succeeds. |
| CommandContent.DeviceDoesWhatWasAsked | apps/server/src/commands/command-runtime.ts:137-162 | Over every run without stray commands: each command on the connection to a device, waiting in its ledger in memory or on disk, or handed to its executor has the type and the deadline of the server's record of its id, which are those of a batch request for that device. |
| ProtocolProgress.RequestIsAnswered | apps/server/src/commands/command-runtime.ts:48-162 | From every idle state, a request that the device can answer, with nothing lost, is executed by it exactly once and as asked, the server ends with the executor's outcome, and the system is idle again; an executor that answers with no outcome leaves the server at executing. |
| StoreSpec.StoreRefinesRegister | agent/crates/agent-core/src/lib.rs:126-214 | Over unboundedly many persists, crashes and reopens the three files behave as one register of snapshots: each write takes effect as a whole or not at all, and every write that returned successfully took effect. |
| LedgerSpec.EvictionOutcome | agent/crates/agent-core/src/lib.rs:89-110 | Something is forgotten exactly when the ledger is full and holds a terminal id, and then it is the oldest terminal one. |
| LedgerSpec.AcceptOutcome | agent/crates/agent-core/src/lib.rs:46-59 | A known id answers its recorded state and changes nothing; a new one is refused exactly when every slot is non-terminal, and otherwise recorded as Accepted at the end of the order; the size stays within the capacity. |
| LedgerSpec.AcceptKeepsExact | agent/crates/agent-core/src/lib.rs:46-59 | Accepting keeps `order` duplicate-free with the ids of `commands`, and the queue exactly the Accepted ids in arrival order. |
| LedgerSpec.AcceptKeepsMendableIff | agent/crates/agent-core/src/lib.rs:46-59 | The weaker invariant, in which the queue may also hold ids finished while they waited or forgotten since, survives an accept if and only if it does not record anew a forgotten id that still waits. |
| LedgerSpec.AcceptKeepsRecoverableIff | agent/crates/agent-core/src/lib.rs:46-59 | If every waiting id is recorded, that too survives an accept if and only if it evicts no waiting id. |
| LedgerSpec.DequeueKeepsExact | agent/crates/agent-core/src/lib.rs:61-66 | Dequeuing keeps the exact queue and yields the oldest Accepted id, or nothing exactly when none is Accepted. |
| LedgerSpec.DequeueKeepsMendableIff | agent/crates/agent-core/src/lib.rs:61-66 | Dequeuing keeps the weaker invariant if and only if the id it takes is recorded. |
| LedgerSpec.DequeueKeepsRecoverable | agent/crates/agent-core/src/lib.rs:61-66 | Dequeuing keeps every waiting id recorded. |
| LedgerSpec.FinishKeepsExactIff | agent/crates/agent-core/src/lib.rs:68-83 | Finishing keeps the queue exact if and only if it does not give a terminal state to an id that still waits in the queue. |
| LedgerSpec.FinishKeepsMendable | agent/crates/agent-core/src/lib.rs:68-83 | Finishing any id, waiting or not, keeps the weaker invariant, and every waiting id recorded. |
| LedgerSpec.RecoverRepairsIff | agent/crates/agent-core/src/lib.rs:147-158 | Recovery restores the exact queue if and only if the snapshot satisfies the weaker invariant; from any snapshot it keeps every Accepted id in its order, changes no state but Executing, and leaves nothing Executing. |
| LedgerSpec.RecoverTwice | agent/crates/agent-core/src/lib.rs:147-158 | Recovering twice is recovering once. |
| StoreSpec.PersistIsAtomic | agent/crates/agent-core/src/lib.rs:188-214 | Wherever `persist` stops, a reopening process reads the previous complete snapshot or the new one; after a successful return, the new one, with no other file left. |
| StoreSpec.OpenIsAtomic | agent/crates/agent-core/src/lib.rs:126-162 | `open` never meets a torn file, leaves the old snapshot or the recovered one, and fails exactly for an oversized snapshot or a persist that was cut short. |
| CommandLedgers.CommandLedger.RemoveOldestTerminal | agent/crates/agent-core/src/lib.rs:89-110 | The in-place scan and removal leaves what the eviction function yields, of which `EvictionOutcome` is proved. |
| CommandLedgers.CommandLedger.Accept | agent/crates/agent-core/src/lib.rs:46-59 | The new ledger and the answer are those of the accept function. |
| CommandLedgers.CommandLedger.Dequeue | agent/crates/agent-core/src/lib.rs:61-66 | The new ledger and the command are those of the dequeue function. |
| CommandLedgers.CommandLedger.Finish | agent/crates/agent-core/src/lib.rs:68-83 | The new ledger and whether it changed are those of the finish function. |
| CommandLedgers.CommandLedger.Load | agent/crates/agent-core/src/lib.rs:147-158 | The loaded ledger is the recovered snapshot. |
| CommandLedgers.FileCommandLedger.Open | agent/crates/agent-core/src/lib.rs:126-162 | Disk and ledger after opening, for every point at which its persist may stop. |
| CommandLedgers.FileCommandLedger.Persist | agent/crates/agent-core/src/lib.rs:188-214 | The file-by-file replacement leaves the disk the specification gives for every point at which it may stop. |
| CommandLedgers.FileCommandLedger.Accept | agent/crates/agent-core/src/lib.rs:164-168 | The ledger changes before the persist; a failed persist leaves the change in memory and reports an error. |
| CommandLedgers.FileCommandLedger.Dequeue | agent/crates/agent-core/src/lib.rs:170-174 | As for accept: the taken command is returned only when the persist succeeded. |
| CommandLedgers.FileCommandLedger.Finish | agent/crates/agent-core/src/lib.rs:176-182 | Nothing is written when nothing changed; otherwise as for accept. |
| AtMostOnce.RunKeeps | agent/apps/agent-service/src/network.rs:412-516 | What every step of the agent keeps: a waiting or accepted id has not been executed yet unless it was evicted, on disk as in memory. |
| AgentRecovery.CrashAfterDequeue | agent/apps/agent-service/src/network.rs:480-507 | From a ledger with the weaker invariant: if the dequeued id was recorded, a crash between a committed dequeue and its committed finish reopens with that id OutcomeUnknown and out of the queue and every other waiting command in order, and a crash inside the finish with that or the finished state; if it was forgotten, no start that succeeds recovers so. |
| LedgerOverRuns.CrashAfterDequeueOverRuns | agent/apps/agent-service/src/network.rs:480-507 | The first case holds in every state of every run that evicts no waiting id. |
| LedgerOverRuns.RecoverableOverRuns | agent/crates/agent-core/src/lib.rs:46-158 | Over every run that evicts no waiting id, every waiting id is recorded, in memory and on disk, in addition to what `MendableOverRuns` says. |
| LedgerOverRuns.WithinCapacityRecoverable | agent/crates/agent-core/src/lib.rs:46-158 | The same with a condition on the input alone: a run that presents at most `capacity` distinct ids. |
| LedgerOverRuns.ForgottenIdBricksLedger | agent/crates/agent-core/src/lib.rs:61-139 | A concrete run with one slot: an expired command waits, the next one evicts it, and taking it from the queue records it again outside `order`; from then on two ids are recorded and every start is refused for size. |
| LedgerOverRuns.BrickedForever | agent/crates/agent-core/src/lib.rs:134-139 | An agent that is down on a snapshot above the capacity stays down whatever happens. |
| LedgerOverRuns.RestingNeverRuns | agent/apps/agent-service/src/network.rs:441-507 | An id that is recorded, in whatever state, and does not wait, in memory and on disk, is executed in no later run that does not evict it. |
| LedgerOverRuns.WaitingRuns | agent/apps/agent-service/src/network.rs:480-507 | A waiting id, in whatever state, is executed by the committed dequeue that reaches it: the k-th in the queue by the k-th. |
| LedgerOverRuns.ExpiredRunsIffWaiting | agent/apps/agent-service/src/network.rs:441-454 | After the expired path the id is recorded as Expired; if it was new or waiting, it is executed as soon as enough dequeues commit, and if not, no later run without its eviction executes it. |
| LedgerOverRuns.EvictedRunsAgain | agent/apps/agent-service/src/network.rs:412-516 | A concrete run with one slot in which a command is executed, evicted, delivered again and executed a second time. |
| AgentRecovery.DeliveryExecutesIffForgotten | agent/apps/agent-service/src/network.rs:412-516 | With an idle queue and no faults, delivering an unexpired command executes it if and only if the ledger does not know its id. |
| AgentRecovery.RedeliveryRepeatsOutcome | agent/apps/agent-service/src/network.rs:422-437 | Delivering a finished command again, at any time, changes nothing, executes nothing, and reports what was reported the first time, exactly when the executor had answered with an outcome. |
| AgentRecovery.ExpiredCommandRunsNext | agent/apps/agent-service/src/network.rs:441-454 | A concrete course of events in which a command reported as expired is executed by the next delivery. |
| AgentRecovery.ExpiredStillQueuedIff | agent/apps/agent-service/src/network.rs:441-454 | After the expired path the id is recorded as Expired, and still waits in the queue exactly when it was new or was waiting before. |
| AgentService.CommandProcessor.ProcessCommand | agent/apps/agent-service/src/network.rs:412-516 | Leaves the agent and sends the reports that the specification gives, with the same success or failure, for every fault; `DeliveryReports` writes them out. |
| AgentService.CommandProcessor.ExecuteQueued | agent/apps/agent-service/src/network.rs:480-515 | One pass of that loop: commit Executing, announce, execute, commit the outcome, report. |
| AgentReports.DeliveryReports | agent/apps/agent-service/src/network.rs:412-516 | For every agent, command, clock and fault, what a delivery reports, executes and records: accepted for the delivered id, executing for the id at the head of the queue, the executor's status for that same id, each absent exactly from the first write or send that fails; a known end is repeated, an expired command is recorded and reported as such. |
| AgentReports.ExecutedIffAnnounced | agent/apps/agent-service/src/network.rs:480-507 | A delivery executes at most one command, and a command is executed if and only if it was announced as executing. |
| AgentReports.HasRoomIff | agent/crates/agent-core/src/lib.rs:46-59 | Accepting succeeds exactly when the id is recorded, a slot is free, or an ended id can make room. |
| CoordinatorOutcomes.TransitionIff | apps/server/src/commands/coordinator.ts:191-222 | For every record and every pair of statuses: exactly the written-out edges change the state, namely status and error of that record and, if it has ended, its place in its queue; an equal status is answered without a change, any other is refused without one. |
| CoordinatorOutcomes.ReportIff | apps/server/src/commands/coordinator.ts:178-189 | The same of an agent's report, which is refused as `command_not_found` unless it comes from the command's own device. |
| CoordinatorOutcomes.DispatchOutcome | apps/server/src/commands/coordinator.ts:129-145 | Dispatching marks the chosen command as sent if it was waiting, and changes nothing else. |
| CoordinatorOutcomes.RestoreOutcome | apps/server/src/commands/coordinator.ts:147-166 | A record that is not known is taken over as it is, waits exactly if it has not ended, and raises its device's counter to at least its sequence; a known one changes nothing. |
| CoordinatorOutcomes.ExpireIs | apps/server/src/commands/coordinator.ts:224-235 | `expire` stops at the first executing command that is overdue, with everything before it expired and everything from it on unchanged; otherwise it expires the overdue commands and names them in table order. |
| ProtocolProgress.DispatchIs | apps/server/src/commands/command-runtime.ts:137-162 | For every state: the device's first unended command is put on the connection with its recorded type and deadline, or fails as offline without a connection; with none left nothing changes. |
| ProtocolProgress.ConnectIs | apps/server/src/commands/command-runtime.ts:117-121 | A new connection starts empty, and the device's first unended command goes out on it. |
| ProtocolProgress.ReceiveIs | apps/server/src/commands/command-runtime.ts:75-93 | For every state and report: the report is applied along the edges, and exactly if it is accepted and its command has ended, the device's next command goes out. |
| ProtocolProgress.ReceiveCommandIs | agent/apps/agent-service/src/network.rs:412-516 | For every state: the agent takes the first command, its reports follow those under way, and an error closes its end of the connection. |
| ProtocolProgress.StartsIdle | apps/server/src/commands/command-runtime.ts:117-121 | Starting, connecting and registering a capable device leads to an idle state in which it can answer its owner. |
| CommandContent.RecordsWereAsked | apps/server/src/commands/coordinator.ts:237-276 | Over every run, each command of the server carries the owner, type, device, time, deadline, batch and id of some batch request of the run. |
| CoordinatorRuns.RunKeeps | apps/server/src/commands/coordinator.ts:68-276 | Over every sequence of public calls, each queue lists exactly its device's live commands, strictly ascending in sequence; issued sequences are distinct and at most the device counter. |
| CoordinatorRuns.TerminalForever | apps/server/src/commands/coordinator.ts:45-54 | A command in a terminal status keeps its whole record through every later sequence of calls. |
| CoordinatorRuns.RetryReturnsBatch | apps/server/src/commands/coordinator.ts:85-127 | Once a batch was returned for an owner and key, every later request under that key, after any calls, changes nothing; it returns the same batch when type and target set are equal and `idempotency_conflict` otherwise. |
| CoordinatorRuns.DispatchKeepsOneInFlight | apps/server/src/commands/coordinator.ts:129-145 | Dispatching keeps every queue entry but the head at `created`. |
| CoordinatorRuns.TransitionKeepsOneInFlightIff | apps/server/src/commands/coordinator.ts:191-222 | A status change keeps that property if and only if it does not mark a waiting, non-head command as sent. |
| CoordinatorInvariant.TransitionKeeps | apps/server/src/commands/coordinator.ts:191-222 | Every status change, allowed or refused, keeps the coordinator invariant. |
| CoordinatorInvariant.TerminalAbsorbs | apps/server/src/commands/coordinator.ts:45-54 | No status change touches a record that is already terminal. |
| CoordinatorInvariant.DispatchKeeps | apps/server/src/commands/coordinator.ts:129-145 | Dispatching keeps the coordinator invariant. |
| CoordinatorInvariant.DispatchTakesSmallest | apps/server/src/commands/coordinator.ts:129-145 | The scan finds the live command of the device with the smallest sequence, which is the head of the queue, and finds nothing exactly when the device has no live command. |
| CoordinatorInvariant.RestoreKeeps | apps/server/src/commands/coordinator.ts:147-166 | Restoring stored records in any order keeps the invariant, given unique positive sequences per device in storage. |
| CoordinatorInvariant.RestoreSequenceKeeps | apps/server/src/commands/coordinator.ts:168-176 | A stored sequence from 1 to the largest safe integer raises the counter of its device to at least itself and changes nothing else; any other is refused and changes nothing; the invariant is kept. |
| CoordinatorInvariant.ExpireSucceedsIff | apps/server/src/commands/coordinator.ts:224-235 | `expire` succeeds exactly when no executing command is overdue; then it expires exactly the overdue live commands, and in either case the invariant holds. |
| CoordinatorInvariant.CreateCommandOutcome | apps/server/src/commands/coordinator.ts:237-276 | Creation only adds: a registered command takes the next sequence and the end of its queue, a refused one takes a sequence and leaves the queues alone, an error leaves commands and queues alone. |
| CoordinatorInvariant.CreateCommandsKeeps | apps/server/src/commands/coordinator.ts:108-116 | Creation for a list of devices keeps the invariant and every existing record, also when it stops in the middle. |
| CoordinatorInvariant.CreateBatchKeeps | apps/server/src/commands/coordinator.ts:85-127 | A batch, successful or not, keeps the invariant and every existing record, lowers no counter, and grows no queue beyond eight. |
| CoordinatorBatches.BatchFailsIff | apps/server/src/commands/coordinator.ts:85-127 | A batch with valid targets and a new key fails exactly when some target is not the owner's, or is online, able and full. |
| CoordinatorBatches.FailedBatchLeaves | apps/server/src/commands/coordinator.ts:108-116 | What a failing batch leaves: each target before the first that fails has its next number used and, if it is online and able, a command at the end of its queue; a full one that fails has a number used; no other device, no batch and no key is touched. |
| CoordinatorBatches.FailedBatchKeepsIff | apps/server/src/commands/coordinator.ts:85-127 | A failing batch leaves commands and queues alone exactly when no target before the first that fails is online, able and has room, and the whole coordinator exactly when it is refused before its loop or its first target is not the owner's. |
| CoordinatorBatches.FailedBatchQueues | apps/server/src/commands/coordinator.ts:108-116 | A concrete batch for a device and an unknown one: it fails and leaves a command queued, and a retry under the same key leaves a second. |
| CoordinatorBatches.BatchHolds | apps/server/src/commands/coordinator.ts:108-127 | A batch that succeeds is stored under its id and key with one entry per target: a waiting command with every field as asked for and the device's next number if the device is online and able, and otherwise one failed as offline or unsupported. |
| CoordinatorBatches.TargetsRefusedIff | apps/server/src/commands/coordinator.ts:90-97 | A batch is refused for its targets exactly when there are none, more than a hundred, or one twice. |
| CoordinatorSpec.UniqueElements | apps/server/src/commands/coordinator.ts:90-97 | Removing duplicate targets keeps the target set; the length is unchanged exactly when there were none. |
| CoordinatorSpec.DigestSameIff | apps/server/src/commands/coordinator.ts:56-66 | Two valid requests have one digest exactly when they ask for the same command type on the same set of devices. |
| JsText.SortSorts | apps/server/src/commands/coordinator.ts:56-66 | `sort` on strings rearranges them into code-unit order. |
| JsText.SortedUnique | apps/server/src/commands/coordinator.ts:56-66 | That arrangement is the only one. |
| JsText.SortSameIff | apps/server/src/commands/coordinator.ts:56-66 | Lists without repetition sort alike exactly when they have the same elements. |
| CommandCoordinators.CommandCoordinator.CreateBatch | apps/server/src/commands/coordinator.ts:85-127 | State and answer of the method are those of the specification, errors in the middle included. |
| CommandCoordinators.CommandCoordinator.CreateCommand | apps/server/src/commands/coordinator.ts:237-276 | State and answer are those of the specification. |
| CommandCoordinators.CommandCoordinator.DispatchNext | apps/server/src/commands/coordinator.ts:129-145 | State and chosen command are those of the specification. |
| CommandCoordinators.CommandCoordinator.Restore | apps/server/src/commands/coordinator.ts:147-166 | The state is that of the specification. |
| CommandCoordinators.CommandCoordinator.RestoreDeviceSequence | apps/server/src/commands/coordinator.ts:168-176 | State and answer are those of the specification. |
| CommandCoordinators.CommandCoordinator.HandleAgentResult | apps/server/src/commands/coordinator.ts:178-189 | State and answer are those of the specification, a wrong device included; in a state that satisfies the invariant they are the outcome that `ReportIff` writes out. |
| CommandCoordinators.CommandCoordinator.Transition | apps/server/src/commands/coordinator.ts:191-222 | State and answer are those of the specification; in a state that satisfies the invariant they are the outcome that `TransitionIff` writes out for every pair of statuses. |
| CommandCoordinators.CommandCoordinator.Expire | apps/server/src/commands/coordinator.ts:224-235 | State and answer of the loop are those of the specification, the command at which it throws included. |
| CanonicalRoundTrip.CanonicalSameIff | apps/server/src/auth/action-confirmation.ts:21-46 | Two printable values have the same canonical text if and only if they are the same JSON value up to the order of object keys. |
| CanonicalRoundTrip.RoundTrip | apps/server/src/auth/action-confirmation.ts:21-46 | A parser undoes the printer: from the canonical text of a value, followed by anything a value may be followed by, it reads that value with sorted keys and leaves the rest. |
| CanonicalRoundTrip.CanonicalExample | apps/server/src/auth/action-confirmation.ts:21-46 | The text of one value with every kind of part, written out. |
| CanonicalRoundTrip.StringRoundTrip | apps/server/src/auth/action-confirmation.ts:22-28 | Reading an escaped string yields the string, lone surrogates and control characters included (section 7 of RFC 8259). |
| CanonicalRoundTrip.NumberRoundTrip | apps/server/src/auth/action-confirmation.ts:29-34 | Reading a printed integer yields the integer, whatever may follow it. |
| CanonicalRoundTrip.NormalSameIff | apps/server/src/auth/action-confirmation.ts:38-44 | Values have equal key-sorted forms exactly when they are the same up to key order at every depth. |
| CanonicalRoundTrip.NormalPrints | apps/server/src/auth/action-confirmation.ts:38-44 | Sorting the keys of a value at every depth does not change its canonical text. |
| ConfirmationSpec.ConsumeSucceedsIff | apps/server/src/auth/action-confirmation.ts:133-154 | Over every run of issues and consumes, and with an injective digest, a consume succeeds exactly when an issue of that token, neither taken nor renewed since and not expired, granted the same action, actor, session, target and payload. |
| ConfirmationSpec.IssueSucceedsIff | apps/server/src/auth/action-confirmation.ts:108-131 | Over every run, an issue succeeds exactly when its payload can be printed and no issue of that token is left unspent and unexpired, and answers when it will expire; the two refusals are told apart. |
| ConfirmationSpec.ConsumeAnswers | apps/server/src/auth/action-confirmation.ts:133-154 | A consume answers the time of use, or why it was refused. |
| ConfirmationSpec.SingleUse | apps/server/src/auth/action-confirmation.ts:164-168 | Between two successful uses of a token lies another successful issue of it; a failed attempt in between spends it too. |
| ConfirmationSpec.AcceptedIff | apps/server/src/auth/action-confirmation.ts:143-153 | Against one stored record: what is accepted is exactly the issued request, before the record's expiry. |
| ConfirmationSpec.StoreIsOutstanding | apps/server/src/auth/action-confirmation.ts:157-189 | The store holds, for each token, exactly the record of its outstanding issue. |
| ActionConfirmations.ActionConfirmationManager.Create | apps/server/src/auth/action-confirmation.ts:97-106 | The manager refuses a lifetime below one second. |
| ActionConfirmations.ActionConfirmationManager.Issue | apps/server/src/auth/action-confirmation.ts:108-131 | Store and answer are those of the specification: an unprintable payload or a live record under the same digest leaves the store alone. |
| ActionConfirmations.ActionConfirmationManager.Consume | apps/server/src/auth/action-confirmation.ts:133-154 | Store and answer are those of the specification: the record is gone whatever the comparison yields. |
| SessionManagers.PerformAll | apps/server/src/auth/session-store.ts:74-230 | From an empty database and over a non-decreasing clock, every call of every sequence answers as a plain map of unexpired sessions would, and what the store holds afterwards is that map. |
| SessionManagers.SessionManager.Perform | apps/server/src/auth/session-store.ts:74-230 | One call: answer and unexpired sessions are the plain map's, and the three-structure invariant holds afterwards. |
| SessionManagers.SessionManager.Create | apps/server/src/auth/session-store.ts:101-135 | A session is created exactly when fewer than 200 are unexpired; otherwise nothing changes. |
| SessionManagers.SessionManager.Authenticate | apps/server/src/auth/session-store.ts:137-171 | A session is found exactly when it is unexpired, is renewed exactly when the write interval has passed since its last recorded use, and renewal is never refused for capacity. |
| SessionManagers.SessionManager.MarkStrongAuthenticated | apps/server/src/auth/session-store.ts:178-203 | Succeeds exactly for an unexpired session of that user that is not a password recovery, and changes only its time of strong authentication. |
| SessionManagers.SessionManager.List | apps/server/src/auth/session-store.ts:173-176 | The answer is exactly the user's unexpired sessions, each once. |
| SessionRuns.UseKeepsAlive | apps/server/src/auth/session-store.ts:137-171 | Over every run: a session that is not revoked, and that at every call was used no longer ago than the idle time less the write interval, is found by every call and outlasts them all. |
| SessionRuns.DisuseEnds | apps/server/src/auth/session-store.ts:137-147 | A session not used for the idle time is found no more. |
| SessionRuns.UseOutcome | apps/server/src/auth/session-store.ts:149-169 | Authenticating a live session sets both expiry times and the time of last use from now exactly when the last recorded use is at least the write interval back, and otherwise leaves the record as it is; no other session changes. |
| SessionRuns.UseAnswers | apps/server/src/auth/session-store.ts:137-171 | Authenticating answers with the session as it is then stored, and with none exactly if it is not live. |
| SessionRuns.ListAnswers | apps/server/src/auth/session-store.ts:173-176 | A listing has exactly the user's sessions that can be found, as often as there are. |
| SessionRuns.CreateOutcome | apps/server/src/auth/session-store.ts:101-135 | A session is stored as asked, its times counted from now and strongly authenticated unless a recovery code opened it, exactly when fewer than 200 are live. |
| SessionRuns.StepUpIff | apps/server/src/auth/session-store.ts:178-203 | A step-up changes exactly a live session of that user that no recovery code opened, and only its time of strong authentication. |
| SessionRuns.RemovedIff | apps/server/src/auth/session-store.ts:205-230 | A call removes exactly the sessions that a revocation names: one token, all of a user's, one by id, all but one, or those of one authenticator. |
| SessionManagers.GoneStaysGone | apps/server/src/auth/session-store.ts:205-230 | A session that is gone does not come back without being created anew. |
| SessionManagers.RevokedForGood | apps/server/src/auth/session-store.ts:209-230 | After a revocation none of the user's chosen sessions is found again, and every other unexpired session is as before. |
| SessionManagers.ExpiryFollowsUse | apps/server/src/auth/session-store.ts:146-166 | Both expiry times of a live session are a fixed time after one of its uses; nothing else moves them. |
| SessionManagers.IdentityKept | apps/server/src/auth/session-store.ts:101-135 | Over every run, whose session it is, its identifier, its authenticator and how it was opened are those of the call that created it. |
| SessionManagers.RecoveryNeverStrong | apps/server/src/auth/session-store.ts:178-203 | Over every run, a session opened with a recovery code never counts as strongly authenticated. |
| SessionSpec.RemainingTtlSeconds | apps/server/src/auth/session-store.ts:66-72 | Zero exactly when the session is expired; otherwise the record outlives the session by less than a second. |
| SessionSpec.PurgedIsLive | apps/server/src/auth/session-store.ts:232-236 | The global set without its past scores is exactly the unexpired sessions, at most 200. |
| SessionSpec.PutKeepsInv | apps/server/src/auth/session-store.ts:232-245 | Writing a session keeps record, user set and global set in agreement, and adds exactly that session. |
| SessionSpec.DropKeepsInv | apps/server/src/auth/session-store.ts:247-262 | Removing any records with their set entries keeps the agreement, and removes exactly those sessions. |
| SessionSpec.LaterInv | apps/server/src/auth/session-store.ts:402-428 | The passing of time keeps the agreement. |
| SessionSpec.MemberIsUsers | apps/server/src/auth/session-store.ts:402-428 | A user's set names every unexpired session of the user, no session of another user, and after purging no expired one. |
| SessionRepositories.RedisSessionRepository.Create | apps/server/src/auth/session-store.ts:232-245 | The create script succeeds exactly when the session is live already or fewer than 200 are; it keeps the invariant. |
| SessionRepositories.RedisSessionRepository.Find | apps/server/src/auth/session-store.ts:398-400 | Every unexpired session is found; what is found is that session, or one whose time has passed. |
| SessionRepositories.RedisSessionRepository.List | apps/server/src/auth/session-store.ts:402-428 | Purging and reading yields exactly the user's unexpired sessions and removes none. |
| SessionRepositories.RedisSessionRepository.Revoke | apps/server/src/auth/session-store.ts:247-252 | Exactly that session goes, whoever owns it. |
| SessionRepositories.RedisSessionRepository.RevokeAll | apps/server/src/auth/session-store.ts:254-262 | Exactly the user's unexpired sessions go. |
| SessionRepositories.RedisSessionRepository.RevokeMatching | apps/server/src/auth/session-store.ts:285-327 | Exactly the user's chosen sessions go; the count is that of the matching records, which may include some expired within the last second. |
| SessionRepositories.RedisSessionRepository.RevokeById | apps/server/src/auth/session-store.ts:264-283 | Exactly the user's session with that id goes, though the script stops at its first match; the answer is true whenever there was one. |
| SessionRepositories.SweepDrops | apps/server/src/auth/session-store.ts:285-327 | The revoking loop removes exactly the members that match or have no record, and counts those that match. |
| ReleaseIntegrity.RunKeeps | apps/web/src/sw.ts:383-974 | In every reachable state, with handlers one at a time but killed after any of their durable writes, the active release has an acceptable manifest and a cache that is exactly its resources, and the candidate is another release whose cached files are all genuine, provided no download is killed while it refills the candidate's cache from another manifest with the same id. |
| ReleaseIntegrity.StepKeeps | apps/web/src/sw.ts:571-638 | A step replaces the active release exactly when it confirms the candidate, in time, from the candidate's client, with a compatible server and a full cache; every other step, failed, cancelled, rejected or killed, and whatever manifest it downloads, leaves the active pointer, manifest and cache as they were; unless it is such a killed download, it keeps the candidate genuine. |
| ReleaseRefills.StepKeepsIff | apps/web/src/sw.ts:383-569 | The exact condition for a step: it breaks the invariant if and only if it is a download cut before it replaces or forgets the stored candidate, with a file in that candidate's cache that its manifest does not name. |
| ReleaseRefills.RunKeepsIff | apps/web/src/sw.ts:383-974 | The invariant holds throughout a run if and only if no step of the run is one of those. |
| ReleaseRefills.StrayActivated | apps/web/src/sw.ts:448-638 | A concrete run with two manifests of one release id: a download killed after its first file, then validation, navigation and confirmation, and the active release has a file with a digest its manifest does not name. |
| ReleaseIntegrity.CompleteIsExact | apps/web/src/sw.ts:611-614 | Counting is enough: a cache of genuine files as large as the manifest holds every resource, with its size and digest, and nothing else. |
| ReleaseIntegrity.DownloadOutcome | apps/web/src/sw.ts:383-569 | A download that gets past the manifest checks, whatever it offers and whatever candidate was stored, ends with a complete candidate if every resource arrives intact, and otherwise with neither candidate nor cache nor manifest of that release; the lease is released. |
| ReleaseIntegrity.ServedIsGenuine | apps/web/src/sw.ts:669-781 | Whatever is answered from a cache is a file of the active release or of the candidate under validation, under the path asked for or the start page. |
| ReleaseIntegrity.ActivationWasValidated | apps/web/src/sw.ts:571-601 | Over every run: a release becomes active only within fifteen seconds of a validation of that candidate with the same nonce, and from a client that a navigation routed to the candidate opened. |
| ReleaseFetches.WholeCandidateActivates | apps/web/src/sw.ts:571-638 | A whole candidate that its page validates, a navigation opens and the opened client confirms within fifteen seconds, from a compatible server, becomes the active release with every file. |
| ReleaseFetches.ValidationOutcome | apps/web/src/sw.ts:845-919 | A validation request sets nonce, deadline and source of the candidate exactly when it names the candidate and no other page holds it, and otherwise changes nothing. |
| ReleaseFetches.NavigationOutcome | apps/web/src/sw.ts:684-716 | A navigation to the candidate notes the new client, lets the asking page go, and changes no release. |
| ReleaseFetches.ConfirmationOutcome | apps/web/src/sw.ts:571-638 | A whole candidate that is confirmed by its client in time becomes the active release, and is shown as such. |
| ReleaseFetches.ReportOutcome | apps/web/src/sw.ts:920-942 | A failure report from the candidate's own client drops the candidate with its manifest and cache; any other changes nothing. |
| ReleaseFetches.ActiveAnswers | apps/web/src/sw.ts:764-781 | Whoever is not on the candidate is served from the active release whenever it has the file or a start page for a navigation, and from the network exactly when not. |
| ReleaseFetches.CandidateAnswers | apps/web/src/sw.ts:684-763 | The pages on a whole candidate are served from it whenever it has the file; what it needs and does not have is refused. |
| ReleaseFetches.ManifestIff | apps/web/src/sw.ts:186-242 | A manifest is accepted exactly when every field and resource meets the written-out limits and the sizes add up. |
| ReleaseFetches.CompatibleIff | apps/web/src/sw.ts:244-309 | A server is compatible exactly when it speaks `v1` and protocol 1 and asks for no newer release. |
| ReleaseFetches.FetchedIff | apps/web/src/sw.ts:448-509 | A resource arrives exactly when its stream ends by itself with the bytes and the digest of the manifest. |
| ReleaseFetches.ProgressCounts | apps/web/src/sw.ts:448-509 | After each resource the pages are told the bytes received so far. |
| ReleaseFetches.LeaseOutcome | apps/web/src/sw.ts:136-183 | A download holds the lease, for 75 seconds and with the next generation, from its first write to its last; killed in between it leaves it to run out. |
| ReleaseFetches.LeaseExcludes | apps/web/src/sw.ts:136-183 | While a lease runs no other download does anything. |
| ReleaseFetches.RefusedDownload | apps/web/src/sw.ts:383-427 | What a download leaves that offers no acceptable manifest, the active release, or an incompatible one. |
| ReleaseManifests.ValidateManifest | apps/web/src/sw.ts:186-242 | Succeeds exactly for a manifest with valid fields, distinct in-scope paths, sizes within the limits and the stated total; the error names the first check that fails. |
| ReleaseManifests.ReadIff | apps/web/src/sw.ts:311-352 | A body is accepted exactly when its stream ends by itself, unaborted, with the expected number of bytes; it is then those bytes in order. |
| ReleaseManifests.ReadResponseBody | apps/web/src/sw.ts:311-352 | The two loops, with the copy into one buffer, yield that outcome. |
| ReleaseManifests.SetBytes | apps/web/src/sw.ts:345-350 | Copying a chunk changes exactly its place in the buffer. |
| ReleaseWorkers.ReleaseWorker.DownloadCandidate | apps/web/src/sw.ts:383-569 | Makes exactly the durable writes of the specification, in order. |
| ReleaseWorkers.ReleaseWorker.FetchResources | apps/web/src/sw.ts:448-509 | The loop over the resources makes the writes of the specification and stops at the first that fails. |
| ReleaseWorkers.ReleaseWorker.DropCandidate | apps/web/src/sw.ts:640-661 | Makes exactly the durable writes of the specification, in order. |
| ReleaseWorkers.ReleaseWorker.ValidateCandidate | apps/web/src/sw.ts:845-919 | Makes exactly the durable writes of the specification, in order. |
| ReleaseWorkers.ReleaseWorker.ReportFailure | apps/web/src/sw.ts:920-942 | Makes exactly the durable writes of the specification, in order. |
| ReleaseWorkers.ReleaseWorker.PromoteCandidate | apps/web/src/sw.ts:571-638 | Makes exactly the durable writes of the specification, in order. |
| AuditSpec.PagesFollowLog | apps/server/src/audit/audit-query-service.ts:115-175 | Following the cursors reads the filtered log as it was at the first page, latest first, with no event repeated or skipped, for any limit and any ties, while rows are appended above the cursor. |
| AuditSpec.PagesAreFew | apps/server/src/audit/audit-query-service.ts:158-171 | The reader is done after at most one page per `limit` events and one more. |
| AuditSpec.LogExact | apps/server/src/audit/audit-query-service.ts:120-144 | The log a caller reads is exactly the rows of the kind they may see that pass every filter. |
| AuditSpec.LatestFirst | apps/server/src/audit/audit-query-service.ts:151-157 | The log is latest first, and by descending id at the same time. |
| AuditSpec.PageExact | apps/server/src/audit/audit-query-service.ts:151-171 | The first page has the latest rows, as many as asked for or fifty, and a cursor, its last row's, exactly when more follow. |
| AuditSpec.CursorRefusedIff | apps/server/src/audit/audit-query-service.ts:56-80 | A cursor is refused exactly when it does not read as an id and a time. |
| AuditSpec.RestIsTail | apps/server/src/audit/audit-query-service.ts:145-150 | Below the i-th event of the log is exactly the rest of it, whatever was appended above. |
| AuditSpec.SelectExact | apps/server/src/audit/audit-query-service.ts:151-157 | The query yields the rows it asks for, each once, in strictly descending time and id. |
| AuditSpec.DescendingUnique | apps/server/src/audit/audit-query-service.ts:155-155 | That arrangement is the only one. |
| AuditSpec.RestExact | apps/server/src/audit/audit-query-service.ts:145-150 | A row is below the cursor exactly when it is in the log and later than the cursor's row. |
| AuditQueries.AuditQueryService.Filters | apps/server/src/audit/audit-query-service.ts:120-144 | The pushed clauses hold of a row exactly when the caller may see it and it passes the filters. |
| AuditQueries.AuditQueryService.Run | apps/server/src/audit/audit-query-service.ts:115-175 | The page is the first `limit` rows of the log or of its part below the cursor, with a cursor exactly when more follow; a malformed cursor is `audit_cursor_invalid`. |
| AuditQueries.AuditQueryService.ListAdmin | apps/server/src/audit/audit-query-service.ts:104-106 | Administrators read the administrative and system events of every owner. |
| AuditQueries.AuditQueryService.ListOwner | apps/server/src/audit/audit-query-service.ts:108-113 | Owners read their own owner events only. |
| RotationSafety.RunKeeps | apps/server/src/cli/totp-key-rotation.ts:102-168 | However rotations, crashes inside them, enrolments, switches and removals follow one another, every stored envelope was sealed from its row's original secret with a key still in the keyring on disk, and so opens to it. |
| RotationSafety.RotationKeeps | apps/server/src/cli/totp-key-rotation.ts:102-168 | The same for one rotation killed after any number of its durable writes. |
| RotationSafety.CommitKeeps | apps/server/src/cli/totp-key-rotation.ts:133-163 | A committed batch leaves every secret readable. |
| RotationSafety.BatchTaken | apps/server/src/cli/totp-key-rotation.ts:125-163 | One batch takes exactly its rows off those under another version, and changes no other row. |
| RotationSafety.BatchNeverFails | apps/server/src/cli/totp-key-rotation.ts:135-145 | While every secret is readable, no row of a batch fails to be re-encrypted. |
| KeyRotations.KeyRotation.RotateTotpKey | apps/server/src/cli/totp-key-rotation.ts:102-168 | With readable rows and versions left, a rotation ends without error: the keyring has a new, unused version beside all old keys, no enabled row is under another version, the count is that of the rows changed, every other row is as it was; every durable write was one a rotation makes. |
| KeyRotations.KeyRotation.ResealAll | apps/server/src/cli/totp-key-rotation.ts:124-166 | The batch loop ends, because every pass leaves fewer rows under another version. |
| KeyRotations.KeyRotation.ResealBatch | apps/server/src/cli/totp-key-rotation.ts:133-163 | A transaction commits all updates of its batch or, at a row that cannot be re-encrypted, none. |
| KeyRotations.KeyRotation.WriteKeyring | apps/server/src/cli/totp-key-rotation.ts:87-100 | The keyring file is replaced through a temporary file, none of which is left. |
| KeyRotations.KeyRotation.NextVersion | apps/server/src/cli/totp-key-rotation.ts:109-109 | One more than the highest version in the keyring. |
| RotationSafety.FinishedIff | apps/server/src/cli/totp-key-rotation.ts:124-166 | A rotation has ended exactly when every enabled row is under the new version. |
| KeyringSpec.DecryptsIff | apps/server/src/auth/totp.ts:38-84 | Decrypting undoes encrypting, under every later keyring that kept the key, if and only if the secret is not empty. |
| KeyringSpec.EnvelopeOpensIff | apps/server/src/auth/totp.ts:38-91 | An envelope that was sealed, read in any row, with any key version and any keyring, opens if and only if user, authenticator and version are those it was sealed with, the keyring has that key, and the secret is not empty; and then to the secret. |
| RotationSafety.StoredEnvelopeOpensIff | apps/server/src/auth/totp.ts:62-91 | The same of every envelope stored in any state of any run of rotations, crashes, enrolments and removals. |
| KeyringSpec.CipherExists | apps/server/src/auth/totp.ts:38-84 | The assumptions about encryption do not contradict each other: for every finite set of sealings some cipher meets them. |
| SecondFactorSafety.ChallengesAreSafe | apps/server/src/auth/second-factor.ts:123-148 | In every interleaving of concurrent calls, with crashes and expiry anywhere: the verifications of a challenge never overlap, no more of them start than it allows, and it leads to at most one session. |
| SecondFactorSafety.CredentialsUsedOnce | apps/server/src/auth/auth-runtime.ts:183-206 | Over all challenges and step-ups the counters accepted for an authenticator strictly increase, so no one-time code is accepted twice (section 5.2 of RFC 6238), and no recovery code lets anyone in twice. |
| SecondFactorSafety.SessionHasProof | apps/server/src/auth/second-factor.ts:133-147 | Every session was preceded by a good credential that its call presented, and that call presented no other. |
| SecondFactorSafety.DisabledStaysOut | apps/server/src/auth/auth-runtime.ts:225-253 | Once a second factor is disabled, and until the user enrols again, no call of that user presents a good credential, not even one that was under way; that holds too when there was no authenticator to disable. |
| SecondFactorSafety.EnabledStep | apps/server/src/auth/auth-runtime.ts:225-253 | Every step keeps: only a user with an enabled authenticator has recovery codes that are not revoked. |
| SecondFactorOutcomes.CompletedIff | apps/server/src/auth/second-factor.ts:123-199 | A call is accepted if and only if its challenge exists, is free and has an attempt left, and the credential is good: one usable code, or a counter above the stored one. It then has the strength of its kind, the credential is recorded as used and the challenge is gone; otherwise the challenge has one attempt less, or is gone with the last. |
| SecondFactorOutcomes.TriesLeft | apps/server/src/auth/redis-second-factor.ts:7-35 | Fewer bad tries than a challenge allows leave it there, free and counted down. |
| SecondFactorOutcomes.GoodAfterBad | apps/server/src/auth/second-factor.ts:123-148 | A good credential is accepted after any number of bad tries below the limit. |
| SecondFactorOutcomes.CheckedIff | apps/server/src/auth/second-factor.ts:154-199 | A check is passed, with the strength of its kind, exactly by a good credential, and records exactly that. |
| SecondFactorOutcomes.StepUpIff | apps/server/src/auth/second-factor.ts:150-152 | A step-up, which needs no challenge, passes exactly for a new counter, records it, and touches no challenge. |
| SecondFactorOutcomes.ExpiredIsRefused | apps/server/src/auth/redis-second-factor.ts:7-18 | A challenge whose time is up is refused. |
| SecondFactorOutcomes.IssueOutcome | apps/server/src/auth/second-factor.ts:104-121 | A new challenge can be attempted as often as configured. |
| SecondFactorOutcomes.EnrollOutcome | apps/server/src/auth/auth-runtime.ts:254-307 | Enrolling gives a user without a second factor an authenticator with no counter and new codes in place of all old ones. |
| SecondFactorOutcomes.ReplaceOutcome | apps/server/src/auth/auth-runtime.ts:332-361 | New codes replace exactly the user's old ones, and only if a second factor is enabled. |
| SecondFactorOutcomes.DisableOutcome | apps/server/src/auth/auth-runtime.ts:225-253 | Disabling removes the authenticator and revokes the user's codes, and nothing else. |
| SecondFactorSafety.RunKeeps | apps/server/src/auth/second-factor.ts:123-199 | The invariants behind these hold in every interleaving. |
| SecondFactorSafety.ChallengeStep | apps/server/src/auth/redis-second-factor.ts:7-35 | Every step keeps the count of attempts and the lock of every challenge. |
| SecondFactorSafety.SessionStep | apps/server/src/auth/redis-second-factor.ts:20-35 | Every step keeps: after a session the challenge is gone, or held by the call about to delete it. |
| SecondFactorSafety.CountersStep | apps/server/src/auth/auth-runtime.ts:183-206 | Every step keeps the stored counter of an authenticator at the last one accepted for it. |
| SecondFactorSafety.CodesStep | apps/server/src/auth/auth-runtime.ts:118-135 | Every step keeps the codes that let someone in marked as used. |
| SecondFactorSafety.ProofStep | apps/server/src/auth/second-factor.ts:154-199 | Every step keeps the link between verified calls and the credentials they presented. |
| SecondFactors.SecondFactorService.Complete | apps/server/src/auth/second-factor.ts:123-148 | An uninterrupted call is the sequence of the model's steps, and leaves the stores and the answer that `CompletedIff` writes out: a session exactly for a challenge that can be attempted and a good credential, if the session could be made. |
| SecondFactors.SecondFactorService.Verify | apps/server/src/auth/second-factor.ts:154-199 | Verification is the model's steps for the kind of credential, and passes exactly for a good one, with the strength of its kind. |
| SecondFactors.SecondFactorService.ConsumeRecoveryCode | apps/server/src/auth/auth-runtime.ts:118-135 | The update marks every matching unused code and succeeds exactly when there was one. |
| SecondFactors.SecondFactorService.RecordTotpCounter | apps/server/src/auth/auth-runtime.ts:183-206 | The counter is stored, and accepted, exactly when the enabled row exists and its counter is missing or smaller. |
| SecondFactors.SecondFactorService.StartAttempt | apps/server/src/auth/redis-second-factor.ts:7-18 | The begin script is the model's first step; without a challenge to be had nothing changes. |
| SecondFactors.SecondFactorService.EndAttempt | apps/server/src/auth/redis-second-factor.ts:20-35 | The finish script is the model's last step. |

## Assumptions

- One clock that does not decrease; clock readings are milliseconds. Each SQL statement, Lua script, IndexedDB transaction,
  cache change and file rename is atomic, and a synced file is not torn afterwards.
- Random tokens and identifiers are new when they are made. Storage keeps command sequences positive and unique per device.
- SHA-256 is injective where tokens or payloads are compared by digest; AES-256-GCM opens what was sealed with it,
  and in `EnvelopeOpensIff` nothing else, for the finitely many sealings that were made; their random nonces are distinct, and
  user and authenticator identifiers hold no NUL.
- Rows of a table are unique in their primary key, and the TOTP table is read in that order.

## Left out

- The WebSocket handshake, frames, message sequence numbers, heartbeats and the error codes of reports: the connection is two
  lists of messages that a reconnection empties.
- The bytes of the ledger snapshot: a file holds a whole snapshot or a torn one.
- Directory creation and directory syncing around `persist`, which change no file the model has; poisoning of the agent's lock.
- The order in which `expire` visits a JavaScript Map is the order of insertion; other Maps are used by key only.
- Server restart inside the combined protocol: `restore` is covered for the coordinator alone. Commands created by a batch that
  failed half way are not stored, so that a restarted server can issue their sequences again, and execution order across such a
  restart does not hold.
- Interleaving at the storage write between choosing and sending a command: a dispatch is one step. A stale send is covered by
  the protocol's step that puts any command on the connection, for soundness of success and at-most-once execution.
- Liveness and convergence of the command protocol when messages are lost: the code does not provide them (without losses,
  `RequestIsAnswered`).
- The digest of a batch request is its sorted content, and the idempotency key the pair of owner and key.
- JSON numbers other than integers: printing of fractions and exponents is the platform's. Sparse arrays and objects with a
  `toJSON` of their own.
- Confirmation records are stored as values; the error for a record of another shape is not modelled.
- Each `SessionManager` call is one step; interleaving between its find and its update is not modelled. The order of a listing,
  the browser metadata and the role of a session, which no operation reads.
- Service-worker handlers are one step each, or a prefix of their durable writes when the browser kills the worker; interleaving
  of two handlers at their awaits, and losing the download lease to another worker in the middle of a download.
- Which browser client a navigation belongs to is an input of the fetch handler; progress messages, failure details, worker
  activation messages, response headers and content types.
- Browser cache eviction, and failures of IndexedDB itself.
- The version pattern, URL parsing and hashing of the service worker are functions the proofs do not look into.
- The base64url text of an audit cursor: any codec that decodes what it encoded. Columns that no audit query tests.
- Base64 and JSON of the keyring file: a document with valid versions and keys, or an invalid one. The width of the key version
  column.
- Two rotations at the same time, in which the second would overwrite the new key of the first.
- Matching a one-time code to a counter, and upper-casing of recovery codes: the counter a code stands for is an input of the model.
  Setting up, replacing and disabling a second factor appear only as steps that other calls interleave with.
- The Windows side (named pipes, DPAPI, tray, media and display calls), the installer, the React pages, the API client, schemas,
  configuration, device enrolment, WebAuthn and password login: foreign calls, declarations or easy members.
- RevokeMatching: its count is that of the matching stored records, not of unexpired sessions, because the script counts those.
- RevokeById: its answer can be true for a session whose time passed less than a second ago, for the same reason.
