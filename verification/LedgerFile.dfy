/** The three-file replacement that makes the ledger durable, as values. */
module StoreSpec {
  import opened Prelude
  import opened LedgerSpec

  /** A file being written is Torn until it has been synced. */
  datatype File = Torn | Whole(snapshot: Ledger)

  datatype Disk = Disk(main: Option<File>, temporary: Option<File>, previous: Option<File>)

  const BLANK := Disk(None, None, None)

  datatype FileOp =
    | CreateTemporary
    | WriteTemporary(snapshot: Ledger)
    | RemovePrevious
    | RenameMainToPrevious
    | RenameTemporaryToMain

  function Apply(d: Disk, op: FileOp): Disk {
    match op
    case CreateTemporary => d.(temporary := Some(Torn))
    case WriteTemporary(snapshot) => d.(temporary := Some(Whole(snapshot)))
    case RemovePrevious => d.(previous := None)
    case RenameMainToPrevious => d.(main := None, previous := d.main)
    case RenameTemporaryToMain => d.(main := d.temporary, temporary := None)
  }

  function ApplyAll(d: Disk, ops: seq<FileOp>): Disk
    decreases |ops|
  {
    if ops == [] then d else ApplyAll(Apply(d, ops[0]), ops[1..])
  }

  function PersistOps(d: Disk, l: Ledger): seq<FileOp> {
    [CreateTemporary, WriteTemporary(l)]
    + (if d.main.Some? && d.previous.Some? then [RemovePrevious] else [])
    + (if d.main.Some? then [RenameMainToPrevious] else [])
    + [RenameTemporaryToMain]
    + (if d.main.Some? || d.previous.Some? then [RemovePrevious] else [])
  }

  /** The disk after `persist` when only its first `cut` file operations take effect, and whether it reports success.
      With `cut` equal to the number of operations, everything was done but the final directory sync failed. */
  function Persist(d: Disk, l: Ledger, cut: nat): (Disk, bool) {
    var ops := PersistOps(d, l);
    if cut <= |ops| then (ApplyAll(d, ops[..cut]), false) else (ApplyAll(d, ops), true)
  }

  /** The file `open` reads. */
  function Source(d: Disk): Option<File> {
    if d.main.Some? then d.main else d.previous
  }

  /** The snapshot a reopening process starts from. */
  function Durable(d: Disk): Option<Ledger> {
    if Source(d).Some? && Source(d).value.Whole? then Some(Source(d).value.snapshot) else None
  }

  /** `open`: read, check the size, recover, persist. */
  function Open(d: Disk, capacity: nat, cut: nat): (Disk, Result<Ledger>) {
    var source := Source(d);
    if source == Some(Torn) then (d, Err("invalid_data")) else
    if source.Some? && |source.value.snapshot.commands| > capacity then (d, Err("command_log_capacity_exceeded")) else
    var l := if source.None? then EMPTY else Recover(source.value.snapshot);
    var (written, ok) := Persist(d, l, cut);
    (written, if ok then Ok(l) else Err("persist_failed"))
  }

  // ---- crash atomicity ----

  /** Neither readable file is ever half written. */
  ghost predicate Sound(d: Disk) {
    d.main != Some(Torn) && d.previous != Some(Torn)
  }

  /** Wherever `persist` stops, a reopening process sees the old snapshot or the new one; on success, the new one. */
  lemma PersistIsAtomic(d: Disk, l: Ledger, cut: nat)
    requires Sound(d)
    ensures var (after, ok) := Persist(d, l, cut);
            Sound(after)
            && (Durable(after) == Durable(d) || Durable(after) == Some(l))
            && (ok ==> Durable(after) == Some(l) && after == Disk(Some(Whole(l)), None, None))
  {
    var ops := PersistOps(d, l);
    var n := if cut <= |ops| then cut else |ops|;
    assert ops[..|ops|] == ops;
    PersistPrefix(d, l, n);
  }

  lemma PersistPrefix(d: Disk, l: Ledger, n: nat)
    requires Sound(d) && n <= |PersistOps(d, l)|
    ensures var after := ApplyAll(d, PersistOps(d, l)[..n]);
            Sound(after)
            && (Durable(after) == Durable(d) || Durable(after) == Some(l))
            && (n == |PersistOps(d, l)| ==> after == Disk(Some(Whole(l)), None, None))
  {
    var ops := PersistOps(d, l);
    var d1 := d.(temporary := Some(Torn));
    var d2 := d.(temporary := Some(Whole(l)));
    if n >= 1 {
      Unfold(d, ops[..n]);
      assert ops[..n][1..] == ops[1..n];
    }
    if n >= 2 {
      Unfold(d1, ops[1..n]);
      assert ops[1..n][1..] == ops[2..n];
      var tail := ops[2..n];
      assert forall k :: 0 <= k < |tail| ==> tail[k] == ops[k + 2];
      assert ApplyAll(d, ops[..n]) == ApplyAll(d2, tail);
      UnfoldFour(d2, tail);
    }
  }

  lemma Unfold(d: Disk, ops: seq<FileOp>)
    requires ops != []
    ensures ApplyAll(d, ops) == ApplyAll(Apply(d, ops[0]), ops[1..])
  {
  }

  lemma UnfoldFour(d: Disk, ops: seq<FileOp>)
    requires |ops| <= 4
    ensures ApplyAll(d, ops) ==
      if |ops| == 0 then d
      else if |ops| == 1 then Apply(d, ops[0])
      else if |ops| == 2 then Apply(Apply(d, ops[0]), ops[1])
      else if |ops| == 3 then Apply(Apply(Apply(d, ops[0]), ops[1]), ops[2])
      else Apply(Apply(Apply(Apply(d, ops[0]), ops[1]), ops[2]), ops[3])
  {
    if |ops| >= 1 { Unfold(d, ops); }
    if |ops| >= 2 { Unfold(Apply(d, ops[0]), ops[1..]); }
    if |ops| >= 3 { Unfold(Apply(Apply(d, ops[0]), ops[1]), ops[1..][1..]); }
  }

  /** Reopening never meets a torn file: it fails only for size or because its own persist was cut short. */
  lemma OpenIsAtomic(d: Disk, capacity: nat, cut: nat)
    requires Sound(d)
    ensures var (after, result) := Open(d, capacity, cut);
            var l := if Durable(d).None? then EMPTY else Recover(Durable(d).value);
            Sound(after)
            && (Durable(after) == Durable(d) || Durable(after) == Some(l))
            && (result.Ok? ==> result.value == l && Durable(after) == Some(l))
            && (result.Err? <==> (Durable(d).Some? && |Durable(d).value.commands| > capacity) || cut <= |PersistOps(d, l)|)
  {
    var l := if Durable(d).None? then EMPTY else Recover(Durable(d).value);
    PersistIsAtomic(d, l, cut);
  }

  // ---- any number of persists, crashes and reopenings ----

  datatype StoreEvent = Attempt(snapshot: Ledger, cut: nat) | Reopen(cut: nat)

  function StepStore(d: Disk, capacity: nat, e: StoreEvent): (Disk, bool) {
    match e
    case Attempt(snapshot, cut) => Persist(d, snapshot, cut)
    case Reopen(cut) => var (after, result) := Open(d, capacity, cut); (after, result.Ok?)
  }

  function RunStore(d: Disk, capacity: nat, events: seq<StoreEvent>): Disk
    decreases |events|
  {
    if events == [] then d else RunStore(StepStore(d, capacity, events[0]).0, capacity, events[1..])
  }

  /** What an event writes when it is a single atomic write to a register holding `r`. */
  function WrittenBy(r: Option<Ledger>, e: StoreEvent): Ledger {
    match e
    case Attempt(snapshot, _) => snapshot
    case Reopen(_) => if r.None? then EMPTY else Recover(r.value)
  }

  /** A register whose writes happen completely or not at all; `took[i]` says which. */
  function RunRegister(r: Option<Ledger>, events: seq<StoreEvent>, took: seq<bool>): Option<Ledger>
    requires |took| == |events|
    decreases |events|
  {
    if events == [] then r else
    RunRegister(if took[0] then Some(WrittenBy(r, events[0])) else r, events[1..], took[1..])
  }

  function Successes(d: Disk, capacity: nat, events: seq<StoreEvent>): (s: seq<bool>)
    ensures |s| == |events|
    decreases |events|
  {
    if events == [] then [] else
    var (after, ok) := StepStore(d, capacity, events[0]);
    [ok] + Successes(after, capacity, events[1..])
  }

  /** Over every run the three files behave like one register with all-or-nothing writes,
      in which every write that reported success took effect. */
  lemma {:induction false} StoreRefinesRegister(d: Disk, capacity: nat, events: seq<StoreEvent>) returns (took: seq<bool>)
    requires Sound(d)
    ensures |took| == |events|
    ensures Sound(RunStore(d, capacity, events))
    ensures Durable(RunStore(d, capacity, events)) == RunRegister(Durable(d), events, took)
    ensures forall i :: 0 <= i < |events| && Successes(d, capacity, events)[i] ==> took[i]
    decreases |events|
  {
    if events == [] {
      took := [];
    } else {
      var e := events[0];
      var (after, ok) := StepStore(d, capacity, e);
      match e {
        case Attempt(snapshot, cut) => PersistIsAtomic(d, snapshot, cut);
        case Reopen(cut) => OpenIsAtomic(d, capacity, cut);
      }
      var rest := StoreRefinesRegister(after, capacity, events[1..]);
      var first := Durable(after) == Some(WrittenBy(Durable(d), e));
      took := [first] + rest;
      assert took[1..] == rest;
    }
  }
}

/** The agent's ledger objects: in memory, and backed by files. */
module CommandLedgers {
  import opened Prelude
  import opened LedgerSpec
  import opened StoreSpec

  class CommandLedger {
    const capacity: nat
    var commands: map<CommandId, PersistedState>
    var order: seq<CommandId>
    var queue: seq<AgentCommand>

    constructor WithCapacity(capacity: nat)
      requires capacity > 0
      ensures this.capacity == capacity && View() == EMPTY
    {
      this.capacity := capacity;
      commands, order, queue := map[], [], [];
    }

    function View(): Ledger
      reads this
    {
      Ledger(commands, order, queue)
    }

    method State(id: CommandId) returns (state: Option<PersistedState>)
      ensures state == if id in commands then Some(commands[id]) else None
    {
      state := if id in commands then Some(commands[id]) else None;
    }

    method RemoveOldestTerminal()
      modifies this
      ensures View() == WithoutOldestTerminal(old(View()), capacity)
    {
      if |commands| < capacity {
        return;
      }
      var index := 0;
      while index < |order| && !HasTerminal(commands, order[index])
        invariant index <= |order|
        invariant FirstTerminal(View(), 0) == FirstTerminal(View(), index)
      {
        index := index + 1;
      }
      if index < |order| {
        var id := order[index];
        order := order[..index] + order[index + 1..];
        commands := commands - {id};
      }
    }

    method Accept(command: AgentCommand) returns (result: Result<PersistedState>)
      modifies this
      ensures (View(), result) == LedgerSpec.Accept(old(View()), capacity, command)
    {
      if command.commandId in commands {
        return Ok(commands[command.commandId]);
      }
      RemoveOldestTerminal();
      if |commands| >= capacity {
        return Err("command_log_capacity_exceeded");
      }
      commands := commands[command.commandId := Accepted];
      order := order + [command.commandId];
      queue := queue + [command];
      result := Ok(Accepted);
    }

    method Dequeue() returns (command: Option<AgentCommand>)
      modifies this
      ensures (View(), command) == LedgerSpec.Dequeue(old(View()))
    {
      if queue == [] {
        return None;
      }
      var front := queue[0];
      queue := queue[1..];
      commands := commands[front.commandId := Executing];
      command := Some(front);
    }

    method Finish(id: CommandId, state: PersistedState) returns (changed: bool)
      modifies this
      ensures (View(), changed) == LedgerSpec.Finish(old(View()), id, state)
    {
      if !IsTerminal(state) || id !in commands {
        return false;
      }
      commands := commands[id := state];
      changed := true;
    }

    /** Replaces the contents by a snapshot read from disk, as `open` does: no command stays Executing,
        and the queue keeps only what is still Accepted. */
    method Load(snapshot: Ledger)
      modifies this
      ensures View() == Recover(snapshot)
    {
      commands, order, queue := snapshot.commands, snapshot.order, snapshot.queue;
      var pending := commands.Keys;
      while pending != {}
        invariant pending <= commands.Keys == snapshot.commands.Keys
        invariant order == snapshot.order && queue == snapshot.queue
        invariant forall id :: id in commands ==>
          commands[id] == if id in pending then snapshot.commands[id] else RecoveredState(snapshot.commands[id])
      {
        var id :| id in pending;
        if commands[id] == Executing {
          commands := commands[id := OutcomeUnknown];
        }
        pending := pending - {id};
      }
      assert commands == RecoveredStates(snapshot.commands);
      var kept: seq<AgentCommand> := [];
      for i := 0 to |queue|
        invariant commands == RecoveredStates(snapshot.commands)
        invariant order == snapshot.order && queue == snapshot.queue
        invariant kept == KeepAccepted(queue[..i], commands)
      {
        assert queue[..i + 1] == queue[..i] + [queue[i]];
        KeepAcceptedConcat(queue[..i], [queue[i]], commands);
        if queue[i].commandId in commands && commands[queue[i].commandId] == Accepted {
          kept := kept + [queue[i]];
        }
      }
      assert queue[..|queue|] == queue;
      queue := kept;
    }
  }

  /** The directory the ledger lives in; it outlives the process. */
  class Directory {
    var disk: Disk

    constructor (disk: Disk)
      ensures this.disk == disk
    {
      this.disk := disk;
    }
  }

  class FileCommandLedger {
    const ledger: CommandLedger
    const directory: Directory

    constructor (ledger: CommandLedger, directory: Directory)
      ensures this.ledger == ledger && this.directory == directory
    {
      this.ledger, this.directory := ledger, directory;
    }

    static method Open(directory: Directory, capacity: nat, cut: nat) returns (result: Result<FileCommandLedger>)
      requires capacity > 0
      modifies directory
      ensures directory.disk == StoreSpec.Open(old(directory.disk), capacity, cut).0
      ensures result.Ok? <==> StoreSpec.Open(old(directory.disk), capacity, cut).1.Ok?
      ensures result.Ok? ==> fresh(result.value) && fresh(result.value.ledger) && result.value.directory == directory
      ensures result.Ok? ==> result.value.ledger.capacity == capacity
      ensures result.Ok? ==> Ok(result.value.ledger.View()) == StoreSpec.Open(old(directory.disk), capacity, cut).1
    {
      var disk := directory.disk;
      var source := if disk.main.Some? then disk.main else disk.previous;
      var ledger := new CommandLedger.WithCapacity(capacity);
      if source.Some? {
        if source.value.Torn? {
          return Err("invalid_data");
        }
        if |source.value.snapshot.commands| > capacity {
          return Err("command_log_capacity_exceeded");
        }
        ledger.Load(source.value.snapshot);
      }
      var instance := new FileCommandLedger(ledger, directory);
      var ok := instance.Persist(cut);
      result := if ok then Ok(instance) else Err("persist_failed");
    }

    /** One file operation of `persist`; it takes effect unless the process has already been cut off. */
    method Perform(op: FileOp, done: nat, cut: nat) returns (ok: bool)
      modifies directory
      ensures ok <==> done < cut
      ensures directory.disk == if ok then Apply(old(directory.disk), op) else old(directory.disk)
    {
      ok := done < cut;
      if ok {
        directory.disk := Apply(directory.disk, op);
      }
    }

    method Persist(cut: nat) returns (ok: bool)
      modifies directory
      ensures (directory.disk, ok) == StoreSpec.Persist(old(directory.disk), ledger.View(), cut)
    {
      ghost var start := directory.disk;
      ghost var ops := PersistOps(start, ledger.View());
      PersistStages(start, ledger.View(), cut);
      var done := 0;
      ok := Perform(CreateTemporary, done, cut);
      if !ok { return; }
      done := done + 1;
      ok := Perform(WriteTemporary(ledger.View()), done, cut);
      if !ok { return; }
      done := done + 1;
      if directory.disk.main.Some? {
        if directory.disk.previous.Some? {
          ok := Perform(RemovePrevious, done, cut);
          if !ok { return; }
          done := done + 1;
        }
        ok := Perform(RenameMainToPrevious, done, cut);
        if !ok { return; }
        done := done + 1;
      }
      ok := Perform(RenameTemporaryToMain, done, cut);
      if !ok { return; }
      done := done + 1;
      if directory.disk.previous.Some? {
        ok := Perform(RemovePrevious, done, cut);
        if !ok { return; }
        done := done + 1;
      }
      ok := done < cut;
    }

    method Accept(command: AgentCommand, cut: nat) returns (result: Result<PersistedState>)
      modifies ledger, directory
      ensures var (l, r) := LedgerSpec.Accept(old(ledger.View()), ledger.capacity, command);
              var (disk, ok) := StoreSpec.Persist(old(directory.disk), l, cut);
              ledger.View() == l
              && directory.disk == (if r.Err? then old(directory.disk) else disk)
              && result == if r.Ok? && !ok then Err("persist_failed") else r
    {
      result := ledger.Accept(command);
      if result.Err? {
        return;
      }
      var ok := Persist(cut);
      if !ok {
        result := Err("persist_failed");
      }
    }

    method Dequeue(cut: nat) returns (result: Result<Option<AgentCommand>>)
      modifies ledger, directory
      ensures var (l, c) := LedgerSpec.Dequeue(old(ledger.View()));
              var (disk, ok) := StoreSpec.Persist(old(directory.disk), l, cut);
              ledger.View() == l && directory.disk == disk
              && result == if ok then Ok(c) else Err("persist_failed")
    {
      var command := ledger.Dequeue();
      var ok := Persist(cut);
      result := if ok then Ok(command) else Err("persist_failed");
    }

    method Finish(id: CommandId, state: PersistedState, cut: nat) returns (result: Result<bool>)
      modifies ledger, directory
      ensures var (l, changed) := LedgerSpec.Finish(old(ledger.View()), id, state);
              var (disk, ok) := StoreSpec.Persist(old(directory.disk), l, cut);
              ledger.View() == l
              && directory.disk == (if changed then disk else old(directory.disk))
              && result == if changed && !ok then Err("persist_failed") else Ok(changed)
    {
      var changed := ledger.Finish(id, state);
      if changed {
        var ok := Persist(cut);
        if !ok {
          return Err("persist_failed");
        }
      }
      result := Ok(changed);
    }
  }

  /** The disk after each successive operation of `persist`, written out. */
  lemma PersistStages(d: Disk, l: Ledger, cut: nat)
    ensures var ops := PersistOps(d, l);
            var n := if cut <= |ops| then cut else |ops|;
            (n == 0 ==> StoreSpec.Persist(d, l, cut).0 == d)
            && (n == 1 ==> StoreSpec.Persist(d, l, cut).0 == Apply(d, ops[0]))
            && (n == 2 ==> StoreSpec.Persist(d, l, cut).0 == Apply(Apply(d, ops[0]), ops[1]))
            && (n == 3 ==> StoreSpec.Persist(d, l, cut).0 == Apply(Apply(Apply(d, ops[0]), ops[1]), ops[2]))
            && (n == 4 ==> StoreSpec.Persist(d, l, cut).0 == Apply(Apply(Apply(Apply(d, ops[0]), ops[1]), ops[2]), ops[3]))
            && (n == 5 ==> StoreSpec.Persist(d, l, cut).0 == Apply(Apply(Apply(Apply(Apply(d, ops[0]), ops[1]), ops[2]), ops[3]), ops[4]))
            && (n == 6 ==> StoreSpec.Persist(d, l, cut).0 == Apply(Apply(Apply(Apply(Apply(Apply(d, ops[0]), ops[1]), ops[2]), ops[3]), ops[4]), ops[5]))
  {
    var ops := PersistOps(d, l);
    var n := if cut <= |ops| then cut else |ops|;
    var taken := ops[..n];
    assert cut > |ops| ==> taken == ops;
    if n >= 1 { Unfold(d, taken); }
    if n >= 2 {
      Unfold(Apply(d, taken[0]), taken[1..]);
      UnfoldFour(Apply(Apply(d, taken[0]), taken[1]), taken[1..][1..]);
    }
  }
}
