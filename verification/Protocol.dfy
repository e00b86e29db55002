/** The durable lifecycle of one index as steps: any number of driver clients,
    recovery, and readers interleave one backend call at a time, with or without
    the shared writer. */
module Protocol {
  import opened Options
  import opened Records
  import opened Versions
  import opened Validate
  import opened History
  import opened Slots

  /** How a mutation ended. */
  datatype Ending =
    | PublishedAs(state: State)
    | ReplayedAs(state: State)
    | Conflicts
    | NotPermitted(refusal: Refusal)
    | BuildRefused(refusal: Refusal)
    | WriteRefused(error: WriteError)
    | FoundStaged(version: nat)
    | HeadGone
    | Corrupt

  /** Where a mutation stands between two backend calls. `seen` counts the
      events published when the head was read. */
  datatype Phase =
    | Checked
    | HeadRead(expected: Option<Head>, seen: nat)
    | NotReplayed(expected: Option<Head>, seen: nat)
    | PayloadMissing(expected: Option<Head>, seen: nat)
    | Loaded(expected: Option<Head>, seen: nat, current: Option<Current>)
    | Prepared(expected: Option<Head>, seen: nat, successor: Successor)
    | StagedBy(expected: Option<Head>, seen: nat, successor: Successor)
    | Ended(ending: Ending)

  datatype Client = Client(operation: Operation, phase: Phase)

  datatype Reading = NotFound | Found(payload: Payload) | Damaged

  datatype Reader =
    | Opened
    | SawHead(head: Head, version: nat, seen: nat)
    | SawNoPayload(seen: nat)
    | Read(result: Reading, seen: nat)

  datatype Cell = Cell(slot: Slot, log: Log, stages: nat, clients: map<nat, Client>, readers: map<nat, Reader>)

  const START: Cell := Cell(EMPTY, [], 0, map[], map[])

  datatype Action =
    | Begin(id: nat, operation: Operation)
    | Advance(id: nat)
    | Drop(id: nat)
    | Recover(version: nat, marker: Marker)
    | Open(id: nat)
    | ReadOn(id: nat)

  function MarkerOf(operation: Operation, version: nat): Marker {
    Marker(operation.index, version, IdentityOf(operation), TransitionOf(operation.change))
  }

  /** What decoding the payload stored for a version checks. */
  predicate Decodes(index: Index, version: nat, payload: Payload) {
    DecoderAccepts(payload) && payload.index == index && payload.version == version
  }

  ghost function WithPhase(cell: Cell, id: nat, phase: Phase): Cell
    requires id in cell.clients
  {
    cell.(clients := cell.clients[id := cell.clients[id].(phase := phase)])
  }

  /** The replay lookup: a record under the key answers the operation, or
      contradicts it. */
  function Replayed(operation: Operation, record: Record): Ending {
    if record.index != operation.index || record.operation.key != operation.key then Corrupt
    else if record.operation.digest != IdentityOf(operation).digest then Conflicts
    else ReplayedAs(record.resulting)
  }

  function Load(index: Index, slot: Slot, expected: Option<Head>, seen: nat): Phase {
    if expected.Some? && expected.value.identity != index then Ended(Corrupt)
    else if expected.Some? && expected.value.state.Active? then
      var version := expected.value.state.version;
      if version !in slot.versions then PayloadMissing(expected, seen)
      else
        var payload := slot.versions[version];
        if !Decodes(index, version, payload) || payload.config != expected.value.config then Ended(Corrupt)
        else Loaded(expected, seen, Some(Current(expected.value, payload)))
    else Loaded(expected, seen, None)
  }

  /** Permission, staged-state check, and build. */
  function Prepare(operation: Operation, slot: Slot, expected: Option<Head>, seen: nat, current: Option<Current>): Phase {
    var refusal := Permit(operation, expected);
    if refusal.Some? then Ended(NotPermitted(refusal.value))
    else if FirstStaged(slot.staging).Some? then Ended(FoundStaged(FirstStaged(slot.staging).value))
    else
      match SuccessorOf(operation, current)
      case Err(r) => Ended(BuildRefused(r))
      case Ok(successor) => Prepared(expected, seen, successor)
  }

  predicate Counted(version: nat, last: nat) {
    1 <= version <= last
  }

  function VersionSet(last: nat): set<nat> {
    set v: nat | v <= last && Counted(v, last)
  }

  /** The write a staged operation publishes with. */
  function PublishStaged(operation: Operation, slot: Slot, expected: Option<Head>, successor: Successor): Outcome {
    if successor.payload.Some? then
      WritePublish(slot, successor.payload.value.version, operation.key, expected,
        MarkerOf(operation, successor.payload.value.version), successor.head, successor.record)
    else if expected.Some? && successor.head.state.Destroyed? then
      WriteDestroy(slot, operation.key, expected.value, successor.head, successor.record, VersionSet(successor.head.state.lastVersion))
    else Outcome(slot, Some(HeadChanged))
  }

  ghost function StepStage(cell: Cell, id: nat, operation: Operation, expected: Option<Head>, seen: nat, successor: Successor): Cell
    requires id in cell.clients
  {
    if successor.payload.None? then WithPhase(cell, id, StagedBy(expected, seen, successor))
    else
      var payload := successor.payload.value;
      var r := WriteStage(cell.slot, payload.version, operation.key, expected, MarkerOf(operation, payload.version), payload);
      if r.error.Some? then WithPhase(cell, id, Ended(WriteRefused(r.error.value)))
      else WithPhase(cell.(slot := r.slot, stages := cell.stages + 1), id, StagedBy(expected, seen, successor))
  }

  ghost function StepPublish(cell: Cell, id: nat, operation: Operation, expected: Option<Head>, successor: Successor): Cell
    requires id in cell.clients
  {
    var r := PublishStaged(operation, cell.slot, expected, successor);
    if r.error.Some? then WithPhase(cell, id, Ended(WriteRefused(r.error.value)))
    else
      WithPhase(cell.(slot := r.slot, log := cell.log + [Event(operation, successor)]), id,
        Ended(PublishedAs(successor.head.state)))
  }

  /** One backend call of a mutation, with the computing up to the next call. */
  ghost function AdvanceClient(index: Index, cell: Cell, id: nat): Cell
    requires id in cell.clients
  {
    var Client(operation, phase) := cell.clients[id];
    match phase
    case Checked => WithPhase(cell, id, HeadRead(cell.slot.head, |cell.log|))
    case HeadRead(expected, seen) =>
      if operation.key in cell.slot.operations
      then WithPhase(cell, id, Ended(Replayed(operation, cell.slot.operations[operation.key])))
      else WithPhase(cell, id, NotReplayed(expected, seen))
    case NotReplayed(expected, seen) => WithPhase(cell, id, Load(index, cell.slot, expected, seen))
    case PayloadMissing(expected, seen) =>
      WithPhase(cell, id, Ended(if KindOf(cell.slot.head) == ActiveKind then Corrupt else HeadGone))
    case Loaded(expected, seen, current) => WithPhase(cell, id, Prepare(operation, cell.slot, expected, seen, current))
    case Prepared(expected, seen, successor) => StepStage(cell, id, operation, expected, seen, successor)
    case StagedBy(expected, seen, successor) => StepPublish(cell, id, operation, expected, successor)
    case Ended(_) => cell
  }

  /** One backend call of a reader, which takes no lock. */
  ghost function AdvanceReader(index: Index, cell: Cell, reader: Reader): Reader {
    match reader
    case Opened =>
      if KindOf(cell.slot.head) == ActiveKind
      then SawHead(cell.slot.head.value, cell.slot.head.value.state.version, |cell.log|)
      else Read(NotFound, |cell.log|)
    case SawHead(head, version, seen) =>
      if version !in cell.slot.versions then SawNoPayload(seen)
      else
        var payload := cell.slot.versions[version];
        if !Decodes(index, version, payload) || payload.config != head.config then Read(Damaged, seen)
        else Read(Found(payload), seen)
    case SawNoPayload(seen) =>
      Read(if KindOf(cell.slot.head) == ActiveKind then Damaged else NotFound, seen)
    case Read(_, _) => reader
  }

  ghost function Next(index: Index, cell: Cell, action: Action): Cell {
    match action
    case Begin(id, operation) =>
      if id in cell.clients || operation.index != index || CheckChange(operation.change).Some? then cell
      else cell.(clients := cell.clients[id := Client(operation, Checked)])
    case Advance(id) => if id in cell.clients then AdvanceClient(index, cell, id) else cell
    case Drop(id) => cell.(clients := cell.clients - {id})
    case Recover(version, marker) => cell.(slot := WriteQuarantine(cell.slot, version, marker).slot)
    case Open(id) => if id in cell.readers then cell else cell.(readers := cell.readers[id := Opened])
    case ReadOn(id) =>
      if id in cell.readers then cell.(readers := cell.readers[id := AdvanceReader(index, cell, cell.readers[id])]) else cell
  }

  /** The state after any interleaving of steps. */
  ghost function After(index: Index, actions: seq<Action>): Cell {
    if actions == [] then START
    else Next(index, After(index, actions[..|actions| - 1]), actions[|actions| - 1])
  }

  // ---------- what every interleaving keeps ----------

  ghost predicate Gone(log: Log) {
    log != [] && log[|log| - 1].successor.payload.None?
  }

  ghost predicate Recorded(log: Log, key: Key) {
    exists j | 0 <= j < |log| :: log[j].operation.key == key
  }

  ghost predicate OnceKeyed(log: Log) {
    forall i, j | 0 <= i < j < |log| :: log[i].operation.key != log[j].operation.key
  }

  /** Some checked operation with the marker's identity builds this payload on
      the current state. */
  ghost predicate Builds(operation: Operation, index: Index, log: Log, marker: Marker, payload: Payload) {
    && operation.index == index && CheckChange(operation.change).None? && Permit(operation, HeadAt(log, |log|)).None?
    && marker == MarkerOf(operation, |log| + 1)
    && SuccessorOf(operation, CurrentAt(log, |log|)).Ok?
    && SuccessorOf(operation, CurrentAt(log, |log|)).value.payload == Some(payload)
  }

  ghost predicate StagedRight(index: Index, slot: Slot, log: Log) {
    forall v | v in slot.staging ::
      v == |log| + 1 && v in slot.versions && exists o :: Builds(o, index, log, slot.staging[v], slot.versions[v])
  }

  /** Payloads 1..v, at most one staged beside them; nothing once destroyed. */
  ghost predicate StoredRight(slot: Slot, log: Log) {
    if Gone(log) then slot.versions == map[] && slot.staging == map[]
    else
      && slot.versions.Keys == VersionSet(|log|) + slot.staging.Keys
      && forall v | 1 <= v <= |log| ::
           v in slot.versions && log[v - 1].successor.payload == Some(slot.versions[v])
  }

  ghost predicate RecordsRight(slot: Slot, log: Log) {
    && OnceKeyed(log)
    && (forall j | 0 <= j < |log| ::
          log[j].operation.key in slot.operations && slot.operations[log[j].operation.key] == log[j].successor.record)
    && forall key | key in slot.operations :: Recorded(log, key)
  }

  function VersionsPublished(log: Log): nat {
    if log != [] && log[|log| - 1].successor.payload.None? then |log| - 1 else |log|
  }

  ghost predicate SlotRight(index: Index, slot: Slot, log: Log, stages: nat) {
    && IsHistory(index, log)
    && slot.head == HeadAt(log, |log|)
    && StoredRight(slot, log) && StagedRight(index, slot, log) && RecordsRight(slot, log)
    && stages == VersionsPublished(log) + |slot.staging| + |slot.quarantined|
  }

  /** Keys recorded before the head was read are ruled out. */
  ghost predicate NewSince(log: Log, key: Key, seen: nat) {
    forall j | 0 <= j < |log| && j < seen :: log[j].operation.key != key
  }

  ghost predicate SeenRight(log: Log, expected: Option<Head>, seen: nat) {
    seen <= |log| && expected == HeadAt(log, seen)
  }

  ghost predicate PlanRight(log: Log, operation: Operation, expected: Option<Head>, seen: nat, successor: Successor) {
    && SeenRight(log, expected, seen) && NewSince(log, operation.key, seen)
    && Permit(operation, expected).None?
    && SuccessorOf(operation, CurrentAt(log, seen)) == Ok(successor)
  }

  /** Event `j` is this operation, or the same one retried. */
  ghost predicate AnsweredBy(log: Log, operation: Operation, state: State) {
    exists j | 0 <= j < |log| :: SameEvent(log[j], operation, state)
  }

  /** The key is taken by an operation with other content. */
  ghost predicate Contradicted(log: Log, operation: Operation) {
    exists j | 0 <= j < |log| :: Contradicts(log[j], operation)
  }

  ghost predicate Contradicts(event: Event, operation: Operation) {
    event.operation.key == operation.key && IdentityOf(event.operation) != IdentityOf(operation)
  }

  ghost predicate SameEvent(event: Event, operation: Operation, state: State) {
    IdentityOf(event.operation) == IdentityOf(operation) && event.successor.head.state == state
  }

  ghost predicate PhaseRight(log: Log, operation: Operation, phase: Phase) {
    match phase
    case Checked => true
    case HeadRead(expected, seen) => SeenRight(log, expected, seen)
    case NotReplayed(expected, seen) => SeenRight(log, expected, seen) && NewSince(log, operation.key, seen)
    case PayloadMissing(expected, seen) => SeenRight(log, expected, seen) && Gone(log)
    case Loaded(expected, seen, current) =>
      && SeenRight(log, expected, seen) && NewSince(log, operation.key, seen) && current == CurrentAt(log, seen)
    case Prepared(expected, seen, successor) => PlanRight(log, operation, expected, seen, successor)
    case StagedBy(expected, seen, successor) => PlanRight(log, operation, expected, seen, successor)
    case Ended(ending) => EndingRight(log, operation, ending)
  }

  /** The refusals driver clients never meet, and what the others mean. */
  ghost predicate EndingRight(log: Log, operation: Operation, ending: Ending) {
    match ending
    case PublishedAs(state) => AnsweredBy(log, operation, state)
    case ReplayedAs(state) => AnsweredBy(log, operation, state)
    case Conflicts => Contradicted(log, operation)
    case NotPermitted(_) => true
    case BuildRefused(refusal) => refusal == VersionExhausted
    case WriteRefused(error) => error != OperationRecorded && error != VersionStored
    case FoundStaged(_) => true
    case HeadGone => Gone(log)
    case Corrupt => false
  }

  ghost predicate ClientRight(index: Index, log: Log, client: Client) {
    && client.operation.index == index && CheckChange(client.operation.change).None?
    && PhaseRight(log, client.operation, client.phase)
  }

  /** A reader holds exactly the version its first head read named. */
  ghost predicate ReaderRight(log: Log, reader: Reader) {
    match reader
    case Opened => true
    case SawHead(head, version, seen) => 1 <= seen <= |log| && version == seen && HeadAt(log, seen) == Some(head) && CurrentAt(log, seen).Some?
    case SawNoPayload(seen) => 1 <= seen <= |log| && Gone(log)
    case Read(NotFound, seen) => seen <= |log| && (CurrentAt(log, seen).None? || Gone(log))
    case Read(Found(payload), seen) =>
      1 <= seen <= |log| && log[seen - 1].successor.payload == Some(payload)
    case Read(Damaged, _) => false
  }

  ghost predicate Right(index: Index, cell: Cell) {
    && SlotRight(index, cell.slot, cell.log, cell.stages)
    && (forall id | id in cell.clients :: ClientRight(index, cell.log, cell.clients[id]))
    && forall id | id in cell.readers :: ReaderRight(cell.log, cell.readers[id])
  }
}
