/** Driver clients that take the shared writer for their whole mutation. Each
    mutation runs on its own thread, and a client's number is its thread's. */
module LockedRuns {
  import opened Options
  import opened Records
  import opened Versions
  import opened Validate
  import opened History
  import opened Slots
  import opened Protocol
  import opened Interleavings
  import Writers = WriterLock

  datatype Session = Session(cell: Cell, lock: Writers.Lock)

  /** A turn of the whole system. `Leave` drops the guard: after the mutation
      ended, or before it staged anything. */
  datatype Turn =
    | Start(id: nat, operation: Operation)
    | Contend(step: Writers.Step)
    | Call(id: nat)
    | Leave(id: nat)
    | Look(id: nat)
    | LookOn(id: nat)

  predicate Holds(lock: Writers.Lock, id: nat) {
    Writers.StatusOf(lock, id) == Writers.Holding
  }

  predicate HasStaged(client: Client) {
    client.phase.StagedBy? && client.phase.successor.payload.Some?
  }

  ghost function Turned(index: Index, s: Session, turn: Turn): Session {
    match turn
    case Start(id, operation) => s.(cell := Next(index, s.cell, Begin(id, operation)))
    case Contend(step) => if step.Release? then s else s.(lock := Writers.Next(s.lock, step))
    case Call(id) => if Holds(s.lock, id) then s.(cell := Next(index, s.cell, Advance(id))) else s
    case Leave(id) =>
      if !Holds(s.lock, id) || (id in s.cell.clients && HasStaged(s.cell.clients[id])) then s
      else
        Session(if id in s.cell.clients && !s.cell.clients[id].phase.Ended? then Next(index, s.cell, Drop(id)) else s.cell,
                Writers.Next(s.lock, Writers.Release(id)))
    case Look(id) => s.(cell := Next(index, s.cell, Open(id)))
    case LookOn(id) => s.(cell := Next(index, s.cell, ReadOn(id)))
  }

  ghost function AfterTurns(index: Index, turns: seq<Turn>): Session {
    if turns == [] then Session(START, Writers.FREE)
    else Turned(index, AfterTurns(index, turns[..|turns| - 1]), turns[|turns| - 1])
  }

  predicate Refused(ending: Ending) {
    ending.WriteRefused? || ending.FoundStaged? || ending.HeadGone?
  }

  predicate Settled(client: Client) {
    client.phase.Checked? || (client.phase.Ended? && !Refused(client.phase.ending))
  }

  predicate OwnsStage(cell: Cell, client: Client) {
    && HasStaged(client)
    && var v := client.phase.successor.payload.value.version;
       v in cell.slot.staging && cell.slot.staging[v] == MarkerOf(client.operation, v)
  }

  /** Nothing was published since the client read the head. */
  predicate Working(cell: Cell, client: Client) {
    && !client.phase.Checked? && !client.phase.Ended? && !client.phase.PayloadMissing?
    && client.phase.seen == |cell.log|
    && (HasStaged(client) ==> OwnsStage(cell, client))
  }

  ghost predicate Serial(index: Index, s: Session) {
    && Right(index, s.cell) && Writers.Sane(s.lock)
    && (forall id | id in s.cell.clients ::
          Settled(s.cell.clients[id]) || (Holds(s.lock, id) && Working(s.cell, s.cell.clients[id])))
    && (s.cell.slot.staging == map[] || exists id :: id in s.cell.clients && OwnsStage(s.cell, s.cell.clients[id]))
  }

  /** The holder's call: it alone changes, and it ends unrefused or goes on. */
  ghost predicate Worked(before: Cell, after: Cell, id: nat) {
    && id in before.clients && id in after.clients
    && after.clients == before.clients[id := after.clients[id]]
    && (Settled(after.clients[id]) || Working(after, after.clients[id]))
    && (after.slot.staging == map[] || OwnsStage(after, after.clients[id]))
  }

  ghost predicate Ready(index: Index, cell: Cell, id: nat) {
    && Right(index, cell) && id in cell.clients
    && (Settled(cell.clients[id]) || Working(cell, cell.clients[id]))
    && (cell.slot.staging == map[] || OwnsStage(cell, cell.clients[id]))
  }

  lemma CallWorks(index: Index, cell: Cell, id: nat)
    requires Ready(index, cell, id)
    ensures Worked(cell, AdvanceClient(index, cell, id), id)
  {
    hide *;
    ReadyParts(index, cell, id);
    RightParts(index, cell);
    SlotParts(index, cell.slot, cell.log, cell.stages);
    ClientParts(index, cell.log, cell.clients[id]);
    PhaseParts(cell.log, cell.clients[id].operation, cell.clients[id].phase);
    AdvanceIs(index, cell, id);
    var Client(operation, phase) := cell.clients[id];
    match phase
    case Checked => ReadWorks(cell, id, HeadRead(cell.slot.head, |cell.log|));
    case HeadRead(expected, seen) =>
      if operation.key in cell.slot.operations {
        ReplayedAnswers(operation, cell.slot.operations[operation.key]);
        ReadWorks(cell, id, Ended(Replayed(operation, cell.slot.operations[operation.key])));
      } else {
        ReadWorks(cell, id, NotReplayed(expected, seen));
      }
    case NotReplayed(expected, seen) =>
      LoadFinds(index, cell, expected);
      ReadWorks(cell, id, Load(index, cell.slot, expected, seen));
    case Loaded(expected, seen, current) =>
      PrepareFinds(operation, cell.slot, expected, seen, current);
      ReadWorks(cell, id, Prepare(operation, cell.slot, expected, seen, current));
    case Prepared(expected, seen, successor) => StageWorks(index, cell, id);
    case StagedBy(expected, seen, successor) => PublishWorks(index, cell, id);
    case Ended(_) => ReadWorks(cell, id, phase);
  }

  lemma ReadyParts(index: Index, cell: Cell, id: nat)
    requires Ready(index, cell, id)
    ensures Right(index, cell) && id in cell.clients && !cell.clients[id].phase.PayloadMissing?
    ensures !cell.clients[id].phase.Checked? && !cell.clients[id].phase.Ended? ==> cell.clients[id].phase.seen == |cell.log|
    ensures cell.clients[id].phase.Ended? ==> !Refused(cell.clients[id].phase.ending)
    ensures !cell.clients[id].phase.StagedBy? ==> cell.slot.staging == map[]
    ensures cell.clients[id].phase.StagedBy? ==> Working(cell, cell.clients[id])
    ensures cell.slot.staging == map[] || OwnsStage(cell, cell.clients[id])
  {
    hide Right;
  }

  lemma ReadWorks(cell: Cell, id: nat, phase: Phase)
    requires id in cell.clients && cell.slot.staging == map[]
    requires !phase.StagedBy? && !phase.PayloadMissing? && (phase.Ended? ==> !Refused(phase.ending))
    requires !phase.Checked? && !phase.Ended? ==> phase.seen == |cell.log|
    ensures Worked(cell, WithPhase(cell, id, phase), id)
  {
  }

  lemma ReplayedAnswers(operation: Operation, record: Record)
    ensures !Refused(Replayed(operation, record))
  {
    hide IdentityOf;
  }

  lemma LoadFinds(index: Index, cell: Cell, expected: Option<Head>)
    requires SlotRight(index, cell.slot, cell.log, cell.stages) && SeenRight(cell.log, expected, |cell.log|)
    ensures var phase := Load(index, cell.slot, expected, |cell.log|);
      if phase.Loaded? then phase.seen == |cell.log| else phase.Ended? && !Refused(phase.ending)
  {
    hide StoredRight, StagedRight, RecordsRight, IsHistory, Decodes, Publishable, VersionsPublished;
    SlotParts(index, cell.slot, cell.log, cell.stages);
    StateAt(index, cell.log, |cell.log|);
    if CurrentAt(cell.log, |cell.log|).Some? {
      StoresAt(cell.slot, cell.log, |cell.log|);
    }
  }

  lemma PrepareFinds(operation: Operation, slot: Slot, expected: Option<Head>, seen: nat, current: Option<Current>)
    requires slot.staging == map[]
    ensures var phase := Prepare(operation, slot, expected, seen, current);
      if phase.Prepared? then phase.seen == seen else phase.Ended? && !Refused(phase.ending)
  {
    FirstStagedNone(slot.staging);
    hide FirstStaged, Permit, SuccessorOf;
  }

  lemma StageWorks(index: Index, cell: Cell, id: nat)
    requires Right(index, cell) && id in cell.clients && cell.clients[id].phase.Prepared?
    requires cell.clients[id].phase.seen == |cell.log| && cell.slot.staging == map[]
    ensures Worked(cell, AdvanceClient(index, cell, id), id)
  {
    hide *;
    var Client(operation, Prepared(expected, seen, successor)) := cell.clients[id];
    RightParts(index, cell);
    ClientParts(index, cell.log, cell.clients[id]);
    PhaseParts(cell.log, operation, cell.clients[id].phase);
    SlotParts(index, cell.slot, cell.log, cell.stages);
    PlanSeen(cell.log, operation, expected, seen, successor);
    SeenIs(cell.log, expected, seen);
    if successor.payload.Some? {
      StageKeeps(index, cell.slot, cell.log, cell.stages, operation, expected, seen, successor);
      StageGoes(cell.slot, operation, successor);
    }
    StagedWorks(index, cell, id);
  }

  lemma StageGoes(slot: Slot, operation: Operation, successor: Successor)
    requires successor.payload.Some? && slot.staging == map[]
    requires var v := successor.payload.value.version;
      var r := WriteStage(slot, v, operation.key, slot.head, MarkerOf(operation, v), successor.payload.value);
      r.error.Some? ==> r.error.value.HeadChanged? || r.error.value.StagedStateExists?
    ensures var v := successor.payload.value.version;
      var r := WriteStage(slot, v, operation.key, slot.head, MarkerOf(operation, v), successor.payload.value);
      r.error.None? && r.slot.staging == map[v := MarkerOf(operation, v)]
  {
    FirstStagedNone(slot.staging);
    hide FirstStaged, MarkerOf;
  }

  lemma StagedWorks(index: Index, cell: Cell, id: nat)
    requires id in cell.clients && cell.clients[id].phase.Prepared?
    requires cell.clients[id].phase.seen == |cell.log| && cell.slot.staging == map[]
    requires var Client(operation, Prepared(expected, seen, successor)) := cell.clients[id];
      && expected == cell.slot.head
      && (successor.payload.Some? ==>
            var v := successor.payload.value.version;
            var r := WriteStage(cell.slot, v, operation.key, expected, MarkerOf(operation, v), successor.payload.value);
            r.error.None? && r.slot.staging == map[v := MarkerOf(operation, v)])
    ensures Worked(cell, AdvanceClient(index, cell, id), id)
  {
    hide WriteStage, MarkerOf;
  }

  lemma PublishWorks(index: Index, cell: Cell, id: nat)
    requires Right(index, cell) && id in cell.clients && cell.clients[id].phase.StagedBy?
    requires Working(cell, cell.clients[id]) && (cell.slot.staging == map[] || OwnsStage(cell, cell.clients[id]))
    ensures Worked(cell, AdvanceClient(index, cell, id), id)
  {
    hide *;
    var Client(operation, StagedBy(expected, seen, successor)) := cell.clients[id];
    RightParts(index, cell);
    ClientParts(index, cell.log, cell.clients[id]);
    PhaseParts(cell.log, operation, cell.clients[id].phase);
    SlotParts(index, cell.slot, cell.log, cell.stages);
    WorkingParts(cell, cell.clients[id]);
    PlanSeen(cell.log, operation, expected, seen, successor);
    SeenIs(cell.log, expected, seen);
    KeyUnrecorded(cell.slot, cell.log, operation.key);
    PlanMeans(index, cell.log, operation, expected, successor);
    if successor.payload.Some? {
      StagedOne(index, cell.slot, cell.log, successor.payload.value.version);
      PublishGoes(cell.slot, operation, successor);
    } else {
      DestroyGoes(cell.slot, operation, successor);
    }
    PublishedWorks(index, cell, id);
  }

  lemma WorkingParts(cell: Cell, client: Client)
    requires Working(cell, client) && client.phase.StagedBy? && (cell.slot.staging == map[] || OwnsStage(cell, client))
    ensures client.phase.seen == |cell.log|
    ensures client.phase.successor.payload.Some? ==>
      var v := client.phase.successor.payload.value.version;
      v in cell.slot.staging && cell.slot.staging[v] == MarkerOf(client.operation, v)
    ensures client.phase.successor.payload.None? ==> cell.slot.staging == map[]
  {
    hide MarkerOf;
  }

  lemma PublishGoes(slot: Slot, operation: Operation, successor: Successor)
    requires successor.payload.Some? && operation.key !in slot.operations
    requires var v := successor.payload.value.version;
      && v in slot.staging && slot.staging[v] == MarkerOf(operation, v) && v in slot.versions
      && slot.staging - {v} == map[]
    ensures var r := PublishStaged(operation, slot, slot.head, successor); r.error.None? && r.slot.staging == map[]
  {
    hide MarkerOf;
  }

  lemma DestroyGoes(slot: Slot, operation: Operation, successor: Successor)
    requires successor.payload.None? && operation.key !in slot.operations && slot.head.Some?
    requires successor.head.state.Destroyed? && slot.staging == map[]
    ensures var r := PublishStaged(operation, slot, slot.head, successor); r.error.None? && r.slot.staging == map[]
  {
    FirstStagedNone(slot.staging);
    hide FirstStaged;
  }

  lemma PublishedWorks(index: Index, cell: Cell, id: nat)
    requires id in cell.clients && cell.clients[id].phase.StagedBy?
    requires var Client(operation, StagedBy(expected, seen, successor)) := cell.clients[id];
      && expected == cell.slot.head
      && var r := PublishStaged(operation, cell.slot, expected, successor); r.error.None? && r.slot.staging == map[]
    ensures Worked(cell, AdvanceClient(index, cell, id), id)
  {
    hide PublishStaged, OwnsStage;
  }

  // ---------- turns ----------

  lemma {:induction false} EveryLockedRun(index: Index, turns: seq<Turn>)
    ensures Serial(index, AfterTurns(index, turns))
    decreases |turns|
  {
    hide *;
    if turns == [] {
      StartSerial(index);
    } else {
      EveryLockedRun(index, turns[..|turns| - 1]);
      AfterTurnsIs(index, turns);
      TurnKeeps(index, AfterTurns(index, turns[..|turns| - 1]), turns[|turns| - 1]);
    }
  }

  lemma StartSerial(index: Index)
    ensures Serial(index, AfterTurns(index, []))
  {
    StartRight(index);
    Writers.FreeIsSane();
    hide Right, Writers.Sane;
  }

  lemma AfterTurnsIs(index: Index, turns: seq<Turn>)
    requires turns != []
    ensures AfterTurns(index, turns) == Turned(index, AfterTurns(index, turns[..|turns| - 1]), turns[|turns| - 1])
  {
    hide Turned;
  }

  lemma TurnKeeps(index: Index, s: Session, turn: Turn)
    requires Serial(index, s)
    ensures Serial(index, Turned(index, s, turn))
  {
    hide *;
    SerialParts(index, s);
    match turn
    case Start(id, operation) =>
      NextKeeps(index, s.cell, Begin(id, operation));
      SteppedMeans(index, s.cell, Next(index, s.cell, Begin(id, operation)));
      StartKeeps(index, s, id, operation);
    case Contend(step) =>
      Writers.StepKeeps(s.lock, step);
      ContendKeeps(index, s, step);
    case Call(id) =>
      NextKeeps(index, s.cell, Advance(id));
      SteppedMeans(index, s.cell, Next(index, s.cell, Advance(id)));
      CallKeeps(index, s, id);
    case Leave(id) =>
      NextKeeps(index, s.cell, Drop(id));
      SteppedMeans(index, s.cell, Next(index, s.cell, Drop(id)));
      Writers.StepKeeps(s.lock, Writers.Release(id));
      LeaveKeeps(index, s, id);
    case Look(id) =>
      NextKeeps(index, s.cell, Open(id));
      SteppedMeans(index, s.cell, Next(index, s.cell, Open(id)));
      LookKeeps(index, s, turn);
    case LookOn(id) =>
      NextKeeps(index, s.cell, ReadOn(id));
      SteppedMeans(index, s.cell, Next(index, s.cell, ReadOn(id)));
      LookKeeps(index, s, turn);
  }

  lemma SerialParts(index: Index, s: Session)
    requires Serial(index, s)
    ensures Right(index, s.cell) && Writers.Sane(s.lock)
  {
    hide Right, Writers.Sane;
  }

  lemma StartKeeps(index: Index, s: Session, id: nat, operation: Operation)
    requires Serial(index, s) && Right(index, Next(index, s.cell, Begin(id, operation)))
    ensures Serial(index, Turned(index, s, Start(id, operation)))
  {
    hide Right, Writers.Sane, CheckChange, MarkerOf, Writers.StatusOf;
    var t := Turned(index, s, Start(id, operation));
    if s.cell.slot.staging != map[] {
      var owner :| owner in s.cell.clients && OwnsStage(s.cell, s.cell.clients[owner]);
      assert OwnsStage(t.cell, t.cell.clients[owner]);
    }
  }

  lemma LookKeeps(index: Index, s: Session, turn: Turn)
    requires Serial(index, s) && (turn.Look? || turn.LookOn?)
    requires Right(index, Next(index, s.cell, if turn.Look? then Open(turn.id) else ReadOn(turn.id)))
    ensures Serial(index, Turned(index, s, turn))
  {
    hide Right, Writers.Sane, AdvanceReader, MarkerOf, Writers.StatusOf;
    var t := Turned(index, s, turn);
    if s.cell.slot.staging != map[] {
      var owner :| owner in s.cell.clients && OwnsStage(s.cell, s.cell.clients[owner]);
      assert OwnsStage(t.cell, t.cell.clients[owner]);
    }
  }

  /** Contending for the writer takes it from nobody. */
  lemma StillHolds(lock: Writers.Lock, step: Writers.Step, id: nat)
    requires !step.Release? && Writers.Sane(lock) && Holds(lock, id)
    ensures Holds(Writers.Next(lock, step), id)
  {
    assert lock.owner == Some(id);
  }

  lemma ContendKeeps(index: Index, s: Session, step: Writers.Step)
    requires Serial(index, s) && Writers.Sane(Writers.Next(s.lock, step))
    ensures Serial(index, Turned(index, s, Contend(step)))
  {
    hide Right, Writers.Sane, Writers.Next, Writers.StatusOf, Working, OwnsStage, Settled, Holds;
    if !step.Release? {
      forall id: nat | Holds(s.lock, id) ensures Holds(Writers.Next(s.lock, step), id) {
        StillHolds(s.lock, step, id);
      }
    }
  }

  /** While one client holds the writer every other is settled. */
  lemma OthersSettled(index: Index, s: Session, id: nat)
    requires Serial(index, s) && Holds(s.lock, id)
    ensures forall i | i in s.cell.clients && i != id :: Settled(s.cell.clients[i])
    ensures id in s.cell.clients ==> Ready(index, s.cell, id)
    ensures id !in s.cell.clients ==> s.cell.slot.staging == map[]
  {
    hide Right, MarkerOf, Writers.NoLostWake, Writers.Waiting;
    assert s.lock.owner == Some(id);
  }

  lemma CallKeeps(index: Index, s: Session, id: nat)
    requires Serial(index, s) && Right(index, Next(index, s.cell, Advance(id)))
    ensures Serial(index, Turned(index, s, Call(id)))
  {
    hide Right, Writers.Sane, AdvanceClient, Settled, Working, OwnsStage, Holds, Ready;
    if Holds(s.lock, id) && id in s.cell.clients {
      OthersSettled(index, s, id);
      CallWorks(index, s.cell, id);
    }
  }

  lemma Released(lock: Writers.Lock, id: nat)
    requires Writers.Sane(lock) && Holds(lock, id)
    ensures forall i: nat | Holds(lock, i) :: i == id
  {
    assert lock.owner == Some(id);
  }

  lemma LeaveKeeps(index: Index, s: Session, id: nat)
    requires Serial(index, s) && Right(index, Next(index, s.cell, Drop(id)))
    requires Writers.Sane(Writers.Next(s.lock, Writers.Release(id)))
    ensures Serial(index, Turned(index, s, Leave(id)))
  {
    hide Right, Writers.Sane, Writers.Next, Holds, Writers.StatusOf;
    if Holds(s.lock, id) && !(id in s.cell.clients && HasStaged(s.cell.clients[id])) {
      OthersSettled(index, s, id);
      hide MarkerOf;
    }
  }

  /** Mutations that all hold the writer, dropped only before they stage, never
      meet a moved head, staged state left behind, or missing staged state. */
  lemma LockedNeverRefused(index: Index, turns: seq<Turn>, id: nat)
    requires id in AfterTurns(index, turns).cell.clients && AfterTurns(index, turns).cell.clients[id].phase.Ended?
    ensures !Refused(AfterTurns(index, turns).cell.clients[id].phase.ending)
    ensures AfterTurns(index, turns).cell.clients[id].phase.ending != Corrupt
  {
    EveryLockedRun(index, turns);
    var cell := AfterTurns(index, turns).cell;
    hide AfterTurns, SlotRight, CheckChange, Writers.Sane, IdentityOf;
    assert ClientRight(index, cell.log, cell.clients[id]);
  }
}
