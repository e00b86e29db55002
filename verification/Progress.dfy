/** How a mutation nobody interrupts ends, on every state the lifecycle leaves:
    which requests go through, what they publish, and which are refused. */
module Progress {
  import opened Options
  import opened Records
  import opened Versions
  import opened Validate
  import opened History
  import opened Slots
  import opened Protocol
  import opened Driver
  import opened Acceptance
  import opened Contents
  import Interleavings

  /** An undamaged slot: the head names its own index, and an active head the
      payload stored for its version, with nothing stored after it. */
  ghost predicate Undamaged(index: Index, slot: Slot) {
    match slot.head
    case None => 1 !in slot.versions
    case Some(Head(identity, config, state)) =>
      && identity == index
      && match state
         case Destroyed(_, _, _) => true
         case Active(version) =>
           && version in slot.versions && version + 1 !in slot.versions
           && var payload := slot.versions[version];
              Publishable(payload) && payload.index == index && payload.version == version && payload.config == config
  }

  /** Every slot an interleaving of driver clients reaches with nothing staged is
      undamaged. */
  lemma ReachedUndamaged(index: Index, slot: Slot, log: Log, stages: nat)
    requires SlotRight(index, slot, log, stages) && slot.staging == map[]
    ensures Undamaged(index, slot)
  {
    hide *;
    Interleavings.SlotParts(index, slot, log, stages);
    HistoryStands(index, log, |log|);
    Interleavings.StateAt(index, log, |log|);
    if 0 < |log| && CurrentAt(log, |log|).Some? {
      Interleavings.StoresAt(slot, log, |log|);
      NoLater(slot, log);
      ActiveUndamaged(index, slot, log);
    } else {
      if |log| == 0 {
        NoLater(slot, log);
      }
      IdleUndamaged(index, slot, log);
    }
  }

  lemma NoLater(slot: Slot, log: Log)
    requires StoredRight(slot, log) && slot.staging == map[]
    requires |log| > 0 ==> CurrentAt(log, |log|).Some?
    ensures |log| + 1 !in slot.versions
  {
    assert (|log| + 1) !in VersionSet(|log|);
    assert slot.staging.Keys == {};
    assert |log| + 1 !in slot.versions.Keys;
  }

  lemma ActiveUndamaged(index: Index, slot: Slot, log: Log)
    requires 0 < |log| && CurrentAt(log, |log|).Some? && slot.head == HeadAt(log, |log|)
    requires Standing(log, |log|) && Reads(HeadAt(log, |log|), CurrentAt(log, |log|))
    requires HeadAt(log, |log|).value.identity == index && Decodes(index, |log|, CurrentAt(log, |log|).value.payload)
    requires |log| in slot.versions && log[|log| - 1].successor.payload == Some(slot.versions[|log|])
    requires |log| + 1 !in slot.versions
    ensures Undamaged(index, slot)
  {
    hide Publishable;
  }

  lemma IdleUndamaged(index: Index, slot: Slot, log: Log)
    requires slot.head == HeadAt(log, |log|) && Reads(HeadAt(log, |log|), CurrentAt(log, |log|))
    requires HeadAt(log, |log|).Some? ==> HeadAt(log, |log|).value.identity == index
    requires |log| == 0 || CurrentAt(log, |log|).None?
    requires |log| == 0 ==> 1 !in slot.versions
    ensures Undamaged(index, slot)
  {
    hide Publishable;
  }

  // ---------- how a mutation ends ----------

  /** Refused, and nothing is different. */
  ghost predicate Refused(slot: Slot, run: Applied, ending: Ending) {
    run == Applied(slot, ending)
  }

  /** The record under the operation's key is new and is the only one. */
  ghost predicate RecordsOnce(slot: Slot, operation: Operation, run: Applied, state: State) {
    && operation.key in run.slot.operations
    && run.slot.operations == slot.operations[operation.key := run.slot.operations[operation.key]]
    && run.slot.operations[operation.key].operation == IdentityOf(operation)
    && run.slot.operations[operation.key].resulting == state
  }

  /** One version more than before, active, nothing left staged. */
  ghost predicate Publishes(slot: Slot, operation: Operation, version: nat, config: IndexConfig, run: Applied) {
    && run.ending == PublishedAs(Active(version))
    && run.slot.head == Some(Head(operation.index, config, Active(version)))
    && run.slot.staging == map[] && run.slot.quarantined == slot.quarantined
    && RecordsOnce(slot, operation, run, Active(version))
    && version in run.slot.versions && version !in slot.versions
    && run.slot.versions == slot.versions[version := run.slot.versions[version]]
    && var payload := run.slot.versions[version];
       payload.index == operation.index && payload.version == version && payload.config == config && Publishable(payload)
  }

  /** A first version holds nothing yet. */
  ghost predicate Creates(slot: Slot, operation: Operation, config: IndexConfig, run: Applied) {
    && Publishes(slot, operation, 1, config, run)
    && run.slot.versions[1].members == map[] && run.slot.versions[1].engine == Engine(config, [])
  }

  /** The next version holds what the change makes of the one before, unless the
      version counter is at its end. */
  ghost predicate Steps(slot: Slot, operation: Operation, version: nat, config: IndexConfig, run: Applied)
    requires version in slot.versions
  {
    if version == VERSION_MAX then Refused(slot, run, BuildRefused(VersionExhausted))
    else
      && Publishes(slot, operation, version + 1, config, run)
      && HoldsAfter(operation.change, slot.versions[version], run.slot.versions[version + 1])
  }

  /** Every published payload goes, and the head says so. */
  ghost predicate Retires(slot: Slot, operation: Operation, config: IndexConfig, version: nat, retention: Retention, run: Applied) {
    var state := Destroyed(version, retention, operation.key);
    && run.ending == PublishedAs(state)
    && run.slot.head == Some(Head(operation.index, config, state))
    && run.slot.staging == map[] && run.slot.quarantined == slot.quarantined
    && RecordsOnce(slot, operation, run, state)
    && (forall u :: u in run.slot.versions <==> u in slot.versions && !(1 <= u <= version))
    && forall u | u in run.slot.versions :: run.slot.versions[u] == slot.versions[u]
  }

  /** How an acceptable request under a new key ends when nothing is staged. */
  ghost predicate Ends(index: Index, slot: Slot, operation: Operation, run: Applied)
    requires Undamaged(index, slot)
  {
    match slot.head
    case None =>
      (match operation.change
       case Create(config) => Creates(slot, operation, config, run)
       case _ => Refused(slot, run, NotPermitted(TransitionNotPermitted(AbsentKind))))
    case Some(Head(_, _, Destroyed(_, _, _))) => Refused(slot, run, NotPermitted(TransitionNotPermitted(DestroyedKind)))
    case Some(Head(_, config, Active(version))) =>
      match operation.change
      case Create(_) => Refused(slot, run, NotPermitted(TransitionNotPermitted(ActiveKind)))
      case Insert(members) =>
        if Unfit(config, members).Some? then Refused(slot, run, NotPermitted(Unfit(config, members).value))
        else Steps(slot, operation, version, config, run)
      case Rebuild(next, _) =>
        if next.Vector? != config.Vector?
        then Refused(slot, run, NotPermitted(FamilyMismatch(FamilyOf(config), FamilyOf(next))))
        else Steps(slot, operation, version, next, run)
      case Remove(_) => Steps(slot, operation, version, config, run)
      case Destroy(retention) => Retires(slot, operation, config, version, retention, run)
  }

  /** The state a mutation reads. */
  function CurrentIn(slot: Slot): Option<Current> {
    match slot.head
    case Some(Head(_, _, Active(version))) =>
      if version in slot.versions then Some(Current(slot.head.value, slot.versions[version])) else None
    case _ => None
  }

  lemma LoadsCurrent(index: Index, slot: Slot, seen: nat)
    requires Undamaged(index, slot)
    ensures Load(index, slot, slot.head, seen) == Loaded(slot.head, seen, CurrentIn(slot))
    ensures Reads(slot.head, CurrentIn(slot))
    ensures slot.head.Some? ==> slot.head.value.identity == index
    ensures slot.head.Some? && slot.head.value.state.Active? ==> CheckConfig(slot.head.value.config).None?
    ensures slot.head.Some? && slot.head.value.state.Active? ==>
      CurrentIn(slot).Some? && slot.head.value.state.version in slot.versions
      && slot.head.value.state.version + 1 !in slot.versions
      && CurrentIn(slot) == Some(Current(slot.head.value, slot.versions[slot.head.value.state.version]))
      && slot.versions[slot.head.value.state.version].version == slot.head.value.state.version
      && slot.versions[slot.head.value.state.version].config == slot.head.value.config
    ensures slot.head.None? ==> 1 !in slot.versions
    ensures !(slot.head.Some? && slot.head.value.state.Active?) ==> CurrentIn(slot).None?
  {
    hide EntryFits, Holds, CheckConfig;
  }

  lemma MutationEnds(index: Index, slot: Slot, operation: Operation, seen: nat)
    requires operation.index == index && Acceptable(operation.change)
    requires Undamaged(index, slot) && slot.staging == map[] && operation.key !in slot.operations
    ensures Ends(index, slot, operation, RunAlone(index, slot, operation, seen))
  {
    hide *;
    CheckedIff(operation.change);
    LoadsCurrent(index, slot, seen);
    PermitAnswers(operation, slot.head);
    RunAloneIs(index, slot, operation, seen);
    PrepareIs(operation, slot, seen, CurrentIn(slot));
    Interleavings.FirstStagedNone(slot.staging);
    var refusal, run := Permit(operation, slot.head), RunAlone(index, slot, operation, seen);
    if refusal.Some? {
      RefusalEnds(index, slot, operation, refusal, run);
    } else {
      AcceptedApplies(operation, slot.head, CurrentIn(slot));
      PermittedEnds(index, slot, operation, seen);
    }
  }

  /** A refusal is the documented one. */
  lemma RefusalEnds(index: Index, slot: Slot, operation: Operation, refusal: Option<Refusal>, run: Applied)
    requires Undamaged(index, slot) && refusal.Some? && Permits(operation.change, slot.head, refusal)
    requires run == Applied(slot, NotPermitted(refusal.value))
    ensures Ends(index, slot, operation, run)
  {
    hide Publishable, Unfit;
  }

  lemma PermittedEnds(index: Index, slot: Slot, operation: Operation, seen: nat)
    requires operation.index == index && CheckChange(operation.change).None? && Permit(operation, slot.head).None?
    requires Permits(operation.change, slot.head, None) && Reads(slot.head, CurrentIn(slot))
    requires Undamaged(index, slot) && slot.staging == map[] && operation.key !in slot.operations
    requires var built := SuccessorOf(operation, CurrentIn(slot));
      && (if built.Err? then built.refusal == VersionExhausted && CurrentIn(slot).Some? && CurrentIn(slot).value.payload.version == VERSION_MAX
          else Fresh(operation, built.value))
      && RunAlone(index, slot, operation, seen)
         == if built.Err? then Applied(slot, BuildRefused(built.refusal)) else Publishing(operation, slot, built.value)
    ensures Ends(index, slot, operation, RunAlone(index, slot, operation, seen))
  {
    hide *;
    LoadsCurrent(index, slot, seen);
    var current, run := CurrentIn(slot), RunAlone(index, slot, operation, seen);
    PermittedCurrent(operation, slot.head, current);
    var built := SuccessorOf(operation, current);
    if built.Ok? {
      VersionsStep(operation, current);
      FreshIs(operation, built.value);
      if current.Some? {
        ContentsAfter(operation, slot.head, current.value);
        if operation.change.Destroy? {
          DestroyedIs(operation, current.value);
          RetireEnds(slot, operation, current.value.payload.version, built.value);
          EndsRetired(index, slot, operation, run);
        } else {
          PublishEnds(slot, operation, current.value.payload.version + 1, built.value);
          EndsStepped(index, slot, operation, run);
        }
      } else {
        CreatedIs(operation);
        CreateAbsent(operation.change, slot.head);
        PublishEnds(slot, operation, 1, built.value);
        FirstHolds(slot, operation, operation.change.config, run);
        EndsCreated(index, slot, operation, run);
      }
    } else {
      ExhaustedEnds(index, slot, operation, current.value, run);
    }
  }

  lemma CreateAbsent(change: Change, head: Option<Head>)
    requires change.Create? && Permits(change, head, None)
    ensures head.None?
  {
  }

  lemma FirstHolds(slot: Slot, operation: Operation, config: IndexConfig, run: Applied)
    requires Publishes(slot, operation, 1, config, run)
    requires run.slot.versions[1].members == map[] && run.slot.versions[1].engine == Engine(config, [])
    ensures Creates(slot, operation, config, run)
  {
    hide Publishes;
  }

  lemma FreshIs(operation: Operation, successor: Successor)
    requires Fresh(operation, successor)
    ensures successor.head.identity == operation.index
    ensures successor.payload.Some? ==>
      var payload := successor.payload.value;
      && Publishable(payload) && 1 <= payload.version <= VERSION_MAX && payload.index == operation.index
      && successor.head == Head(operation.index, payload.config, Active(payload.version))
  {
    hide DecoderAccepts, CheckConfig;
  }

  lemma DestroyedIs(operation: Operation, current: Current)
    requires operation.change.Destroy? && SuccessorOf(operation, Some(current)).Ok?
    ensures var s := SuccessorOf(operation, Some(current)).value;
      && s.payload.None? && s.record.operation == IdentityOf(operation) && s.record.resulting == s.head.state
      && s.head == Head(operation.index, current.head.config,
                        Destroyed(current.payload.version, operation.change.retention, operation.key))
  {
    hide RetiredAll, IdentityOf;
  }

  lemma CreatedIs(operation: Operation)
    requires operation.change.Create? && SuccessorOf(operation, None).Ok?
    ensures var s := SuccessorOf(operation, None).value;
      && s.payload.Some? && s.payload.value.members == map[] && s.payload.value.engine == Engine(operation.change.config, [])
      && s.payload.value.config == operation.change.config && s.payload.value.version == 1
  {
    hide IdentityOf;
  }

  /** With nothing staged, the version new and the key unrecorded, neither write
      is refused. */
  lemma PublishEnds(slot: Slot, operation: Operation, version: nat, s: Successor)
    requires slot.staging == map[] && operation.key !in slot.operations && version !in slot.versions
    requires s.payload.Some? && s.payload.value.version == version && Publishable(s.payload.value)
    requires s.payload.value.index == operation.index
    requires s.head == Head(operation.index, s.payload.value.config, Active(version))
    requires s.record.operation == IdentityOf(operation) && s.record.resulting == s.head.state
    ensures var run := Publishing(operation, slot, s);
      Publishes(slot, operation, version, s.payload.value.config, run) && run.slot.versions[version] == s.payload.value
  {
    hide Publishable, IdentityOf;
    Interleavings.FirstStagedNone(slot.staging);
    PublishingIs(operation, slot, s);
    var staged := slot.(versions := slot.versions[version := s.payload.value],
                        staging := slot.staging[version := MarkerOf(operation, version)]);
    FinishedIs(operation, slot, staged, s);
    assert staged.staging - {version} == map[];
  }

  lemma RetireEnds(slot: Slot, operation: Operation, version: nat, s: Successor)
    requires slot.staging == map[] && operation.key !in slot.operations && slot.head.Some?
    requires operation.change.Destroy? && s.payload.None?
    requires s.head == Head(operation.index, slot.head.value.config, Destroyed(version, operation.change.retention, operation.key))
    requires s.record.operation == IdentityOf(operation) && s.record.resulting == s.head.state
    ensures Retires(slot, operation, slot.head.value.config, version, operation.change.retention, Publishing(operation, slot, s))
  {
    hide IdentityOf;
    Interleavings.FirstStagedNone(slot.staging);
    PublishingIs(operation, slot, s);
    FinishedIs(operation, slot, slot, s);
    forall u: nat ensures u in VersionSet(version) <==> 1 <= u <= version {
      Interleavings.CountedIs(u, version);
    }
  }

  lemma EndsRetired(index: Index, slot: Slot, operation: Operation, run: Applied)
    requires Undamaged(index, slot) && operation.change.Destroy? && slot.head.Some? && slot.head.value.state.Active?
    requires Retires(slot, operation, slot.head.value.config, slot.head.value.state.version, operation.change.retention, run)
    ensures Ends(index, slot, operation, run)
  {
    hide Publishable, Retires;
  }

  lemma EndsCreated(index: Index, slot: Slot, operation: Operation, run: Applied)
    requires Undamaged(index, slot) && operation.change.Create? && slot.head.None?
    requires Creates(slot, operation, operation.change.config, run)
    ensures Ends(index, slot, operation, run)
  {
    hide Publishable, Creates;
  }

  lemma EndsStepped(index: Index, slot: Slot, operation: Operation, run: Applied)
    requires Undamaged(index, slot) && slot.head.Some? && slot.head.value.state.Active?
    requires !operation.change.Create? && !operation.change.Destroy? && Permits(operation.change, slot.head, None)
    requires var head, version := slot.head.value, slot.head.value.state.version;
      && version < VERSION_MAX && version in slot.versions
      && Publishes(slot, operation, version + 1, ConfigAfter(operation.change, head.config), run)
      && HoldsAfter(operation.change, slot.versions[version], run.slot.versions[version + 1])
    ensures Ends(index, slot, operation, run)
  {
    hide Publishable, Publishes, HoldsAfter, Unfit;
  }

  lemma ExhaustedEnds(index: Index, slot: Slot, operation: Operation, current: Current, run: Applied)
    requires Undamaged(index, slot) && CurrentIn(slot) == Some(current) && current.payload.version == VERSION_MAX
    requires SuccessorOf(operation, Some(current)).Err? && Permits(operation.change, slot.head, None)
    requires !operation.change.Create? && run == Applied(slot, BuildRefused(VersionExhausted))
    ensures Ends(index, slot, operation, run)
  {
    hide Publishable, Unfit, InsertInto, RemoveFrom, RebuildOver;
  }

  /** The lowest staged version. */
  ghost predicate LowestStaged(slot: Slot, version: nat) {
    version in slot.staging && forall v | v in slot.staging :: version <= v
  }

  lemma LowestFound(slot: Slot)
    ensures FirstStaged(slot.staging).None? <==> slot.staging == map[]
    ensures FirstStaged(slot.staging).Some? ==> LowestStaged(slot, FirstStaged(slot.staging).value)
  {
    if slot.staging != map[] {
      assert slot.staging.Keys != {};
    }
  }

  /** A recorded key is answered from its record and a staged version stops a
      permitted mutation; neither writes anything. */
  lemma RecordedOrStaged(index: Index, slot: Slot, operation: Operation, seen: nat)
    requires operation.index == index && Acceptable(operation.change) && Undamaged(index, slot)
    ensures var run := RunAlone(index, slot, operation, seen);
      && (operation.key in slot.operations ==>
            var record := slot.operations[operation.key];
            && run.slot == slot
            && (record.index == index && record.operation.key == operation.key ==>
                  run.ending == if record.operation.digest == Digest(index, Canonical(operation.change))
                                then ReplayedAs(record.resulting) else Conflicts))
      && (operation.key !in slot.operations && slot.staging != map[] && Permits(operation.change, slot.head, None) ==>
            run.slot == slot && run.ending.FoundStaged? && LowestStaged(slot, run.ending.version))
      && (operation.key !in slot.operations && slot.staging != map[] && !Permits(operation.change, slot.head, None) ==>
            run.slot == slot && run.ending.NotPermitted? && Permits(operation.change, slot.head, Some(run.ending.refusal)))
  {
    hide *;
    CheckedIff(operation.change);
    LoadsCurrent(index, slot, seen);
    PermitAnswers(operation, slot.head);
    RunAloneIs(index, slot, operation, seen);
    PrepareIs(operation, slot, seen, CurrentIn(slot));
    LowestFound(slot);
    OnePermit(operation.change, slot.head, Permit(operation, slot.head));
    if operation.key in slot.operations {
      ReplayIs(operation, slot.operations[operation.key]);
    }
  }

  lemma OnePermit(change: Change, head: Option<Head>, r: Option<Refusal>)
    requires Permits(change, head, r)
    ensures Permits(change, head, None) <==> r == None
    ensures r.Some? ==> Some(r.value) == r
  {
    hide Unfit;
  }

  lemma ReplayIs(operation: Operation, record: Record)
    ensures record.index == operation.index && record.operation.key == operation.key ==>
      Replayed(operation, record)
        == if record.operation.digest == Digest(operation.index, Canonical(operation.change))
           then ReplayedAs(record.resulting) else Conflicts
  {
    hide Canonical;
  }

  // ---------- what a staging marker says ----------

  /** A staged version is the next one, and its marker names the index, the
      version, and the operation of the payload stored beside it. */
  ghost predicate MarkerTells(index: Index, log: Log, version: nat, marker: Marker, payload: Payload) {
    && version == |log| + 1 && marker.index == index && marker.version == version
    && payload.index == index && payload.version == version && payload.operation == marker.operation
    && marker.operation.digest.index == index
    && marker.transition == match marker.operation.digest.change
                            case Create(_) => CreateT
                            case Insert(_) => InsertT
                            case Remove(_) => RemoveT
                            case Rebuild(_, _) => RebuildT
                            case Destroy(_) => DestroyT
  }

  lemma StagedTells(index: Index, slot: Slot, log: Log, stages: nat, version: nat)
    requires SlotRight(index, slot, log, stages) && version in slot.staging
    ensures version in slot.versions && MarkerTells(index, log, version, slot.staging[version], slot.versions[version])
  {
    hide *;
    Interleavings.SlotParts(index, slot, log, stages);
    Interleavings.StagedOne(index, slot, log, version);
    Interleavings.StateAt(index, log, |log|);
    var o :| Builds(o, index, log, slot.staging[version], slot.versions[version]);
    BuildParts(o, index, log, slot.staging[version], slot.versions[version]);
    VersionsStep(o, CurrentAt(log, |log|));
    StandsBefore(index, log, o);
    PayloadNames(o, CurrentAt(log, |log|));
    TellsSo(o, index, log, version, slot.staging[version], slot.versions[version]);
  }

  lemma TellsSo(o: Operation, index: Index, log: Log, version: nat, marker: Marker, payload: Payload)
    requires version == |log| + 1 && marker == Marker(index, version, IdentityOf(o), TransitionOf(o.change))
    requires payload.index == index && payload.version == version && payload.operation == IdentityOf(o) && o.index == index
    ensures MarkerTells(index, log, version, marker, payload)
  {
    hide SortedMembers, SortedIds;
  }

  lemma BuildParts(o: Operation, index: Index, log: Log, marker: Marker, payload: Payload)
    requires Builds(o, index, log, marker, payload)
    ensures o.index == index && Permit(o, HeadAt(log, |log|)).None? && SuccessorOf(o, CurrentAt(log, |log|)).Ok?
    ensures SuccessorOf(o, CurrentAt(log, |log|)).value.payload == Some(payload)
    ensures marker == Marker(index, |log| + 1, IdentityOf(o), TransitionOf(o.change))
  {
    hide Permit, SuccessorOf, CheckChange, SortedMembers, SortedIds;
  }

  lemma StandsBefore(index: Index, log: Log, o: Operation)
    requires Standing(log, |log|) && Permit(o, HeadAt(log, |log|)).None? && SuccessorOf(o, CurrentAt(log, |log|)).Ok?
    ensures CurrentAt(log, |log|).Some? ==> CurrentAt(log, |log|).value.payload.version == |log|
    ensures CurrentAt(log, |log|).None? ==> |log| == 0
  {
    hide SuccessorOf, CheckAgainst, Publishable;
    if CurrentAt(log, |log|).None? && |log| > 0 {
      NothingAfter(o, CurrentAt(log, |log|));
    }
  }

  lemma NothingAfter(o: Operation, current: Option<Current>)
    requires current.None? && SuccessorOf(o, current).Ok?
    ensures o.change.Create?
  {
    hide IdentityOf;
  }

  lemma PayloadNames(o: Operation, current: Option<Current>)
    requires SuccessorOf(o, current).Ok? && SuccessorOf(o, current).value.payload.Some?
    ensures var payload := SuccessorOf(o, current).value.payload.value;
      payload.index == o.index && payload.operation == IdentityOf(o)
  {
    hide InsertAll, RemoveAll, RebuildAll, SortedMembers, SortedIds, Versions.Listed, WithDropped, RetiredAll, IdentityOf;
  }
}
