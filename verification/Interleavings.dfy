/** Every interleaving of driver clients, drops, quarantines and readers keeps
    the protocol's invariant, and what that means for what is stored. */
module Interleavings {
  import opened Options
  import opened Records
  import opened Versions
  import opened Audit
  import opened Validate
  import opened History
  import opened Slots
  import opened Protocol
  import Orders

  // ---------- facts about one history ----------

  /** Where a state of the history stands, and that no two states share a head. */
  lemma StateAt(index: Index, log: Log, i: nat)
    requires IsHistory(index, log) && i <= |log|
    ensures Standing(log, i) && Reads(HeadAt(log, i), CurrentAt(log, i))
    ensures i < |log| ==> i == 0 || CurrentAt(log, i).Some?
    ensures CurrentAt(log, i).None? <==> i == 0 || (i == |log| && Gone(log))
    ensures HeadAt(log, i).Some? ==> HeadAt(log, i).value.identity == index
    ensures CurrentAt(log, i).Some? ==>
      && i > 0 && HeadAt(log, i).Some? && HeadAt(log, i).value.state == Active(i)
      && Decodes(index, i, CurrentAt(log, i).value.payload)
      && CurrentAt(log, i).value.payload.config == HeadAt(log, i).value.config
      && log[i - 1].successor.payload == Some(CurrentAt(log, i).value.payload)
  {
    hide *;
    HistoryStands(index, log, i);
    if i > 0 {
      EventFollows(index, log, i - 1);
      HistoryStands(index, log, i - 1);
      EventNames(index, log, i - 1);
    }
    StandingMeans(index, log, i);
  }

  lemma StandingMeans(index: Index, log: Log, i: nat)
    requires i <= |log| && Standing(log, i) && (i < |log| ==> i == 0 || CurrentAt(log, i).Some?)
    requires i > 0 ==> log[i - 1].successor.head.identity == index
    requires i > 0 && log[i - 1].successor.payload.Some? ==> log[i - 1].successor.payload.value.index == index
    ensures Reads(HeadAt(log, i), CurrentAt(log, i))
    ensures CurrentAt(log, i).None? <==> i == 0 || (i == |log| && Gone(log))
    ensures HeadAt(log, i).Some? ==> HeadAt(log, i).value.identity == index
    ensures CurrentAt(log, i).Some? ==>
      && i > 0 && HeadAt(log, i).Some? && HeadAt(log, i).value.state == Active(i)
      && Decodes(index, i, CurrentAt(log, i).value.payload)
      && CurrentAt(log, i).value.payload.config == HeadAt(log, i).value.config
      && log[i - 1].successor.payload == Some(CurrentAt(log, i).value.payload)
  {
    hide DecoderAccepts, CheckConfig;
  }

  lemma EventNames(index: Index, log: Log, i: nat)
    requires i < |log| && Follows(index, log, i) && Standing(log, i)
    ensures log[i].successor.head.identity == index && log[i].successor.record.index == index
    ensures log[i].successor.record.operation == IdentityOf(log[i].operation)
    ensures log[i].successor.record.resulting == log[i].successor.head.state
    ensures log[i].successor.payload.Some? ==> log[i].successor.payload.value.index == index
  {
    AcceptedApplies(log[i].operation, HeadAt(log, i), CurrentAt(log, i));
    VersionsStep(log[i].operation, CurrentAt(log, i));
    RecordNames(log[i].operation, CurrentAt(log, i));
    hide SuccessorOf, CheckChange, Permit, Publishable;
  }

  lemma RecordNames(operation: Operation, current: Option<Current>)
    requires SuccessorOf(operation, current).Ok?
    ensures SuccessorOf(operation, current).value.record.index == operation.index
  {
    hide InsertInto, RemoveFrom, RebuildOver, RetiredAll, IdentityOf;
  }

  /** A head read once never comes back after the history grows. */
  lemma HeadsDiffer(index: Index, log: Log, a: nat, b: nat)
    requires IsHistory(index, log) && a < b <= |log|
    ensures HeadAt(log, a) != HeadAt(log, b)
  {
    StateAt(index, log, a);
    StateAt(index, log, b);
    hide IsHistory, Decodes, Reads;
  }

  /** Equal identities stand for one operation up to listing order: they build
      the same version on every state. */
  lemma SameIdentity(a: Operation, b: Operation, current: Option<Current>)
    requires IdentityOf(a) == IdentityOf(b)
    ensures a.key == b.key && a.index == b.index && SuccessorOf(a, current) == SuccessorOf(b, current)
  {
    hide InsertAll, RemoveAll, RebuildAll, SortedMembers, SortedIds, Listed, WithDropped;
  }

  /** The history one event longer. */
  lemma Appended(index: Index, log: Log, operation: Operation, successor: Successor)
    requires IsHistory(index, log)
    requires operation.index == index && CheckChange(operation.change).None?
    requires PlanRight(log, operation, HeadAt(log, |log|), |log|, successor)
    ensures IsHistory(index, log + [Event(operation, successor)])
    ensures !Gone(log)
  {
    hide SuccessorOf, CheckChange, Permit;
    var longer := log + [Event(operation, successor)];
    forall i | 0 <= i < |longer| ensures Follows(index, longer, i) {
      assert HeadAt(longer, i) == HeadAt(log, i) && CurrentAt(longer, i) == CurrentAt(log, i);
      if i < |log| {
        assert Follows(index, log, i);
      }
    }
    HistoryStands(index, longer, |log|);
  }

  // ---------- what clients and readers know stays true ----------

  ghost predicate Extends(longer: Log, log: Log) {
    longer == log || (!Gone(log) && |longer| == |log| + 1 && longer[..|log|] == log)
  }

  lemma PrefixFacts(longer: Log, log: Log, i: nat)
    requires Extends(longer, log) && i <= |log|
    ensures i <= |longer| && HeadAt(longer, i) == HeadAt(log, i) && CurrentAt(longer, i) == CurrentAt(log, i)
    ensures i < |log| ==> longer[i] == log[i]
    ensures Gone(log) ==> longer == log
  {
  }

  lemma KnownStays(log: Log, longer: Log, operation: Operation, phase: Phase)
    requires Extends(longer, log) && PhaseRight(log, operation, phase)
    ensures PhaseRight(longer, operation, phase)
  {
    hide SuccessorOf, Permit, IdentityOf;
    forall i | 0 <= i < |log| ensures longer[i] == log[i] {
      assert longer == log || longer[..|log|][i] == log[i];
    }
    if !phase.Checked? && !phase.Ended? {
      PrefixFacts(longer, log, phase.seen);
    }
    if phase.Ended? {
      match phase.ending
      case PublishedAs(state) => AnswerStays(log, longer, operation, state);
      case ReplayedAs(state) => AnswerStays(log, longer, operation, state);
      case Conflicts =>
        var j :| 0 <= j < |log| && Contradicts(log[j], operation);
        assert Contradicts(longer[j], operation);
      case _ =>
    }
  }

  lemma AnswerStays(log: Log, longer: Log, operation: Operation, state: State)
    requires |log| <= |longer| && forall i | 0 <= i < |log| :: longer[i] == log[i]
    requires AnsweredBy(log, operation, state)
    ensures AnsweredBy(longer, operation, state)
  {
    var j :| 0 <= j < |log| && SameEvent(log[j], operation, state);
    assert SameEvent(longer[j], operation, state);
  }

  lemma ReadStays(log: Log, longer: Log, reader: Reader)
    requires Extends(longer, log) && ReaderRight(log, reader)
    ensures ReaderRight(longer, reader)
  {
    if !reader.Opened? {
      PrefixFacts(longer, log, reader.seen);
      if reader.seen > 0 {
        PrefixFacts(longer, log, reader.seen - 1);
      }
    }
  }

  // ---------- the three writes ----------

  lemma HeadIsCurrent(index: Index, slot: Slot, log: Log, stages: nat, expected: Option<Head>, seen: nat)
    requires SlotRight(index, slot, log, stages) && SeenRight(log, expected, seen) && slot.head == expected
    ensures seen == |log|
  {
    hide StoredRight, StagedRight, RecordsRight, IsHistory;
    if seen < |log| {
      HeadsDiffer(index, log, seen, |log|);
    }
  }

  /** A key that was new when the head was read is still new while the head
      stands. */
  lemma KeyUnrecorded(slot: Slot, log: Log, key: Key)
    requires RecordsRight(slot, log) && NewSince(log, key, |log|)
    ensures key !in slot.operations
  {
  }

  lemma FirstStagedNone(staging: map<nat, Marker>)
    ensures FirstStaged(staging).None? <==> staging == map[]
    ensures FirstStaged(staging).Some? ==> FirstStaged(staging).value in staging
  {
  }

  lemma CountedIs(v: nat, last: nat)
    ensures v in VersionSet(last) <==> 1 <= v <= last
  {
  }

  /** A plan made on the current state: what it stages is the next version. */
  lemma PlanMeans(index: Index, log: Log, operation: Operation, expected: Option<Head>, successor: Successor)
    requires IsHistory(index, log) && PlanRight(log, operation, expected, |log|, successor)
    ensures successor.payload.Some? ==> successor.payload.value.version == |log| + 1
    ensures successor.payload.None? ==>
      expected.Some? && |log| >= 1 && successor.head.state.Destroyed? && successor.head.state.lastVersion == |log|
    ensures successor.record.operation == IdentityOf(operation) && successor.record.resulting == successor.head.state
  {
    StateAt(index, log, |log|);
    VersionsStep(operation, CurrentAt(log, |log|));
    hide SuccessorOf, Permit, IsHistory, Decodes, Reads;
  }

  lemma StageKeeps(index: Index, slot: Slot, log: Log, stages: nat, operation: Operation,
                   expected: Option<Head>, seen: nat, successor: Successor)
    requires SlotRight(index, slot, log, stages) && operation.index == index && CheckChange(operation.change).None?
    requires PlanRight(log, operation, expected, seen, successor) && successor.payload.Some?
    ensures var v := successor.payload.value.version;
      var r := WriteStage(slot, v, operation.key, expected, MarkerOf(operation, v), successor.payload.value);
      && (r.error.Some? ==> r.slot == slot && (r.error.value.HeadChanged? || r.error.value.StagedStateExists?))
      && (r.error.None? ==> SlotRight(index, r.slot, log, stages + 1) && r.slot.staging.Keys == {|log| + 1})
  {
    hide SuccessorOf, CheckChange, Permit, MarkerOf, IsHistory;
    if slot.head == expected {
      HeadIsCurrent(index, slot, log, stages, expected, seen);
      PlanMeans(index, log, operation, expected, successor);
      KeyUnrecorded(slot, log, operation.key);
      FirstStagedNone(slot.staging);
      CountedIs(|log| + 1, |log|);
      if slot.staging == map[] {
        Stages(index, slot, log, stages, operation, successor);
      }
    }
  }

  lemma Assembled(index: Index, slot: Slot, log: Log, stages: nat)
    requires IsHistory(index, log) && slot.head == HeadAt(log, |log|)
    requires StoredRight(slot, log) && StagedRight(index, slot, log) && RecordsRight(slot, log)
    requires stages == VersionsPublished(log) + |slot.staging| + |slot.quarantined|
    ensures SlotRight(index, slot, log, stages)
  {
    hide IsHistory, StoredRight, StagedRight, RecordsRight;
  }

  lemma Stages(index: Index, slot: Slot, log: Log, stages: nat, operation: Operation, successor: Successor)
    requires SlotRight(index, slot, log, stages) && operation.index == index && CheckChange(operation.change).None?
    requires PlanRight(log, operation, slot.head, |log|, successor)
    requires successor.payload.Some? && successor.payload.value.version == |log| + 1 && slot.staging == map[]
    ensures var v := |log| + 1;
      var staged := slot.(versions := slot.versions[v := successor.payload.value],
                          staging := slot.staging[v := MarkerOf(operation, v)]);
      && v !in slot.versions && staged.staging.Keys == {v}
      && SlotRight(index, staged, log, stages + 1)
  {
    hide *;
    var v := |log| + 1;
    var payload, marker := successor.payload.value, MarkerOf(operation, v);
    var staged := slot.(versions := slot.versions[v := payload], staging := slot.staging[v := marker]);
    SlotParts(index, slot, log, stages);
    Appended(index, log, operation, successor);
    PlanBuilds(index, log, operation, successor);
    assert staged.staging == map[v := marker];
    OneStaged(index, staged, log, operation);
    StoresStaged(slot, log, payload, marker);
    KeepsRecords(slot, staged, log);
    Assembled(index, staged, log, stages + 1);
  }

  lemma PlanBuilds(index: Index, log: Log, operation: Operation, successor: Successor)
    requires operation.index == index && CheckChange(operation.change).None?
    requires IsHistory(index, log) && PlanRight(log, operation, HeadAt(log, |log|), |log|, successor) && successor.payload.Some?
    ensures Builds(operation, index, log, MarkerOf(operation, |log| + 1), successor.payload.value)
  {
    hide SuccessorOf, CheckChange, Permit, MarkerOf, IsHistory;
  }

  lemma OneStaged(index: Index, staged: Slot, log: Log, operation: Operation)
    requires staged.staging == map[|log| + 1 := MarkerOf(operation, |log| + 1)] && |log| + 1 in staged.versions
    requires Builds(operation, index, log, MarkerOf(operation, |log| + 1), staged.versions[|log| + 1])
    ensures StagedRight(index, staged, log)
  {
    hide Builds, MarkerOf;
  }

  lemma StoresStaged(slot: Slot, log: Log, payload: Payload, marker: Marker)
    requires StoredRight(slot, log) && !Gone(log) && slot.staging == map[]
    ensures |log| + 1 !in slot.versions
    ensures StoredRight(slot.(versions := slot.versions[|log| + 1 := payload], staging := map[|log| + 1 := marker]), log)
  {
    hide VersionSet;
    var v := |log| + 1;
    var staged := slot.(versions := slot.versions[v := payload], staging := map[v := marker]);
    CountedIs(v, |log|);
    assert staged.versions.Keys == slot.versions.Keys + {v};
  }

  lemma QuarantineKeeps(index: Index, slot: Slot, log: Log, stages: nat, version: nat, marker: Marker)
    requires SlotRight(index, slot, log, stages)
    ensures SlotRight(index, WriteQuarantine(slot, version, marker).slot, log, stages)
  {
    hide *;
    SlotParts(index, slot, log, stages);
    var r := WriteQuarantine(slot, version, marker);
    QuarantineIs(slot, version, marker);
    if r.error.None? {
      StagedOne(index, slot, log, version);
      StoresLess(index, slot, r.slot, log, version);
      KeepsRecords(slot, r.slot, log);
      NoneStaged(index, r.slot, log);
      Assembled(index, r.slot, log, stages);
    }
  }

  lemma QuarantineIs(slot: Slot, version: nat, marker: Marker)
    ensures var r := WriteQuarantine(slot, version, marker);
      if r.error.Some? then r.slot == slot
      else
        && version in slot.staging && |r.slot.quarantined| == |slot.quarantined| + 1
        && r.slot.versions == slot.versions - {version} && r.slot.staging == slot.staging - {version}
        && r.slot.operations == slot.operations && r.slot.head == slot.head
  {
  }

  lemma StagedOne(index: Index, slot: Slot, log: Log, version: nat)
    requires StagedRight(index, slot, log) && version in slot.staging
    ensures version == |log| + 1 && version in slot.versions && slot.staging.Keys == {version} && |slot.staging| == 1
    ensures slot.staging - {version} == map[]
    ensures exists o :: Builds(o, index, log, slot.staging[version], slot.versions[version])
  {
    hide Builds;
    assert slot.staging.Keys == {version};
    assert |slot.staging| == |slot.staging.Keys|;
  }

  lemma NoneStaged(index: Index, slot: Slot, log: Log)
    requires slot.staging == map[]
    ensures StagedRight(index, slot, log) && |slot.staging| == 0
  {
    hide Builds;
  }

  lemma StoresLess(index: Index, slot: Slot, less: Slot, log: Log, version: nat)
    requires StoredRight(slot, log) && StagedRight(index, slot, log) && version in slot.staging
    requires less.versions == slot.versions - {version} && less.staging == slot.staging - {version}
    ensures StoredRight(less, log)
  {
    hide Builds, VersionSet;
    StagedOne(index, slot, log, version);
    CountedIs(version, |log|);
    assert less.versions.Keys == VersionSet(|log|);
  }

  lemma KeepsRecords(slot: Slot, other: Slot, log: Log)
    requires RecordsRight(slot, log) && slot.operations == other.operations
    ensures RecordsRight(other, log)
  {
  }

  lemma RecordsGrow(slot: Slot, log: Log, operation: Operation, successor: Successor)
    requires RecordsRight(slot, log) && operation.key !in slot.operations
    ensures RecordsRight(slot.(operations := slot.operations[operation.key := successor.record]),
                         log + [Event(operation, successor)])
  {
    var longer := log + [Event(operation, successor)];
    var grown := slot.(operations := slot.operations[operation.key := successor.record]);
    assert OnceKeyed(longer);
    forall key | key in grown.operations ensures Recorded(longer, key) {
      if key in slot.operations {
        var j :| 0 <= j < |log| && log[j].operation.key == key;
        assert longer[j].operation.key == key;
      } else {
        assert longer[|log|].operation.key == key;
      }
    }
  }

  /** What publishing or destroying leaves: the history one event longer, or
      nothing changed and no refusal but a moved head or staged state. */
  ghost predicate PublishRight(index: Index, slot: Slot, log: Log, stages: nat, operation: Operation,
                               expected: Option<Head>, successor: Successor) {
    var r := PublishStaged(operation, slot, expected, successor);
    if r.error.Some? then r.slot == slot && r.error.value != OperationRecorded && r.error.value != VersionStored
    else
      && SlotRight(index, r.slot, log + [Event(operation, successor)], stages) && !Gone(log)
      && r.slot.staging == map[]
  }

  lemma PublishKeeps(index: Index, slot: Slot, log: Log, stages: nat, operation: Operation,
                     expected: Option<Head>, seen: nat, successor: Successor)
    requires SlotRight(index, slot, log, stages) && operation.index == index && CheckChange(operation.change).None?
    requires PlanRight(log, operation, expected, seen, successor)
    ensures PublishRight(index, slot, log, stages, operation, expected, successor)
  {
    hide *;
    if slot.head == expected {
      PlanSeen(log, operation, expected, seen, successor);
      HeadIsCurrent(index, slot, log, stages, expected, seen);
      SlotParts(index, slot, log, stages);
      PlanMeans(index, log, operation, expected, successor);
      KeyUnrecorded(slot, log, operation.key);
      Appended(index, log, operation, successor);
      RecordsGrow(slot, log, operation, successor);
      if successor.payload.Some? {
        Publishes(index, slot, log, stages, operation, successor);
      } else {
        Destroys(index, slot, log, stages, operation, successor);
      }
    } else {
      MovedHead(index, slot, log, stages, operation, expected, successor);
    }
  }

  lemma SlotParts(index: Index, slot: Slot, log: Log, stages: nat)
    requires SlotRight(index, slot, log, stages)
    ensures IsHistory(index, log) && slot.head == HeadAt(log, |log|)
    ensures StoredRight(slot, log) && StagedRight(index, slot, log) && RecordsRight(slot, log)
    ensures stages == VersionsPublished(log) + |slot.staging| + |slot.quarantined|
  {
  }

  lemma PlanSeen(log: Log, operation: Operation, expected: Option<Head>, seen: nat, successor: Successor)
    requires PlanRight(log, operation, expected, seen, successor)
    ensures SeenRight(log, expected, seen) && NewSince(log, operation.key, seen)
    ensures SuccessorOf(operation, CurrentAt(log, seen)) == Ok(successor)
  {
    hide SuccessorOf, Permit, CurrentAt;
  }

  lemma MovedHead(index: Index, slot: Slot, log: Log, stages: nat, operation: Operation,
                  expected: Option<Head>, successor: Successor)
    requires slot.head != expected
    ensures PublishRight(index, slot, log, stages, operation, expected, successor)
  {
    hide SlotRight, MarkerOf;
  }

  lemma Publishes(index: Index, slot: Slot, log: Log, stages: nat, operation: Operation, successor: Successor)
    requires SlotRight(index, slot, log, stages) && !Gone(log) && operation.key !in slot.operations
    requires SuccessorOf(operation, CurrentAt(log, |log|)) == Ok(successor)
    requires successor.payload.Some? && successor.payload.value.version == |log| + 1
    requires IsHistory(index, log + [Event(operation, successor)])
    requires RecordsRight(slot.(operations := slot.operations[operation.key := successor.record]),
                          log + [Event(operation, successor)])
    ensures PublishRight(index, slot, log, stages, operation, slot.head, successor)
  {
    hide *;
    var v, longer := |log| + 1, log + [Event(operation, successor)];
    var r := PublishStaged(operation, slot, slot.head, successor);
    PublishIs(slot, operation, successor);
    if r.error.None? {
      SlotParts(index, slot, log, stages);
      StagedOne(index, slot, log, v);
      var o :| Builds(o, index, log, slot.staging[v], slot.versions[v]);
      BuiltTheSame(o, index, log, operation, successor, slot.versions[v]);
      StoresPublished(slot, r.slot, log, operation, successor);
      KeepsRecords(slot.(operations := slot.operations[operation.key := successor.record]), r.slot, longer);
      NoneStaged(index, r.slot, longer);
      EndsWith(log, operation, successor);
      Assembled(index, r.slot, longer, stages);
    }
    PublishedRight(index, slot, log, stages, operation, successor);
  }

  /** What the publish write changes. */
  lemma PublishIs(slot: Slot, operation: Operation, successor: Successor)
    requires successor.payload.Some?
    ensures var r := PublishStaged(operation, slot, slot.head, successor);
      var v := successor.payload.value.version;
      if r.error.Some? then
        r.slot == slot && (operation.key !in slot.operations ==> r.error.value == StagedStateMissing)
      else
        && v in slot.staging && v in slot.versions && slot.staging[v] == MarkerOf(operation, v)
        && r.slot == slot.(head := Some(successor.head), operations := slot.operations[operation.key := successor.record],
                           staging := slot.staging - {v})
  {
    hide MarkerOf;
  }

  /** The staged payload was built by the same operation on the same state. */
  lemma BuiltTheSame(o: Operation, index: Index, log: Log, operation: Operation, successor: Successor, payload: Payload)
    requires Builds(o, index, log, MarkerOf(operation, |log| + 1), payload)
    requires SuccessorOf(operation, CurrentAt(log, |log|)) == Ok(successor)
    ensures successor.payload == Some(payload)
  {
    hide SuccessorOf, CheckChange, Permit, IdentityOf;
    SameIdentity(o, operation, CurrentAt(log, |log|));
  }

  lemma StoresPublished(slot: Slot, after: Slot, log: Log, operation: Operation, successor: Successor)
    requires StoredRight(slot, log) && !Gone(log) && slot.staging.Keys == {|log| + 1}
    requires |log| + 1 in slot.versions && successor.payload == Some(slot.versions[|log| + 1])
    requires after.versions == slot.versions && after.staging == map[]
    ensures StoredRight(after, log + [Event(operation, successor)])
  {
    hide VersionSet;
    var longer := log + [Event(operation, successor)];
    forall u: nat ensures u in VersionSet(|log|) || u == |log| + 1 <==> u in VersionSet(|longer|) {
      CountedIs(u, |log|);
      CountedIs(u, |longer|);
    }
    forall u | 1 <= u <= |longer| ensures u in after.versions && longer[u - 1].successor.payload == Some(after.versions[u]) {
      assert u <= |log| ==> longer[u - 1] == log[u - 1];
    }
    assert after.versions.Keys == VersionSet(|longer|);
  }

  lemma EndsWith(log: Log, operation: Operation, successor: Successor)
    requires !Gone(log)
    ensures var longer := log + [Event(operation, successor)];
      && HeadAt(longer, |longer|) == Some(successor.head)
      && VersionsPublished(longer) == VersionsPublished(log) + (if successor.payload.Some? then 1 else 0)
  {
  }

  lemma Destroys(index: Index, slot: Slot, log: Log, stages: nat, operation: Operation, successor: Successor)
    requires SlotRight(index, slot, log, stages) && !Gone(log) && operation.key !in slot.operations
    requires slot.head.Some? && successor.payload.None?
    requires successor.head.state.Destroyed? && successor.head.state.lastVersion == |log|
    requires IsHistory(index, log + [Event(operation, successor)])
    requires RecordsRight(slot.(operations := slot.operations[operation.key := successor.record]),
                          log + [Event(operation, successor)])
    ensures PublishRight(index, slot, log, stages, operation, slot.head, successor)
  {
    hide *;
    var longer := log + [Event(operation, successor)];
    var r := PublishStaged(operation, slot, slot.head, successor);
    DestroyIs(slot, operation, successor);
    if r.error.None? {
      SlotParts(index, slot, log, stages);
      StoresNothing(slot, r.slot, log, operation, successor);
      KeepsRecords(slot.(operations := slot.operations[operation.key := successor.record]), r.slot, longer);
      NoneStaged(index, r.slot, longer);
      EndsWith(log, operation, successor);
      Assembled(index, r.slot, longer, stages);
    }
    PublishedRight(index, slot, log, stages, operation, successor);
  }

  /** What the destroy write changes. */
  lemma DestroyIs(slot: Slot, operation: Operation, successor: Successor)
    requires slot.head.Some? && successor.payload.None? && successor.head.state.Destroyed?
    ensures var r := PublishStaged(operation, slot, slot.head, successor);
      if r.error.Some? then
        r.slot == slot && (operation.key !in slot.operations ==> r.error.value.StagedStateExists?)
      else
        && slot.staging == map[]
        && r.slot == slot.(head := Some(successor.head), operations := slot.operations[operation.key := successor.record],
                           versions := slot.versions - VersionSet(successor.head.state.lastVersion))
  {
    FirstStagedNone(slot.staging);
    hide FirstStaged, VersionSet;
  }

  lemma StoresNothing(slot: Slot, after: Slot, log: Log, operation: Operation, successor: Successor)
    requires StoredRight(slot, log) && !Gone(log) && slot.staging == map[] && successor.payload.None?
    requires after.versions == slot.versions - VersionSet(|log|) && after.staging == map[]
    ensures StoredRight(after, log + [Event(operation, successor)])
  {
    hide VersionSet;
    assert after.versions == map[];
  }

  lemma PublishedRight(index: Index, slot: Slot, log: Log, stages: nat, operation: Operation, successor: Successor)
    requires !Gone(log)
    requires var r := PublishStaged(operation, slot, slot.head, successor);
      if r.error.Some? then r.slot == slot && (r.error.value == StagedStateMissing || r.error.value.StagedStateExists?)
      else SlotRight(index, r.slot, log + [Event(operation, successor)], stages) && r.slot.staging == map[]
    ensures PublishRight(index, slot, log, stages, operation, slot.head, successor)
  {
    hide SlotRight, PublishStaged;
  }

  // ---------- a client's calls ----------

  lemma HeadReadKeeps(index: Index, slot: Slot, log: Log, stages: nat, operation: Operation, expected: Option<Head>, seen: nat)
    requires SlotRight(index, slot, log, stages) && SeenRight(log, expected, seen) && operation.index == index
    ensures if operation.key in slot.operations
      then PhaseRight(log, operation, Ended(Replayed(operation, slot.operations[operation.key])))
      else PhaseRight(log, operation, NotReplayed(expected, seen))
  {
    hide *;
    SlotParts(index, slot, log, stages);
    if operation.key in slot.operations {
      var j := RecordedAt(slot, log, operation.key);
      EventFollows(index, log, j);
      HistoryStands(index, log, j);
      EventNames(index, log, j);
      KeyOf(log[j].operation);
      KeyOf(operation);
      ReplayedRight(log, operation, j, slot.operations[operation.key]);
    } else {
      UnrecordedRight(slot, log, operation, expected, seen);
    }
  }

  lemma RecordedAt(slot: Slot, log: Log, key: Key) returns (j: nat)
    requires RecordsRight(slot, log) && key in slot.operations
    ensures j < |log| && log[j].operation.key == key && slot.operations[key] == log[j].successor.record
  {
    j :| 0 <= j < |log| && log[j].operation.key == key;
  }

  lemma ReplayedRight(log: Log, operation: Operation, j: nat, record: Record)
    requires j < |log| && log[j].operation.key == operation.key && record == log[j].successor.record
    requires record.index == operation.index && record.operation == IdentityOf(log[j].operation)
    requires record.resulting == log[j].successor.head.state
    requires IdentityOf(log[j].operation).key == operation.key == IdentityOf(operation).key
    ensures PhaseRight(log, operation, Ended(Replayed(operation, record)))
  {
    hide IdentityOf;
    if record.operation.digest == IdentityOf(operation).digest {
      assert SameEvent(log[j], operation, record.resulting);
    } else {
      assert Contradicts(log[j], operation);
    }
  }

  lemma UnrecordedRight(slot: Slot, log: Log, operation: Operation, expected: Option<Head>, seen: nat)
    requires RecordsRight(slot, log) && operation.key !in slot.operations && SeenRight(log, expected, seen)
    ensures PhaseRight(log, operation, NotReplayed(expected, seen))
  {
  }

  lemma KeyOf(operation: Operation)
    ensures IdentityOf(operation).key == operation.key
  {
  }

  lemma LoadKeeps(index: Index, slot: Slot, log: Log, stages: nat, operation: Operation, expected: Option<Head>, seen: nat)
    requires SlotRight(index, slot, log, stages) && SeenRight(log, expected, seen) && NewSince(log, operation.key, seen)
    ensures PhaseRight(log, operation, Load(index, slot, expected, seen))
  {
    hide *;
    SlotParts(index, slot, log, stages);
    SeenIs(log, expected, seen);
    StateAt(index, log, seen);
    StandingActive(log, seen);
    if CurrentAt(log, seen).Some? {
      if Gone(log) {
        GoneStores(slot, log);
      } else {
        StoresAt(slot, log, seen);
      }
    }
    LoadIs(index, slot, log, operation, expected, seen);
  }

  lemma SeenIs(log: Log, expected: Option<Head>, seen: nat)
    requires SeenRight(log, expected, seen)
    ensures seen <= |log| && expected == HeadAt(log, seen)
  {
  }

  lemma StandingActive(log: Log, i: nat)
    requires i <= |log| && Reads(HeadAt(log, i), CurrentAt(log, i))
    ensures CurrentAt(log, i).Some? <==> HeadAt(log, i).Some? && HeadAt(log, i).value.state.Active?
    ensures CurrentAt(log, i).Some? ==> CurrentAt(log, i).value.head == HeadAt(log, i).value
  {
    hide Publishable, HeadAt, CurrentAt;
  }

  lemma GoneStores(slot: Slot, log: Log)
    requires StoredRight(slot, log) && Gone(log)
    ensures slot.versions == map[] && slot.staging == map[]
  {
  }

  lemma StoresAt(slot: Slot, log: Log, v: nat)
    requires StoredRight(slot, log) && !Gone(log) && 1 <= v <= |log|
    ensures v in slot.versions && log[v - 1].successor.payload == Some(slot.versions[v])
  {
  }

  lemma LoadIs(index: Index, slot: Slot, log: Log, operation: Operation, expected: Option<Head>, seen: nat)
    requires seen <= |log| && expected == HeadAt(log, seen) && NewSince(log, operation.key, seen)
    requires expected.Some? ==> expected.value.identity == index
    requires var current := CurrentAt(log, seen);
      && (current.Some? <==> expected.Some? && expected.value.state.Active?)
      && (current.Some? ==>
            && current.value.head == expected.value && expected.value.state == Active(seen)
            && Decodes(index, seen, current.value.payload) && current.value.payload.config == expected.value.config
            && (seen !in slot.versions ==> Gone(log))
            && (seen in slot.versions ==> slot.versions[seen] == current.value.payload))
    ensures PhaseRight(log, operation, Load(index, slot, expected, seen))
  {
    hide Decodes, HeadAt, CurrentAt, NewSince;
  }

  lemma GoneHead(index: Index, slot: Slot, log: Log, stages: nat)
    requires SlotRight(index, slot, log, stages)
    ensures KindOf(slot.head) == ActiveKind <==> CurrentAt(log, |log|).Some?
    ensures Gone(log) ==> KindOf(slot.head) == DestroyedKind
  {
    hide StoredRight, StagedRight, RecordsRight, IsHistory, Decodes, Publishable;
    StateAt(index, log, |log|);
  }

  lemma PrepareKeeps(index: Index, slot: Slot, log: Log, operation: Operation, expected: Option<Head>, seen: nat)
    requires IsHistory(index, log) && CheckChange(operation.change).None?
    requires SeenRight(log, expected, seen) && NewSince(log, operation.key, seen)
    ensures PhaseRight(log, operation, Prepare(operation, slot, expected, seen, CurrentAt(log, seen)))
  {
    hide *;
    SeenIs(log, expected, seen);
    StateAt(index, log, seen);
    if Permit(operation, expected).None? {
      AcceptedApplies(operation, expected, CurrentAt(log, seen));
    }
    PrepareIs(slot, log, operation, expected, seen);
  }

  lemma PrepareIs(slot: Slot, log: Log, operation: Operation, expected: Option<Head>, seen: nat)
    requires SeenRight(log, expected, seen) && NewSince(log, operation.key, seen)
    requires Permit(operation, expected).None? && SuccessorOf(operation, CurrentAt(log, seen)).Err? ==>
      SuccessorOf(operation, CurrentAt(log, seen)).refusal == VersionExhausted
    ensures PhaseRight(log, operation, Prepare(operation, slot, expected, seen, CurrentAt(log, seen)))
  {
    hide SuccessorOf, Permit, FirstStaged, CurrentAt, HeadAt, NewSince;
  }

  /** One call of one client: the slot stays right, the history stays or grows
      by one event, and the client's own knowledge is right. */
  ghost predicate Advanced(index: Index, before: Cell, after: Cell, id: nat) {
    && Extends(after.log, before.log)
    && SlotRight(index, after.slot, after.log, after.stages)
    && id in before.clients && after.readers == before.readers
    && exists phase ::
         && after.clients == before.clients[id := before.clients[id].(phase := phase)]
         && PhaseRight(after.log, before.clients[id].operation, phase)
  }

  lemma Told(index: Index, before: Cell, after: Cell, id: nat, phase: Phase)
    requires id in before.clients && after == WithPhase(before.(slot := after.slot, log := after.log, stages := after.stages), id, phase)
    requires Extends(after.log, before.log) && SlotRight(index, after.slot, after.log, after.stages)
    requires PhaseRight(after.log, before.clients[id].operation, phase)
    ensures Advanced(index, before, after, id)
  {
    hide Extends, SlotRight, PhaseRight;
  }

  lemma ToldOnly(index: Index, before: Cell, after: Cell, id: nat, phase: Phase)
    requires id in before.clients && after == WithPhase(before, id, phase)
    requires SlotRight(index, before.slot, before.log, before.stages)
    requires PhaseRight(before.log, before.clients[id].operation, phase)
    ensures Advanced(index, before, after, id)
  {
    hide SlotRight, PhaseRight, Advanced;
    Told(index, before, after, id, phase);
  }

  lemma AdvanceKeeps(index: Index, cell: Cell, id: nat)
    requires Right(index, cell) && id in cell.clients
    ensures Advanced(index, cell, AdvanceClient(index, cell, id), id)
  {
    hide *;
    RightParts(index, cell);
    ClientParts(index, cell.log, cell.clients[id]);
    PhaseParts(cell.log, cell.clients[id].operation, cell.clients[id].phase);
    var Client(operation, phase) := cell.clients[id];
    var after := AdvanceClient(index, cell, id);
    AdvanceIs(index, cell, id);
    match phase
    case Checked =>
      SlotParts(index, cell.slot, cell.log, cell.stages);
      SeesNow(cell.log, operation);
      ToldOnly(index, cell, after, id, HeadRead(cell.slot.head, |cell.log|));
    case HeadRead(expected, seen) =>
      HeadReadKeeps(index, cell.slot, cell.log, cell.stages, operation, expected, seen);
      if operation.key in cell.slot.operations {
        ToldOnly(index, cell, after, id, Ended(Replayed(operation, cell.slot.operations[operation.key])));
      } else {
        ToldOnly(index, cell, after, id, NotReplayed(expected, seen));
      }
    case NotReplayed(expected, seen) =>
      LoadKeeps(index, cell.slot, cell.log, cell.stages, operation, expected, seen);
      ToldOnly(index, cell, after, id, Load(index, cell.slot, expected, seen));
    case PayloadMissing(expected, seen) =>
      GoneHead(index, cell.slot, cell.log, cell.stages);
      GoneEnds(cell.log, operation);
      ToldOnly(index, cell, after, id, Ended(HeadGone));
    case Loaded(expected, seen, current) =>
      SlotParts(index, cell.slot, cell.log, cell.stages);
      PrepareKeeps(index, cell.slot, cell.log, operation, expected, seen);
      ToldOnly(index, cell, after, id, Prepare(operation, cell.slot, expected, seen, current));
    case Prepared(expected, seen, successor) => StageStep(index, cell, id);
    case StagedBy(expected, seen, successor) => PublishStep(index, cell, id);
    case Ended(_) => ToldOnly(index, cell, after, id, phase);
  }

  lemma RightParts(index: Index, cell: Cell)
    requires Right(index, cell)
    ensures SlotRight(index, cell.slot, cell.log, cell.stages)
    ensures forall id | id in cell.clients :: ClientRight(index, cell.log, cell.clients[id])
    ensures forall id | id in cell.readers :: ReaderRight(cell.log, cell.readers[id])
  {
    hide SlotRight, ClientRight, ReaderRight;
  }

  lemma ClientParts(index: Index, log: Log, client: Client)
    requires ClientRight(index, log, client)
    ensures client.operation.index == index && CheckChange(client.operation.change).None?
    ensures PhaseRight(log, client.operation, client.phase)
  {
    hide CheckChange, PhaseRight;
  }

  lemma PhaseParts(log: Log, operation: Operation, phase: Phase)
    requires PhaseRight(log, operation, phase)
    ensures phase.HeadRead? || phase.NotReplayed? || phase.Loaded? || phase.PayloadMissing? ==>
      SeenRight(log, phase.expected, phase.seen)
    ensures phase.NotReplayed? || phase.Loaded? ==> NewSince(log, operation.key, phase.seen)
    ensures phase.Loaded? ==> phase.seen <= |log| && phase.current == CurrentAt(log, phase.seen)
    ensures phase.PayloadMissing? ==> Gone(log)
    ensures phase.Prepared? || phase.StagedBy? ==> PlanRight(log, operation, phase.expected, phase.seen, phase.successor)
  {
    hide PlanRight, NewSince, CurrentAt, EndingRight;
  }

  lemma SeesNow(log: Log, operation: Operation)
    ensures PhaseRight(log, operation, HeadRead(HeadAt(log, |log|), |log|))
  {
  }

  lemma GoneEnds(log: Log, operation: Operation)
    requires Gone(log)
    ensures PhaseRight(log, operation, Ended(HeadGone))
  {
  }

  /** The calls that only read. */
  lemma AdvanceIs(index: Index, cell: Cell, id: nat)
    requires id in cell.clients
    ensures var Client(operation, phase) := cell.clients[id];
      var after := AdvanceClient(index, cell, id);
      match phase
      case Checked => after == WithPhase(cell, id, HeadRead(cell.slot.head, |cell.log|))
      case HeadRead(expected, seen) =>
        if operation.key in cell.slot.operations
        then after == WithPhase(cell, id, Ended(Replayed(operation, cell.slot.operations[operation.key])))
        else after == WithPhase(cell, id, NotReplayed(expected, seen))
      case NotReplayed(expected, seen) => after == WithPhase(cell, id, Load(index, cell.slot, expected, seen))
      case PayloadMissing(expected, seen) =>
        KindOf(cell.slot.head) != ActiveKind ==> after == WithPhase(cell, id, Ended(HeadGone))
      case Loaded(expected, seen, current) =>
        after == WithPhase(cell, id, Prepare(operation, cell.slot, expected, seen, current))
      case Ended(_) => after == WithPhase(cell, id, phase)
      case _ => true
  {
    hide Load, Prepare, Replayed, StepStage, StepPublish;
    if cell.clients[id].phase.Ended? {
      assert cell.clients == cell.clients[id := cell.clients[id]];
    }
  }

  lemma StageStep(index: Index, cell: Cell, id: nat)
    requires Right(index, cell) && id in cell.clients && cell.clients[id].phase.Prepared?
    ensures Advanced(index, cell, AdvanceClient(index, cell, id), id)
  {
    hide SlotRight, PlanRight, CheckChange, WriteStage, MarkerOf, ReaderRight, Advanced;
    var Client(operation, Prepared(expected, seen, successor)) := cell.clients[id];
    assert ClientRight(index, cell.log, cell.clients[id]);
    var after := AdvanceClient(index, cell, id);
    if successor.payload.Some? {
      StageKeeps(index, cell.slot, cell.log, cell.stages, operation, expected, seen, successor);
    }
    Told(index, cell, after, id, after.clients[id].phase);
  }

  lemma PublishStep(index: Index, cell: Cell, id: nat)
    requires Right(index, cell) && id in cell.clients && cell.clients[id].phase.StagedBy?
    ensures Advanced(index, cell, AdvanceClient(index, cell, id), id)
  {
    hide SlotRight, PlanRight, CheckChange, PublishStaged, MarkerOf, ReaderRight, Advanced, IdentityOf;
    var Client(operation, StagedBy(expected, seen, successor)) := cell.clients[id];
    assert ClientRight(index, cell.log, cell.clients[id]);
    var after := AdvanceClient(index, cell, id);
    PublishKeeps(index, cell.slot, cell.log, cell.stages, operation, expected, seen, successor);
    var event := Event(operation, successor);
    assert (cell.log + [event])[|cell.log|] == event && SameEvent(event, operation, successor.head.state);
    Told(index, cell, after, id, after.clients[id].phase);
  }

  // ---------- every interleaving ----------

  lemma ReaderKeeps(index: Index, cell: Cell, reader: Reader)
    requires Right(index, cell) && ReaderRight(cell.log, reader)
    ensures ReaderRight(cell.log, AdvanceReader(index, cell, reader))
  {
    hide *;
    RightParts(index, cell);
    SlotParts(index, cell.slot, cell.log, cell.stages);
    GoneHead(index, cell.slot, cell.log, cell.stages);
    match reader
    case Opened =>
      StateAt(index, cell.log, |cell.log|);
      FirstRead(index, cell);
    case SawHead(head, version, seen) =>
      ReaderSaw(cell.log, reader);
      StateAt(index, cell.log, seen);
      if Gone(cell.log) {
        GoneStores(cell.slot, cell.log);
      } else {
        StoresAt(cell.slot, cell.log, seen);
      }
      SecondRead(index, cell, reader);
    case SawNoPayload(seen) => ThirdRead(index, cell, reader);
    case Read(_, _) => ReadOnce(index, cell, reader);
  }

  lemma ReaderSaw(log: Log, reader: Reader)
    requires ReaderRight(log, reader) && reader.SawHead?
    ensures 1 <= reader.seen <= |log| && reader.version == reader.seen
    ensures HeadAt(log, reader.seen) == Some(reader.head) && CurrentAt(log, reader.seen).Some?
  {
  }

  lemma FirstRead(index: Index, cell: Cell)
    requires cell.slot.head == HeadAt(cell.log, |cell.log|)
    requires KindOf(cell.slot.head) == ActiveKind <==> CurrentAt(cell.log, |cell.log|).Some?
    requires CurrentAt(cell.log, |cell.log|).Some? ==>
      |cell.log| > 0 && HeadAt(cell.log, |cell.log|).Some? && HeadAt(cell.log, |cell.log|).value.state == Active(|cell.log|)
    ensures ReaderRight(cell.log, AdvanceReader(index, cell, Opened))
  {
  }

  lemma SecondRead(index: Index, cell: Cell, reader: Reader)
    requires ReaderRight(cell.log, reader) && reader.SawHead?
    requires var seen := reader.seen;
      && Decodes(index, seen, CurrentAt(cell.log, seen).value.payload)
      && CurrentAt(cell.log, seen).value.payload.config == reader.head.config
      && cell.log[seen - 1].successor.payload == Some(CurrentAt(cell.log, seen).value.payload)
      && (Gone(cell.log) ==> cell.slot.versions == map[])
      && (!Gone(cell.log) ==>
            seen in cell.slot.versions && cell.log[seen - 1].successor.payload == Some(cell.slot.versions[seen]))
    ensures ReaderRight(cell.log, AdvanceReader(index, cell, reader))
  {
    hide Decodes, Gone;
  }

  lemma ThirdRead(index: Index, cell: Cell, reader: Reader)
    requires ReaderRight(cell.log, reader) && reader.SawNoPayload?
    requires Gone(cell.log) ==> KindOf(cell.slot.head) == DestroyedKind
    ensures ReaderRight(cell.log, AdvanceReader(index, cell, reader))
  {
    hide Gone;
  }

  lemma ReadOnce(index: Index, cell: Cell, reader: Reader)
    requires ReaderRight(cell.log, reader) && reader.Read?
    ensures ReaderRight(cell.log, AdvanceReader(index, cell, reader))
  {
  }

  ghost predicate Stepped(index: Index, before: Cell, after: Cell) {
    Right(index, after) && Extends(after.log, before.log)
  }

  lemma AdvancedSteps(index: Index, before: Cell, after: Cell, id: nat)
    requires Right(index, before) && Advanced(index, before, after, id)
    ensures Stepped(index, before, after)
  {
    hide SlotRight, PhaseRight, ReaderRight, Extends, CheckChange;
    forall i | i in after.clients ensures ClientRight(index, after.log, after.clients[i]) {
      assert ClientRight(index, before.log, before.clients[i]);
      if i != id {
        KnownStays(before.log, after.log, before.clients[i].operation, before.clients[i].phase);
      }
    }
    forall i | i in after.readers ensures ReaderRight(after.log, after.readers[i]) {
      ReadStays(before.log, after.log, before.readers[i]);
    }
  }

  lemma NextKeeps(index: Index, cell: Cell, action: Action)
    requires Right(index, cell)
    ensures Stepped(index, cell, Next(index, cell, action))
  {
    hide SlotRight, PhaseRight, ReaderRight, CheckChange, AdvanceClient, AdvanceReader, WriteQuarantine;
    match action
    case Begin(id, operation) =>
      assert PhaseRight(cell.log, operation, Checked) by { CheckedRight(cell.log, operation); }
    case Advance(id) =>
      if id in cell.clients {
        AdvanceKeeps(index, cell, id);
        AdvancedSteps(index, cell, Next(index, cell, action), id);
      }
    case Drop(id) =>
    case Recover(version, marker) => QuarantineKeeps(index, cell.slot, cell.log, cell.stages, version, marker);
    case Open(id) => OpenedRight(cell.log);
    case ReadOn(id) =>
      if id in cell.readers {
        ReaderKeeps(index, cell, cell.readers[id]);
      }
  }

  lemma CheckedRight(log: Log, operation: Operation)
    ensures PhaseRight(log, operation, Checked)
  {
  }

  lemma OpenedRight(log: Log)
    ensures ReaderRight(log, Opened)
  {
  }

  /** The invariant holds after every interleaving of clients, drops,
      quarantines and readers. */
  lemma {:induction false} EveryInterleaving(index: Index, actions: seq<Action>)
    ensures Right(index, After(index, actions))
    decreases |actions|
  {
    hide *;
    if actions == [] {
      StartRight(index);
    } else {
      EveryInterleaving(index, actions[..|actions| - 1]);
    }
    AfterIs(index, actions);
    if actions != [] {
      NextKeeps(index, After(index, actions[..|actions| - 1]), actions[|actions| - 1]);
      SteppedMeans(index, After(index, actions[..|actions| - 1]), After(index, actions));
    }
  }

  lemma AfterIs(index: Index, actions: seq<Action>)
    ensures After(index, actions)
      == if actions == [] then START else Next(index, After(index, actions[..|actions| - 1]), actions[|actions| - 1])
  {
  }

  lemma StartRight(index: Index)
    ensures Right(index, After(index, []))
  {
  }

  lemma SteppedMeans(index: Index, before: Cell, after: Cell)
    requires Stepped(index, before, after)
    ensures Right(index, after) && before.log <= after.log
  {
    hide Right;
  }

  lemma {:induction false} HistoryGrows(index: Index, actions: seq<Action>, i: nat)
    requires i <= |actions|
    ensures After(index, actions[..i]).log <= After(index, actions).log
    decreases |actions|
  {
    hide *;
    if i == |actions| {
      assert actions[..i] == actions;
    } else {
      var front := actions[..|actions| - 1];
      assert front[..i] == actions[..i];
      HistoryGrows(index, front, i);
      EveryInterleaving(index, front);
      AfterIs(index, actions);
      NextKeeps(index, After(index, front), actions[|actions| - 1]);
      SteppedMeans(index, After(index, front), After(index, actions));
    }
  }

  /** A head that changed never comes back: equal heads at two moments mean
      nothing was published between them. */
  lemma HeadsNeverRecur(index: Index, actions: seq<Action>, i: nat, j: nat)
    requires i <= j <= |actions|
    requires After(index, actions[..i]).slot.head == After(index, actions).slot.head
    ensures After(index, actions[..j]).slot.head == After(index, actions).slot.head
    ensures After(index, actions[..i]).log == After(index, actions).log
  {
    hide *;
    var first, between, last := After(index, actions[..i]), After(index, actions[..j]), After(index, actions);
    EveryInterleaving(index, actions[..i]);
    EveryInterleaving(index, actions[..j]);
    EveryInterleaving(index, actions);
    assert actions[..j][..i] == actions[..i];
    HistoryGrows(index, actions[..j], i);
    HistoryGrows(index, actions, j);
    RightParts(index, first);
    RightParts(index, between);
    RightParts(index, last);
    SlotParts(index, first.slot, first.log, first.stages);
    SlotParts(index, between.slot, between.log, between.stages);
    SlotParts(index, last.slot, last.log, last.stages);
    HeadInPrefix(first.log, last.log);
    if |first.log| < |last.log| {
      HeadsDiffer(index, last.log, |first.log|, |last.log|);
    }
    assert first.log == between.log == last.log;
  }

  lemma HeadInPrefix(log: Log, longer: Log)
    requires log <= longer
    ensures HeadAt(longer, |log|) == HeadAt(log, |log|)
  {
  }

  lemma {:induction false} KeysCounted(log: Log)
    requires OnceKeyed(log)
    ensures |set e | e in log :: e.operation.key| == |log|
  {
    if log != [] {
      var front, last := log[..|log| - 1], log[|log| - 1];
      KeysCounted(front);
      assert log == front + [last];
      assert (set e | e in log :: e.operation.key) == (set e | e in front :: e.operation.key) + {last.operation.key};
      forall i | 0 <= i < |front| ensures front[i].operation.key != last.operation.key {
        assert log[i].operation.key != log[|log| - 1].operation.key;
      }
    }
  }

  /** One record per published operation. */
  lemma RecordsCounted(slot: Slot, log: Log)
    requires RecordsRight(slot, log)
    ensures |slot.operations| == |log|
  {
    KeysCounted(log);
    forall key ensures key in slot.operations <==> key in (set e | e in log :: e.operation.key) {
      if key in slot.operations {
        var j :| 0 <= j < |log| && log[j].operation.key == key;
        assert log[j] in log;
      }
    }
    assert slot.operations.Keys == set e | e in log :: e.operation.key;
  }

  /** What an index stores, read off its head alone. */
  ghost predicate StoredExactly(cell: Cell) {
    var slot := cell.slot;
    match slot.head
    case None => slot.versions.Keys == slot.staging.Keys <= {1} && slot.operations == map[]
      && cell.stages == |slot.staging| + |slot.quarantined|
    case Some(Head(_, _, Active(v))) =>
      && slot.versions.Keys == VersionSet(v) + slot.staging.Keys && slot.staging.Keys <= {v + 1}
      && |slot.operations| == v
      && cell.stages == v + |slot.staging| + |slot.quarantined|
    case Some(Head(_, _, Destroyed(last, _, _))) =>
      && slot.versions == map[] && slot.staging == map[]
      && |slot.operations| == last + 1
      && cell.stages == last + |slot.quarantined|
  }

  lemma StorageExact(index: Index, actions: seq<Action>)
    ensures StoredExactly(After(index, actions))
  {
    hide *;
    var cell := After(index, actions);
    EveryInterleaving(index, actions);
    RightParts(index, cell);
    SlotParts(index, cell.slot, cell.log, cell.stages);
    RecordsCounted(cell.slot, cell.log);
    StateAt(index, cell.log, |cell.log|);
    RightStoresExactly(index, cell);
  }

  lemma RightStoresExactly(index: Index, cell: Cell)
    requires SlotRight(index, cell.slot, cell.log, cell.stages)
    requires |cell.slot.operations| == |cell.log| && Standing(cell.log, |cell.log|)
    requires CurrentAt(cell.log, |cell.log|).Some? ==> HeadAt(cell.log, |cell.log|).value.state == Active(|cell.log|)
    ensures StoredExactly(cell)
  {
    hide *;
    SlotParts(index, cell.slot, cell.log, cell.stages);
    StagedKeys(index, cell.slot, cell.log);
    if cell.log == [] {
      NothingStored(cell);
    } else if CurrentAt(cell.log, |cell.log|).Some? {
      ActiveStored(cell);
    } else {
      DestroyedStored(cell);
    }
  }

  lemma StagedKeys(index: Index, slot: Slot, log: Log)
    requires StagedRight(index, slot, log)
    ensures slot.staging.Keys <= {|log| + 1}
  {
    hide Builds;
  }

  lemma NothingStored(cell: Cell)
    requires cell.log == [] && cell.slot.head == HeadAt([], 0) && StoredRight(cell.slot, []) && cell.slot.staging.Keys <= {1}
    requires |cell.slot.operations| == 0 && cell.stages == VersionsPublished([]) + |cell.slot.staging| + |cell.slot.quarantined|
    ensures StoredExactly(cell)
  {
    hide VersionSet;
    forall v: nat ensures v !in VersionSet(0) {
      CountedIs(v, 0);
    }
    assert VersionSet(0) == {};
  }

  lemma ActiveStored(cell: Cell)
    requires var n := |cell.log|;
      && n > 0 && CurrentAt(cell.log, n).Some? && HeadAt(cell.log, n).value.state == Active(n)
      && cell.slot.head == HeadAt(cell.log, n) && StoredRight(cell.slot, cell.log) && cell.slot.staging.Keys <= {n + 1}
      && |cell.slot.operations| == n
      && cell.stages == VersionsPublished(cell.log) + |cell.slot.staging| + |cell.slot.quarantined|
    ensures StoredExactly(cell)
  {
    hide VersionSet;
  }

  lemma DestroyedStored(cell: Cell)
    requires var n := |cell.log|;
      && n > 0 && CurrentAt(cell.log, n).None? && Standing(cell.log, n)
      && cell.slot.head == HeadAt(cell.log, n) && StoredRight(cell.slot, cell.log)
      && |cell.slot.operations| == n
      && cell.stages == VersionsPublished(cell.log) + |cell.slot.staging| + |cell.slot.quarantined|
    ensures StoredExactly(cell)
  {
    hide VersionSet, Reads;
  }

  /** Two requests answered under one key were the same operation, and both
      were told its one outcome. */
  lemma AnswersAgree(index: Index, actions: seq<Action>, a: nat, b: nat)
    requires var clients := After(index, actions).clients;
      && a in clients && b in clients && clients[a].operation.key == clients[b].operation.key
      && Answer(clients[a].phase).Some? && Answer(clients[b].phase).Some?
    ensures var clients := After(index, actions).clients;
      && IdentityOf(clients[a].operation) == IdentityOf(clients[b].operation)
      && Answer(clients[a].phase) == Answer(clients[b].phase)
  {
    EveryInterleaving(index, actions);
    var cell := After(index, actions);
    hide After, IdentityOf, CheckChange, StoredRight, StagedRight, IsHistory;
    var x, y := cell.clients[a], cell.clients[b];
    assert ClientRight(index, cell.log, x) && ClientRight(index, cell.log, y);
    var i :| 0 <= i < |cell.log| && SameEvent(cell.log[i], x.operation, Answer(x.phase).value);
    var j :| 0 <= j < |cell.log| && SameEvent(cell.log[j], y.operation, Answer(y.phase).value);
    KeyOf(x.operation);
    KeyOf(y.operation);
    KeyOf(cell.log[i].operation);
    KeyOf(cell.log[j].operation);
    assert i == j;
  }

  function Answer(phase: Phase): Option<State> {
    match phase
    case Ended(PublishedAs(state)) => Some(state)
    case Ended(ReplayedAs(state)) => Some(state)
    case _ => None
  }

  /** Damage and the two refusals that would betray a broken order of reads are
      never reported; a build fails only when versions run out. */
  lemma NeverReported(index: Index, actions: seq<Action>, id: nat)
    requires id in After(index, actions).clients && After(index, actions).clients[id].phase.Ended?
    ensures var ending := After(index, actions).clients[id].phase.ending;
      && ending != Corrupt && ending != WriteRefused(OperationRecorded) && ending != WriteRefused(VersionStored)
      && (ending.BuildRefused? ==> ending.refusal == VersionExhausted)
      && (ending == HeadGone ==> KindOf(After(index, actions).slot.head) == DestroyedKind)
  {
    EveryInterleaving(index, actions);
    var cell := After(index, actions);
    hide After, IdentityOf, CheckChange, SlotRight;
    GoneHead(index, cell.slot, cell.log, cell.stages);
    assert ClientRight(index, cell.log, cell.clients[id]);
  }

  /** A key recorded after a client read the head cannot be recorded again:
      the client's write meets a moved head and changes nothing. */
  lemma LateKeyRefused(index: Index, actions: seq<Action>, id: nat)
    requires var cell := After(index, actions);
      && id in cell.clients && cell.clients[id].operation.key in cell.slot.operations
      && (cell.clients[id].phase.StagedBy? || (cell.clients[id].phase.Prepared? && cell.clients[id].phase.successor.payload.Some?))
    ensures var cell := After(index, actions);
      var after := Next(index, cell, Advance(id));
      after.slot == cell.slot && after.clients[id].phase == Ended(WriteRefused(HeadChanged))
  {
    var cell := After(index, actions);
    EveryInterleaving(index, actions);
    hide After, SuccessorOf, CheckChange, Permit, IdentityOf, StoredRight, StagedRight;
    var Client(operation, phase) := cell.clients[id];
    assert ClientRight(index, cell.log, cell.clients[id]);
    var j :| 0 <= j < |cell.log| && cell.log[j].operation.key == operation.key;
    assert phase.seen <= j;
    HeadsDiffer(index, cell.log, phase.seen, |cell.log|);
    hide IsHistory, MarkerOf;
  }

  /** A reader that finished holds exactly the version its first head read
      named, whole, or was told the index is gone. It is never told of damage,
      and never sees a staged version. */
  lemma ReadsWhole(index: Index, actions: seq<Action>, id: nat)
    requires id in After(index, actions).readers && After(index, actions).readers[id].Read?
    ensures var cell := After(index, actions);
      var Read(result, seen) := cell.readers[id];
      && seen <= |cell.log|
      && match result
         case Found(payload) => CurrentAt(cell.log, seen).Some? && CurrentAt(cell.log, seen).value.payload == payload
                                && payload.version == seen
         case NotFound => CurrentAt(cell.log, seen).None? || KindOf(cell.slot.head) == DestroyedKind
         case Damaged => false
  {
    EveryInterleaving(index, actions);
    var cell := After(index, actions);
    hide After, SlotRight, ClientRight, IsHistory;
    SlotParts(index, cell.slot, cell.log, cell.stages);
    assert ReaderRight(cell.log, cell.readers[id]);
    GoneHead(index, cell.slot, cell.log, cell.stages);
    StateAt(index, cell.log, cell.readers[id].seen);
  }
}
