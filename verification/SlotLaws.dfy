/** What the four writes promise whoever calls them, in any order and with any
    arguments. */
module SlotLaws {
  import opened Options
  import opened Records
  import opened Slots
  import Orders

  datatype Write =
    | Stage(version: nat, key: Key, read: Option<Head>, marker: Marker, payload: Payload)
    | Publish(version: nat, key: Key, read: Option<Head>, marker: Marker, head: Head, record: Record)
    | Destroy(key: Key, live: Head, head: Head, record: Record, versions: set<nat>)
    | Quarantine(version: nat, marker: Marker)

  function Perform(s: Slot, w: Write): Outcome {
    match w
    case Stage(version, key, read, marker, payload) => WriteStage(s, version, key, read, marker, payload)
    case Publish(version, key, read, marker, head, record) => WritePublish(s, version, key, read, marker, head, record)
    case Destroy(key, live, head, record, versions) => WriteDestroy(s, key, live, head, record, versions)
    case Quarantine(version, marker) => WriteQuarantine(s, version, marker)
  }

  /** The slot after calls in a row, refused ones included. */
  function Run(s: Slot, ws: seq<Write>): Slot {
    if ws == [] then s else Perform(Run(s, ws[..|ws| - 1]), ws[|ws| - 1]).slot
  }

  lemma Staged(staging: map<nat, Marker>)
    ensures FirstStaged(staging).None? <==> staging == map[]
    ensures FirstStaged(staging).Some? ==>
      FirstStaged(staging).value in staging && forall v | v in staging :: FirstStaged(staging).value <= v
  {
    if staging != map[] {
      assert staging.Keys != {};
    }
  }

  /** Which refusal a write meets; the first that applies. */
  ghost predicate Refusal(s: Slot, w: Write, error: Option<WriteError>) {
    match w
    case Stage(version, key, read, _, _) =>
      if s.head != read then error == Some(HeadChanged)
      else if s.staging != map[] then LowestStaged(s, error)
      else if version in s.versions then error == Some(VersionStored)
      else if key in s.operations then error == Some(OperationRecorded)
      else error == None
    case Publish(version, key, read, marker, _, _) =>
      if s.head != read then error == Some(HeadChanged)
      else if !(version in s.staging && s.staging[version] == marker && version in s.versions) then error == Some(StagedStateMissing)
      else if key in s.operations then error == Some(OperationRecorded)
      else error == None
    case Destroy(key, live, _, _, _) =>
      if s.head != Some(live) then error == Some(HeadChanged)
      else if s.staging != map[] then LowestStaged(s, error)
      else if key in s.operations then error == Some(OperationRecorded)
      else error == None
    case Quarantine(version, marker) =>
      error == if version in s.staging && s.staging[version] == marker then None else Some(StagedStateMissing)
  }

  ghost predicate LowestStaged(s: Slot, error: Option<WriteError>) {
    exists v | v in s.staging :: error == Some(StagedStateExists(v)) && forall u | u in s.staging :: v <= u
  }

  /** What a write that goes through changes, and that nothing else does. */
  ghost predicate Effect(s: Slot, w: Write, t: Slot) {
    match w
    case Stage(version, _, _, marker, payload) =>
      t == s.(versions := s.versions[version := payload], staging := map[version := marker])
    case Publish(version, key, _, _, head, record) =>
      && t.head == Some(head) && t.operations == s.operations[key := record]
      && version !in t.staging && t.staging == s.staging - {version}
      && t.versions == s.versions && t.quarantined == s.quarantined
    case Destroy(key, _, head, record, versions) =>
      && t.head == Some(head) && t.operations == s.operations[key := record]
      && t.staging == map[] && t.quarantined == s.quarantined
      && t.versions == s.versions - versions
    case Quarantine(version, marker) =>
      && t.head == s.head && t.operations == s.operations
      && t.staging == s.staging - {version} && t.versions == s.versions - {version}
      && t.quarantined
         == s.quarantined + [Moved(version, marker, if version in s.versions then Some(s.versions[version]) else None)]
  }

  lemma WriteMeets(s: Slot, w: Write)
    ensures Refusal(s, w, Perform(s, w).error)
    ensures if Perform(s, w).error.Some? then Perform(s, w).slot == s else Effect(s, w, Perform(s, w).slot)
  {
    Staged(s.staging);
    hide FirstStaged;
    if s.staging == map[] && w.Stage? {
      assert s.staging[w.version := w.marker] == map[w.version := w.marker];
    }
  }

  /** A record, once stored, is never replaced or lost, and a stage never writes
      over a stored payload. */
  lemma {:induction false} RecordsStay(s: Slot, ws: seq<Write>, key: Key)
    requires key in s.operations
    ensures key in Run(s, ws).operations && Run(s, ws).operations[key] == s.operations[key]
    decreases |ws|
  {
    hide Perform;
    if ws != [] {
      RecordsStay(s, ws[..|ws| - 1], key);
      OneRecordStays(Run(s, ws[..|ws| - 1]), ws[|ws| - 1], key);
    }
  }

  lemma OneRecordStays(s: Slot, w: Write, key: Key)
    requires key in s.operations
    ensures var t := Perform(s, w).slot; key in t.operations && t.operations[key] == s.operations[key]
  {
    WriteMeets(s, w);
    hide Perform;
  }

  /** Whatever was called, at most one version is staged, its payload is stored,
      every entry moved aside kept its payload, and there is a head exactly when
      some operation is recorded. */
  ghost predicate Orderly(s: Slot) {
    && |s.staging| <= 1 && s.staging.Keys <= s.versions.Keys
    && (forall i | 0 <= i < |s.quarantined| :: s.quarantined[i].payload.Some?)
    && (s.head.None? <==> s.operations == map[])
  }

  lemma {:induction false} AnyRun(ws: seq<Write>)
    ensures Orderly(Run(EMPTY, ws))
    decreases |ws|
  {
    hide Perform, Orderly;
    if ws == [] {
      EmptyOrderly();
    } else {
      AnyRun(ws[..|ws| - 1]);
      OneKeeps(Run(EMPTY, ws[..|ws| - 1]), ws[|ws| - 1]);
    }
  }

  lemma EmptyOrderly()
    ensures Orderly(EMPTY)
  {
  }

  lemma OneKeeps(s: Slot, w: Write)
    requires Orderly(s)
    ensures Orderly(Perform(s, w).slot)
  {
    hide *;
    WriteMeets(s, w);
    if Perform(s, w).error.None? {
      EffectKeeps(s, w, Perform(s, w).slot);
    }
  }

  lemma EffectKeeps(s: Slot, w: Write, t: Slot)
    requires Orderly(s) && Effect(s, w, t) && Refusal(s, w, None)
    ensures Orderly(t)
  {
    hide Orderly;
    match w
    case Stage(version, _, _, marker, payload) => StageOrderly(s, version, marker, payload);
    case Publish(version, key, _, _, _, record) => PublishOrderly(s, t, version, key, record);
    case Destroy(key, _, _, record, versions) => DestroyOrderly(s, t, key, record);
    case Quarantine(version, marker) => QuarantineOrderly(s, t, version, marker);
  }

  lemma StageOrderly(s: Slot, version: nat, marker: Marker, payload: Payload)
    requires Orderly(s)
    ensures Orderly(s.(versions := s.versions[version := payload], staging := map[version := marker]))
  {
    var staging := map[version := marker];
    assert staging.Keys == {version} && |staging| == |staging.Keys|;
  }

  lemma PublishOrderly(s: Slot, t: Slot, version: nat, key: Key, record: Record)
    requires Orderly(s) && t.head.Some? && t.operations == s.operations[key := record]
    requires t.staging == s.staging - {version} && t.versions == s.versions && t.quarantined == s.quarantined
    ensures Orderly(t)
  {
    Fewer(s.staging, version);
    Recorded(s.operations, key, record);
  }

  lemma DestroyOrderly(s: Slot, t: Slot, key: Key, record: Record)
    requires Orderly(s) && t.head.Some? && t.operations == s.operations[key := record]
    requires t.staging == map[] && t.quarantined == s.quarantined
    ensures Orderly(t)
  {
    Recorded(s.operations, key, record);
  }

  lemma QuarantineOrderly(s: Slot, t: Slot, version: nat, marker: Marker)
    requires Orderly(s) && version in s.staging && t.head == s.head && t.operations == s.operations
    requires t.staging == s.staging - {version} && t.versions == s.versions - {version}
    requires t.quarantined
      == s.quarantined + [Moved(version, marker, if version in s.versions then Some(s.versions[version]) else None)]
    ensures Orderly(t)
  {
    Fewer(s.staging, version);
    assert version in s.versions.Keys;
  }

  lemma Recorded(operations: map<Key, Record>, key: Key, record: Record)
    ensures operations[key := record] != map[]
  {
    assert key in operations[key := record];
  }

  lemma Fewer(staging: map<nat, Marker>, version: nat)
    ensures |staging - {version}| <= |staging|
  {
    var less := staging - {version};
    assert less.Keys == staging.Keys - {version};
    assert |less.Keys| == |less| && |staging.Keys| == |staging|;
    if version in staging {
      assert |staging.Keys - {version}| == |staging.Keys| - 1;
    } else {
      assert staging.Keys - {version} == staging.Keys;
    }
  }
}
