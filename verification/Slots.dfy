/** What a backend stores for one index, and the four lifecycle writes on it. */
module Slots {
  import opened Options
  import opened Records
  import Orders

  /** Which operation staged a version. */
  datatype Marker = Marker(index: Index, version: nat, operation: OperationIdentity, transition: Transition)

  datatype Moved = Moved(version: nat, marker: Marker, payload: Option<Payload>)

  datatype Slot = Slot(head: Option<Head>, versions: map<nat, Payload>, staging: map<nat, Marker>,
                       operations: map<Key, Record>, quarantined: seq<Moved>)

  const EMPTY: Slot := Slot(None, map[], map[], map[], [])

  datatype WriteError = HeadChanged | StagedStateExists(version: nat) | VersionStored | StagedStateMissing | OperationRecorded

  /** A write's refusal, if any, and the slot it leaves. */
  datatype Outcome = Outcome(slot: Slot, error: Option<WriteError>)

  predicate LessNat(a: nat, b: nat) {
    a < b
  }

  /** The lowest staged version. */
  function FirstStaged(staging: map<nat, Marker>): Option<nat> {
    if staging.Keys == {} then None
    else
      assert Orders.StrictTotal(LessNat);
      Some(Orders.Least(LessNat, staging.Keys))
  }

  function WriteStage(s: Slot, version: nat, key: Key, expected: Option<Head>, marker: Marker, payload: Payload): Outcome {
    if s.head != expected then Outcome(s, Some(HeadChanged))
    else if FirstStaged(s.staging).Some? then Outcome(s, Some(StagedStateExists(FirstStaged(s.staging).value)))
    else if version in s.versions then Outcome(s, Some(VersionStored))
    else if key in s.operations then Outcome(s, Some(OperationRecorded))
    else Outcome(s.(versions := s.versions[version := payload], staging := s.staging[version := marker]), None)
  }

  function WritePublish(s: Slot, version: nat, key: Key, expected: Option<Head>, marker: Marker, head: Head, record: Record): Outcome {
    if s.head != expected then Outcome(s, Some(HeadChanged))
    else if version !in s.staging || s.staging[version] != marker then Outcome(s, Some(StagedStateMissing))
    else if version !in s.versions then Outcome(s, Some(StagedStateMissing))
    else if key in s.operations then Outcome(s, Some(OperationRecorded))
    else Outcome(s.(head := Some(head), operations := s.operations[key := record], staging := s.staging - {version}), None)
  }

  function WriteDestroy(s: Slot, key: Key, expected: Head, head: Head, record: Record, versions: set<nat>): Outcome {
    if s.head != Some(expected) then Outcome(s, Some(HeadChanged))
    else if FirstStaged(s.staging).Some? then Outcome(s, Some(StagedStateExists(FirstStaged(s.staging).value)))
    else if key in s.operations then Outcome(s, Some(OperationRecorded))
    else Outcome(s.(head := Some(head), operations := s.operations[key := record], versions := s.versions - versions), None)
  }

  function WriteQuarantine(s: Slot, version: nat, marker: Marker): Outcome {
    if version !in s.staging || s.staging[version] != marker then Outcome(s, Some(StagedStateMissing))
    else
      var payload := if version in s.versions then Some(s.versions[version]) else None;
      Outcome(s.(versions := s.versions - {version}, staging := s.staging - {version},
                 quarantined := s.quarantined + [Moved(version, marker, payload)]), None)
  }
}
