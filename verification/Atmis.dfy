/** The in-memory backend: ordered maps changed in place under one mutex. */
module Atmis {
  import opened Options
  import opened Records
  import opened Slots
  import opened Identifiers
  import opened StorageKeys
  import opened Texts
  import opened Stores
  import opened Orders

  function From(keys: set<string>, prefix: string): set<string> {
    set k | k in keys && !TextLess(k, prefix)
  }

  /** The first key from `prefix` on, if it starts with `prefix`. */
  function FirstFrom(keys: set<string>, prefix: string): Option<string> {
    var those := From(keys, prefix);
    if those == {} then None
    else
      TextTotal();
      var first := Least(TextLess, those);
      if prefix <= first then Some(first) else None
  }

  /** Looking no further than the first key in range misses nothing. */
  lemma RangeIsScan(keys: set<string>, prefix: string)
    ensures FirstFrom(keys, prefix) == FirstPrefixed(keys, prefix)
  {
    TextTotal();
    var range, scan := From(keys, prefix), Prefixed(keys, prefix);
    hide TextLess;
    forall k | k in scan ensures k in range {
      PrefixFirst(prefix, k);
    }
    if scan != {} {
      var first, scanned := Least(TextLess, range), Least(TextLess, scan);
      if first != scanned {
        PrefixesContiguous(prefix, first, scanned);
      }
      assert first in scan;
    } else if range != {} {
      var first := Least(TextLess, range);
      assert first in range && first !in scan;
    }
  }

  class Backend {
    var heads: map<string, Head>
    var versions: map<string, Payload>
    var staging: map<string, Marker>
    var operations: map<string, Record>
    var quarantine: seq<Kept>

    ghost function All(): Store
      reads this
    {
      Store(heads, versions, staging, operations, quarantine)
    }

    ghost predicate Valid()
      reads this
    {
      Sound(All())
    }

    constructor ()
      ensures Valid() && All() == NOTHING
    {
      heads, versions, staging, operations, quarantine := map[], map[], map[], map[], [];
    }

    method ReadHead(index: Index) returns (head: Option<Head>)
      ensures head == SlotIn(All(), index).head
    {
      var key := HeadKey(index);
      head := if key in heads then Some(heads[key]) else None;
    }

    method ReadVersion(index: Index, version: nat) returns (payload: Option<Payload>)
      requires IdentityOk(index) && VersionOk(version)
      ensures payload == var stored := SlotIn(All(), index).versions; if version in stored then Some(stored[version]) else None
    {
      VersionFound(versions, index, version);
      hide VersionKey, ByVersion;
      var key := VersionKey(index, version);
      payload := if key in versions then Some(versions[key]) else None;
    }

    method ReadOperation(index: Index, key: Key) returns (record: Option<Record>)
      requires IdentityOk(index) && KeyOk(key)
      ensures record == var stored := SlotIn(All(), index).operations; if key in stored then Some(stored[key]) else None
    {
      OperationFound(operations, index, key);
      hide OperationKey, ByKey;
      var text := OperationKey(index, key);
      record := if text in operations then Some(operations[text]) else None;
    }

    method FirstStagedKey(prefix: string) returns (key: Option<string>)
      ensures key == FirstPrefixed(staging.Keys, prefix)
    {
      RangeIsScan(staging.Keys, prefix);
      hide FirstPrefixed;
      key := FirstFrom(staging.Keys, prefix);
    }

    /** The lowest staged version, with its marker. */
    method ReadStaging(index: Index) returns (staged: Option<(nat, Marker)>)
      requires Valid() && IdentityOk(index)
      ensures var slot := SlotIn(All(), index);
        && (staged.None? <==> FirstStaged(slot.staging).None?)
        && (staged.Some? ==>
              && FirstStaged(slot.staging) == Some(staged.value.0)
              && staged.value.0 in slot.staging && slot.staging[staged.value.0] == staged.value.1)
    {
      ScanFindsFirst(staging, index);
      FirstOf(ByVersion(staging, index));
      hide FirstStaged, FirstPrefixed, ByVersion, Numbers, VersionKey, ParseVersion;
      var key := FirstStagedKey(IndexPrefix(index));
      if key.None? {
        return None;
      }
      var v := FirstStaged(ByVersion(staging, index)).value;
      ByVersionIs(staging, index, v);
      VersionFound(staging, index, v);
      staged := Some((StagedVersion(key.value), staging[key.value]));
    }

    method RefuseAnyStaged(index: Index) returns (error: Option<WriteError>)
      ensures error == RefuseStaged(All(), index)
    {
      var key := FirstStagedKey(IndexPrefix(index));
      error := if key.Some? then Some(StagedStateExists(StagedVersion(key.value))) else None;
    }

    method Stage(index: Index, version: nat, key: Key, expected: Option<Head>, marker: Marker, payload: Payload)
      returns (error: Option<WriteError>)
      requires Valid() && IdentityOk(index) && VersionOk(version) && KeyOk(key)
      modifies this
      ensures Wrote(All(), error) == StageIn(old(All()), index, version, key, expected, marker, payload)
      ensures Valid()
    {
      ghost var before := All();
      StageSound(before, index, version, key, expected, marker, payload);
      hide RefuseStaged, Sound, HeadKey, VersionKey, OperationKey, IdentityOk, VersionOk, KeyOk;
      if Find(heads, HeadKey(index)) != expected {
        return Some(HeadChanged);
      }
      var staged := RefuseAnyStaged(index);
      if staged.Some? {
        return staged;
      }
      if VersionKey(index, version) in versions {
        return Some(VersionStored);
      }
      if OperationKey(index, key) in operations {
        return Some(OperationRecorded);
      }
      versions := versions[VersionKey(index, version) := payload];
      staging := staging[StagingKey(index, version) := marker];
      error := None;
    }

    method Publish(index: Index, version: nat, key: Key, expected: Option<Head>, marker: Marker, head: Head, record: Record)
      returns (error: Option<WriteError>)
      requires Valid() && IdentityOk(index) && VersionOk(version) && KeyOk(key)
      modifies this
      ensures Wrote(All(), error) == PublishIn(old(All()), index, version, key, expected, marker, head, record)
      ensures Valid()
    {
      ghost var before := All();
      PublishSound(before, index, version, key, expected, marker, head, record);
      hide Sound, HeadKey, VersionKey, OperationKey, IdentityOk, VersionOk, KeyOk;
      if Find(heads, HeadKey(index)) != expected {
        return Some(HeadChanged);
      }
      if Find(staging, StagingKey(index, version)) != Some(marker) {
        return Some(StagedStateMissing);
      }
      if VersionKey(index, version) !in versions {
        return Some(StagedStateMissing);
      }
      if OperationKey(index, key) in operations {
        return Some(OperationRecorded);
      }
      heads := heads[HeadKey(index) := head];
      operations := operations[OperationKey(index, key) := record];
      staging := staging - {StagingKey(index, version)};
      error := None;
    }

    /** `listed` names the versions to remove, in the order they are removed. */
    method Destroy(index: Index, key: Key, expected: Head, head: Head, record: Record, listed: seq<nat>)
      returns (error: Option<WriteError>)
      requires Valid() && IdentityOk(index) && KeyOk(key) && forall v | v in listed :: VersionOk(v)
      modifies this
      ensures Wrote(All(), error) == DestroyIn(old(All()), index, key, expected, head, record, Elements(listed))
      ensures Valid()
    {
      ghost var before := All();
      DestroySound(before, index, key, expected, head, record, Elements(listed));
      NoKeys(index, listed);
      hide RefuseStaged, Sound, HeadKey, VersionKey, OperationKey, IdentityOk, VersionOk, KeyOk, VersionKeys, Elements;
      if Find(heads, HeadKey(index)) != Some(expected) {
        return Some(HeadChanged);
      }
      var staged := RefuseAnyStaged(index);
      if staged.Some? {
        return staged;
      }
      if OperationKey(index, key) in operations {
        return Some(OperationRecorded);
      }
      heads := heads[HeadKey(index) := head];
      operations := operations[OperationKey(index, key) := record];
      for i := 0 to |listed|
        invariant versions == before.versions - VersionKeys(index, Elements(listed[..i]))
        invariant heads == before.heads[HeadKey(index) := head]
        invariant operations == before.operations[OperationKey(index, key) := record]
        invariant staging == before.staging && quarantine == before.quarantine
      {
        OneMoreKey(index, listed, i);
        versions := versions - {VersionKey(index, listed[i])};
      }
      assert listed[..|listed|] == listed;
      error := None;
    }

    method NextSequence() returns (sequence: Option<nat>)
      requires Valid()
      ensures sequence == if |quarantine| < U64_MAX then Some(|quarantine| + 1) else None
    {
      hide WellKeyed;
      if quarantine == [] {
        return Some(1);
      }
      var last := quarantine[|quarantine| - 1].sequence;
      sequence := if last < U64_MAX then Some(last + 1) else None;
    }

    /** `exhausted` when the quarantine counter has run out; nothing changes. */
    method Quarantine(index: Index, version: nat, marker: Marker)
      returns (error: Option<WriteError>, exhausted: bool)
      requires Valid() && IdentityOk(index) && VersionOk(version)
      requires |quarantine| <= U64_MAX
      modifies this
      ensures exhausted <==> |old(quarantine)| == U64_MAX && old(Find(staging, StagingKey(index, version))) == Some(marker)
      ensures exhausted ==> error.None? && All() == old(All())
      ensures !exhausted ==>
        Wrote(All(), error) == QuarantineIn(old(All()), index, version, marker)
      ensures Valid()
    {
      ghost var before := All();
      QuarantineSound(before, index, version, marker);
      hide Sound, HeadKey, VersionKey, IdentityOk, VersionOk;
      if Find(staging, StagingKey(index, version)) != Some(marker) {
        return Some(StagedStateMissing), false;
      }
      var sequence := NextSequence();
      if sequence.None? {
        return None, true;
      }
      var payload := Find(versions, VersionKey(index, version));
      versions := versions - {VersionKey(index, version)};
      staging := staging - {StagingKey(index, version)};
      quarantine := quarantine + [Kept(sequence.value, index, version, marker, payload)];
      error, exhausted := None, false;
    }

    /** The index's operation records, in key order: the range from the prefix
        on, as long as it holds. */
    method ListOperations(index: Index) returns (listed: seq<(Key, Record)>)
      requires IdentityOk(index)
      ensures listed == OperationList(operations, index)
    {
      hide *;
      var prefix := IndexPrefix(index);
      TextTotal();
      var range := Ascending(TextLess, From(operations.Keys, prefix));
      RangeStored(operations, prefix, range);
      listed := [];
      var i := 0;
      while i < |range| && prefix <= range[i]
        invariant 0 <= i <= |range|
        invariant forall j | 0 <= j < i :: prefix <= range[j]
        invariant listed == RecordsAt(operations, range[..i])
      {
        RecordsStep(operations, range, i);
        listed := listed + [(KeyIn(range[i]), operations[range[i]])];
        i := i + 1;
      }
      ListIs(operations, index);
      TakenIsScan(operations.Keys, prefix, range, i);
    }
  }

  lemma NoKeys(index: Index, listed: seq<nat>)
    ensures VersionKeys(index, Elements(listed[..0])) == {} && listed[..|listed|] == listed
  {
  }

  lemma OneMoreKey(index: Index, listed: seq<nat>, i: nat)
    requires i < |listed|
    ensures VersionKeys(index, Elements(listed[..i + 1])) == VersionKeys(index, Elements(listed[..i])) + {VersionKey(index, listed[i])}
  {
    hide VersionKey;
    assert listed[..i + 1] == listed[..i] + [listed[i]];
    assert Elements(listed[..i + 1]) == Elements(listed[..i]) + {listed[i]};
    assert listed[i] in Elements(listed[..i + 1]);
  }

  /** The range cut at its first key without the prefix is the whole scan. */
  lemma TakenIsScan(keys: set<string>, prefix: string, range: seq<string>, i: nat)
    requires StrictTotal(TextLess)
    requires range == Ascending(TextLess, From(keys, prefix))
    requires i <= |range| && forall j | 0 <= j < i :: prefix <= range[j]
    requires i < |range| ==> !(prefix <= range[i])
    ensures range[..i] == Ascending(TextLess, Prefixed(keys, prefix))
  {
    var scan := Prefixed(keys, prefix);
    forall k ensures k in range[..i] <==> k in scan {
      if k in scan {
        TakenHas(keys, prefix, range, i, k);
      }
      if k in range[..i] {
        assert k in Elements(range);
      }
    }
    hide TextLess, Prefixed, From;
    TakenAscends(range, i);
    AscendsIsSorted(TextLess, range[..i]);
    assert Elements(range[..i]) == scan;
    AscendsOnce(TextLess, range[..i], Ascending(TextLess, scan));
  }

  lemma TakenAscends(range: seq<string>, i: nat)
    requires Ascends(TextLess, range) && i <= |range|
    ensures Ascends(TextLess, range[..i])
  {
    hide TextLess;
  }

  lemma RangeStored(operations: map<string, Record>, prefix: string, range: seq<string>)
    requires StrictTotal(TextLess) && range == Ascending(TextLess, From(operations.Keys, prefix))
    ensures forall k | k in range :: k in operations
    ensures RecordsAt(operations, range[..0]) == []
  {
    hide TextLess;
    forall k | k in range ensures k in operations {
      assert k in Elements(range);
    }
  }

  lemma RecordsStep(operations: map<string, Record>, range: seq<string>, i: nat)
    requires i < |range| && forall k | k in range :: k in operations
    ensures RecordsAt(operations, range[..i + 1])
      == RecordsAt(operations, range[..i]) + [(KeyIn(range[i]), operations[range[i]])]
  {
    hide KeyIn;
  }

  lemma ListIs(operations: map<string, Record>, index: Index)
    requires StrictTotal(TextLess)
    ensures var keys := Ascending(TextLess, Prefixed(operations.Keys, IndexPrefix(index)));
      (forall k | k in keys :: k in operations) && OperationList(operations, index) == RecordsAt(operations, keys)
  {
    hide TextLess, IndexPrefix, KeyIn;
    var keys := Ascending(TextLess, Prefixed(operations.Keys, IndexPrefix(index)));
    forall k | k in keys ensures k in operations {
      assert k in Elements(keys);
    }
  }

  lemma TakenHas(keys: set<string>, prefix: string, range: seq<string>, i: nat, k: string)
    requires Ascends(TextLess, range) && Elements(range) == From(keys, prefix)
    requires i <= |range| && (i < |range| ==> !(prefix <= range[i]))
    requires k in Prefixed(keys, prefix)
    ensures k in range[..i]
  {
    hide TextLess;
    PrefixFirst(prefix, k);
    assert k in Elements(range);
    var j :| 0 <= j < |range| && range[j] == k;
    if i < j {
      assert range[i] in Elements(range);
      PrefixesContiguous(prefix, range[i], k);
    }
    assert j < i;
    assert range[..i][j] == k;
  }
}
