/** The durable backend: flat keyspaces, each write checked on a snapshot and
    committed as one batch. */
module Thesauros {
  import opened Options
  import opened Records
  import opened Slots
  import opened Identifiers
  import opened StorageKeys
  import opened Texts
  import opened Stores
  import opened Quarantines
  import opened Orders

  datatype Item =
    | PutHead(key: string, head: Head)
    | PutOperation(key: string, record: Record)
    | PutVersion(key: string, payload: Payload)
    | PutStaging(key: string, marker: Marker)
    | PutHalf(key: string, half: Half)
    | TakeVersion(key: string)
    | TakeStaging(key: string)

  datatype Keyspaces = Keyspaces(heads: map<string, Head>, versions: map<string, Payload>, staging: map<string, Marker>,
                                 operations: map<string, Record>, quarantine: map<string, Half>)

  function Applied(k: Keyspaces, item: Item): Keyspaces {
    match item
    case PutHead(key, head) => k.(heads := k.heads[key := head])
    case PutOperation(key, record) => k.(operations := k.operations[key := record])
    case PutVersion(key, payload) => k.(versions := k.versions[key := payload])
    case PutStaging(key, marker) => k.(staging := k.staging[key := marker])
    case PutHalf(key, half) => k.(quarantine := k.quarantine[key := half])
    case TakeVersion(key) => k.(versions := k.versions - {key})
    case TakeStaging(key) => k.(staging := k.staging - {key})
  }

  function Committed(k: Keyspaces, batch: seq<Item>): Keyspaces {
    if batch == [] then k else Applied(Committed(k, batch[..|batch| - 1]), batch[|batch| - 1])
  }

  lemma CommitMore(k: Keyspaces, batch: seq<Item>, item: Item)
    ensures Committed(k, batch + [item]) == Applied(Committed(k, batch), item)
  {
    assert (batch + [item])[..|batch|] == batch;
  }

  lemma CommitTwo(k: Keyspaces, a: Item, b: Item)
    ensures Committed(k, [a, b]) == Applied(Applied(k, a), b)
  {
    CommitMore(k, [], a);
    CommitMore(k, [a], b);
    assert [] + [a] == [a] && [a] + [b] == [a, b];
  }

  lemma CommitThree(k: Keyspaces, a: Item, b: Item, c: Item)
    ensures Committed(k, [a, b, c]) == Applied(Applied(Applied(k, a), b), c)
  {
    CommitTwo(k, a, b);
    CommitMore(k, [a, b], c);
    assert [a, b] + [c] == [a, b, c];
  }

  /** Removing the keys of a list of versions, one item each. */
  function Removals(index: Index, listed: seq<nat>): (r: seq<Item>)
    ensures |r| == |listed| && forall i | 0 <= i < |r| :: r[i] == TakeVersion(VersionKey(index, listed[i]))
  {
    seq(|listed|, i requires 0 <= i < |listed| => TakeVersion(VersionKey(index, listed[i])))
  }

  lemma {:induction false} CommitRemovals(k: Keyspaces, batch: seq<Item>, index: Index, listed: seq<nat>)
    ensures var done := Committed(k, batch);
      Committed(k, batch + Removals(index, listed)) == done.(versions := done.versions - VersionKeys(index, Elements(listed)))
  {
    hide *;
    var done := Committed(k, batch);
    if listed == [] {
      NoRemovals(batch, index, done);
    } else {
      var n := |listed| - 1;
      CommitRemovals(k, batch, index, listed[..n]);
      OneMoreRemoval(batch, index, listed);
      CommitMore(k, batch + Removals(index, listed[..n]), TakeVersion(VersionKey(index, listed[n])));
      RemovalIs(Committed(k, batch + Removals(index, listed[..n])), VersionKey(index, listed[n]));
      KeysWithLast(index, listed);
      TakenTogether(done.versions, VersionKeys(index, Elements(listed[..n])), VersionKey(index, listed[n]));
    }
  }

  lemma NoRemovals(batch: seq<Item>, index: Index, k: Keyspaces)
    ensures batch + Removals(index, []) == batch && k.(versions := k.versions - VersionKeys(index, Elements([]))) == k
  {
    assert VersionKeys(index, Elements([])) == {};
  }

  lemma OneMoreRemoval(batch: seq<Item>, index: Index, listed: seq<nat>)
    requires listed != []
    ensures var n := |listed| - 1;
      batch + Removals(index, listed) == batch + Removals(index, listed[..n]) + [TakeVersion(VersionKey(index, listed[n]))]
  {
    hide VersionKey;
  }

  lemma TakenTogether(m: map<string, Payload>, keys: set<string>, key: string)
    ensures m - keys - {key} == m - (keys + {key})
  {
  }

  lemma RemovalIs(k: Keyspaces, key: string)
    ensures Applied(k, TakeVersion(key)) == k.(versions := k.versions - {key})
  {
  }

  lemma KeysWithLast(index: Index, listed: seq<nat>)
    requires listed != []
    ensures VersionKeys(index, Elements(listed))
      == VersionKeys(index, Elements(listed[..|listed| - 1])) + {VersionKey(index, listed[|listed| - 1])}
  {
    hide VersionKey;
    var front, last := listed[..|listed| - 1], listed[|listed| - 1];
    assert listed == front + [last];
    assert Elements(listed) == Elements(front) + {last};
    assert last in Elements(listed);
  }

  class Backend {
    var heads: map<string, Head>
    var versions: map<string, Payload>
    var staging: map<string, Marker>
    var operations: map<string, Record>
    var quarantine: map<string, Half>
    ghost var kept: seq<Kept>

    /** The state the in-memory backend would hold. */
    ghost function All(): Store
      reads this
    {
      Store(heads, versions, staging, operations, kept)
    }

    function Snapshot(): Keyspaces
      reads this
    {
      Keyspaces(heads, versions, staging, operations, quarantine)
    }

    ghost predicate Valid()
      reads this
    {
      Sound(All()) && Numbered(kept) && quarantine == HalvesOf(kept)
    }

    constructor ()
      ensures Valid() && All() == NOTHING
    {
      heads, versions, staging, operations, quarantine := map[], map[], map[], map[], map[];
      kept := [];
    }

    /** One write batch, applied item by item and seen all at once. */
    method Commit(batch: seq<Item>)
      modifies `heads, `versions, `staging, `operations, `quarantine
      ensures Snapshot() == Committed(old(Snapshot()), batch)
    {
      ghost var before := Snapshot();
      for i := 0 to |batch|
        invariant Snapshot() == Committed(before, batch[..i])
      {
        CommitMore(before, batch[..i], batch[i]);
        assert batch[..i] + [batch[i]] == batch[..i + 1];
        hide Committed;
        match batch[i]
        case PutHead(key, head) => heads := heads[key := head];
        case PutOperation(key, record) => operations := operations[key := record];
        case PutVersion(key, payload) => versions := versions[key := payload];
        case PutStaging(key, marker) => staging := staging[key := marker];
        case PutHalf(key, half) => quarantine := quarantine[key := half];
        case TakeVersion(key) => versions := versions - {key};
        case TakeStaging(key) => staging := staging - {key};
      }
      assert batch[..|batch|] == batch;
    }

    /** The first key of the prefix scan over the staging keyspace. */
    method ReadStaging(index: Index) returns (staged: Option<(nat, Marker)>)
      requires Valid() && IdentityOk(index)
      ensures var slot := SlotIn(All(), index);
        && (staged.None? <==> FirstStaged(slot.staging).None?)
        && (staged.Some? ==>
              && FirstStaged(slot.staging) == Some(staged.value.0)
              && staged.value.0 in slot.staging && slot.staging[staged.value.0] == staged.value.1)
    {
      ScanFindsFirst(staging, index);
      FirstOf(ByVersion(staging, index));
      hide FirstStaged, FirstPrefixed, ByVersion, Numbers, VersionKey, ParseVersion;
      var key := FirstPrefixed(staging.Keys, IndexPrefix(index));
      if key.None? {
        return None;
      }
      var v := FirstStaged(ByVersion(staging, index)).value;
      ByVersionIs(staging, index, v);
      VersionFound(staging, index, v);
      staged := Some((StagedVersion(key.value), staging[key.value]));
    }

    method Stage(index: Index, version: nat, key: Key, expected: Option<Head>, marker: Marker, payload: Payload)
      returns (error: Option<WriteError>)
      requires Valid() && IdentityOk(index) && VersionOk(version) && KeyOk(key)
      modifies this
      ensures Wrote(All(), error) == StageIn(old(All()), index, version, key, expected, marker, payload)
      ensures Valid()
    {
      ghost var before := All();
      StageSound(before, index, version, key, expected, marker, payload);
      hide RefuseStaged, Sound, HeadKey, VersionKey, OperationKey, IdentityOk, VersionOk, KeyOk, Numbered, HalvesOf, Committed;
      var versionKey, stagingKey := VersionKey(index, version), StagingKey(index, version);
      CommitTwo(Snapshot(), PutVersion(versionKey, payload), PutStaging(stagingKey, marker));
      if Find(heads, HeadKey(index)) != expected {
        return Some(HeadChanged);
      }
      if RefuseStaged(Store(heads, versions, staging, operations, []), index).Some? {
        RefusesByStaging(before, Store(heads, versions, staging, operations, []), index);
        return RefuseStaged(Store(heads, versions, staging, operations, []), index);
      }
      RefusesByStaging(before, Store(heads, versions, staging, operations, []), index);
      if versionKey in versions {
        return Some(VersionStored);
      }
      if OperationKey(index, key) in operations {
        return Some(OperationRecorded);
      }
      Commit([PutVersion(versionKey, payload), PutStaging(stagingKey, marker)]);
      error := None;
    }

    method Publish(index: Index, version: nat, key: Key, expected: Option<Head>, marker: Marker, head: Head, record: Record)
      returns (error: Option<WriteError>)
      requires Valid() && IdentityOk(index) && VersionOk(version) && KeyOk(key)
      modifies this
      ensures Wrote(All(), error) == PublishIn(old(All()), index, version, key, expected, marker, head, record)
      ensures Valid()
    {
      ghost var before := All();
      PublishSound(before, index, version, key, expected, marker, head, record);
      hide Sound, HeadKey, VersionKey, OperationKey, IdentityOk, VersionOk, KeyOk, Numbered, HalvesOf, Committed;
      var headKey, operationKey, stagingKey := HeadKey(index), OperationKey(index, key), StagingKey(index, version);
      CommitThree(Snapshot(), PutHead(headKey, head), PutOperation(operationKey, record), TakeStaging(stagingKey));
      if Find(heads, headKey) != expected {
        return Some(HeadChanged);
      }
      if Find(staging, stagingKey) != Some(marker) {
        return Some(StagedStateMissing);
      }
      if VersionKey(index, version) !in versions {
        return Some(StagedStateMissing);
      }
      if operationKey in operations {
        return Some(OperationRecorded);
      }
      Commit([PutHead(headKey, head), PutOperation(operationKey, record), TakeStaging(stagingKey)]);
      error := None;
    }

    method Destroy(index: Index, key: Key, expected: Head, head: Head, record: Record, listed: seq<nat>)
      returns (error: Option<WriteError>)
      requires Valid() && IdentityOk(index) && KeyOk(key) && forall v | v in listed :: VersionOk(v)
      modifies this
      ensures Wrote(All(), error) == DestroyIn(old(All()), index, key, expected, head, record, Elements(listed))
      ensures Valid()
    {
      ghost var before := All();
      DestroySound(before, index, key, expected, head, record, Elements(listed));
      hide RefuseStaged, Sound, HeadKey, VersionKey, OperationKey, IdentityOk, VersionOk, KeyOk, VersionKeys, Elements,
        Numbered, HalvesOf, Committed, Removals;
      var headKey, operationKey := HeadKey(index), OperationKey(index, key);
      var first := [PutHead(headKey, head), PutOperation(operationKey, record)];
      CommitTwo(Snapshot(), PutHead(headKey, head), PutOperation(operationKey, record));
      CommitRemovals(Snapshot(), first, index, listed);
      if Find(heads, headKey) != Some(expected) {
        return Some(HeadChanged);
      }
      var staged := RefuseStaged(Store(heads, versions, staging, operations, []), index);
      RefusesByStaging(before, Store(heads, versions, staging, operations, []), index);
      if staged.Some? {
        return staged;
      }
      if operationKey in operations {
        return Some(OperationRecorded);
      }
      Commit(first + Removals(index, listed));
      error := None;
    }

    /** One past the sequence of the last quarantine key. */
    method NextSequence() returns (sequence: Option<nat>)
      requires Valid()
      ensures sequence == if |kept| < U64_MAX then Some(|kept| + 1) else None
    {
      IterationOrder(kept);
      if kept != [] {
        LastKey(kept);
      }
      hide HalvesOf, KeysOf, ParseQuarantine, KeptOk, Sound, TextLess, Ascending;
      var keys := Ascending(TextLess, quarantine.Keys);
      if keys == [] {
        NoKeysLeft(kept);
        return Some(1);
      }
      NoKeysLeft(kept);
      var last := ParseQuarantine(keys[|keys| - 1]).value.sequence;
      sequence := if last < U64_MAX then Some(last + 1) else None;
    }

    method Quarantine(index: Index, version: nat, marker: Marker)
      returns (error: Option<WriteError>, exhausted: bool)
      requires Valid() && IdentityOk(index) && VersionOk(version)
      modifies this
      ensures exhausted <==> |old(kept)| == U64_MAX && old(Find(staging, StagingKey(index, version))) == Some(marker)
      ensures exhausted ==> error.None? && All() == old(All())
      ensures !exhausted ==> Wrote(All(), error) == QuarantineIn(old(All()), index, version, marker)
      ensures Valid()
    {
      ghost var before := All();
      QuarantineSound(before, index, version, marker);
      KeptCount(kept);
      hide Sound, HeadKey, VersionKey, IdentityOk, VersionOk, Numbered, HalvesOf, Committed, KeyOfHalf, QuarantineKey;
      var versionKey, stagingKey := VersionKey(index, version), StagingKey(index, version);
      if Find(staging, stagingKey) != Some(marker) {
        return Some(StagedStateMissing), false;
      }
      var payload := Find(versions, versionKey);
      var sequence := NextSequence();
      if sequence.None? {
        return None, true;
      }
      ghost var entry := Kept(sequence.value, index, version, marker, payload);
      var batch := [PutHalf(QuarantineKey(sequence.value, index, version, MarkerPart), MarkerHalf(marker))];
      if payload.Some? {
        batch := batch + [PutHalf(QuarantineKey(sequence.value, index, version, PayloadPart), PayloadHalf(payload.value))];
      }
      batch := batch + [TakeStaging(stagingKey), TakeVersion(versionKey)];
      MoveCommits(Snapshot(), entry, stagingKey, versionKey);
      Commit(batch);
      NumberedMore(kept, entry);
      kept := kept + [entry];
      error, exhausted := None, false;
    }

    method ListOperations(index: Index) returns (listed: seq<(Key, Record)>)
      requires IdentityOk(index)
      ensures listed == OperationList(operations, index)
    {
      hide *;
      TextTotal();
      var keys := Ascending(TextLess, Prefixed(operations.Keys, IndexPrefix(index)));
      ScanStored(operations, index, keys);
      listed := [];
      for i := 0 to |keys|
        invariant listed == RecordsAt(operations, keys[..i])
      {
        ScanStep(operations, keys, i);
        listed := listed + [(KeyIn(keys[i]), operations[keys[i]])];
      }
      assert keys[..|keys|] == keys;
    }

    /** Iterates the quarantine keyspace: a marker opens an entry, a payload
        completes the last one. No payload is ever met unpaired. */
    method ListQuarantined() returns (listing: Listing)
      requires Valid()
      ensures listing == Listing(kept)
    {
      IterationOrder(kept);
      ReadsAllBack(kept);
      hide *;
      ghost var halves := HalvesOf(kept);
      HalvesShow(this);
      var keys := Ascending(TextLess, quarantine.Keys);
      listing := Listing([]);
      RebuiltStarts(keys, quarantine);
      for i := 0 to |keys|
        invariant listing == Rebuilt(keys[..i], quarantine)
      {
        RebuiltStep(keys, quarantine, i);
        listing := Add(listing, keys[i], quarantine[keys[i]]);
      }
      assert keys[..|keys|] == keys;
    }
  }

  lemma HalvesShow(b: Backend)
    requires b.Valid()
    ensures b.quarantine == HalvesOf(b.kept)
  {
    hide HalvesOf, Numbered, Sound;
  }

  lemma RebuiltStarts(keys: seq<string>, m: map<string, Half>)
    requires forall k | k in keys :: k in m
    ensures Rebuilt(keys[..0], m) == Listing([])
  {
  }

  lemma RebuiltStep(keys: seq<string>, m: map<string, Half>, i: nat)
    requires i < |keys| && forall k | k in keys :: k in m
    ensures Rebuilt(keys[..i + 1], m) == Add(Rebuilt(keys[..i], m), keys[i], m[keys[i]])
  {
    hide Add;
    assert keys[..i + 1][..i] == keys[..i];
  }

  lemma ScanStored(operations: map<string, Record>, index: Index, keys: seq<string>)
    requires StrictTotal(TextLess) && keys == Ascending(TextLess, Prefixed(operations.Keys, IndexPrefix(index)))
    ensures forall k | k in keys :: k in operations
    ensures RecordsAt(operations, keys[..0]) == [] && OperationList(operations, index) == RecordsAt(operations, keys)
  {
    hide TextLess, IndexPrefix, KeyIn;
    forall k | k in keys ensures k in operations {
      assert k in Elements(keys);
    }
  }

  lemma ScanStep(operations: map<string, Record>, keys: seq<string>, i: nat)
    requires i < |keys| && forall k | k in keys :: k in operations
    ensures RecordsAt(operations, keys[..i + 1])
      == RecordsAt(operations, keys[..i]) + [(KeyIn(keys[i]), operations[keys[i]])]
  {
    hide KeyIn;
  }

  lemma RefusesByStaging(a: Store, b: Store, index: Index)
    requires a.staging == b.staging
    ensures RefuseStaged(a, index) == RefuseStaged(b, index)
  {
    hide FirstPrefixed;
  }

  lemma NoKeysLeft(kept: seq<Kept>)
    ensures KeysOf(kept) == [] <==> kept == []
  {
    hide KeyOfHalf;
  }

  lemma KeptCount(kept: seq<Kept>)
    requires Numbered(kept)
    ensures |kept| <= U64_MAX
  {
  }

  lemma NumberedMore(kept: seq<Kept>, entry: Kept)
    requires Numbered(kept) && |kept| < U64_MAX && entry.sequence == |kept| + 1
    requires IdentityOk(entry.index) && VersionOk(entry.version)
    ensures Numbered(kept + [entry]) && HalvesOf(kept + [entry]) == WithHalves(HalvesOf(kept), entry)
  {
    hide KeyOfHalf, IdentityOk, VersionOk;
    assert (kept + [entry])[..|kept|] == kept;
  }

  /** What the batch of a quarantine leaves. */
  lemma MoveCommits(k: Keyspaces, entry: Kept, stagingKey: string, versionKey: string)
    ensures var marked := [PutHalf(KeyOfHalf(entry, MarkerPart), MarkerHalf(entry.marker))];
      var halves := if entry.payload.Some?
        then marked + [PutHalf(KeyOfHalf(entry, PayloadPart), PayloadHalf(entry.payload.value))] else marked;
      Committed(k, halves + [TakeStaging(stagingKey), TakeVersion(versionKey)])
        == k.(quarantine := WithHalves(k.quarantine, entry), staging := k.staging - {stagingKey},
              versions := k.versions - {versionKey})
  {
    hide KeyOfHalf;
    var marker := PutHalf(KeyOfHalf(entry, MarkerPart), MarkerHalf(entry.marker));
    if entry.payload.Some? {
      var payload := PutHalf(KeyOfHalf(entry, PayloadPart), PayloadHalf(entry.payload.value));
      CommitTwo(k, marker, payload);
      assert [marker] + [payload] == [marker, payload];
      TwoMore(k, [marker, payload], TakeStaging(stagingKey), TakeVersion(versionKey));
    } else {
      CommitMore(k, [], marker);
      assert [] + [marker] == [marker];
      TwoMore(k, [marker], TakeStaging(stagingKey), TakeVersion(versionKey));
    }
    hide Committed;
  }

  lemma TwoMore(k: Keyspaces, batch: seq<Item>, a: Item, b: Item)
    ensures Committed(k, batch + [a, b]) == Applied(Applied(Committed(k, batch), a), b)
  {
    CommitMore(k, batch, a);
    CommitMore(k, batch + [a], b);
    assert batch + [a] + [b] == batch + [a, b];
  }
}
