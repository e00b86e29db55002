/** A backend's whole lifecycle state under storage keys, the four writes on
    it, and the slot each index sees. */
module Stores {
  import opened Options
  import opened Records
  import opened Slots
  import opened Identifiers
  import opened StorageKeys
  import opened Texts
  import Orders

  datatype Kept = Kept(sequence: nat, index: Index, version: nat, marker: Marker, payload: Option<Payload>)

  datatype Store = Store(heads: map<string, Head>, versions: map<string, Payload>, staging: map<string, Marker>,
                         operations: map<string, Record>, quarantine: seq<Kept>)

  const NOTHING := Store(map[], map[], map[], map[], [])

  datatype Wrote = Wrote(store: Store, error: Option<WriteError>)

  function Prefixed(keys: set<string>, prefix: string): set<string> {
    set k | k in keys && prefix <= k
  }

  /** The first key, in byte order, of those that start with `prefix`. */
  function FirstPrefixed(keys: set<string>, prefix: string): Option<string> {
    var those := Prefixed(keys, prefix);
    if those == {} then None
    else
      TextTotal();
      Some(Orders.Least(TextLess, those))
  }

  /** A version as it is read back from its staging key. */
  function StagedVersion(key: string): nat {
    if ParseVersion(key).Parsed? then ParseVersion(key).value.version else 0
  }

  function ReadStaged(staging: map<string, Marker>, index: Index): (r: Option<(nat, Marker)>) {
    match FirstPrefixed(staging.Keys, IndexPrefix(index))
    case None => None
    case Some(key) => if key in staging then Some((StagedVersion(key), staging[key])) else None
  }

  function Find<T>(m: map<string, T>, key: string): Option<T> {
    if key in m then Some(m[key]) else None
  }

  function RefuseStaged(s: Store, index: Index): Option<WriteError> {
    var staged := FirstPrefixed(s.staging.Keys, IndexPrefix(index));
    if staged.Some? then Some(StagedStateExists(StagedVersion(staged.value))) else None
  }

  function StageIn(s: Store, index: Index, version: nat, key: Key, expected: Option<Head>, marker: Marker, payload: Payload): Wrote {
    if Find(s.heads, HeadKey(index)) != expected then Wrote(s, Some(HeadChanged))
    else if RefuseStaged(s, index).Some? then Wrote(s, RefuseStaged(s, index))
    else if VersionKey(index, version) in s.versions then Wrote(s, Some(VersionStored))
    else if OperationKey(index, key) in s.operations then Wrote(s, Some(OperationRecorded))
    else
      Wrote(s.(versions := s.versions[VersionKey(index, version) := payload],
               staging := s.staging[StagingKey(index, version) := marker]), None)
  }

  function PublishIn(s: Store, index: Index, version: nat, key: Key, expected: Option<Head>, marker: Marker,
                     head: Head, record: Record): Wrote {
    if Find(s.heads, HeadKey(index)) != expected then Wrote(s, Some(HeadChanged))
    else if Find(s.staging, StagingKey(index, version)) != Some(marker) then Wrote(s, Some(StagedStateMissing))
    else if VersionKey(index, version) !in s.versions then Wrote(s, Some(StagedStateMissing))
    else if OperationKey(index, key) in s.operations then Wrote(s, Some(OperationRecorded))
    else
      Wrote(s.(heads := s.heads[HeadKey(index) := head],
               operations := s.operations[OperationKey(index, key) := record],
               staging := s.staging - {StagingKey(index, version)}), None)
  }

  function VersionKeys(index: Index, versions: set<nat>): set<string> {
    set v | v in versions :: VersionKey(index, v)
  }

  function DestroyIn(s: Store, index: Index, key: Key, expected: Head, head: Head, record: Record, versions: set<nat>): Wrote {
    if Find(s.heads, HeadKey(index)) != Some(expected) then Wrote(s, Some(HeadChanged))
    else if RefuseStaged(s, index).Some? then Wrote(s, RefuseStaged(s, index))
    else if OperationKey(index, key) in s.operations then Wrote(s, Some(OperationRecorded))
    else
      Wrote(s.(heads := s.heads[HeadKey(index) := head],
               operations := s.operations[OperationKey(index, key) := record],
               versions := s.versions - VersionKeys(index, versions)), None)
  }

  function QuarantineIn(s: Store, index: Index, version: nat, marker: Marker): Wrote {
    if Find(s.staging, StagingKey(index, version)) != Some(marker) then Wrote(s, Some(StagedStateMissing))
    else
      Wrote(s.(versions := s.versions - {VersionKey(index, version)},
               staging := s.staging - {StagingKey(index, version)},
               quarantine := s.quarantine
                 + [Kept(|s.quarantine| + 1, index, version, marker, Find(s.versions, VersionKey(index, version)))]), None)
  }

  /** The records at `keys`, each with the operation key read back from its own. */
  function RecordsAt(operations: map<string, Record>, keys: seq<string>): (r: seq<(Key, Record)>)
    requires forall k | k in keys :: k in operations
    ensures |r| == |keys| && forall i | 0 <= i < |r| :: r[i] == (KeyIn(keys[i]), operations[keys[i]])
  {
    seq(|keys|, i requires 0 <= i < |keys| => (KeyIn(keys[i]), operations[keys[i]]))
  }

  /** What listing an index's operations returns: a prefix scan in byte order. */
  function OperationList(operations: map<string, Record>, index: Index): seq<(Key, Record)> {
    TextTotal();
    var keys := Orders.Ascending(TextLess, Prefixed(operations.Keys, IndexPrefix(index)));
    assert forall k | k in keys :: k in Orders.Elements(keys);
    RecordsAt(operations, keys)
  }

  // ---------- one index's slot ----------

  predicate NamesVersion(key: string, index: Index) {
    ParseVersion(key).Parsed? && ParseVersion(key).value.index == index
  }

  function Numbers(keys: set<string>, index: Index): set<nat> {
    set k | k in keys && NamesVersion(k, index) :: StagedVersion(k)
  }

  lemma NumberIn(keys: set<string>, index: Index, v: nat)
    ensures v in Numbers(keys, index) <==> IdentityOk(index) && VersionOk(v) && VersionKey(index, v) in keys
  {
    hide *;
    NumbersAre(keys, index, v);
    VersionRoundTrip(VersionKey(index, v), index, v);
    if v in Numbers(keys, index) {
      var k :| k in keys && ParseVersion(k) == Parsed(Versioned(index, v));
      VersionRoundTrip(k, index, v);
    }
  }

  lemma NumbersAre(keys: set<string>, index: Index, v: nat)
    ensures v in Numbers(keys, index) <==> exists k :: k in keys && ParseVersion(k) == Parsed(Versioned(index, v))
  {
    hide ParseVersion;
    if k :| k in keys && ParseVersion(k) == Parsed(Versioned(index, v)) {
      assert NamesVersion(k, index) && StagedVersion(k) == v;
    }
  }

  function ByVersion<T>(m: map<string, T>, index: Index): map<nat, T> {
    map v | v in Numbers(m.Keys, index) && VersionKey(index, v) in m :: m[VersionKey(index, v)]
  }

  predicate NamesOperation(text: string, index: Index) {
    ParseOperation(text).Parsed? && ParseOperation(text).value.index == index
  }

  function KeyIn(text: string): Key {
    if ParseOperation(text).Parsed? then ParseOperation(text).value.key else ""
  }

  function KeysIn(keys: set<string>, index: Index): set<Key> {
    set k | k in keys && NamesOperation(k, index) :: KeyIn(k)
  }

  lemma KeyIsIn(keys: set<string>, index: Index, key: Key)
    ensures key in KeysIn(keys, index) <==> IdentityOk(index) && KeyOk(key) && OperationKey(index, key) in keys
  {
    hide *;
    KeysAre(keys, index, key);
    OperationRoundTrip(OperationKey(index, key), index, key);
    if key in KeysIn(keys, index) {
      var k :| k in keys && ParseOperation(k) == Parsed(Recorded(index, key));
      OperationRoundTrip(k, index, key);
    }
  }

  lemma KeysAre(keys: set<string>, index: Index, key: Key)
    ensures key in KeysIn(keys, index) <==> exists k :: k in keys && ParseOperation(k) == Parsed(Recorded(index, key))
  {
    hide ParseOperation;
    if k :| k in keys && ParseOperation(k) == Parsed(Recorded(index, key)) {
      assert NamesOperation(k, index) && KeyIn(k) == key;
    }
  }

  function ByKey<T>(m: map<string, T>, index: Index): map<Key, T> {
    map k | k in KeysIn(m.Keys, index) && OperationKey(index, k) in m :: m[OperationKey(index, k)]
  }

  function MovedFrom(kept: seq<Kept>, index: Index): seq<Moved> {
    if kept == [] then []
    else
      var front, last := MovedFrom(kept[..|kept| - 1], index), kept[|kept| - 1];
      if last.index == index then front + [Moved(last.version, last.marker, last.payload)] else front
  }

  function SlotIn(s: Store, index: Index): Slot {
    Slot(Find(s.heads, HeadKey(index)), ByVersion(s.versions, index), ByVersion(s.staging, index),
         ByKey(s.operations, index), MovedFrom(s.quarantine, index))
  }

  // ---------- how the slots see a change to one key ----------

  lemma VersionPut<T>(m: map<string, T>, index: Index, version: nat, x: T, other: Index)
    requires IdentityOk(index) && VersionOk(version) && IdentityOk(other)
    ensures ByVersion(m[VersionKey(index, version) := x], other)
      == if index == other then ByVersion(m, other)[version := x] else ByVersion(m, other)
  {
    hide Numbers, VersionKey, IdentityOk, VersionOk;
    var key := VersionKey(index, version);
    var put := m[key := x];
    forall v: nat
      ensures v in Numbers(put.Keys, other) <==> v in Numbers(m.Keys, other) || (index == other && v == version)
      ensures v in Numbers(m.Keys, other) ==> (VersionKey(other, v) == key <==> index == other && v == version)
      ensures v in Numbers(put.Keys, other) ==> VersionKey(other, v) in put
      ensures v in Numbers(m.Keys, other) ==> VersionKey(other, v) in m
    {
      NumberIn(put.Keys, other, v);
      NumberIn(m.Keys, other, v);
      if VersionOk(v) {
        VersionsApart(index, version, other, v);
      }
    }
  }

  lemma VersionTake<T>(m: map<string, T>, index: Index, versions: set<nat>, other: Index)
    requires IdentityOk(index) && IdentityOk(other) && forall v | v in versions :: VersionOk(v)
    ensures ByVersion(m - VersionKeys(index, versions), other)
      == if index == other then ByVersion(m, other) - versions else ByVersion(m, other)
  {
    hide Numbers, VersionKey, IdentityOk, VersionOk;
    var less := m - VersionKeys(index, versions);
    forall v: nat
      ensures v in Numbers(less.Keys, other) <==> v in Numbers(m.Keys, other) && !(index == other && v in versions)
      ensures v in Numbers(m.Keys, other) ==> VersionKey(other, v) in m
      ensures v in Numbers(less.Keys, other) ==> VersionKey(other, v) in less
    {
      NumberIn(less.Keys, other, v);
      NumberIn(m.Keys, other, v);
      if VersionOk(v) {
        KeyTaken(index, versions, other, v);
      }
    }
  }

  lemma KeyTaken(index: Index, versions: set<nat>, other: Index, v: nat)
    requires IdentityOk(index) && IdentityOk(other) && VersionOk(v) && forall u | u in versions :: VersionOk(u)
    ensures VersionKey(other, v) in VersionKeys(index, versions) <==> index == other && v in versions
  {
    hide VersionKey, IdentityOk, VersionOk;
    forall u | u in versions ensures VersionKey(index, u) == VersionKey(other, v) <==> index == other && u == v {
      VersionsApart(index, u, other, v);
    }
  }

  lemma OneVersion(index: Index, version: nat)
    ensures VersionKeys(index, {version}) == {VersionKey(index, version)}
  {
  }

  lemma OperationPut<T>(m: map<string, T>, index: Index, key: Key, x: T, other: Index)
    requires IdentityOk(index) && KeyOk(key) && IdentityOk(other)
    ensures ByKey(m[OperationKey(index, key) := x], other)
      == if index == other then ByKey(m, other)[key := x] else ByKey(m, other)
  {
    hide KeysIn, OperationKey, IdentityOk, KeyOk;
    var text := OperationKey(index, key);
    var put := m[text := x];
    forall k: Key
      ensures k in KeysIn(put.Keys, other) <==> k in KeysIn(m.Keys, other) || (index == other && k == key)
      ensures k in KeysIn(m.Keys, other) ==> (OperationKey(other, k) == text <==> index == other && k == key)
      ensures k in KeysIn(put.Keys, other) ==> OperationKey(other, k) in put
      ensures k in KeysIn(m.Keys, other) ==> OperationKey(other, k) in m
    {
      KeyIsIn(put.Keys, other, k);
      KeyIsIn(m.Keys, other, k);
      if KeyOk(k) {
        OperationsApart(index, key, other, k);
      }
    }
  }

  lemma HeadPut(m: map<string, Head>, index: Index, x: Head, other: Index)
    requires IdentityOk(index) && IdentityOk(other)
    ensures Find(m[HeadKey(index) := x], HeadKey(other)) == if index == other then Some(x) else Find(m, HeadKey(other))
  {
    HeadsApart(index, other);
    hide HeadKey, IdentityOk;
  }

  lemma VersionFound<T>(m: map<string, T>, index: Index, version: nat)
    requires IdentityOk(index) && VersionOk(version)
    ensures version in ByVersion(m, index) <==> VersionKey(index, version) in m
    ensures version in ByVersion(m, index) ==> ByVersion(m, index)[version] == m[VersionKey(index, version)]
  {
    NumberIn(m.Keys, index, version);
    hide Numbers, VersionKey;
  }

  lemma OperationFound<T>(m: map<string, T>, index: Index, key: Key)
    requires IdentityOk(index) && KeyOk(key)
    ensures key in ByKey(m, index) <==> OperationKey(index, key) in m
    ensures key in ByKey(m, index) ==> ByKey(m, index)[key] == m[OperationKey(index, key)]
  {
    KeyIsIn(m.Keys, index, key);
    hide KeysIn, OperationKey;
  }

  // ---------- staged state ----------

  /** Every staging key was printed for some index and version. */
  ghost predicate WellKeyed(staging: map<string, Marker>) {
    forall k | k in staging :: ParseVersion(k).Parsed?
  }

  /** The prefix scan finds exactly the lowest staged version of the index. */
  lemma ScanFindsFirst(staging: map<string, Marker>, index: Index)
    requires WellKeyed(staging) && IdentityOk(index)
    ensures var first := FirstStaged(ByVersion(staging, index));
      var found := FirstPrefixed(staging.Keys, IndexPrefix(index));
      && (first.None? ==> found == None)
      && (first.Some? ==>
            found == Some(VersionKey(index, first.value)) && StagedVersion(VersionKey(index, first.value)) == first.value)
  {
    hide *;
    var those := Prefixed(staging.Keys, IndexPrefix(index));
    var slot := ByVersion(staging, index);
    FirstOf(slot);
    TextTotal();
    FirstPrefixedIs(staging.Keys, IndexPrefix(index));
    forall k | k in those ensures KeyOfVersion(staging, index, k) {
      PrefixedIs(staging.Keys, IndexPrefix(index), k);
      PrefixedIsVersion(staging, index, k);
    }
    forall v: nat | v in slot ensures VersionOk(v) && VersionKey(index, v) in those {
      ByVersionIs(staging, index, v);
      PrefixStarts(index, v);
      PrefixedIs(staging.Keys, IndexPrefix(index), VersionKey(index, v));
    }
    if FirstStaged(slot).Some? {
      var v := FirstStaged(slot).value;
      VersionRoundTrip(VersionKey(index, v), index, v);
      StagedVersionIs(VersionKey(index, v), index, v);
      var key := FirstPrefixed(staging.Keys, IndexPrefix(index)).value;
      assert KeyOfVersion(staging, index, key);
      KeyOfVersionIs(staging, index, key);
      var u := StagedVersion(key);
      VersionOkIs(u);
      VersionOkIs(v);
      VersionOrder(index, v, u);
      VersionOrder(index, u, v);
      assert key == VersionKey(index, v);
    } else if those != {} {
      var key := FirstPrefixed(staging.Keys, IndexPrefix(index)).value;
      assert KeyOfVersion(staging, index, key);
      KeyOfVersionIs(staging, index, key);
    }
  }

  lemma PrefixedIs(keys: set<string>, prefix: string, k: string)
    ensures k in Prefixed(keys, prefix) <==> k in keys && prefix <= k
  {
  }

  ghost predicate KeyOfVersion(staging: map<string, Marker>, index: Index, key: string) {
    && VersionOk(StagedVersion(key)) && key == VersionKey(index, StagedVersion(key))
    && StagedVersion(key) in ByVersion(staging, index)
  }

  lemma KeyOfVersionIs(staging: map<string, Marker>, index: Index, key: string)
    requires KeyOfVersion(staging, index, key)
    ensures VersionOk(StagedVersion(key)) && key == VersionKey(index, StagedVersion(key))
    ensures StagedVersion(key) in ByVersion(staging, index)
  {
    hide VersionKey, StagedVersion, ByVersion;
  }

  lemma VersionOkIs(v: nat)
    ensures VersionOk(v) ==> v <= U64_MAX
  {
  }

  lemma FirstOf(staging: map<nat, Marker>)
    ensures FirstStaged(staging).None? <==> staging == map[]
    ensures FirstStaged(staging).Some? ==>
      FirstStaged(staging).value in staging && forall v | v in staging :: FirstStaged(staging).value <= v
  {
    assert Orders.StrictTotal(LessNat);
    if staging != map[] {
      var first := FirstStaged(staging).value;
      forall v | v in staging ensures first <= v {
        assert v in staging.Keys;
        assert !LessNat(v, first);
      }
    }
  }

  lemma FirstPrefixedIs(keys: set<string>, prefix: string)
    ensures var those := Prefixed(keys, prefix);
      && (FirstPrefixed(keys, prefix).None? <==> those == {})
      && (FirstPrefixed(keys, prefix).Some? ==>
            FirstPrefixed(keys, prefix).value in those
            && forall k | k in those :: !TextLess(k, FirstPrefixed(keys, prefix).value))
  {
    TextTotal();
    hide TextLess;
  }

  lemma ByVersionIs<T>(m: map<string, T>, index: Index, v: nat)
    requires v in ByVersion(m, index)
    ensures IdentityOk(index) && VersionOk(v) && VersionKey(index, v) in m
  {
    hide VersionKey, Numbers;
    NumberIn(m.Keys, index, v);
  }

  lemma StagedVersionIs(key: string, index: Index, v: nat)
    requires ParseVersion(key) == Parsed(Versioned(index, v))
    ensures StagedVersion(key) == v
  {
    hide ParseVersion;
  }

  lemma PrefixStarts(index: Index, v: nat)
    ensures IndexPrefix(index) <= VersionKey(index, v)
  {
    hide IndexPrefix, Decimal;
  }

  lemma PrefixedIsVersion(staging: map<string, Marker>, index: Index, key: string)
    requires WellKeyed(staging) && IdentityOk(index) && key in staging && IndexPrefix(index) <= key
    ensures KeyOfVersion(staging, index, key)
  {
    hide Fits, ParseVersion, VersionKey, IndexPrefix, ByVersion;
    var Versioned(other, v) := ParseVersion(key).value;
    VersionRoundTrip(key, other, v);
    PrefixOfVersion(index, other, v);
    VersionFound(staging, index, v);
  }

  lemma PrefixOfVersion(index: Index, other: Index, v: nat)
    requires IdentityOk(index) && IdentityOk(other) && IndexPrefix(index) <= VersionKey(other, v)
    ensures index == other
  {
    hide IndexPrefix, Decimal, Fits;
    PrefixOwns(index, other, Decimal(v));
  }

  // ---------- the writes, seen through slots ----------

  /** Keys are well formed, and quarantine entries are numbered from 1. */
  ghost predicate Sound(s: Store) {
    && WellKeyed(s.staging)
    && forall i | 0 <= i < |s.quarantine| :: s.quarantine[i].sequence == i + 1
  }

  /** A write on one index is that index's slot write; no other index sees it,
      and a refusal changes nothing. */
  ghost predicate ActsOn(s: Store, index: Index, wrote: Wrote, outcome: Outcome) {
    && wrote.error == outcome.error
    && SlotIn(wrote.store, index) == outcome.slot
    && (forall other | IdentityOk(other) && other != index :: SlotIn(wrote.store, other) == SlotIn(s, other))
    && (wrote.error.Some? ==> wrote.store == s)
    && Sound(wrote.store)
  }

  lemma RefusesAlike(s: Store, index: Index)
    requires Sound(s) && IdentityOk(index)
    ensures var first := FirstStaged(SlotIn(s, index).staging);
      RefuseStaged(s, index) == if first.Some? then Some(StagedStateExists(first.value)) else None
  {
    ScanFindsFirst(s.staging, index);
    hide FirstStaged, FirstPrefixed, ByVersion, IdentityOk;
  }

  lemma StagingPut(staging: map<string, Marker>, index: Index, version: nat, marker: Marker)
    requires WellKeyed(staging) && IdentityOk(index) && VersionOk(version)
    ensures WellKeyed(staging[StagingKey(index, version) := marker])
  {
    VersionRoundTrip(VersionKey(index, version), index, version);
    hide ParseVersion, VersionKey;
  }

  lemma StageActs(s: Store, index: Index, version: nat, key: Key, expected: Option<Head>, marker: Marker, payload: Payload)
    requires Sound(s) && IdentityOk(index) && VersionOk(version) && KeyOk(key)
    ensures ActsOn(s, index, StageIn(s, index, version, key, expected, marker, payload),
                   WriteStage(SlotIn(s, index), version, key, expected, marker, payload))
  {
    hide *;
    RefusesAlike(s, index);
    VersionFound(s.versions, index, version);
    OperationFound(s.operations, index, key);
    SlotIs(s, index);
    StageIs(s, index, version, key, expected, marker, payload);
    var wrote := StageIn(s, index, version, key, expected, marker, payload);
    forall other | IdentityOk(other) ensures SlotIn(Staged(s, index, version, marker, payload), other)
      == (if index == other
          then SlotIn(s, other).(versions := SlotIn(s, other).versions[version := payload],
                                 staging := SlotIn(s, other).staging[version := marker])
          else SlotIn(s, other))
    {
      VersionPut(s.versions, index, version, payload, other);
      VersionPut(s.staging, index, version, marker, other);
      StagedIs(s, index, version, marker, payload);
      SlotIs(s, other);
      SlotIs(Staged(s, index, version, marker, payload), other);
    }
    StagedSound(s, index, version, marker, payload);
    Acts(s, index, wrote, WriteStage(SlotIn(s, index), version, key, expected, marker, payload));
  }

  lemma SlotIs(s: Store, index: Index)
    ensures SlotIn(s, index)
      == Slot(Find(s.heads, HeadKey(index)), ByVersion(s.versions, index), ByVersion(s.staging, index),
              ByKey(s.operations, index), MovedFrom(s.quarantine, index))
  {
    hide HeadKey, ByVersion, ByKey, MovedFrom;
  }

  lemma Acts(s: Store, index: Index, wrote: Wrote, outcome: Outcome)
    requires wrote.error == outcome.error && Sound(wrote.store) && (wrote.error.Some? ==> wrote.store == s)
    requires SlotIn(wrote.store, index) == outcome.slot
    requires forall other | IdentityOk(other) && other != index :: SlotIn(wrote.store, other) == SlotIn(s, other)
    ensures ActsOn(s, index, wrote, outcome)
  {
    hide SlotIn, IdentityOk, Sound;
  }

  function Staged(s: Store, index: Index, version: nat, marker: Marker, payload: Payload): Store {
    s.(versions := s.versions[VersionKey(index, version) := payload],
       staging := s.staging[StagingKey(index, version) := marker])
  }

  lemma StagedIs(s: Store, index: Index, version: nat, marker: Marker, payload: Payload)
    ensures Staged(s, index, version, marker, payload)
      == s.(versions := s.versions[VersionKey(index, version) := payload],
            staging := s.staging[VersionKey(index, version) := marker])
  {
    hide VersionKey;
  }

  lemma StagedSound(s: Store, index: Index, version: nat, marker: Marker, payload: Payload)
    requires Sound(s) && IdentityOk(index) && VersionOk(version)
    ensures Sound(Staged(s, index, version, marker, payload))
  {
    StagingPut(s.staging, index, version, marker);
    hide WellKeyed, VersionKey;
  }

  lemma StageIs(s: Store, index: Index, version: nat, key: Key, expected: Option<Head>, marker: Marker, payload: Payload)
    requires var slot := SlotIn(s, index);
      && slot.head == Find(s.heads, HeadKey(index))
      && RefuseStaged(s, index)
         == (if FirstStaged(slot.staging).Some? then Some(StagedStateExists(FirstStaged(slot.staging).value)) else None)
      && (version in slot.versions <==> VersionKey(index, version) in s.versions)
      && (key in slot.operations <==> OperationKey(index, key) in s.operations)
    ensures var slot := SlotIn(s, index);
      var wrote := StageIn(s, index, version, key, expected, marker, payload);
      var outcome := WriteStage(slot, version, key, expected, marker, payload);
      && wrote.error == outcome.error
      && (wrote.error.Some? ==> wrote.store == s && outcome.slot == slot)
      && (wrote.error.None? ==>
            && wrote.store == Staged(s, index, version, marker, payload)
            && outcome.slot == slot.(versions := slot.versions[version := payload], staging := slot.staging[version := marker]))
  {
    hide SlotIn, RefuseStaged, FirstStaged, VersionKey, OperationKey, HeadKey;
  }

  function Published(s: Store, index: Index, version: nat, key: Key, head: Head, record: Record): Store {
    s.(heads := s.heads[HeadKey(index) := head],
       operations := s.operations[OperationKey(index, key) := record],
       staging := s.staging - {StagingKey(index, version)})
  }

  lemma PublishActs(s: Store, index: Index, version: nat, key: Key, expected: Option<Head>, marker: Marker,
                    head: Head, record: Record)
    requires Sound(s) && IdentityOk(index) && VersionOk(version) && KeyOk(key)
    ensures ActsOn(s, index, PublishIn(s, index, version, key, expected, marker, head, record),
                   WritePublish(SlotIn(s, index), version, key, expected, marker, head, record))
  {
    hide *;
    VersionFound(s.versions, index, version);
    VersionFound(s.staging, index, version);
    OperationFound(s.operations, index, key);
    SlotIs(s, index);
    PublishIs(s, index, version, key, expected, marker, head, record);
    var t := Published(s, index, version, key, head, record);
    forall other | IdentityOk(other) ensures SlotIn(t, other)
      == (if index == other
          then SlotIn(s, other).(head := Some(head), operations := SlotIn(s, other).operations[key := record],
                                 staging := SlotIn(s, other).staging - {version})
          else SlotIn(s, other))
    {
      OneVersion(index, version);
      VersionTakeOne(s.staging, index, version, other);
      OperationPut(s.operations, index, key, record, other);
      HeadPut(s.heads, index, head, other);
      PublishedIs(s, index, version, key, head, record);
      SlotIs(s, other);
      SlotIs(t, other);
    }
    PublishedIs(s, index, version, key, head, record);
    LessSound(s, t);
    Acts(s, index, PublishIn(s, index, version, key, expected, marker, head, record),
         WritePublish(SlotIn(s, index), version, key, expected, marker, head, record));
  }

  lemma VersionTakeOne<T>(m: map<string, T>, index: Index, version: nat, other: Index)
    requires IdentityOk(index) && IdentityOk(other) && VersionOk(version)
    ensures ByVersion(m - {VersionKey(index, version)}, other)
      == if index == other then ByVersion(m, other) - {version} else ByVersion(m, other)
  {
    hide VersionKeys, VersionKey, ByVersion, IdentityOk, VersionOk;
    VersionTake(m, index, {version}, other);
    OneVersion(index, version);
  }

  lemma PublishedIs(s: Store, index: Index, version: nat, key: Key, head: Head, record: Record)
    ensures Published(s, index, version, key, head, record)
      == s.(heads := s.heads[HeadKey(index) := head],
            operations := s.operations[OperationKey(index, key) := record],
            staging := s.staging - {VersionKey(index, version)})
  {
    hide VersionKey, HeadKey, OperationKey;
  }

  lemma LessSound(s: Store, t: Store)
    requires Sound(s) && t.quarantine == s.quarantine && forall k | k in t.staging :: k in s.staging
    ensures Sound(t)
  {
    hide ParseVersion;
  }

  lemma PublishIs(s: Store, index: Index, version: nat, key: Key, expected: Option<Head>, marker: Marker,
                  head: Head, record: Record)
    requires var slot := SlotIn(s, index);
      && slot.head == Find(s.heads, HeadKey(index))
      && (version in slot.staging <==> VersionKey(index, version) in s.staging)
      && (version in slot.staging ==> slot.staging[version] == s.staging[VersionKey(index, version)])
      && (version in slot.versions <==> VersionKey(index, version) in s.versions)
      && (key in slot.operations <==> OperationKey(index, key) in s.operations)
    ensures var slot := SlotIn(s, index);
      var wrote := PublishIn(s, index, version, key, expected, marker, head, record);
      var outcome := WritePublish(slot, version, key, expected, marker, head, record);
      && wrote.error == outcome.error
      && (wrote.error.Some? ==> wrote.store == s && outcome.slot == slot)
      && (wrote.error.None? ==>
            && wrote.store == Published(s, index, version, key, head, record)
            && outcome.slot == slot.(head := Some(head), operations := slot.operations[key := record],
                                     staging := slot.staging - {version}))
  {
    hide SlotIn, VersionKey, OperationKey, HeadKey;
  }

  function Cleared(s: Store, index: Index, key: Key, head: Head, record: Record, versions: set<nat>): Store {
    s.(heads := s.heads[HeadKey(index) := head],
       operations := s.operations[OperationKey(index, key) := record],
       versions := s.versions - VersionKeys(index, versions))
  }

  lemma DestroyActs(s: Store, index: Index, key: Key, expected: Head, head: Head, record: Record, versions: set<nat>)
    requires Sound(s) && IdentityOk(index) && KeyOk(key) && forall v | v in versions :: VersionOk(v)
    ensures ActsOn(s, index, DestroyIn(s, index, key, expected, head, record, versions),
                   WriteDestroy(SlotIn(s, index), key, expected, head, record, versions))
  {
    hide *;
    RefusesAlike(s, index);
    OperationFound(s.operations, index, key);
    SlotIs(s, index);
    DestroyIs(s, index, key, expected, head, record, versions);
    var t := Cleared(s, index, key, head, record, versions);
    forall other | IdentityOk(other) ensures SlotIn(t, other)
      == (if index == other
          then SlotIn(s, other).(head := Some(head), operations := SlotIn(s, other).operations[key := record],
                                 versions := SlotIn(s, other).versions - versions)
          else SlotIn(s, other))
    {
      VersionTake(s.versions, index, versions, other);
      OperationPut(s.operations, index, key, record, other);
      HeadPut(s.heads, index, head, other);
      ClearedIs(s, index, key, head, record, versions);
      SlotIs(s, other);
      SlotIs(t, other);
    }
    ClearedIs(s, index, key, head, record, versions);
    LessSound(s, t);
    Acts(s, index, DestroyIn(s, index, key, expected, head, record, versions),
         WriteDestroy(SlotIn(s, index), key, expected, head, record, versions));
  }

  lemma ClearedIs(s: Store, index: Index, key: Key, head: Head, record: Record, versions: set<nat>)
    ensures Cleared(s, index, key, head, record, versions)
      == s.(heads := s.heads[HeadKey(index) := head],
            operations := s.operations[OperationKey(index, key) := record],
            versions := s.versions - VersionKeys(index, versions))
  {
    hide VersionKeys, HeadKey, OperationKey;
  }

  lemma DestroyIs(s: Store, index: Index, key: Key, expected: Head, head: Head, record: Record, versions: set<nat>)
    requires var slot := SlotIn(s, index);
      && slot.head == Find(s.heads, HeadKey(index))
      && RefuseStaged(s, index)
         == (if FirstStaged(slot.staging).Some? then Some(StagedStateExists(FirstStaged(slot.staging).value)) else None)
      && (key in slot.operations <==> OperationKey(index, key) in s.operations)
    ensures var slot := SlotIn(s, index);
      var wrote := DestroyIn(s, index, key, expected, head, record, versions);
      var outcome := WriteDestroy(slot, key, expected, head, record, versions);
      && wrote.error == outcome.error
      && (wrote.error.Some? ==> wrote.store == s && outcome.slot == slot)
      && (wrote.error.None? ==>
            && wrote.store == Cleared(s, index, key, head, record, versions)
            && outcome.slot == slot.(head := Some(head), operations := slot.operations[key := record],
                                     versions := slot.versions - versions))
  {
    hide SlotIn, VersionKeys, OperationKey, HeadKey, FirstStaged, RefuseStaged;
  }

  function SetAside(s: Store, index: Index, version: nat, marker: Marker): Store {
    s.(versions := s.versions - {VersionKey(index, version)},
       staging := s.staging - {StagingKey(index, version)},
       quarantine := s.quarantine
         + [Kept(|s.quarantine| + 1, index, version, marker, Find(s.versions, VersionKey(index, version)))])
  }

  lemma QuarantineActs(s: Store, index: Index, version: nat, marker: Marker)
    requires Sound(s) && IdentityOk(index) && VersionOk(version)
    ensures ActsOn(s, index, QuarantineIn(s, index, version, marker),
                   WriteQuarantine(SlotIn(s, index), version, marker))
  {
    hide *;
    VersionFound(s.versions, index, version);
    VersionFound(s.staging, index, version);
    SlotIs(s, index);
    QuarantineIs(s, index, version, marker);
    var t := SetAside(s, index, version, marker);
    forall other | IdentityOk(other) ensures SlotIn(t, other)
      == (if index == other
          then SlotIn(s, other).(versions := SlotIn(s, other).versions - {version},
                                 staging := SlotIn(s, other).staging - {version},
                                 quarantined := SlotIn(s, other).quarantined
                                   + [Moved(version, marker, Find(s.versions, VersionKey(index, version)))])
          else SlotIn(s, other))
    {
      VersionTakeOne(s.versions, index, version, other);
      VersionTakeOne(s.staging, index, version, other);
      SetAsideIs(s, index, version, marker, other);
      SlotIs(s, other);
      SlotIs(t, other);
    }
    SetAsideSound(s, index, version, marker);
    Acts(s, index, QuarantineIn(s, index, version, marker), WriteQuarantine(SlotIn(s, index), version, marker));
  }

  lemma SetAsideIs(s: Store, index: Index, version: nat, marker: Marker, other: Index)
    ensures var t := SetAside(s, index, version, marker);
      && t.heads == s.heads && t.operations == s.operations
      && t.versions == s.versions - {VersionKey(index, version)} && t.staging == s.staging - {VersionKey(index, version)}
      && MovedFrom(t.quarantine, other)
         == (if index == other
             then MovedFrom(s.quarantine, other) + [Moved(version, marker, Find(s.versions, VersionKey(index, version)))]
             else MovedFrom(s.quarantine, other))
  {
    hide VersionKey;
    var t := SetAside(s, index, version, marker);
    assert t.quarantine[..|s.quarantine|] == s.quarantine;
  }

  lemma SetAsideSound(s: Store, index: Index, version: nat, marker: Marker)
    requires Sound(s)
    ensures Sound(SetAside(s, index, version, marker))
  {
    hide VersionKey, ParseVersion;
  }

  lemma QuarantineIs(s: Store, index: Index, version: nat, marker: Marker)
    requires var slot := SlotIn(s, index);
      && (version in slot.staging <==> VersionKey(index, version) in s.staging)
      && (version in slot.staging ==> slot.staging[version] == s.staging[VersionKey(index, version)])
      && (version in slot.versions <==> VersionKey(index, version) in s.versions)
      && (version in slot.versions ==> slot.versions[version] == s.versions[VersionKey(index, version)])
    ensures var slot := SlotIn(s, index);
      var wrote := QuarantineIn(s, index, version, marker);
      var outcome := WriteQuarantine(slot, version, marker);
      && wrote.error == outcome.error
      && (wrote.error.Some? ==> wrote.store == s && outcome.slot == slot)
      && (wrote.error.None? ==>
            && wrote.store == SetAside(s, index, version, marker)
            && outcome.slot == slot.(versions := slot.versions - {version}, staging := slot.staging - {version},
                                     quarantined := slot.quarantined
                                       + [Moved(version, marker, Find(s.versions, VersionKey(index, version)))]))
  {
    hide SlotIn, VersionKey;
  }

  /** A write leaves sound state, refused or not. */
  lemma StageSound(s: Store, index: Index, version: nat, key: Key, expected: Option<Head>, marker: Marker, payload: Payload)
    requires Sound(s) && IdentityOk(index) && VersionOk(version) && KeyOk(key)
    ensures Sound(StageIn(s, index, version, key, expected, marker, payload).store)
  {
    StageActs(s, index, version, key, expected, marker, payload);
    hide Sound, SlotIn, StageIn, WriteStage;
  }

  lemma PublishSound(s: Store, index: Index, version: nat, key: Key, expected: Option<Head>, marker: Marker,
                     head: Head, record: Record)
    requires Sound(s) && IdentityOk(index) && VersionOk(version) && KeyOk(key)
    ensures Sound(PublishIn(s, index, version, key, expected, marker, head, record).store)
  {
    PublishActs(s, index, version, key, expected, marker, head, record);
    hide Sound, SlotIn, PublishIn, WritePublish;
  }

  lemma DestroySound(s: Store, index: Index, key: Key, expected: Head, head: Head, record: Record, versions: set<nat>)
    requires Sound(s) && IdentityOk(index) && KeyOk(key) && forall v | v in versions :: VersionOk(v)
    ensures Sound(DestroyIn(s, index, key, expected, head, record, versions).store)
  {
    DestroyActs(s, index, key, expected, head, record, versions);
    hide Sound, SlotIn, DestroyIn, WriteDestroy;
  }

  lemma QuarantineSound(s: Store, index: Index, version: nat, marker: Marker)
    requires Sound(s) && IdentityOk(index) && VersionOk(version)
    ensures Sound(QuarantineIn(s, index, version, marker).store)
  {
    QuarantineActs(s, index, version, marker);
    hide Sound, SlotIn, QuarantineIn, WriteQuarantine;
  }

  /** Listing an index's operations gives exactly its records, each once. */
  lemma OperationListIs(operations: map<string, Record>, index: Index, key: Key, record: Record)
    requires IdentityOk(index) && forall k | k in operations :: ParseOperation(k).Parsed?
    ensures (key, record) in OperationList(operations, index)
      <==> key in ByKey(operations, index) && ByKey(operations, index)[key] == record
  {
    hide *;
    TextTotal();
    var keys := Orders.Ascending(TextLess, Prefixed(operations.Keys, IndexPrefix(index)));
    ListedAt(operations, index, keys);
    if (key, record) in OperationList(operations, index) {
      var i :| 0 <= i < |keys| && RecordsAt(operations, keys)[i] == (key, record);
      PrefixedIs(operations.Keys, IndexPrefix(index), keys[i]);
      PrefixedIsOperation(operations, index, keys[i]);
      OperationFound(operations, index, key);
    }
    if key in ByKey(operations, index) && ByKey(operations, index)[key] == record {
      ByKeyIs(operations, index, key);
      var text := OperationKey(index, key);
      OperationFound(operations, index, key);
      OperationStarts(index, key);
      PrefixedIs(operations.Keys, IndexPrefix(index), text);
      var i :| 0 <= i < |keys| && keys[i] == text;
      OperationRoundTrip(text, index, key);
      KeyReadBack(text, index, key);
      assert RecordsAt(operations, keys)[i] == (key, record);
    }
  }

  lemma ListedAt(operations: map<string, Record>, index: Index, keys: seq<string>)
    requires Orders.StrictTotal(TextLess)
    requires keys == Orders.Ascending(TextLess, Prefixed(operations.Keys, IndexPrefix(index)))
    ensures forall k :: k in keys <==> k in Prefixed(operations.Keys, IndexPrefix(index))
    ensures forall k | k in keys :: k in operations
    ensures OperationList(operations, index) == RecordsAt(operations, keys)
  {
    hide TextLess, IndexPrefix, KeyIn;
    forall k ensures k in keys <==> k in Prefixed(operations.Keys, IndexPrefix(index)) {
      assert k in keys <==> k in Orders.Elements(keys);
    }
  }

  lemma PrefixedIsOperation(operations: map<string, Record>, index: Index, text: string)
    requires IdentityOk(index) && text in operations && ParseOperation(text).Parsed? && IndexPrefix(index) <= text
    ensures KeyOk(KeyIn(text)) && text == OperationKey(index, KeyIn(text))
  {
    hide Fits, ParseOperation, IndexPrefix;
    var Recorded(other, key) := ParseOperation(text).value;
    OperationRoundTrip(text, other, key);
    PrefixOwns(index, other, key);
  }

  lemma ByKeyIs(operations: map<string, Record>, index: Index, key: Key)
    requires key in ByKey(operations, index)
    ensures IdentityOk(index) && KeyOk(key) && OperationKey(index, key) in operations
  {
    hide OperationKey, KeysIn;
    KeyIsIn(operations.Keys, index, key);
  }

  lemma OperationStarts(index: Index, key: Key)
    ensures IndexPrefix(index) <= OperationKey(index, key)
  {
    hide IndexPrefix;
  }

  lemma KeyReadBack(text: string, index: Index, key: Key)
    requires ParseOperation(text) == Parsed(Recorded(index, key))
    ensures KeyIn(text) == key
  {
    hide ParseOperation;
  }
}
