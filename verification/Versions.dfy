/** Building what an operation publishes: the successor version's engine and
    member table, the new head, and the audit record. */
module Versions {
  import opened Options
  import opened Orders
  import opened Records

  /** A new version while its members are applied. */
  datatype Building = Building(engine: Engine, table: Table, changes: seq<MemberChange>)

  /** A rebuild takes entries out of the previous table as it replaces them. */
  datatype Rebuilding = Rebuilding(engine: Engine, previous: Table, table: Table, changes: map<Member, MemberChange>)

  datatype Built = Built(from: Option<nat>, target: nat, config: IndexConfig, engine: Engine, table: Table,
                         changes: seq<MemberChange>, previousConfig: Option<IndexConfig>)

  /** What publishing writes; a Destroy publishes no payload. */
  datatype Successor = Successor(head: Head, record: Record, payload: Option<Payload>)

  datatype Current = Current(head: Head, payload: Payload)

  function NewEntry(member: IndexMember, target: nat, previous: Option<Entry>): Entry {
    Entry(member.provenance, target, if previous.Some? then Some(previous.value.introduced) else None)
  }

  function WriteChange(member: IndexMember, previous: Option<Entry>): MemberChange {
    if previous.Some? then Replaced(member.id, previous.value) else Inserted(member.id)
  }

  function InsertOne(b: Building, member: IndexMember, target: nat): Result<Building> {
    match EngineInsert(b.engine, member.id, member.content)
    case Err(refusal) => Err(refusal)
    case Ok(engine) =>
      var previous := Lookup(b.table, member.id);
      Ok(Building(engine, b.table[member.id := NewEntry(member, target, previous)],
                  b.changes + [WriteChange(member, previous)]))
  }

  function InsertAll(b: Building, members: seq<IndexMember>, target: nat): Result<Building> {
    if members == [] then Ok(b)
    else
      match InsertAll(b, members[..|members| - 1], target)
      case Err(refusal) => Err(refusal)
      case Ok(done) => InsertOne(done, members[|members| - 1], target)
  }

  function RemoveOne(b: Building, id: Member): Result<Building> {
    if id !in b.table then Ok(b.(changes := b.changes + [AbsentOnRemove(id)]))
    else
      match EngineRemove(b.engine, id)
      case Err(refusal) => Err(refusal)
      case Ok(engine) => Ok(Building(engine, b.table - {id}, b.changes + [Removed(id, b.table[id])]))
  }

  function RemoveAll(b: Building, ids: seq<Member>): Result<Building> {
    if ids == [] then Ok(b)
    else
      match RemoveAll(b, ids[..|ids| - 1])
      case Err(refusal) => Err(refusal)
      case Ok(done) => RemoveOne(done, ids[|ids| - 1])
  }

  function RebuildOne(b: Rebuilding, member: IndexMember, target: nat): Result<Rebuilding> {
    match EngineInsert(b.engine, member.id, member.content)
    case Err(refusal) => Err(refusal)
    case Ok(engine) =>
      var previous := Lookup(b.previous, member.id);
      Ok(Rebuilding(engine, b.previous - {member.id}, b.table[member.id := NewEntry(member, target, previous)],
                    b.changes[member.id := WriteChange(member, previous)]))
  }

  function RebuildAll(b: Rebuilding, members: seq<IndexMember>, target: nat): Result<Rebuilding> {
    if members == [] then Ok(b)
    else
      match RebuildAll(b, members[..|members| - 1], target)
      case Err(refusal) => Err(refusal)
      case Ok(done) => RebuildOne(done, members[|members| - 1], target)
  }

  function ListIds(ids: set<Member>): (r: seq<Member>)
    ensures Ascends(Before, r) && Elements(r) == ids && |r| == |ids|
  {
    assert StrictTotal(Before);
    Ascending(Before, ids)
  }

  /** The changes of a rebuild in identity order. */
  function Listed(changes: map<Member, MemberChange>): (r: seq<MemberChange>)
    ensures var ids := ListIds(changes.Keys);
      |r| == |ids| && forall i | 0 <= i < |r| :: ids[i] in changes && r[i] == changes[ids[i]]
  {
    var ids := ListIds(changes.Keys);
    assert forall i | 0 <= i < |ids| :: ids[i] in Elements(ids);
    seq(|ids|, i requires 0 <= i < |ids| => changes[ids[i]])
  }

  function WithDropped(b: Rebuilding): map<Member, MemberChange> {
    b.changes + map id | id in b.previous :: Dropped(id, b.previous[id])
  }

  function RetiredAll(table: Table): (r: seq<MemberChange>)
    ensures var ids := ListIds(table.Keys);
      |r| == |ids| && forall i | 0 <= i < |r| :: ids[i] in table && r[i] == Retired(ids[i], table[ids[i]])
  {
    var ids := ListIds(table.Keys);
    assert forall i | 0 <= i < |ids| :: ids[i] in Elements(ids);
    seq(|ids|, i requires 0 <= i < |ids| => Retired(ids[i], table[ids[i]]))
  }

  function NextVersion(version: nat): Result<nat> {
    if version < VERSION_MAX then Ok(version + 1) else Err(VersionExhausted)
  }

  function InsertInto(members: seq<IndexMember>, current: Payload): Result<Built> {
    match NextVersion(current.version)
    case Err(refusal) => Err(refusal)
    case Ok(target) =>
      match InsertAll(Building(current.engine, current.members, []), SortedMembers(members), target)
      case Err(refusal) => Err(refusal)
      case Ok(b) => Ok(Built(Some(current.version), target, current.config, b.engine, b.table, b.changes, None))
  }

  function RemoveFrom(ids: seq<Member>, current: Payload): Result<Built> {
    match NextVersion(current.version)
    case Err(refusal) => Err(refusal)
    case Ok(target) =>
      match RemoveAll(Building(current.engine, current.members, []), SortedIds(ids))
      case Err(refusal) => Err(refusal)
      case Ok(b) => Ok(Built(Some(current.version), target, current.config, b.engine, b.table, b.changes, None))
  }

  function RebuildOver(config: IndexConfig, members: seq<IndexMember>, current: Payload): Result<Built> {
    match NextVersion(current.version)
    case Err(refusal) => Err(refusal)
    case Ok(target) =>
      match RebuildAll(Rebuilding(Engine(config, []), current.members, map[], map[]), SortedMembers(members), target)
      case Err(refusal) => Err(refusal)
      case Ok(b) => Ok(Built(Some(current.version), target, config, b.engine, b.table, Listed(WithDropped(b)), Some(current.config)))
  }

  function Published(operation: Operation, built: Built): Successor {
    var state := Active(built.target);
    var identity := IdentityOf(operation);
    Successor(
      Head(operation.index, built.config, state),
      Record(operation.index, identity, TransitionOf(operation.change), built.from, state, built.previousConfig, built.changes),
      Some(Payload(operation.index, built.target, Predecessor(built.target), identity, built.config, built.engine, built.table)))
  }

  function DestroyedFrom(operation: Operation, retention: Retention, current: Current): Successor {
    var state := Destroyed(current.payload.version, retention, operation.key);
    Successor(
      Head(operation.index, current.head.config, state),
      Record(operation.index, IdentityOf(operation), DestroyT, Some(current.payload.version), state, None,
             RetiredAll(current.payload.members)),
      None)
  }

  /** What `operation` publishes on top of `current`. */
  function SuccessorOf(operation: Operation, current: Option<Current>): Result<Successor> {
    match (operation.change, current)
    case (Create(config), None) =>
      Ok(Published(operation, Built(None, 1, config, Engine(config, []), map[], [], None)))
    case (Insert(members), Some(c)) => Publish(operation, InsertInto(members, c.payload))
    case (Remove(ids), Some(c)) => Publish(operation, RemoveFrom(ids, c.payload))
    case (Rebuild(config, members), Some(c)) => Publish(operation, RebuildOver(config, members, c.payload))
    case (Destroy(retention), Some(c)) => Ok(DestroyedFrom(operation, retention, c))
    case (_, _) => Err(TransitionNotPermitted(if current.Some? then ActiveKind else AbsentKind))
  }

  function Publish(operation: Operation, built: Result<Built>): Result<Successor> {
    match built
    case Err(refusal) => Err(refusal)
    case Ok(b) => Ok(Published(operation, b))
  }

  // The builders as the source runs them, one member at a time.

  method ApplyInsert(members: seq<IndexMember>, current: Payload) returns (r: Result<Built>)
    ensures r == InsertInto(members, current)
  {
    var target := NextVersion(current.version);
    if target.Err? {
      return Err(target.refusal);
    }
    var sorted := SortedMembers(members);
    var engine, table, changes := current.engine, current.members, [];
    for i := 0 to |sorted|
      invariant InsertAll(Building(current.engine, current.members, []), sorted[..i], target.value)
             == Ok(Building(engine, table, changes))
    {
      var member := sorted[i];
      InsertStep(Building(current.engine, current.members, []), sorted, i, target.value);
      var inserted := EngineInsert(engine, member.id, member.content);
      if inserted.Err? {
        return Err(inserted.refusal);
      }
      engine := inserted.value;
      var previous := Lookup(table, member.id);
      Reentered(table, member.id, NewEntry(member, target.value, previous));
      table := table - {member.id};
      table := table[member.id := NewEntry(member, target.value, previous)];
      changes := changes + [WriteChange(member, previous)];
    }
    assert sorted[..|sorted|] == sorted;
    r := Ok(Built(Some(current.version), target.value, current.config, engine, table, changes, None));
  }

  lemma Reentered(table: Table, id: Member, entry: Entry)
    ensures (table - {id})[id := entry] == table[id := entry]
  {
  }

  lemma InsertStep(b: Building, members: seq<IndexMember>, i: nat, target: nat)
    requires i < |members|
    ensures
      var soFar, next := InsertAll(b, members[..i], target), InsertAll(b, members[..i + 1], target);
      && next == (if soFar.Ok? then InsertOne(soFar.value, members[i], target) else soFar)
      && (next.Err? ==> InsertAll(b, members, target) == next)
  {
    assert members[..i + 1][..i] == members[..i];
    if InsertAll(b, members[..i + 1], target).Err? {
      InsertFails(b, members, i + 1, target);
    }
  }

  lemma {:induction false} InsertFails(b: Building, members: seq<IndexMember>, i: nat, target: nat)
    requires i <= |members| && InsertAll(b, members[..i], target).Err?
    ensures InsertAll(b, members, target) == InsertAll(b, members[..i], target)
    decreases |members|
  {
    if i == |members| {
      assert members[..i] == members;
    } else {
      var front := members[..|members| - 1];
      assert front[..i] == members[..i];
      InsertFails(b, front, i, target);
    }
  }

  method ApplyRemove(ids: seq<Member>, current: Payload) returns (r: Result<Built>)
    ensures r == RemoveFrom(ids, current)
  {
    var target := NextVersion(current.version);
    if target.Err? {
      return Err(target.refusal);
    }
    var sorted := SortedIds(ids);
    var engine, table, changes := current.engine, current.members, [];
    for i := 0 to |sorted|
      invariant RemoveAll(Building(current.engine, current.members, []), sorted[..i]) == Ok(Building(engine, table, changes))
    {
      var id := sorted[i];
      RemoveStep(Building(current.engine, current.members, []), sorted, i);
      if id in table {
        var previous := table[id];
        table := table - {id};
        var removed := EngineRemove(engine, id);
        if removed.Err? {
          return Err(removed.refusal);
        }
        engine := removed.value;
        changes := changes + [Removed(id, previous)];
      } else {
        changes := changes + [AbsentOnRemove(id)];
      }
    }
    assert sorted[..|sorted|] == sorted;
    r := Ok(Built(Some(current.version), target.value, current.config, engine, table, changes, None));
  }

  lemma RemoveStep(b: Building, ids: seq<Member>, i: nat)
    requires i < |ids|
    ensures
      var soFar, next := RemoveAll(b, ids[..i]), RemoveAll(b, ids[..i + 1]);
      && next == (if soFar.Ok? then RemoveOne(soFar.value, ids[i]) else soFar)
      && (next.Err? ==> RemoveAll(b, ids) == next)
  {
    assert ids[..i + 1][..i] == ids[..i];
    if RemoveAll(b, ids[..i + 1]).Err? {
      RemoveFails(b, ids, i + 1);
    }
  }

  lemma {:induction false} RemoveFails(b: Building, ids: seq<Member>, i: nat)
    requires i <= |ids| && RemoveAll(b, ids[..i]).Err?
    ensures RemoveAll(b, ids) == RemoveAll(b, ids[..i])
    decreases |ids|
  {
    if i == |ids| {
      assert ids[..i] == ids;
    } else {
      assert ids[..|ids| - 1][..i] == ids[..i];
      RemoveFails(b, ids[..|ids| - 1], i);
    }
  }

  method ApplyRebuild(config: IndexConfig, members: seq<IndexMember>, current: Payload) returns (r: Result<Built>)
    ensures r == RebuildOver(config, members, current)
  {
    var target := NextVersion(current.version);
    if target.Err? {
      return Err(target.refusal);
    }
    var sorted := SortedMembers(members);
    ghost var start := Rebuilding(Engine(config, []), current.members, map[], map[]);
    var engine, previousTable := Engine(config, []), current.members;
    var table: Table, changes: map<Member, MemberChange> := map[], map[];
    for i := 0 to |sorted|
      invariant RebuildAll(start, sorted[..i], target.value) == Ok(Rebuilding(engine, previousTable, table, changes))
    {
      var member := sorted[i];
      RebuildStep(start, sorted, i, target.value);
      var inserted := EngineInsert(engine, member.id, member.content);
      if inserted.Err? {
        return Err(inserted.refusal);
      }
      engine := inserted.value;
      var previous := Lookup(previousTable, member.id);
      previousTable := previousTable - {member.id};
      table := table[member.id := NewEntry(member, target.value, previous)];
      changes := changes[member.id := WriteChange(member, previous)];
    }
    assert sorted[..|sorted|] == sorted;
    var done := Rebuilding(engine, previousTable, table, changes);
    r := Ok(Built(Some(current.version), target.value, config, engine, table, Listed(WithDropped(done)), Some(current.config)));
  }

  lemma RebuildStep(b: Rebuilding, members: seq<IndexMember>, i: nat, target: nat)
    requires i < |members|
    ensures
      var soFar, next := RebuildAll(b, members[..i], target), RebuildAll(b, members[..i + 1], target);
      && next == (if soFar.Ok? then RebuildOne(soFar.value, members[i], target) else soFar)
      && (next.Err? ==> RebuildAll(b, members, target) == next)
  {
    assert members[..i + 1][..i] == members[..i];
    if RebuildAll(b, members[..i + 1], target).Err? {
      RebuildFails(b, members, i + 1, target);
    }
  }

  lemma {:induction false} RebuildFails(b: Rebuilding, members: seq<IndexMember>, i: nat, target: nat)
    requires i <= |members| && RebuildAll(b, members[..i], target).Err?
    ensures RebuildAll(b, members, target) == RebuildAll(b, members[..i], target)
    decreases |members|
  {
    if i == |members| {
      assert members[..i] == members;
    } else {
      assert members[..|members| - 1][..i] == members[..i];
      RebuildFails(b, members[..|members| - 1], i, target);
    }
  }
}
