/** Which changes each operation records, kind by kind. */
module Changes {
  import opened Options
  import opened Orders
  import opened Records
  import opened Versions
  import opened Audit
  import opened Validate
  import opened History

  /** The identities a record names: the batch, and for a rebuild or a destroy
      every member the table had. */
  ghost predicate Touched(change: Change, before: Table, id: Member) {
    match change
    case Create(_) => false
    case Insert(members) => id in IdsOf(members)
    case Remove(ids) => id in ids
    case Rebuild(_, members) => id in IdsOf(members) || id in before
    case Destroy(_) => id in before
  }

  /** What a record says of a touched identity. */
  function Recorded(change: Change, before: Table, id: Member): MemberChange {
    match change
    case Remove(_) => if id in before then Removed(id, before[id]) else AbsentOnRemove(id)
    case Destroy(_) => if id in before then Retired(id, before[id]) else AbsentOnRemove(id)
    case Rebuild(_, members) =>
      if id !in before then Inserted(id)
      else if id in IdsOf(members) then Replaced(id, before[id])
      else Dropped(id, before[id])
    case _ => if id in before then Replaced(id, before[id]) else Inserted(id)
  }

  /** One change for each touched identity, ascending, of the documented kind. */
  ghost predicate RecordsChanges(change: Change, before: Table, changes: seq<MemberChange>) {
    && (forall i, j | 0 <= i < j < |changes| :: changes[i].id < changes[j].id)
    && (forall i | 0 <= i < |changes| :: changes[i] == Recorded(change, before, changes[i].id))
    && forall id :: Names(changes, id) <==> Touched(change, before, id)
  }

  lemma ListsAlike(changes: seq<MemberChange>, ids: seq<Member>, id: Member)
    requires |changes| == |ids| && forall i | 0 <= i < |ids| :: changes[i].id == ids[i]
    ensures Names(changes, id) <==> id in ids
  {
    if id in ids {
      var i :| 0 <= i < |ids| && ids[i] == id;
      assert changes[i].id == id;
    }
  }

  lemma SortedIdsHave(members: seq<IndexMember>, id: Member)
    ensures id in IdsOf(SortedMembers(members)) <==> id in IdsOf(members)
  {
    SameIds(SortedMembers(members), members);
    assert id in IdsOf(SortedMembers(members)) <==> id in multiset(IdsOf(SortedMembers(members)));
    assert id in IdsOf(members) <==> id in multiset(IdsOf(members));
  }

  lemma InsertRecords(members: seq<IndexMember>, current: Payload)
    requires CheckChange(Insert(members)).None? && InsertInto(members, current).Ok?
    ensures RecordsChanges(Insert(members), current.members, InsertInto(members, current).value.changes)
  {
    hide *;
    InsertIs(members, current);
    var b, sorted := Building(current.engine, current.members, []), SortedMembers(members);
    InsertWrites(b, sorted, current.version + 1);
    var c := InsertAll(b, sorted, current.version + 1).value;
    WroteKinds(b, sorted, current.version + 1, c, members);
    forall id ensures Names(c.changes, id) <==> Touched(Insert(members), current.members, id) {
      ListsAlike(c.changes, IdsOf(sorted), id);
      SortedIdsHave(members, id);
      TouchedIs(Insert(members), current.members, id);
    }
    Recording(Insert(members), current.members, c.changes, IdsOf(sorted));
  }

  lemma InsertIs(members: seq<IndexMember>, current: Payload)
    requires CheckChange(Insert(members)).None? && InsertInto(members, current).Ok?
    ensures var b, sorted := Building(current.engine, current.members, []), SortedMembers(members);
      && Batch(sorted) && InsertAll(b, sorted, current.version + 1).Ok?
      && InsertInto(members, current).value.changes == InsertAll(b, sorted, current.version + 1).value.changes
  {
    BatchIsChecked(members);
    hide CheckFinite, CheckFamily, SortedMembers, InsertAll, Batch;
  }

  lemma TouchedIs(change: Change, before: Table, id: Member)
    ensures change.Insert? ==> (Touched(change, before, id) <==> id in IdsOf(change.members))
    ensures change.Remove? ==> (Touched(change, before, id) <==> id in change.ids)
  {
    hide IdsOf;
  }

  lemma WroteKinds(b: Building, sorted: seq<IndexMember>, target: nat, c: Building, members: seq<IndexMember>)
    requires Batch(sorted) && b.changes == [] && Wrote(b, sorted, target, c)
    ensures var ids := IdsOf(sorted);
      && |c.changes| == |ids| && (forall i, j | 0 <= i < j < |ids| :: ids[i] < ids[j])
      && forall i | 0 <= i < |ids| :: c.changes[i].id == ids[i] && c.changes[i] == Recorded(Insert(members), b.table, ids[i])
  {
    forall i | 0 <= i < |sorted|
      ensures c.changes[i].id == sorted[i].id && c.changes[i] == Recorded(Insert(members), b.table, sorted[i].id)
    {
      assert WroteOne(b, sorted[i], target, c, |b.changes| + i);
    }
  }

  lemma RemoveRecords(ids: seq<Member>, current: Payload)
    requires CheckChange(Remove(ids)).None? && RemoveFrom(ids, current).Ok?
    ensures RecordsChanges(Remove(ids), current.members, RemoveFrom(ids, current).value.changes)
  {
    hide *;
    RemoveIs(ids, current);
    var b, sorted := Building(current.engine, current.members, []), SortedIds(ids);
    RemoveTakes(b, sorted);
    var c := RemoveAll(b, sorted).value;
    TookKinds(b, sorted, c, ids);
    forall id ensures Names(c.changes, id) <==> Touched(Remove(ids), current.members, id) {
      ListsAlike(c.changes, sorted, id);
      TouchedIs(Remove(ids), current.members, id);
    }
    Recording(Remove(ids), current.members, c.changes, sorted);
  }

  lemma RemoveIs(ids: seq<Member>, current: Payload)
    requires CheckChange(Remove(ids)).None? && RemoveFrom(ids, current).Ok?
    ensures var b, sorted := Building(current.engine, current.members, []), SortedIds(ids);
      && OnceEach(sorted) && RemoveAll(b, sorted).Ok?
      && RemoveFrom(ids, current).value.changes == RemoveAll(b, sorted).value.changes
      && forall id :: id in sorted <==> id in ids
  {
    var sorted := SortedIds(ids);
    SameMembers(sorted, ids);
    hide SortedIds, RemoveAll;
    forall id ensures id in sorted <==> id in ids {
      assert id in sorted <==> id in Elements(sorted);
      assert id in ids <==> id in Elements(ids);
    }
  }

  lemma TookKinds(b: Building, sorted: seq<Member>, c: Building, ids: seq<Member>)
    requires OnceEach(sorted) && b.changes == [] && Took(b, sorted, c)
    ensures |c.changes| == |sorted| && (forall i, j | 0 <= i < j < |sorted| :: sorted[i] < sorted[j])
    ensures forall i | 0 <= i < |sorted| :: c.changes[i].id == sorted[i] && c.changes[i] == Recorded(Remove(ids), b.table, sorted[i])
  {
    forall i | 0 <= i < |sorted|
      ensures c.changes[i].id == sorted[i] && c.changes[i] == Recorded(Remove(ids), b.table, sorted[i])
    {
      assert TookOne(b, sorted[i], c, |b.changes| + i);
    }
  }

  lemma RebuildRecords(config: IndexConfig, members: seq<IndexMember>, current: Payload)
    requires CheckChange(Rebuild(config, members)).None? && RebuildOver(config, members, current).Ok?
    ensures RecordsChanges(Rebuild(config, members), current.members, RebuildOver(config, members, current).value.changes)
  {
    hide *;
    var b, sorted := Rebuilding(Engine(config, []), current.members, map[], map[]), SortedMembers(members);
    RebuildChecks(config, members);
    RebuildIs(config, members, current);
    RebuildWrites(b, sorted, current.version + 1);
    RebuildListed(b, sorted, current.version + 1, config, members);
  }

  lemma RebuildIs(config: IndexConfig, members: seq<IndexMember>, current: Payload)
    requires RebuildOver(config, members, current).Ok?
    ensures
      var r := RebuildAll(Rebuilding(Engine(config, []), current.members, map[], map[]), SortedMembers(members), current.version + 1);
      r.Ok? && RebuildOver(config, members, current).value.changes == Versions.Listed(WithDropped(r.value))
  {
    hide RebuildAll, SortedMembers, Versions.Listed, WithDropped;
  }

  lemma RebuildListed(b: Rebuilding, sorted: seq<IndexMember>, target: nat, config: IndexConfig, members: seq<IndexMember>)
    requires sorted == SortedMembers(members) && RebuildAll(b, sorted, target).Ok?
    requires Rewrote(b, sorted, target, RebuildAll(b, sorted, target).value)
    ensures RecordsChanges(Rebuild(config, members), b.previous, Versions.Listed(WithDropped(RebuildAll(b, sorted, target).value)))
  {
    hide RebuildAll, SortedMembers, Recorded, WithDropped, Rewrote, RecordsChanges, Versions.Listed, IdsOf;
    var c, change := RebuildAll(b, sorted, target).value, Rebuild(config, members);
    forall id: Member
      ensures id in WithDropped(c) <==> Touched(change, b.previous, id)
      ensures id in WithDropped(c) ==> WithDropped(c)[id] == Recorded(change, b.previous, id)
    {
      SortedIdsHave(members, id);
      AllRecorded(b, sorted, target, c, id, config, members);
    }
    ListedRecords(change, b.previous, WithDropped(c));
  }

  lemma ListedRecords(change: Change, before: Table, all: map<Member, MemberChange>)
    requires forall id: Member :: id in all <==> Touched(change, before, id)
    requires forall id | id in all :: all[id] == Recorded(change, before, id)
    ensures RecordsChanges(change, before, Versions.Listed(all))
  {
    hide *;
    var ids, changes := ListIds(all.Keys), Versions.Listed(all);
    ListedIs(all);
    forall i | 0 <= i < |changes| ensures changes[i].id == ids[i] && changes[i] == Recorded(change, before, ids[i]) {
      assert ids[i] in all;
      RecordedId(change, before, ids[i]);
    }
    forall id ensures Names(changes, id) <==> Touched(change, before, id) {
      ListsAlike(changes, ids, id);
    }
    Recording(change, before, changes, ids);
  }

  lemma ListedIs(all: map<Member, MemberChange>)
    ensures var ids, changes := ListIds(all.Keys), Versions.Listed(all);
      && |changes| == |ids| && (forall i | 0 <= i < |ids| :: ids[i] in all && changes[i] == all[ids[i]])
      && (forall i, j | 0 <= i < j < |ids| :: ids[i] < ids[j])
      && forall id :: id in ids <==> id in all
  {
    var ids := ListIds(all.Keys);
    forall id ensures id in ids <==> id in all {
      assert id in ids <==> id in Elements(ids);
    }
    forall i, j | 0 <= i < j < |ids| ensures ids[i] < ids[j] {
      assert Before(ids[i], ids[j]);
    }
  }

  lemma Recording(change: Change, before: Table, changes: seq<MemberChange>, ids: seq<Member>)
    requires |changes| == |ids| && forall i, j | 0 <= i < j < |ids| :: ids[i] < ids[j]
    requires forall i | 0 <= i < |changes| :: changes[i].id == ids[i] && changes[i] == Recorded(change, before, ids[i])
    requires forall id :: Names(changes, id) <==> Touched(change, before, id)
    ensures RecordsChanges(change, before, changes)
  {
    hide Recorded, Touched, Names;
  }

  lemma RecordedId(change: Change, before: Table, id: Member)
    ensures Recorded(change, before, id).id == id
  {
  }

  lemma AllRecorded(b: Rebuilding, sorted: seq<IndexMember>, target: nat, c: Rebuilding, id: Member, config: IndexConfig, members: seq<IndexMember>)
    requires Rewrote(b, sorted, target, c) && (id in IdsOf(sorted) <==> id in IdsOf(members))
    ensures id in WithDropped(c) <==> id in IdsOf(sorted) || id in b.previous
    ensures id in WithDropped(c) ==> WithDropped(c)[id] == Recorded(Rebuild(config, members), b.previous, id)
  {
    assert Lookup(c.previous, id) == if id in IdsOf(sorted) then None else Lookup(b.previous, id);
    assert id in IdsOf(sorted) <==> id in Elements(IdsOf(sorted));
    if id in IdsOf(sorted) {
      var i :| 0 <= i < |sorted| && IdsOf(sorted)[i] == id;
      assert RewroteOne(b, sorted[i], target, c);
    }
  }

  lemma DestroyRecords(retention: Retention, table: Table)
    ensures RecordsChanges(Destroy(retention), table, RetiredAll(table))
  {
    var ids, changes := ListIds(table.Keys), RetiredAll(table);
    forall i, j | 0 <= i < j < |changes| ensures changes[i].id < changes[j].id {
      assert Before(ids[i], ids[j]);
    }
    forall id ensures Names(changes, id) <==> Touched(Destroy(retention), table, id) {
      ListsAlike(changes, ids, id);
      assert id in ids <==> id in Elements(ids);
    }
  }

  /** Every record lists exactly what its operation touched, each as the kind of
      change it was. */
  lemma EventChanges(index: Index, log: Log, i: nat)
    requires IsHistory(index, log) && i < |log|
    ensures RecordsChanges(log[i].operation.change, TableAt(log, i), log[i].successor.record.changes)
  {
    hide *;
    HistoryStands(index, log, i);
    EventFollows(index, log, i);
    FollowsParts(index, log, i);
    var operation, current, s := log[i].operation, CurrentAt(log, i), log[i].successor;
    PermittedCurrent(operation, HeadAt(log, i), current);
    TableIs(log, i);
    if current.Some? {
      ChangesOf(operation, current.value);
      match operation.change
      case Insert(members) => InsertRecords(members, current.value.payload);
      case Remove(ids) => RemoveRecords(ids, current.value.payload);
      case Rebuild(config, members) => RebuildRecords(config, members, current.value.payload);
      case Destroy(retention) => DestroyRecords(retention, current.value.payload.members);
    } else {
      CreateRecords(operation);
    }
  }

  lemma FollowsParts(index: Index, log: Log, i: nat)
    requires i < |log| && Follows(index, log, i) && Standing(log, i)
    ensures CheckChange(log[i].operation.change).None? && Permit(log[i].operation, HeadAt(log, i)).None?
    ensures SuccessorOf(log[i].operation, CurrentAt(log, i)) == Ok(log[i].successor)
    ensures Reads(HeadAt(log, i), CurrentAt(log, i))
  {
    hide CheckChange, Permit, SuccessorOf, Reads;
  }

  lemma TableIs(log: Log, i: nat)
    requires i <= |log|
    ensures TableAt(log, i) == if CurrentAt(log, i).Some? then CurrentAt(log, i).value.payload.members else map[]
  {
    hide CurrentAt;
  }

  lemma ChangesOf(operation: Operation, current: Current)
    requires SuccessorOf(operation, Some(current)).Ok?
    ensures var s, payload := SuccessorOf(operation, Some(current)).value, current.payload;
      match operation.change
      case Insert(members) => InsertInto(members, payload).Ok? && s.record.changes == InsertInto(members, payload).value.changes
      case Remove(ids) => RemoveFrom(ids, payload).Ok? && s.record.changes == RemoveFrom(ids, payload).value.changes
      case Rebuild(config, members) =>
        RebuildOver(config, members, payload).Ok? && s.record.changes == RebuildOver(config, members, payload).value.changes
      case Destroy(_) => s.record.changes == RetiredAll(payload.members)
      case _ => true
  {
    hide InsertInto, RemoveFrom, RebuildOver, RetiredAll, IdentityOf;
  }

  lemma CreateRecords(operation: Operation)
    requires operation.change.Create? && SuccessorOf(operation, None).Ok?
    ensures RecordsChanges(operation.change, map[], SuccessorOf(operation, None).value.record.changes)
  {
    hide IdentityOf;
  }
}
