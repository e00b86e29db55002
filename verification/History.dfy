/** One index's whole history: every published operation in order, each built
    on the state the one before it left. */
module History {
  import opened Options
  import opened Orders
  import opened Records
  import opened Versions
  import opened Audit
  import opened Validate

  datatype Event = Event(operation: Operation, successor: Successor)

  type Log = seq<Event>

  /** The head after the first `i` events. */
  function HeadAt(log: Log, i: nat): Option<Head>
    requires i <= |log|
  {
    if i == 0 then None else Some(log[i - 1].successor.head)
  }

  /** The active head and payload after the first `i` events. */
  function CurrentAt(log: Log, i: nat): Option<Current>
    requires i <= |log|
  {
    if i == 0 || log[i - 1].successor.payload.None? then None
    else Some(Current(log[i - 1].successor.head, log[i - 1].successor.payload.value))
  }

  /** The member table after the first `i` events; none once destroyed. */
  function TableAt(log: Log, i: nat): Table
    requires i <= |log|
  {
    if CurrentAt(log, i).Some? then CurrentAt(log, i).value.payload.members else map[]
  }

  /** Event `i` was checked, permitted, and built on the state before it. */
  ghost predicate Follows(index: Index, log: Log, i: nat)
    requires i < |log|
  {
    var operation := log[i].operation;
    && operation.index == index
    && CheckChange(operation.change).None?
    && Permit(operation, HeadAt(log, i)).None?
    && SuccessorOf(operation, CurrentAt(log, i)) == Ok(log[i].successor)
  }

  ghost predicate IsHistory(index: Index, log: Log) {
    forall i | 0 <= i < |log| :: Follows(index, log, i)
  }

  lemma HistoryPrefix(index: Index, log: Log, n: nat)
    requires IsHistory(index, log) && n <= |log|
    ensures IsHistory(index, log[..n])
  {
    forall i | 0 <= i < n ensures Follows(index, log[..n], i) {
      assert Follows(index, log, i);
      assert HeadAt(log[..n], i) == HeadAt(log, i) && CurrentAt(log[..n], i) == CurrentAt(log, i);
    }
  }

  /** What the state after `i` events looks like. */
  ghost predicate Standing(log: Log, i: nat)
    requires i <= |log|
  {
    && Reads(HeadAt(log, i), CurrentAt(log, i))
    && (i > 0 && CurrentAt(log, i).Some? ==> CurrentAt(log, i).value.payload.version == i)
    && (i > 0 && CurrentAt(log, i).None? ==>
          i >= 2 && HeadAt(log, i).value.state.Destroyed? && HeadAt(log, i).value.state.lastVersion == i - 1)
  }

  /** Versions count the events; an index is destroyed by its last event only. */
  lemma {:induction false} HistoryStands(index: Index, log: Log, i: nat)
    requires IsHistory(index, log) && i <= |log|
    ensures Standing(log, i)
    ensures i < |log| ==> i == 0 || CurrentAt(log, i).Some?
    decreases i
  {
    hide *;
    if i == 0 {
      BeginsStanding(log);
    } else {
      HistoryStands(index, log, i - 1);
      EventFollows(index, log, i - 1);
      EventStands(index, log, i - 1);
    }
    if 0 < i < |log| {
      EventFollows(index, log, i);
      MovesOnlyActive(index, log, i);
    }
  }

  lemma BeginsStanding(log: Log)
    ensures Standing(log, 0)
  {
  }

  lemma EventFollows(index: Index, log: Log, i: nat)
    requires IsHistory(index, log) && i < |log|
    ensures Follows(index, log, i)
  {
  }

  lemma MovesOnlyActive(index: Index, log: Log, i: nat)
    requires 0 < i < |log| && Follows(index, log, i) && Standing(log, i)
    ensures CurrentAt(log, i).Some?
  {
    hide CheckChange, CheckAgainst, SuccessorOf, Publishable;
  }

  lemma EventStands(index: Index, log: Log, i: nat)
    requires i < |log| && Follows(index, log, i) && Standing(log, i)
    ensures Standing(log, i + 1)
  {
    var operation, current := log[i].operation, CurrentAt(log, i);
    AcceptedApplies(operation, HeadAt(log, i), current);
    VersionsStep(operation, current);
    hide SuccessorOf, CheckChange, Permit, Publishable;
  }

  /** An operation publishes the next version, or retires the current one. */
  lemma VersionsStep(operation: Operation, current: Option<Current>)
    requires SuccessorOf(operation, current).Ok?
    ensures var s := SuccessorOf(operation, current).value;
      && (s.payload.Some? ==>
            s.payload.value.version == if current.Some? then current.value.payload.version + 1 else 1)
      && (s.payload.None? ==>
            current.Some? && s.head.state.Destroyed? && s.head.state.lastVersion == current.value.payload.version)
      && s.record.operation == IdentityOf(operation) && s.record.resulting == s.head.state
  {
    hide InsertAll, RemoveAll, RebuildAll, Listed, RetiredAll, SortedMembers, SortedIds, IdentityOf;
  }

  /** The changes of event `i` explain the step from one table to the next. */
  lemma EventExplains(index: Index, log: Log, i: nat)
    requires IsHistory(index, log) && i < |log|
    ensures Explains(log[i].successor.record.changes, TableAt(log, i), TableAt(log, i + 1))
  {
    HistoryStands(index, log, i);
    assert Follows(index, log, i);
    var operation := log[i].operation;
    StepExplains(operation, HeadAt(log, i), CurrentAt(log, i));
    hide SuccessorOf, CheckChange, Permit, Publishable, Explains;
  }

  function TableOf(current: Option<Current>): Table {
    if current.Some? then current.value.payload.members else map[]
  }

  function TableAfter(s: Successor): Table {
    if s.payload.Some? then s.payload.value.members else map[]
  }

  lemma StepExplains(operation: Operation, head: Option<Head>, current: Option<Current>)
    requires CheckChange(operation.change).None? && Permit(operation, head).None? && Reads(head, current)
    requires SuccessorOf(operation, current).Ok?
    ensures var s := SuccessorOf(operation, current).value;
      Explains(s.record.changes, TableOf(current), TableAfter(s))
  {
    hide CheckChange, CheckAgainst, InsertInto, RemoveFrom, RebuildOver, Explains, CheckFit, RetiredAll;
    match operation.change
    case Create(_) => NothingExplained();
    case Destroy(_) => DestroyExplains(current.value.payload.members);
    case Insert(members) => InsertAccepted(members, current.value.payload);
    case Remove(ids) => RemoveAccepted(ids, current.value.payload);
    case Rebuild(config, members) => RebuildAccepted(config, members, current.value.payload);
  }

  lemma NothingExplained()
    ensures Explains([], map[], map[])
  {
  }

  /** Undoing the records after event `i`, last first. */
  function Rewound(records: seq<Record>, table: Table, i: nat): Table
    requires i <= |records|
    decreases |records|
  {
    if i == |records| then table
    else Rewound(records[..|records| - 1], Undone(records[|records| - 1].changes, table), i)
  }

  function RecordsOf(log: Log): (r: seq<Record>)
    ensures |r| == |log| && forall i | 0 <= i < |r| :: r[i] == log[i].successor.record
  {
    seq(|log|, i requires 0 <= i < |log| => log[i].successor.record)
  }

  /** The records alone rebuild every past member table from the last one. */
  lemma {:induction false} RecordsRebuild(index: Index, log: Log, i: nat)
    requires IsHistory(index, log) && i <= |log|
    ensures Rewound(RecordsOf(log), TableAt(log, |log|), i) == TableAt(log, i)
    decreases |log|
  {
    if i < |log| {
      var n := |log| - 1;
      EventExplains(index, log, n);
      UndoRestores(log[n].successor.record.changes, TableAt(log, n), TableAt(log, |log|));
      HistoryPrefix(index, log, n);
      hide IsHistory, Undone;
      RecordsRebuild(index, log[..n], i);
      assert RecordsOf(log)[..n] == RecordsOf(log[..n]);
      assert TableAt(log[..n], n) == TableAt(log, n) && TableAt(log[..n], i) == TableAt(log, i);
    }
  }

  /** After a destroy nothing but the records is needed. */
  lemma DestroyedRebuilds(index: Index, log: Log, i: nat)
    requires IsHistory(index, log) && i <= |log|
    requires log != [] && log[|log| - 1].successor.head.state.Destroyed?
    ensures Rewound(RecordsOf(log), map[], i) == TableAt(log, i)
  {
    HistoryStands(index, log, |log|);
    assert TableAt(log, |log|) == map[];
    RecordsRebuild(index, log, i);
  }

  /** Every entry of `after` is one of `before`, or was written at `target`
      and names what the member's entry in `before` was introduced at. */
  ghost predicate Links(before: Table, after: Table, target: nat) {
    forall id | id in after :: Linked(before, after[id], id, target)
  }

  ghost predicate Linked(before: Table, entry: Entry, id: Member, target: nat) {
    || Lookup(before, id) == Some(entry)
    || (entry.introduced == target
        && entry.supersedes == if id in before then Some(before[id].introduced) else None)
  }

  lemma InsertLinks(b: Building, members: seq<IndexMember>, target: nat)
    requires Batch(members) && InsertAll(b, members, target).Ok?
    ensures Links(b.table, InsertAll(b, members, target).value.table, target)
  {
    InsertWrites(b, members, target);
    var c := InsertAll(b, members, target).value;
    hide InsertAll;
    forall id | id in c.table ensures Linked(b.table, c.table[id], id, target) {
      if id in IdsOf(members) {
        var i :| 0 <= i < |members| && IdsOf(members)[i] == id;
        assert WroteOne(b, members[i], target, c, |b.changes| + i);
      } else {
        assert Lookup(c.table, id) == Lookup(b.table, id);
      }
    }
  }

  lemma RemoveLinks(b: Building, ids: seq<Member>, target: nat)
    requires OnceEach(ids) && RemoveAll(b, ids).Ok?
    ensures Links(b.table, RemoveAll(b, ids).value.table, target)
  {
    RemoveTakes(b, ids);
    var c := RemoveAll(b, ids).value;
    hide RemoveAll;
    forall id | id in c.table ensures Linked(b.table, c.table[id], id, target) {
      forall i | 0 <= i < |ids| ensures ids[i] != id {
        assert TookOne(b, ids[i], c, |b.changes| + i);
      }
      assert Lookup(c.table, id) == Lookup(b.table, id);
    }
  }

  lemma RebuildLinks(b: Rebuilding, members: seq<IndexMember>, target: nat)
    requires Batch(members) && b.table == map[] && b.changes == map[] && RebuildAll(b, members, target).Ok?
    ensures Links(b.previous, RebuildAll(b, members, target).value.table, target)
  {
    RebuildWrites(b, members, target);
    var c := RebuildAll(b, members, target).value;
    hide RebuildAll;
    forall id | id in c.table ensures Linked(b.previous, c.table[id], id, target) {
      assert id in Elements(IdsOf(members));
      var i :| 0 <= i < |members| && IdsOf(members)[i] == id;
      assert RewroteOne(b, members[i], target, c);
    }
  }

  lemma StepLinks(operation: Operation, head: Option<Head>, current: Option<Current>)
    requires CheckChange(operation.change).None? && Permit(operation, head).None? && Reads(head, current)
    requires SuccessorOf(operation, current).Ok?
    ensures var s := SuccessorOf(operation, current).value;
      Links(TableOf(current), TableAfter(s), if current.Some? then current.value.payload.version + 1 else 1)
  {
    hide *;
    PermittedCurrent(operation, head, current);
    if current.Some? {
      StepOf(operation, current.value);
    } else {
      FirstStep(operation);
    }
    var s := SuccessorOf(operation, current).value;
    match operation.change
    case Create(_) => NothingLinked(TableOf(current), 1);
    case Destroy(_) => NothingLinked(TableOf(current), current.value.payload.version + 1);
    case Insert(members) => InsertIntoLinks(members, current.value.payload);
    case Remove(ids) => RemoveFromLinks(ids, current.value.payload);
    case Rebuild(config, members) => RebuildOverLinks(config, members, current.value.payload);
  }

  lemma PermittedCurrent(operation: Operation, head: Option<Head>, current: Option<Current>)
    requires Permit(operation, head).None? && Reads(head, current)
    ensures operation.change.Create? <==> current.None?
  {
    hide CheckAgainst, Publishable;
  }

  /** The table an operation leaves, change by change. */
  lemma StepOf(operation: Operation, current: Current)
    requires SuccessorOf(operation, Some(current)).Ok?
    ensures TableOf(Some(current)) == current.payload.members
    ensures var s, payload := SuccessorOf(operation, Some(current)).value, current.payload;
      match operation.change
      case Insert(members) => InsertInto(members, payload).Ok? && TableAfter(s) == InsertInto(members, payload).value.table
      case Remove(ids) => RemoveFrom(ids, payload).Ok? && TableAfter(s) == RemoveFrom(ids, payload).value.table
      case Rebuild(config, members) =>
        RebuildOver(config, members, payload).Ok? && TableAfter(s) == RebuildOver(config, members, payload).value.table
      case Destroy(_) => TableAfter(s) == map[]
      case _ => true
  {
    hide InsertInto, RemoveFrom, RebuildOver, RetiredAll, IdentityOf;
  }

  lemma FirstStep(operation: Operation)
    requires SuccessorOf(operation, None).Ok?
    ensures TableOf(None) == map[] && TableAfter(SuccessorOf(operation, None).value) == map[]
  {
    hide IdentityOf;
  }

  lemma NothingLinked(before: Table, target: nat)
    ensures Links(before, map[], target)
  {
  }

  lemma InsertIntoLinks(members: seq<IndexMember>, current: Payload)
    requires CheckChange(Insert(members)).None? && InsertInto(members, current).Ok?
    ensures Links(current.members, InsertInto(members, current).value.table, current.version + 1)
  {
    BatchIsChecked(members);
    hide Links, InsertAll, SortedMembers, Batch, CheckFinite;
    InsertLinks(Building(current.engine, current.members, []), SortedMembers(members), current.version + 1);
  }

  lemma RemoveFromLinks(ids: seq<Member>, current: Payload)
    requires CheckChange(Remove(ids)).None? && RemoveFrom(ids, current).Ok?
    ensures Links(current.members, RemoveFrom(ids, current).value.table, current.version + 1)
  {
    hide Links, RemoveAll, SortedIds;
    RemoveLinks(Building(current.engine, current.members, []), SortedIds(ids), current.version + 1);
  }

  lemma RebuildOverLinks(config: IndexConfig, members: seq<IndexMember>, current: Payload)
    requires CheckChange(Rebuild(config, members)).None? && RebuildOver(config, members, current).Ok?
    ensures Links(current.members, RebuildOver(config, members, current).value.table, current.version + 1)
  {
    hide Links, RebuildAll, RebuildOver, SortedMembers, Batch, CheckChange, Listed, WithDropped;
    RebuildChecks(config, members);
    RebuildOverOk(config, members, current);
    RebuildLinks(Rebuilding(Engine(config, []), current.members, map[], map[]), SortedMembers(members), current.version + 1);
  }

  lemma RebuildOverOk(config: IndexConfig, members: seq<IndexMember>, current: Payload)
    requires RebuildOver(config, members, current).Ok?
    ensures
      var r := RebuildAll(Rebuilding(Engine(config, []), current.members, map[], map[]), SortedMembers(members), current.version + 1);
      r.Ok? && RebuildOver(config, members, current).value.table == r.value.table
  {
    hide RebuildAll, SortedMembers, Listed, WithDropped;
  }

  /** An entry was written by the version it names, and supersedes exactly the
      entry its member had in the version before that. */
  ghost predicate Traced(log: Log, id: Member, entry: Entry) {
    && 1 <= entry.introduced <= |log|
    && Lookup(TableAt(log, entry.introduced), id) == Some(entry)
    && entry.supersedes == (var before := TableAt(log, entry.introduced - 1);
                            if id in before then Some(before[id].introduced) else None)
  }

  lemma {:induction false} EntriesTraced(index: Index, log: Log, i: nat, id: Member)
    requires IsHistory(index, log) && i <= |log| && id in TableAt(log, i)
    ensures Traced(log, id, TableAt(log, i)[id]) && TableAt(log, i)[id].introduced <= i
    decreases i
  {
    hide *;
    TablePositive(log, i, id);
    EventLinks(index, log, i - 1);
    TracedStep(log, i, id);
    if Lookup(TableAt(log, i - 1), id) == Some(TableAt(log, i)[id]) {
      LookupIs(TableAt(log, i - 1), id, TableAt(log, i)[id]);
      EntriesTraced(index, log, i - 1, id);
    }
  }

  lemma TablePositive(log: Log, i: nat, id: Member)
    requires i <= |log| && id in TableAt(log, i)
    ensures i > 0
  {
  }

  lemma LookupIs(table: Table, id: Member, entry: Entry)
    requires Lookup(table, id) == Some(entry)
    ensures id in table && table[id] == entry
  {
  }

  lemma EventLinks(index: Index, log: Log, i: nat)
    requires IsHistory(index, log) && i < |log|
    ensures Links(TableAt(log, i), TableAt(log, i + 1), i + 1)
  {
    HistoryStands(index, log, i);
    assert Follows(index, log, i);
    StepLinks(log[i].operation, HeadAt(log, i), CurrentAt(log, i));
    hide SuccessorOf, CheckChange, Permit, Publishable, Links;
  }

  lemma TracedStep(log: Log, i: nat, id: Member)
    requires 0 < i <= |log| && id in TableAt(log, i) && Links(TableAt(log, i - 1), TableAt(log, i), i)
    ensures Lookup(TableAt(log, i - 1), id) == Some(TableAt(log, i)[id])
      || (TableAt(log, i)[id].introduced == i && Traced(log, id, TableAt(log, i)[id]))
  {
    assert Linked(TableAt(log, i - 1), TableAt(log, i)[id], id, i);
    hide TableAt;
  }
}
