/** What the members of a published version hold: the content and the provenance
    each was last named with. */
module Contents {
  import opened Options
  import opened Orders
  import opened Records
  import opened Versions
  import opened Audit
  import opened Validate
  import opened History

  /** What the engine of a payload holds for a member. */
  function ContentOf(payload: Payload, id: Member): Option<Content> {
    HeldAt(payload.engine.calls, id)
  }

  function HeldAt(calls: seq<Call>, id: Member): Option<Content> {
    var held := Holds(calls);
    if id in held then Some(held[id]) else None
  }

  predicate Lists(members: seq<IndexMember>, id: Member) {
    exists i | 0 <= i < |members| :: members[i].id == id
  }

  /** Every member of the batch is held and tabled as the batch names it, at
      version `target`. */
  ghost predicate HeldAsNamed(members: seq<IndexMember>, calls: seq<Call>, table: Table, target: nat) {
    forall i | 0 <= i < |members| ::
      && HeldAt(calls, members[i].id) == Some(members[i].content)
      && members[i].id in table && table[members[i].id].provenance == members[i].provenance
      && table[members[i].id].introduced == target
  }

  /** Nothing about `id` changed. */
  ghost predicate Untouched(before: seq<Call>, was: Table, after: seq<Call>, table: Table, id: Member) {
    HeldAt(after, id) == HeldAt(before, id) && Lookup(table, id) == Lookup(was, id)
  }

  // ---------- one batch ----------

  lemma PutHolds(calls: seq<Call>, id: Member, content: Content, other: Member)
    ensures HeldAt(calls + [Put(id, content)], other) == if other == id then Some(content) else HeldAt(calls, other)
  {
    HoldsPut(calls, id, content);
    hide Holds;
  }

  lemma TakeHolds(calls: seq<Call>, id: Member, other: Member)
    ensures HeldAt(calls + [Take(id)], other) == if other == id then None else HeldAt(calls, other)
  {
    HoldsTake(calls, id);
    hide Holds;
  }

  lemma {:induction false} InsertHolds(b: Building, members: seq<IndexMember>, target: nat)
    requires Batch(members) && InsertAll(b, members, target).Ok?
    ensures var c := InsertAll(b, members, target).value;
      && HeldAsNamed(members, c.engine.calls, c.table, target)
      && forall id | !Lists(members, id) :: Untouched(b.engine.calls, b.table, c.engine.calls, c.table, id)
    decreases |members|
  {
    if members != [] {
      var front, last := members[..|members| - 1], members[|members| - 1];
      InsertHolds(b, front, target);
      InsertHoldsMore(b, members, InsertAll(b, front, target).value, target, InsertAll(b, members, target).value);
    }
  }

  lemma InsertHoldsMore(b: Building, members: seq<IndexMember>, d: Building, target: nat, c: Building)
    requires Batch(members) && members != []
    requires var front := members[..|members| - 1];
      && HeldAsNamed(front, d.engine.calls, d.table, target)
      && forall id | !Lists(front, id) :: Untouched(b.engine.calls, b.table, d.engine.calls, d.table, id)
    requires InsertOne(d, members[|members| - 1], target) == Ok(c)
    ensures HeldAsNamed(members, c.engine.calls, c.table, target)
    ensures forall id | !Lists(members, id) :: Untouched(b.engine.calls, b.table, c.engine.calls, c.table, id)
  {
    var front, last := members[..|members| - 1], members[|members| - 1];
    hide HeldAt, CheckContent;
    forall other ensures HeldAt(c.engine.calls, other) == if other == last.id then Some(last.content) else HeldAt(d.engine.calls, other) {
      PutHolds(d.engine.calls, last.id, last.content, other);
    }
    forall i | 0 <= i < |front| ensures members[i] == front[i] && members[i].id != last.id {
    }
    forall id | !Lists(members, id) ensures !Lists(front, id) && id != last.id {
    }
  }

  lemma {:induction false} RemoveHolds(b: Building, ids: seq<Member>, id: Member)
    requires RemoveAll(b, ids).Ok? && Holds(b.engine.calls).Keys == b.table.Keys
    ensures var c := RemoveAll(b, ids).value;
      && Holds(c.engine.calls).Keys == c.table.Keys
      && if id in ids then HeldAt(c.engine.calls, id).None? && id !in c.table
         else Untouched(b.engine.calls, b.table, c.engine.calls, c.table, id)
    decreases |ids|
  {
    if ids != [] {
      var front, last := ids[..|ids| - 1], ids[|ids| - 1];
      RemoveHolds(b, front, id);
      var d := RemoveAll(b, front).value;
      assert id in ids <==> id in front || id == last by {
        assert ids == front + [last];
      }
      HoldsTake(d.engine.calls, last);
      TakeHolds(d.engine.calls, last, id);
      hide Holds;
    }
  }

  lemma {:induction false} RebuildHolds(b: Rebuilding, members: seq<IndexMember>, target: nat)
    requires Batch(members) && RebuildAll(b, members, target).Ok? && b.engine.calls == [] && b.table == map[]
    ensures var c := RebuildAll(b, members, target).value;
      && HeldAsNamed(members, c.engine.calls, c.table, target)
      && forall id | !Lists(members, id) :: HeldAt(c.engine.calls, id).None? && id !in c.table
    decreases |members|
  {
    if members != [] {
      var front := members[..|members| - 1];
      RebuildHolds(b, front, target);
      RebuildHoldsMore(members, RebuildAll(b, front, target).value, target, RebuildAll(b, members, target).value);
    }
  }

  lemma RebuildHoldsMore(members: seq<IndexMember>, d: Rebuilding, target: nat, c: Rebuilding)
    requires Batch(members) && members != []
    requires var front := members[..|members| - 1];
      && HeldAsNamed(front, d.engine.calls, d.table, target)
      && forall id | !Lists(front, id) :: HeldAt(d.engine.calls, id).None? && id !in d.table
    requires RebuildOne(d, members[|members| - 1], target) == Ok(c)
    ensures HeldAsNamed(members, c.engine.calls, c.table, target)
    ensures forall id | !Lists(members, id) :: HeldAt(c.engine.calls, id).None? && id !in c.table
  {
    var front, last := members[..|members| - 1], members[|members| - 1];
    hide HeldAt, CheckContent;
    forall other ensures HeldAt(c.engine.calls, other) == if other == last.id then Some(last.content) else HeldAt(d.engine.calls, other) {
      PutHolds(d.engine.calls, last.id, last.content, other);
    }
    forall i | 0 <= i < |front| ensures members[i] == front[i] && members[i].id != last.id {
    }
    forall id | !Lists(members, id) ensures !Lists(front, id) && id != last.id {
    }
  }

  // ---------- one operation ----------

  /** The batch is named in whatever order the caller listed it. */
  lemma SortedLists(members: seq<IndexMember>, calls: seq<Call>, table: Table, target: nat)
    requires HeldAsNamed(SortedMembers(members), calls, table, target)
    ensures HeldAsNamed(members, calls, table, target)
    ensures forall id :: Lists(SortedMembers(members), id) <==> Lists(members, id)
  {
    var sorted := SortedMembers(members);
    SameMembers(sorted, members);
    hide *;
    HeldAlike(sorted, members, calls, table, target);
    forall id ensures Lists(sorted, id) <==> Lists(members, id) {
      SameListed(sorted, members, id);
      SameListed(members, sorted, id);
    }
  }

  lemma HeldAlike(a: seq<IndexMember>, b: seq<IndexMember>, calls: seq<Call>, table: Table, target: nat)
    requires Elements(a) == Elements(b) && HeldAsNamed(a, calls, table, target)
    ensures HeldAsNamed(b, calls, table, target)
  {
    hide HeldAt;
    forall i | 0 <= i < |b|
      ensures HeldAt(calls, b[i].id) == Some(b[i].content) && b[i].id in table
      ensures table[b[i].id].provenance == b[i].provenance && table[b[i].id].introduced == target
    {
      assert b[i] in Elements(a);
      var j :| 0 <= j < |a| && a[j] == b[i];
    }
  }

  lemma SameListed(a: seq<IndexMember>, b: seq<IndexMember>, id: Member)
    requires Elements(a) == Elements(b)
    ensures Lists(a, id) ==> Lists(b, id)
  {
    if Lists(a, id) {
      var i :| 0 <= i < |a| && a[i].id == id;
      assert a[i] in Elements(b);
      var j :| 0 <= j < |b| && b[j] == a[i];
    }
  }

  /** The configuration a version runs under. */
  function ConfigAfter(change: Change, before: IndexConfig): IndexConfig {
    match change
    case Create(config) => config
    case Rebuild(config, _) => config
    case _ => before
  }

  /** What a version holds after an operation, member by member. */
  ghost predicate HoldsAfter(change: Change, before: Payload, after: Payload) {
    match change
    case Insert(members) =>
      && HeldAsNamed(members, after.engine.calls, after.members, before.version + 1)
      && forall id | !Lists(members, id) :: Untouched(before.engine.calls, before.members, after.engine.calls, after.members, id)
    case Remove(ids) =>
      forall id ::
        if id in ids then ContentOf(after, id).None? && id !in after.members
        else Untouched(before.engine.calls, before.members, after.engine.calls, after.members, id)
    case Rebuild(_, members) =>
      && HeldAsNamed(members, after.engine.calls, after.members, before.version + 1)
      && forall id | !Lists(members, id) :: ContentOf(after, id).None? && id !in after.members
    case _ => false
  }

  /** An insert leaves every batch member with its own content and every other
      member as it was; a removal leaves the survivors as they were; a rebuild
      leaves exactly its batch. */
  lemma ContentsAfter(operation: Operation, head: Option<Head>, current: Current)
    requires CheckChange(operation.change).None? && Permit(operation, head).None? && Reads(head, Some(current))
    requires SuccessorOf(operation, Some(current)).Ok?
    ensures var s := SuccessorOf(operation, Some(current)).value;
      if operation.change.Destroy? then s.payload.None?
      else
        && s.payload.Some? && HoldsAfter(operation.change, current.payload, s.payload.value)
        && s.payload.value.config == ConfigAfter(operation.change, current.payload.config)
  {
    hide *;
    var s, payload := SuccessorOf(operation, Some(current)).value, current.payload;
    BuiltParts(operation, current);
    PermittedCurrent(operation, head, Some(current));
    match operation.change
    case Insert(members) => InsertContents(members, payload, s.payload.value);
    case Remove(ids) => RemoveContents(ids, head, current, s.payload.value);
    case Rebuild(config, members) => RebuildContents(config, members, payload, s.payload.value);
    case Destroy(_) =>
  }

  lemma BuiltParts(operation: Operation, current: Current)
    requires SuccessorOf(operation, Some(current)).Ok?
    ensures var s, payload := SuccessorOf(operation, Some(current)).value, current.payload;
      match operation.change
      case Insert(members) => s.payload.Some? && InsertInto(members, payload).Ok?
        && s.payload.value.engine == InsertInto(members, payload).value.engine
        && s.payload.value.members == InsertInto(members, payload).value.table
        && s.payload.value.config == ConfigAfter(operation.change, payload.config)
      case Remove(ids) => s.payload.Some? && RemoveFrom(ids, payload).Ok?
        && s.payload.value.engine == RemoveFrom(ids, payload).value.engine
        && s.payload.value.members == RemoveFrom(ids, payload).value.table
        && s.payload.value.config == ConfigAfter(operation.change, payload.config)
      case Rebuild(config, members) => s.payload.Some? && RebuildOver(config, members, payload).Ok?
        && s.payload.value.engine == RebuildOver(config, members, payload).value.engine
        && s.payload.value.members == RebuildOver(config, members, payload).value.table
        && s.payload.value.config == ConfigAfter(operation.change, payload.config)
      case Destroy(_) => s.payload.None?
      case Create(_) => true
  {
    hide InsertAll, RemoveAll, RebuildAll, SortedMembers, SortedIds, Versions.Listed, WithDropped, RetiredAll, IdentityOf;
  }

  lemma InsertContents(members: seq<IndexMember>, before: Payload, after: Payload)
    requires CheckChange(Insert(members)).None? && InsertInto(members, before).Ok?
    requires after.engine == InsertInto(members, before).value.engine && after.members == InsertInto(members, before).value.table
    ensures HoldsAfter(Insert(members), before, after)
  {
    BatchIsChecked(members);
    hide HeldAsNamed, Lists, Untouched, InsertAll, SortedMembers, Batch, CheckFinite, CheckFamily;
    InsertHolds(Building(before.engine, before.members, []), SortedMembers(members), before.version + 1);
    SortedLists(members, after.engine.calls, after.members, before.version + 1);
  }

  lemma RemoveContents(ids: seq<Member>, head: Option<Head>, current: Current, after: Payload)
    requires Reads(head, Some(current)) && RemoveFrom(ids, current.payload).Ok?
    requires after.engine == RemoveFrom(ids, current.payload).value.engine
    requires after.members == RemoveFrom(ids, current.payload).value.table
    ensures HoldsAfter(Remove(ids), current.payload, after)
  {
    var before := current.payload;
    assert Holds(before.engine.calls).Keys == before.members.Keys;
    SameMembers(SortedIds(ids), ids);
    hide Untouched, RemoveAll, SortedIds, HeldAt, Holds, Reads;
    forall id
      ensures if id in ids then ContentOf(after, id).None? && id !in after.members
              else Untouched(before.engine.calls, before.members, after.engine.calls, after.members, id)
    {
      assert id in SortedIds(ids) <==> id in Elements(SortedIds(ids));
      assert id in ids <==> id in Elements(ids);
      RemoveHolds(Building(before.engine, before.members, []), SortedIds(ids), id);
    }
  }

  lemma RebuildContents(config: IndexConfig, members: seq<IndexMember>, before: Payload, after: Payload)
    requires CheckChange(Rebuild(config, members)).None? && RebuildOver(config, members, before).Ok?
    requires after.engine == RebuildOver(config, members, before).value.engine
    requires after.members == RebuildOver(config, members, before).value.table
    ensures HoldsAfter(Rebuild(config, members), before, after)
  {
    hide HeldAsNamed, Lists, RebuildAll, SortedMembers, Batch, CheckChange, Versions.Listed, WithDropped, HeldAt, CheckContent;
    RebuildChecks(config, members);
    RebuildHolds(Rebuilding(Engine(config, []), before.members, map[], map[]), SortedMembers(members), before.version + 1);
    SortedLists(members, after.engine.calls, after.members, before.version + 1);
  }

  // ---------- a whole history ----------

  /** The batch member an operation names for `id`. */
  ghost predicate Names(change: Change, id: Member, content: Content, provenance: Provenance) {
    match change
    case Insert(members) => Named(members, id, content, provenance)
    case Rebuild(_, members) => Named(members, id, content, provenance)
    case _ => false
  }

  ghost predicate Named(members: seq<IndexMember>, id: Member, content: Content, provenance: Provenance) {
    IndexMember(id, provenance, content) in members
  }

  /** Member `id` of version `i` holds what the operation its entry names as its
      introduction listed it with. */
  ghost predicate ContentTraced(log: Log, i: nat, id: Member)
    requires i <= |log| && CurrentAt(log, i).Some? && id in CurrentAt(log, i).value.payload.members
  {
    var payload := CurrentAt(log, i).value.payload;
    var entry := payload.members[id];
    && ContentOf(payload, id).Some? && 1 <= entry.introduced <= i
    && Names(log[entry.introduced - 1].operation.change, id, ContentOf(payload, id).value, entry.provenance)
  }

  lemma {:induction false} ContentsTraced(index: Index, log: Log, i: nat, id: Member)
    requires IsHistory(index, log) && i <= |log| && CurrentAt(log, i).Some?
    requires id in CurrentAt(log, i).value.payload.members
    ensures ContentTraced(log, i, id)
    decreases i
  {
    hide *;
    AfterFirst(log, i);
    HistoryStands(index, log, i - 1);
    EventFollows(index, log, i - 1);
    StepTraced(index, log, i, id);
    if CurrentAt(log, i - 1).Some? && Kept(CurrentAt(log, i - 1).value.payload, CurrentAt(log, i).value.payload, id) {
      KeptIs(CurrentAt(log, i - 1).value.payload, CurrentAt(log, i).value.payload, id);
      ContentsTraced(index, log, i - 1, id);
      TracedStays(log, i, id);
    }
  }

  lemma AfterFirst(log: Log, i: nat)
    requires i <= |log| && CurrentAt(log, i).Some?
    ensures i > 0
  {
  }

  /** The member's entry and content are those of the version before. */
  predicate Kept(before: Payload, after: Payload, id: Member) {
    && id in before.members && Lookup(after.members, id) == Lookup(before.members, id)
    && ContentOf(after, id) == ContentOf(before, id)
  }

  lemma KeptIs(before: Payload, after: Payload, id: Member)
    requires Kept(before, after, id)
    ensures id in before.members
  {
  }

  lemma TracedStays(log: Log, i: nat, id: Member)
    requires 0 < i <= |log| && CurrentAt(log, i).Some? && CurrentAt(log, i - 1).Some?
    requires id in CurrentAt(log, i).value.payload.members
    requires Kept(CurrentAt(log, i - 1).value.payload, CurrentAt(log, i).value.payload, id)
    requires ContentTraced(log, i - 1, id)
    ensures ContentTraced(log, i, id)
  {
    hide CurrentAt, ContentOf, Names;
  }

  /** A member is as it was, or was written by this very event. */
  lemma StepTraced(index: Index, log: Log, i: nat, id: Member)
    requires 0 < i <= |log| && Follows(index, log, i - 1) && Standing(log, i - 1)
    requires CurrentAt(log, i).Some? && id in CurrentAt(log, i).value.payload.members
    ensures ContentTraced(log, i, id)
      || (CurrentAt(log, i - 1).Some? && Kept(CurrentAt(log, i - 1).value.payload, CurrentAt(log, i).value.payload, id))
  {
    hide CheckChange, Permit, SuccessorOf, Publishable, Kept, ContentTraced, Reads, HoldsAfter;
    var operation, current := log[i - 1].operation, CurrentAt(log, i - 1);
    PermittedCurrent(operation, HeadAt(log, i - 1), current);
    if current.None? {
      FirstStep(operation);
      assert false;
    } else {
      ContentsAfter(operation, HeadAt(log, i - 1), current.value);
      StandingAt(log, i - 1);
      NamedHere(log, i, id);
    }
  }

  lemma StandingAt(log: Log, i: nat)
    requires i <= |log| && Standing(log, i) && CurrentAt(log, i).Some?
    ensures i > 0 && CurrentAt(log, i).value.payload.version == i
  {
    hide Reads;
  }

  lemma NamedHere(log: Log, i: nat, id: Member)
    requires 1 < i <= |log| && CurrentAt(log, i).Some? && CurrentAt(log, i - 1).Some?
    requires CurrentAt(log, i - 1).value.payload.version == i - 1 && id in CurrentAt(log, i).value.payload.members
    requires HoldsAfter(log[i - 1].operation.change, CurrentAt(log, i - 1).value.payload, CurrentAt(log, i).value.payload)
    ensures ContentTraced(log, i, id)
      || Kept(CurrentAt(log, i - 1).value.payload, CurrentAt(log, i).value.payload, id)
  {
    hide HeldAt;
    var before, after, change := CurrentAt(log, i - 1).value.payload, CurrentAt(log, i).value.payload, log[i - 1].operation.change;
    if !change.Remove? && Lists(change.members, id) {
      var j :| 0 <= j < |change.members| && change.members[j].id == id;
      WrittenHere(log, i, id, j);
    } else {
      assert Untouched(before.engine.calls, before.members, after.engine.calls, after.members, id);
    }
  }

  lemma WrittenHere(log: Log, i: nat, id: Member, j: nat)
    requires 0 < i <= |log| && CurrentAt(log, i).Some? && id in CurrentAt(log, i).value.payload.members
    requires var change, after := log[i - 1].operation.change, CurrentAt(log, i).value.payload;
      && (change.Insert? || change.Rebuild?) && j < |change.members| && change.members[j].id == id
      && ContentOf(after, id) == Some(change.members[j].content)
      && after.members[id].provenance == change.members[j].provenance && after.members[id].introduced == i
    ensures ContentTraced(log, i, id)
  {
    hide HeldAt;
    var member := log[i - 1].operation.change.members[j];
    assert member == IndexMember(id, member.provenance, member.content);
  }

  // ---------- the head and the record of each event ----------

  /** Event `i` writes version `i + 1` on top of version `i`, or retires version
      `i`, and its record says which operation did what to which version. */
  ghost predicate RecordedRight(index: Index, log: Log, i: nat)
    requires i < |log|
  {
    var operation, s := log[i].operation, log[i].successor;
    var identity, from := OperationIdentity(operation.key, Digest(index, Canonical(operation.change))), if i == 0 then None else Some(i);
    && s.head.identity == index && s.record.index == index && s.record.operation == identity
    && s.record.from == from && s.record.resulting == s.head.state
    && (i > 0 ==> CurrentAt(log, i).Some?)
    && s.record.previousConfig == (if operation.change.Rebuild? && i > 0 then Some(CurrentAt(log, i).value.payload.config) else None)
    && s.record.transition == (match operation.change
         case Create(_) => CreateT
         case Insert(_) => InsertT
         case Remove(_) => RemoveT
         case Rebuild(_, _) => RebuildT
         case Destroy(_) => DestroyT)
    && (operation.change.Create? <==> i == 0)
    && match operation.change
       case Destroy(retention) =>
         && s.payload.None? && s.head.state == Destroyed(i, retention, operation.key)
         && HeadAt(log, i).Some? && s.head.config == HeadAt(log, i).value.config
       case Create(config) => Writes(s, index, 1, None, identity, config)
       case Rebuild(config, _) => Writes(s, index, i + 1, from, identity, config)
       case _ => i > 0 && Writes(s, index, i + 1, from, identity, CurrentAt(log, i).value.payload.config)
  }

  ghost predicate Writes(s: Successor, index: Index, version: nat, predecessor: Option<nat>, operation: OperationIdentity,
                         config: IndexConfig)
  {
    && s.head.state == Active(version) && s.head.config == config
    && s.payload.Some? && s.payload.value.index == index && s.payload.value.version == version
    && s.payload.value.predecessor == predecessor && s.payload.value.operation == operation
    && s.payload.value.config == config && s.payload.value.engine.config == config
  }

  lemma EventRecorded(index: Index, log: Log, i: nat)
    requires IsHistory(index, log) && i < |log|
    ensures RecordedRight(index, log, i)
  {
    hide *;
    HistoryStands(index, log, i);
    EventFollows(index, log, i);
    StandsWhere(index, log, i);
    AcceptedApplies(log[i].operation, HeadAt(log, i), CurrentAt(log, i));
    FollowsRecorded(index, log, i);
  }

  lemma StandsWhere(index: Index, log: Log, i: nat)
    requires i < |log| && Follows(index, log, i) && Standing(log, i) && (i == 0 || CurrentAt(log, i).Some?)
    ensures CheckChange(log[i].operation.change).None? && Permit(log[i].operation, HeadAt(log, i)).None?
    ensures Reads(HeadAt(log, i), CurrentAt(log, i)) && (CurrentAt(log, i).None? <==> i == 0)
    ensures i > 0 ==> CurrentAt(log, i).value.payload.version == i && HeadAt(log, i) == Some(CurrentAt(log, i).value.head)
  {
    hide CheckChange, Permit, SuccessorOf, Publishable;
  }

  lemma FollowsRecorded(index: Index, log: Log, i: nat)
    requires i < |log| && Follows(index, log, i) && (CurrentAt(log, i).None? <==> i == 0)
    requires i > 0 ==> CurrentAt(log, i).value.payload.version == i && HeadAt(log, i) == Some(CurrentAt(log, i).value.head)
    requires Permit(log[i].operation, HeadAt(log, i)).None? && Reads(HeadAt(log, i), CurrentAt(log, i))
    requires Fresh(log[i].operation, log[i].successor)
    ensures RecordedRight(index, log, i)
  {
    hide InsertAll, RemoveAll, RebuildAll, SortedMembers, SortedIds, Versions.Listed, WithDropped, RetiredAll, CheckChange, CheckAgainst,
      Holds, CheckConfig, EntryFits, Canonical;
    PermittedCurrent(log[i].operation, HeadAt(log, i), CurrentAt(log, i));
  }
}
