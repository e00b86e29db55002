/** The audit records as a reversible history: what each change says about the
    table before, and how records alone rebuild every past table. */
module Audit {
  import opened Options
  import opened Orders
  import opened Records
  import opened Versions

  /** The entry a member had before the change; none when it was absent. */
  function Restores(change: MemberChange): Option<Entry> {
    match change
    case Inserted(_) => None
    case AbsentOnRemove(_) => None
    case Replaced(_, previous) => Some(previous)
    case Removed(_, previous) => Some(previous)
    case Dropped(_, previous) => Some(previous)
    case Retired(_, previous) => Some(previous)
  }

  function UndoOne(change: MemberChange, table: Table): Table {
    var restored := Restores(change);
    if restored.Some? then table[change.id := restored.value] else table - {change.id}
  }

  /** Undoes every change of a record. */
  function Undone(changes: seq<MemberChange>, table: Table): Table {
    if changes == [] then table
    else UndoOne(changes[|changes| - 1], Undone(changes[..|changes| - 1], table))
  }

  predicate Names(changes: seq<MemberChange>, id: Member) {
    exists i | 0 <= i < |changes| :: changes[i].id == id
  }

  /** One change per touched member, in identity order, each carrying what the
      member was; every other member is as it was. */
  ghost predicate Explains(changes: seq<MemberChange>, before: Table, after: Table) {
    && (forall i, j | 0 <= i < j < |changes| :: changes[i].id < changes[j].id)
    && (forall i | 0 <= i < |changes| :: Restores(changes[i]) == Lookup(before, changes[i].id))
    && forall id | !Names(changes, id) :: Lookup(after, id) == Lookup(before, id)
  }

  lemma {:induction false} UndoneAt(changes: seq<MemberChange>, before: Table, after: Table, n: nat, id: Member)
    requires Explains(changes, before, after) && n <= |changes|
    ensures Lookup(Undone(changes[..n], after), id)
         == if Names(changes[..n], id) then Lookup(before, id) else Lookup(after, id)
    decreases n
  {
    if n > 0 {
      UndoneAt(changes, before, after, n - 1, id);
      var last, shorter := changes[n - 1], changes[..n - 1];
      assert changes[..n][..n - 1] == shorter && changes[..n][n - 1] == last;
      assert Names(changes[..n], id) <==> last.id == id || Names(shorter, id) by {
        if Names(shorter, id) {
          var i :| 0 <= i < n - 1 && shorter[i].id == id;
          assert changes[..n][i].id == id;
        }
      }
    }
  }

  /** Undoing a record's changes on the table it left gives the table it began
      from. */
  lemma UndoRestores(changes: seq<MemberChange>, before: Table, after: Table)
    requires Explains(changes, before, after)
    ensures Undone(changes, after) == before
  {
    var undone := Undone(changes, after);
    assert changes[..|changes|] == changes;
    forall id: Member ensures Lookup(undone, id) == Lookup(before, id) {
      UndoneAt(changes, before, after, |changes|, id);
    }
    SameLookups(undone, before);
  }

  lemma SameLookups(a: Table, b: Table)
    requires forall id: Member :: Lookup(a, id) == Lookup(b, id)
    ensures a == b
  {
    forall id: Member ensures id in a <==> id in b {
      assert Lookup(a, id) == Lookup(b, id);
    }
    forall id | id in a ensures a[id] == b[id] {
      assert Lookup(a, id) == Lookup(b, id);
    }
  }

  /** The members of a batch, each once, in identity order. */
  ghost predicate Batch(members: seq<IndexMember>) {
    forall i, j | 0 <= i < j < |members| :: members[i].id < members[j].id
  }

  /** What applying the batch `members` to `b` leaves: a change and an entry per
      member, linked to the entry it replaces; the rest untouched. */
  ghost predicate Wrote(b: Building, members: seq<IndexMember>, target: nat, c: Building) {
    && |c.changes| == |b.changes| + |members| && c.changes[..|b.changes|] == b.changes
    && c.engine.config == b.engine.config
    && (forall i | 0 <= i < |members| :: WroteOne(b, members[i], target, c, |b.changes| + i))
    && forall id | id !in IdsOf(members) :: Lookup(c.table, id) == Lookup(b.table, id)
  }

  ghost predicate WroteOne(b: Building, member: IndexMember, target: nat, c: Building, at: nat)
    requires at < |c.changes|
  {
    var previous := Lookup(b.table, member.id);
    && c.changes[at] == (if previous.Some? then Replaced(member.id, previous.value) else Inserted(member.id))
    && Lookup(c.table, member.id)
       == Some(Entry(member.provenance, target, if previous.Some? then Some(previous.value.introduced) else None))
  }

  lemma {:induction false} InsertWrites(b: Building, members: seq<IndexMember>, target: nat)
    requires Batch(members) && InsertAll(b, members, target).Ok?
    ensures Wrote(b, members, target, InsertAll(b, members, target).value)
    decreases |members|
  {
    if members != [] {
      InsertWrites(b, members[..|members| - 1], target);
      InsertOneMore(b, members, target, InsertAll(b, members[..|members| - 1], target).value,
        InsertAll(b, members, target).value);
    }
  }

  lemma InsertOneMore(b: Building, members: seq<IndexMember>, target: nat, d: Building, c: Building)
    requires Batch(members) && members != []
    requires Wrote(b, members[..|members| - 1], target, d)
    requires InsertOne(d, members[|members| - 1], target) == Ok(c)
    ensures Wrote(b, members, target, c)
  {
    var front, last := members[..|members| - 1], members[|members| - 1];
    assert last.id !in IdsOf(front);
    assert Lookup(d.table, last.id) == Lookup(b.table, last.id);
    assert IdsOf(members) == IdsOf(front) + [last.id];
    forall i | 0 <= i < |members| ensures WroteOne(b, members[i], target, c, |b.changes| + i) {
      if i < |front| {
        assert WroteOne(b, front[i], target, d, |b.changes| + i) && members[i].id != last.id;
      }
    }
    forall id | id !in IdsOf(members) ensures Lookup(c.table, id) == Lookup(b.table, id) {
      assert id !in IdsOf(front) && id != last.id;
    }
  }

  lemma InsertExplains(b: Building, members: seq<IndexMember>, target: nat)
    requires Batch(members) && b.changes == [] && InsertAll(b, members, target).Ok?
    ensures var c := InsertAll(b, members, target).value; Explains(c.changes, b.table, c.table)
  {
    InsertWrites(b, members, target);
    WroteExplains(b, members, target, InsertAll(b, members, target).value);
  }

  lemma WroteExplains(b: Building, members: seq<IndexMember>, target: nat, c: Building)
    requires Batch(members) && b.changes == [] && Wrote(b, members, target, c)
    ensures Explains(c.changes, b.table, c.table)
  {
    forall i | 0 <= i < |members|
      ensures c.changes[i].id == members[i].id && Restores(c.changes[i]) == Lookup(b.table, members[i].id)
    {
      assert WroteOne(b, members[i], target, c, |b.changes| + i);
    }
    forall id | !Names(c.changes, id) ensures Lookup(c.table, id) == Lookup(b.table, id) {
      NotNamed(c.changes, IdsOf(members), id);
    }
  }

  ghost predicate OnceEach(ids: seq<Member>) {
    forall i, j | 0 <= i < j < |ids| :: ids[i] < ids[j]
  }

  ghost predicate Took(b: Building, ids: seq<Member>, c: Building) {
    && |c.changes| == |b.changes| + |ids| && c.changes[..|b.changes|] == b.changes
    && c.engine.config == b.engine.config
    && (forall i | 0 <= i < |ids| :: TookOne(b, ids[i], c, |b.changes| + i))
    && forall id | id !in ids :: Lookup(c.table, id) == Lookup(b.table, id)
  }

  ghost predicate TookOne(b: Building, id: Member, c: Building, at: nat)
    requires at < |c.changes|
  {
    && c.changes[at] == (if id in b.table then Removed(id, b.table[id]) else AbsentOnRemove(id))
    && id !in c.table
  }

  lemma {:induction false} RemoveTakes(b: Building, ids: seq<Member>)
    requires OnceEach(ids) && RemoveAll(b, ids).Ok?
    ensures Took(b, ids, RemoveAll(b, ids).value)
    decreases |ids|
  {
    if ids != [] {
      var front, last := ids[..|ids| - 1], ids[|ids| - 1];
      RemoveTakes(b, front);
      hide OnceEach, Took, RemoveOne;
      TookMore(b, ids, RemoveAll(b, front).value, RemoveAll(b, ids).value);
    }
  }

  lemma TookMore(b: Building, ids: seq<Member>, d: Building, c: Building)
    requires OnceEach(ids) && ids != [] && Took(b, ids[..|ids| - 1], d) && RemoveOne(d, ids[|ids| - 1]) == Ok(c)
    ensures Took(b, ids, c)
  {
    var front, last := ids[..|ids| - 1], ids[|ids| - 1];
    assert last !in front;
    assert Lookup(d.table, last) == Lookup(b.table, last);
    forall i | 0 <= i < |ids| ensures TookOne(b, ids[i], c, |b.changes| + i) {
      if i < |front| {
        assert TookOne(b, front[i], d, |b.changes| + i);
      }
    }
    forall id | id !in ids ensures Lookup(c.table, id) == Lookup(b.table, id) {
      assert ids == front + [last];
      assert id !in front && id != last;
    }
  }

  lemma RemoveExplains(b: Building, ids: seq<Member>)
    requires OnceEach(ids) && b.changes == [] && RemoveAll(b, ids).Ok?
    ensures var c := RemoveAll(b, ids).value; Explains(c.changes, b.table, c.table)
  {
    RemoveTakes(b, ids);
    var c := RemoveAll(b, ids).value;
    forall i | 0 <= i < |ids| ensures c.changes[i].id == ids[i] && Restores(c.changes[i]) == Lookup(b.table, ids[i]) {
      assert TookOne(b, ids[i], c, i);
    }
    forall id | !Names(c.changes, id) ensures Lookup(c.table, id) == Lookup(b.table, id) {
      NotNamed(c.changes, ids, id);
    }
  }

  /** What a rebuild leaves: entries for the batch alone, each linked to the
      previous entry, and the previous table without them. */
  ghost predicate Rewrote(b: Rebuilding, members: seq<IndexMember>, target: nat, c: Rebuilding) {
    && c.table.Keys == c.changes.Keys == Elements(IdsOf(members))
    && c.engine.config == b.engine.config
    && (forall i | 0 <= i < |members| :: RewroteOne(b, members[i], target, c))
    && forall id: Member :: Lookup(c.previous, id) == if id in IdsOf(members) then None else Lookup(b.previous, id)
  }

  ghost predicate RewroteOne(b: Rebuilding, member: IndexMember, target: nat, c: Rebuilding) {
    var previous := Lookup(b.previous, member.id);
    && member.id in c.changes
    && c.changes[member.id] == (if previous.Some? then Replaced(member.id, previous.value) else Inserted(member.id))
    && Lookup(c.table, member.id)
       == Some(Entry(member.provenance, target, if previous.Some? then Some(previous.value.introduced) else None))
  }

  lemma {:induction false} RebuildWrites(b: Rebuilding, members: seq<IndexMember>, target: nat)
    requires Batch(members) && b.table == map[] && b.changes == map[] && RebuildAll(b, members, target).Ok?
    ensures Rewrote(b, members, target, RebuildAll(b, members, target).value)
    decreases |members|
  {
    if members != [] {
      var front, last := members[..|members| - 1], members[|members| - 1];
      RebuildWrites(b, front, target);
      RewroteMore(b, members, target, RebuildAll(b, front, target).value, RebuildAll(b, members, target).value);
    }
  }

  lemma RewroteMore(b: Rebuilding, members: seq<IndexMember>, target: nat, d: Rebuilding, c: Rebuilding)
    requires Batch(members) && members != [] && Rewrote(b, members[..|members| - 1], target, d)
    requires RebuildOne(d, members[|members| - 1], target) == Ok(c)
    ensures Rewrote(b, members, target, c)
  {
    hide *;
    var front, last := members[..|members| - 1], members[|members| - 1];
    LastId(members);
    RewroteParts(b, front, target, d);
    RebuiltOne(d, last, target);
    forall id: Member
      ensures Lookup(c.previous, id) == if id in IdsOf(members) then None else Lookup(b.previous, id)
    {
      assert Lookup(d.previous, id) == if id in IdsOf(front) then None else Lookup(b.previous, id);
      LookupWithout(d.previous, last.id, id);
    }
    assert Lookup(d.previous, last.id) == Lookup(b.previous, last.id);
    RewroteLast(b, d, last, target, c);
    forall i | 0 <= i < |members| ensures RewroteOne(b, members[i], target, c) {
      if i < |front| {
        assert RewroteOne(b, front[i], target, d);
        RewroteStays(b, front[i], target, d, last, c);
      }
    }
    RewroteIs(b, members, target, c);
  }

  lemma RewroteParts(b: Rebuilding, members: seq<IndexMember>, target: nat, c: Rebuilding)
    requires Rewrote(b, members, target, c)
    ensures c.table.Keys == c.changes.Keys == Elements(IdsOf(members)) && c.engine.config == b.engine.config
    ensures forall i | 0 <= i < |members| :: RewroteOne(b, members[i], target, c)
    ensures forall id: Member :: Lookup(c.previous, id) == if id in IdsOf(members) then None else Lookup(b.previous, id)
  {
    hide RewroteOne, Lookup, Elements, IdsOf;
  }

  lemma RewroteIs(b: Rebuilding, members: seq<IndexMember>, target: nat, c: Rebuilding)
    requires c.table.Keys == c.changes.Keys == Elements(IdsOf(members)) && c.engine.config == b.engine.config
    requires forall i | 0 <= i < |members| :: RewroteOne(b, members[i], target, c)
    requires forall id: Member :: Lookup(c.previous, id) == if id in IdsOf(members) then None else Lookup(b.previous, id)
    ensures Rewrote(b, members, target, c)
  {
    hide RewroteOne, Lookup, Elements, IdsOf;
  }

  lemma RebuiltOne(d: Rebuilding, member: IndexMember, target: nat)
    requires RebuildOne(d, member, target).Ok?
    ensures var c, previous := RebuildOne(d, member, target).value, Lookup(d.previous, member.id);
      && c.engine.config == d.engine.config && c.previous == d.previous - {member.id}
      && c.table == d.table[member.id := NewEntry(member, target, previous)]
      && c.changes == d.changes[member.id := WriteChange(member, previous)]
  {
    hide CheckContent, NewEntry, WriteChange, Lookup;
  }

  lemma LookupWithout(table: Table, gone: Member, id: Member)
    ensures Lookup(table - {gone}, id) == if id == gone then None else Lookup(table, id)
  {
  }

  lemma RewroteLast(b: Rebuilding, d: Rebuilding, last: IndexMember, target: nat, c: Rebuilding)
    requires Lookup(d.previous, last.id) == Lookup(b.previous, last.id)
    requires c.table == d.table[last.id := NewEntry(last, target, Lookup(d.previous, last.id))]
    requires c.changes == d.changes[last.id := WriteChange(last, Lookup(d.previous, last.id))]
    ensures RewroteOne(b, last, target, c)
  {
  }

  lemma RewroteStays(b: Rebuilding, member: IndexMember, target: nat, d: Rebuilding, last: IndexMember, c: Rebuilding)
    requires RewroteOne(b, member, target, d) && member.id != last.id
    requires c.table == d.table[last.id := NewEntry(last, target, Lookup(d.previous, last.id))]
    requires c.changes == d.changes[last.id := WriteChange(last, Lookup(d.previous, last.id))]
    ensures RewroteOne(b, member, target, c)
  {
    hide NewEntry, WriteChange;
  }

  lemma LastId(members: seq<IndexMember>)
    requires Batch(members) && members != []
    ensures var front, last := members[..|members| - 1], members[|members| - 1];
      && IdsOf(members) == IdsOf(front) + [last.id] && last.id !in IdsOf(front)
      && Elements(IdsOf(members)) == Elements(IdsOf(front)) + {last.id}
      && forall i | 0 <= i < |front| :: front[i].id != last.id
  {
    var front, last := members[..|members| - 1], members[|members| - 1];
    assert IdsOf(members) == IdsOf(front) + [last.id];
  }

  lemma RebuildExplains(b: Rebuilding, members: seq<IndexMember>, target: nat)
    requires Batch(members) && b.table == map[] && b.changes == map[] && RebuildAll(b, members, target).Ok?
    ensures var c := RebuildAll(b, members, target).value; Explains(Listed(WithDropped(c)), b.previous, c.table)
  {
    RebuildWrites(b, members, target);
    var c := RebuildAll(b, members, target).value;
    var all := WithDropped(c);
    var ids, changes := ListIds(all.Keys), Listed(all);
    forall id | id in all ensures all[id].id == id && Restores(all[id]) == Lookup(b.previous, id) {
      RebuildChange(b, members, target, id);
    }
    forall i | 0 <= i < |changes|
      ensures changes[i].id == ids[i] && Restores(changes[i]) == Lookup(b.previous, changes[i].id)
    {
      assert changes[i] == all[ids[i]];
    }
    forall i, j | 0 <= i < j < |changes| ensures changes[i].id < changes[j].id {
      assert Before(ids[i], ids[j]);
    }
    forall id | !Names(changes, id) ensures Lookup(c.table, id) == Lookup(b.previous, id) {
      NotNamed(changes, ids, id);
      assert id in all <==> id in Elements(ids);
      assert Lookup(c.previous, id) == if id in IdsOf(members) then None else Lookup(b.previous, id);
      assert id in IdsOf(members) <==> id in Elements(IdsOf(members));
    }
  }

  lemma RebuildChange(b: Rebuilding, members: seq<IndexMember>, target: nat, id: Member)
    requires RebuildAll(b, members, target).Ok?
    requires var c := RebuildAll(b, members, target).value; Rewrote(b, members, target, c) && id in WithDropped(c)
    ensures var all := WithDropped(RebuildAll(b, members, target).value);
      all[id].id == id && Restores(all[id]) == Lookup(b.previous, id)
  {
    var c := RebuildAll(b, members, target).value;
    assert Lookup(c.previous, id) == if id in IdsOf(members) then None else Lookup(b.previous, id);
    if id !in c.previous {
      assert id in Elements(IdsOf(members));
      var i :| 0 <= i < |members| && IdsOf(members)[i] == id;
      assert RewroteOne(b, members[i], target, c);
    }
  }

  lemma DestroyExplains(table: Table)
    ensures Explains(RetiredAll(table), table, map[])
  {
    var ids, changes := ListIds(table.Keys), RetiredAll(table);
    forall i, j | 0 <= i < j < |changes| ensures changes[i].id < changes[j].id {
      assert Before(ids[i], ids[j]);
    }
    forall id | !Names(changes, id) ensures Lookup(map[], id) == Lookup(table, id) {
      NotNamed(changes, ids, id);
      assert id in table <==> id in Elements(ids);
    }
  }

  lemma NotNamed(changes: seq<MemberChange>, ids: seq<Member>, id: Member)
    requires |changes| == |ids| && !Names(changes, id)
    requires forall i | 0 <= i < |ids| :: changes[i].id == ids[i]
    ensures id !in ids
  {
    forall i | 0 <= i < |ids| ensures ids[i] != id {
      assert changes[i].id == ids[i];
    }
  }
}
