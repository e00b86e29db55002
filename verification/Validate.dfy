/** Pre-publish validation, and what it guarantees about building. */
module Validate {
  import opened Options
  import opened Orders
  import opened Records
  import opened Versions
  import opened Audit
  import HnswGraph

  /** The first identity listed twice; `ids` ascend, so equals are adjacent. */
  function CheckIds(ids: seq<Member>): (r: Option<Refusal>)
    requires Sorted(Before, ids)
    ensures r.None? <==> OnceEach(ids)
  {
    if |ids| < 2 then None
    else if ids[0] == ids[1] then Some(DuplicateMember(ids[0]))
    else
      CheckIdsStep(ids);
      CheckIds(ids[1..])
  }

  lemma CheckIdsStep(ids: seq<Member>)
    requires |ids| >= 2 && Sorted(Before, ids) && ids[0] != ids[1]
    ensures OnceEach(ids) <==> OnceEach(ids[1..])
  {
    assert !Before(ids[1], ids[0]);
    if OnceEach(ids[1..]) {
      forall i, j | 0 <= i < j < |ids| ensures ids[i] < ids[j] {
        assert i > 0 ==> ids[1..][i - 1] < ids[1..][j - 1];
        assert j > 1 ==> ids[1..][0] < ids[1..][j - 1];
      }
    }
    if OnceEach(ids) {
      forall i, j | 0 <= i < j < |ids| - 1 ensures ids[1..][i] < ids[1..][j] {
        assert ids[i + 1] < ids[j + 1];
      }
    }
  }

  predicate FiniteContent(content: Content) {
    content.VectorContent? ==> forall i | 0 <= i < |content.vector| :: HnswGraph.Finite(content.vector[i])
  }

  function CheckFinite(members: seq<IndexMember>): (r: Option<Refusal>)
    ensures r.None? <==> forall i | 0 <= i < |members| :: FiniteContent(members[i].content)
  {
    if members == [] then None
    else if !FiniteContent(members[0].content) then Some(EngineRefused(HnswGraph.InvalidVector))
    else
      assert forall i | 0 < i < |members| :: members[i] == members[1..][i - 1];
      CheckFinite(members[1..])
  }

  /** The first member of another family than `expected`. */
  function CheckFamily(expected: Family, members: seq<IndexMember>): (r: Option<Refusal>)
    ensures r.None? <==> forall i | 0 <= i < |members| :: ContentFamily(members[i].content) == expected
  {
    if members == [] then None
    else if ContentFamily(members[0].content) != expected then
      Some(FamilyMismatch(expected, ContentFamily(members[0].content)))
    else
      assert forall i | 0 < i < |members| :: members[i] == members[1..][i - 1];
      CheckFamily(expected, members[1..])
  }

  function CheckContents(config: IndexConfig, members: seq<IndexMember>): (r: Option<Refusal>)
    ensures r.None? <==> forall i | 0 <= i < |members| :: CheckContent(config, members[i].content).None?
  {
    if members == [] then None
    else if CheckContent(config, members[0].content).Some? then CheckContent(config, members[0].content)
    else
      assert forall i | 0 < i < |members| :: members[i] == members[1..][i - 1];
      CheckContents(config, members[1..])
  }

  function Then(first: Option<Refusal>, second: Option<Refusal>): Option<Refusal> {
    if first.Some? then first else second
  }

  /** Every member's family first, then every member's content. */
  function CheckFit(config: IndexConfig, members: seq<IndexMember>): Option<Refusal> {
    Then(CheckFamily(ConfigFamily(config), members), CheckContents(config, members))
  }

  lemma IdsSorted(members: seq<IndexMember>)
    requires Sorted(ById, members)
    ensures Sorted(Before, IdsOf(members))
  {
    forall i, j | 0 <= i < j < |members| ensures !Before(IdsOf(members)[j], IdsOf(members)[i]) {
      assert !ById(members[j], members[i]);
    }
  }

  function CheckMemberIds(members: seq<IndexMember>): Option<Refusal>
    requires Sorted(ById, members)
  {
    IdsSorted(members);
    CheckIds(IdsOf(members))
  }

  /** The refusals that need no index state, in their order. */
  function CheckChange(change: Change): Option<Refusal> {
    match change
    case Create(config) => CheckConfig(config)
    case Insert(members) =>
      if members == [] then Some(EmptyBatch(InsertT))
      else
        var sorted := SortedMembers(members);
        Then(CheckMemberIds(sorted), Then(CheckFinite(sorted), CheckFamily(ContentFamily(sorted[0].content), sorted)))
    case Remove(ids) => if ids == [] then Some(EmptyBatch(RemoveT)) else CheckIds(SortedIds(ids))
    case Rebuild(config, members) =>
      var sorted := SortedMembers(members);
      Then(CheckMemberIds(sorted), Then(CheckFinite(sorted), Then(CheckConfig(config), CheckFit(config, sorted))))
    case Destroy(_) => None
  }

  /** The refusals that need the index's current configuration. */
  function CheckAgainst(change: Change, config: IndexConfig): Option<Refusal> {
    match change
    case Insert(members) => CheckFit(config, SortedMembers(members))
    case Rebuild(next, _) =>
      if ConfigFamily(next) == ConfigFamily(config) then None
      else Some(FamilyMismatch(ConfigFamily(config), ConfigFamily(next)))
    case _ => None
  }

  /** Whether `operation` may run against the head read for its index. */
  function Permit(operation: Operation, head: Option<Head>): Option<Refusal> {
    if head.Some? && head.value.identity != operation.index then Some(RecordMismatch)
    else if !PermittedFrom(TransitionOf(operation.change), KindOf(head)) then Some(TransitionNotPermitted(KindOf(head)))
    else if head.None? then None
    else CheckAgainst(operation.change, head.value.config)
  }

  /** The head and payload of an index as a mutation reads them. */
  ghost predicate Reads(head: Option<Head>, current: Option<Current>) {
    && (current.Some? <==> head.Some? && head.value.state.Active?)
    && (current.Some? ==>
          && current.value.head == head.value && Publishable(current.value.payload)
          && head.value.config == current.value.payload.config
          && head.value.state == Active(current.value.payload.version))
  }

  /** The version a published payload carries, its head, and its entries. */
  ghost predicate Fresh(operation: Operation, successor: Successor) {
    && successor.head.identity == operation.index
    && (successor.payload.Some? ==>
          && Publishable(successor.payload.value) && successor.payload.value.index == operation.index
          && successor.head.config == successor.payload.value.config
          && successor.head.state == Active(successor.payload.value.version))
  }

  lemma BatchIsChecked(members: seq<IndexMember>)
    ensures var sorted := SortedMembers(members); CheckMemberIds(sorted).None? <==> Batch(sorted)
  {
    var sorted := SortedMembers(members);
    IdsSorted(sorted);
    assert CheckIds(IdsOf(sorted)).None? <==> OnceEach(IdsOf(sorted));
    if OnceEach(IdsOf(sorted)) {
      forall i, j | 0 <= i < j < |sorted| ensures sorted[i].id < sorted[j].id {
        assert IdsOf(sorted)[i] < IdsOf(sorted)[j];
      }
    }
  }

  /** The engine refuses no member its own content check accepts. */
  lemma {:induction false} InsertRuns(b: Building, members: seq<IndexMember>, target: nat)
    requires forall i | 0 <= i < |members| :: CheckContent(b.engine.config, members[i].content).None?
    requires Holds(b.engine.calls).Keys == b.table.Keys
    ensures InsertAll(b, members, target).Ok?
    ensures var c := InsertAll(b, members, target).value;
      Holds(c.engine.calls).Keys == c.table.Keys && c.engine.config == b.engine.config
    decreases |members|
  {
    if members != [] {
      InsertRuns(b, members[..|members| - 1], target);
      var d, last := InsertAll(b, members[..|members| - 1], target).value, members[|members| - 1];
      HoldsPut(d.engine.calls, last.id, last.content);
    }
  }

  lemma HoldsPut(calls: seq<Call>, id: Member, content: Content)
    ensures Holds(calls + [Put(id, content)]) == Holds(calls)[id := content]
  {
    assert (calls + [Put(id, content)])[..|calls|] == calls;
  }

  lemma HoldsTake(calls: seq<Call>, id: Member)
    ensures Holds(calls + [Take(id)]) == Holds(calls) - {id}
  {
    assert (calls + [Take(id)])[..|calls|] == calls;
  }

  lemma {:induction false} RemoveRuns(b: Building, ids: seq<Member>)
    requires CheckConfig(b.engine.config).None? && Holds(b.engine.calls).Keys == b.table.Keys
    ensures RemoveAll(b, ids).Ok?
    ensures var c := RemoveAll(b, ids).value;
      Holds(c.engine.calls).Keys == c.table.Keys && c.engine.config == b.engine.config
    decreases |ids|
  {
    if ids != [] {
      RemoveRuns(b, ids[..|ids| - 1]);
      var d, last := RemoveAll(b, ids[..|ids| - 1]).value, ids[|ids| - 1];
      HoldsTake(d.engine.calls, last);
    }
  }

  lemma {:induction false} RebuildRuns(b: Rebuilding, members: seq<IndexMember>, target: nat)
    requires forall i | 0 <= i < |members| :: CheckContent(b.engine.config, members[i].content).None?
    requires Holds(b.engine.calls).Keys == b.table.Keys
    ensures RebuildAll(b, members, target).Ok?
    ensures var c := RebuildAll(b, members, target).value;
      Holds(c.engine.calls).Keys == c.table.Keys && c.engine.config == b.engine.config
    decreases |members|
  {
    if members != [] {
      RebuildRuns(b, members[..|members| - 1], target);
      var d, last := RebuildAll(b, members[..|members| - 1], target).value, members[|members| - 1];
      HoldsPut(d.engine.calls, last.id, last.content);
    }
  }

  /** Entries a batch writes at `target` never name a later version. */
  ghost predicate EntriesFit(table: Table, version: nat) {
    forall id | id in table :: EntryFits(table[id], version)
  }

  lemma InsertFits(b: Building, members: seq<IndexMember>, target: nat)
    requires target >= 1 && Batch(members) && EntriesFit(b.table, target - 1) && InsertAll(b, members, target).Ok?
    ensures EntriesFit(InsertAll(b, members, target).value.table, target)
  {
    InsertWrites(b, members, target);
    var c := InsertAll(b, members, target).value;
    hide InsertAll;
    forall id | id in c.table ensures EntryFits(c.table[id], target) {
      if id in IdsOf(members) {
        var i :| 0 <= i < |members| && IdsOf(members)[i] == id;
        assert WroteOne(b, members[i], target, c, |b.changes| + i);
      } else {
        assert Lookup(c.table, id) == Lookup(b.table, id);
      }
    }
  }

  lemma RemoveFits(b: Building, ids: seq<Member>, target: nat)
    requires target >= 1 && OnceEach(ids) && EntriesFit(b.table, target - 1) && RemoveAll(b, ids).Ok?
    ensures EntriesFit(RemoveAll(b, ids).value.table, target)
  {
    RemoveTakes(b, ids);
    var c := RemoveAll(b, ids).value;
    hide RemoveAll;
    forall id | id in c.table ensures EntryFits(c.table[id], target) {
      forall i | 0 <= i < |ids| ensures ids[i] != id {
        assert TookOne(b, ids[i], c, |b.changes| + i);
      }
      assert Lookup(c.table, id) == Lookup(b.table, id);
    }
  }

  lemma RebuildFits(b: Rebuilding, members: seq<IndexMember>, target: nat)
    requires Batch(members) && b.table == map[] && b.changes == map[]
    requires target >= 1 && EntriesFit(b.previous, target - 1) && RebuildAll(b, members, target).Ok?
    ensures EntriesFit(RebuildAll(b, members, target).value.table, target)
  {
    RebuildWrites(b, members, target);
    var c := RebuildAll(b, members, target).value;
    hide RebuildAll;
    forall id | id in c.table ensures EntryFits(c.table[id], target) {
      assert id in Elements(IdsOf(members));
      var i :| 0 <= i < |members| && IdsOf(members)[i] == id;
      assert RewroteOne(b, members[i], target, c);
    }
  }

  /** An operation that passed both checks is never refused by an engine: only
      the version counter can run out. What it builds decodes again. */
  lemma AcceptedApplies(operation: Operation, head: Option<Head>, current: Option<Current>)
    requires CheckChange(operation.change).None? && Permit(operation, head).None? && Reads(head, current)
    ensures var built := SuccessorOf(operation, current);
      if built.Err?
      then built.refusal == VersionExhausted && current.Some? && current.value.payload.version == VERSION_MAX
      else Fresh(operation, built.value)
  {
    if current.Some? {
      PublishableFacts(current.value.payload);
    }
    hide CheckChange, InsertInto, RemoveFrom, RebuildOver, Publishable, CheckConfig, CheckFit, Publish, BuiltFrom, Fresh;
    match operation.change
    case Create(config) => CreateAccepted(operation);
    case Destroy(_) => DestroyAccepted(operation, current.value);
    case Insert(members) =>
      InsertAccepted(members, current.value.payload);
      PublishAccepted(operation, current.value, head.value.config, InsertInto(members, current.value.payload));
    case Remove(ids) =>
      RemoveAccepted(ids, current.value.payload);
      PublishAccepted(operation, current.value, head.value.config, RemoveFrom(ids, current.value.payload));
    case Rebuild(config, members) =>
      RebuildAccepted(config, members, current.value.payload);
      CheckedConfig(operation.change);
      PublishAccepted(operation, current.value, config, RebuildOver(config, members, current.value.payload));
  }

  lemma PublishableFacts(payload: Payload)
    requires Publishable(payload)
    ensures CheckConfig(payload.config).None? && 1 <= payload.version <= VERSION_MAX
  {
  }

  lemma DestroyAccepted(operation: Operation, current: Current)
    requires operation.change.Destroy?
    ensures var built := SuccessorOf(operation, Some(current)); built.Ok? && Fresh(operation, built.value)
  {
  }

  lemma CheckedConfig(change: Change)
    requires CheckChange(change).None? && (change.Create? || change.Rebuild?)
    ensures CheckConfig(change.config).None?
  {
  }

  lemma CreateAccepted(operation: Operation)
    requires operation.change.Create? && CheckChange(operation.change).None?
    ensures var built := SuccessorOf(operation, None); built.Ok? && Fresh(operation, built.value)
  {
  }

  lemma PublishAccepted(operation: Operation, current: Current, config: IndexConfig, built: Result<Built>)
    requires BuiltFrom(current.payload, config, built) && CheckConfig(config).None?
    requires 1 <= current.payload.version <= VERSION_MAX
    ensures var r := Publish(operation, built);
      if r.Err? then r.refusal == VersionExhausted && current.payload.version == VERSION_MAX else Fresh(operation, r.value)
  {
    hide Explains, Holds, CheckConfig;
  }

  ghost predicate BuiltFrom(current: Payload, config: IndexConfig, built: Result<Built>) {
    if current.version == VERSION_MAX then built == Err(VersionExhausted)
    else
      && built.Ok? && built.value.target == current.version + 1 && built.value.from == Some(current.version)
      && built.value.config == config && built.value.engine.config == config
      && Holds(built.value.engine.calls).Keys == built.value.table.Keys
      && EntriesFit(built.value.table, built.value.target)
      && Explains(built.value.changes, current.members, built.value.table)
  }

  lemma InsertAccepted(members: seq<IndexMember>, current: Payload)
    requires CheckChange(Insert(members)).None? && CheckAgainst(Insert(members), current.config).None?
    requires Publishable(current)
    ensures BuiltFrom(current, current.config, InsertInto(members, current))
  {
    hide InsertInto, InsertAll, Explains, Holds, Publishable, CheckChange, CheckAgainst, CheckContent, Batch, EntriesFit, SortedMembers;
    PublishableFacts(current);
    InsertIntoIs(members, current);
    InsertChecks(members, current.config);
    InsertFacts(SortedMembers(members), current);
  }

  lemma InsertIntoIs(members: seq<IndexMember>, current: Payload)
    ensures
      var r := InsertAll(Building(current.engine, current.members, []), SortedMembers(members), current.version + 1);
      && (current.version >= VERSION_MAX ==> InsertInto(members, current) == Err(VersionExhausted))
      && (current.version < VERSION_MAX && r.Ok? ==>
            InsertInto(members, current)
              == Ok(Built(Some(current.version), current.version + 1, current.config, r.value.engine, r.value.table,
                          r.value.changes, None)))
  {
    hide InsertAll, SortedMembers;
  }

  lemma InsertChecks(members: seq<IndexMember>, config: IndexConfig)
    requires CheckChange(Insert(members)).None? && CheckAgainst(Insert(members), config).None?
    ensures var sorted := SortedMembers(members);
      Batch(sorted) && forall i | 0 <= i < |sorted| :: CheckContent(config, sorted[i].content).None?
  {
    BatchIsChecked(members);
    hide Batch, SortedMembers;
  }

  lemma InsertFacts(sorted: seq<IndexMember>, current: Payload)
    requires Batch(sorted) && forall i | 0 <= i < |sorted| :: CheckContent(current.config, sorted[i].content).None?
    requires Publishable(current)
    ensures
      var r := InsertAll(Building(current.engine, current.members, []), sorted, current.version + 1);
      && r.Ok? && r.value.engine.config == current.config
      && Holds(r.value.engine.calls).Keys == r.value.table.Keys
      && EntriesFit(r.value.table, current.version + 1)
      && Explains(r.value.changes, current.members, r.value.table)
  {
    var b := Building(current.engine, current.members, []);
    hide Explains, InsertAll, Batch, CheckContent;
    InsertRuns(b, sorted, current.version + 1);
    InsertFits(b, sorted, current.version + 1);
    InsertExplains(b, sorted, current.version + 1);
  }

  lemma RemoveAccepted(ids: seq<Member>, current: Payload)
    requires CheckChange(Remove(ids)).None? && Publishable(current)
    ensures BuiltFrom(current, current.config, RemoveFrom(ids, current))
  {
    if current.version < VERSION_MAX {
      var sorted, b := SortedIds(ids), Building(current.engine, current.members, []);
      RemoveRuns(b, sorted);
      RemoveFits(b, sorted, current.version + 1);
      RemoveExplains(b, sorted);
    }
  }

  lemma RebuildAccepted(config: IndexConfig, members: seq<IndexMember>, current: Payload)
    requires CheckChange(Rebuild(config, members)).None? && Publishable(current)
    ensures BuiltFrom(current, config, RebuildOver(config, members, current))
  {
    hide RebuildOver, RebuildAll, Explains, Holds, Publishable, CheckChange, Listed, WithDropped, CheckContent, Batch, EntriesFit, SortedMembers;
    PublishableFacts(current);
    RebuildOverIs(config, members, current);
    RebuildChecks(config, members);
    RebuildFacts(config, SortedMembers(members), current);
  }

  lemma RebuildOverIs(config: IndexConfig, members: seq<IndexMember>, current: Payload)
    ensures
      var r := RebuildAll(Rebuilding(Engine(config, []), current.members, map[], map[]), SortedMembers(members), current.version + 1);
      && (current.version >= VERSION_MAX ==> RebuildOver(config, members, current) == Err(VersionExhausted))
      && (current.version < VERSION_MAX && r.Ok? ==>
            RebuildOver(config, members, current)
              == Ok(Built(Some(current.version), current.version + 1, config, r.value.engine, r.value.table,
                          Listed(WithDropped(r.value)), Some(current.config))))
  {
    hide RebuildAll, SortedMembers, Listed, WithDropped;
  }

  lemma RebuildChecks(config: IndexConfig, members: seq<IndexMember>)
    requires CheckChange(Rebuild(config, members)).None?
    ensures var sorted := SortedMembers(members);
      Batch(sorted) && forall i | 0 <= i < |sorted| :: CheckContent(config, sorted[i].content).None?
  {
    BatchIsChecked(members);
    hide Batch, SortedMembers;
  }

  lemma RebuildFacts(config: IndexConfig, sorted: seq<IndexMember>, current: Payload)
    requires Batch(sorted) && forall i | 0 <= i < |sorted| :: CheckContent(config, sorted[i].content).None?
    requires Publishable(current)
    ensures
      var r := RebuildAll(Rebuilding(Engine(config, []), current.members, map[], map[]), sorted, current.version + 1);
      && r.Ok? && r.value.engine.config == config
      && Holds(r.value.engine.calls).Keys == r.value.table.Keys
      && EntriesFit(r.value.table, current.version + 1)
      && Explains(Listed(WithDropped(r.value)), current.members, r.value.table)
  {
    var b := Rebuilding(Engine(config, []), current.members, map[], map[]);
    assert Holds(b.engine.calls) == map[];
    hide Explains, RebuildAll, Batch, CheckContent;
    RebuildRuns(b, sorted, current.version + 1);
    RebuildFits(b, sorted, current.version + 1);
    RebuildExplains(b, sorted, current.version + 1);
  }

  /** The same request with its members listed in another order. */
  ghost predicate SameBatch(a: Change, b: Change) {
    match (a, b)
    case (Insert(m), Insert(n)) => multiset(m) == multiset(n)
    case (Remove(m), Remove(n)) => multiset(m) == multiset(n)
    case (Rebuild(c, m), Rebuild(d, n)) => c == d && multiset(m) == multiset(n)
    case (_, _) => a == b
  }

  lemma IdsOfJoined(a: seq<IndexMember>, b: seq<IndexMember>)
    ensures IdsOf(a + b) == IdsOf(a) + IdsOf(b)
    ensures multiset(IdsOf(a + b)) == multiset(IdsOf(a)) + multiset(IdsOf(b))
  {
    assert IdsOf(a + b) == IdsOf(a) + IdsOf(b);
  }

  lemma DropAt<T>(s: seq<T>, i: nat)
    requires i < |s|
    ensures multiset(s[..i] + s[i + 1..]) == multiset(s) - multiset{s[i]}
    ensures s == s[..i] + [s[i]] + s[i + 1..]
  {
    assert s == s[..i] + [s[i]] + s[i + 1..];
  }

  lemma {:induction false} SameIds(m: seq<IndexMember>, n: seq<IndexMember>)
    requires multiset(m) == multiset(n)
    ensures multiset(IdsOf(m)) == multiset(IdsOf(n))
  {
    SameMembers(m, n);
    if m != [] {
      assert m[0] in multiset(n);
      var i :| 0 <= i < |n| && n[i] == m[0];
      var rest := n[..i] + n[i + 1..];
      DropFirst(m);
      DropAt(n, i);
      SameIds(m[1..], rest);
      IdsOfJoined([m[0]], m[1..]);
      IdsOfJoined(n[..i] + [n[i]], n[i + 1..]);
      IdsOfJoined(n[..i], [n[i]]);
      IdsOfJoined(n[..i], n[i + 1..]);
    }
  }

  /** Two listings of a batch have the same identity check, and the same sorted
      members unless it refuses a repeat. */
  lemma SameSorted(m: seq<IndexMember>, n: seq<IndexMember>)
    requires multiset(m) == multiset(n)
    ensures CheckMemberIds(SortedMembers(m)) == CheckMemberIds(SortedMembers(n))
    ensures CheckMemberIds(SortedMembers(m)).None? ==> SortedMembers(m) == SortedMembers(n)
    ensures m == [] <==> n == []
  {
    SameMembers(m, n);
    var s, t := SortedMembers(m), SortedMembers(n);
    SameIds(s, t);
    IdsSorted(s);
    IdsSorted(t);
    SortedOnce(Before, IdsOf(s), IdsOf(t));
    BatchIsChecked(m);
    if CheckMemberIds(s).None? {
      hide CheckMemberIds, SortedMembers;
      BatchOnce(s, t);
    }
  }

  lemma BatchOnce(s: seq<IndexMember>, t: seq<IndexMember>)
    requires Batch(s) && Sorted(ById, s) && Sorted(ById, t) && multiset(s) == multiset(t)
    ensures s == t
  {
    forall x, y | x in s && y in s ensures x == y || ById(x, y) || ById(y, x) {
      var i :| 0 <= i < |s| && s[i] == x;
      var j :| 0 <= j < |s| && s[j] == y;
    }
    SortedOnce(ById, s, t);
  }

  /** Listing order is no part of a request: every listing meets the same
      refusal, has the same canonical content, and builds the same version. */
  lemma ListingOrder(operation: Operation, change: Change, head: Option<Head>, current: Option<Current>)
    requires SameBatch(operation.change, change)
    ensures CheckChange(change) == CheckChange(operation.change)
    ensures CheckChange(change).None? ==>
      && Canonical(change) == Canonical(operation.change)
      && Permit(operation.(change := change), head) == Permit(operation, head)
      && SuccessorOf(operation.(change := change), current) == SuccessorOf(operation, current)
  {
    match operation.change
    case Insert(members) =>
      SameSorted(members, change.members);
      SameInsert(operation, change, head, current);
    case Rebuild(_, members) =>
      SameSorted(members, change.members);
      SameRebuild(operation, change, head, current);
    case Remove(ids) =>
      SameMembers(ids, change.ids);
      SortedOnce(Before, SortedIds(ids), SortedIds(change.ids));
      SameRemove(operation, change, head, current);
    case _ =>
  }

  ghost predicate SameRequest(operation: Operation, change: Change, head: Option<Head>, current: Option<Current>) {
    && CheckChange(change) == CheckChange(operation.change)
    && (CheckChange(change).None? ==>
          && Canonical(change) == Canonical(operation.change)
          && Permit(operation.(change := change), head) == Permit(operation, head)
          && SuccessorOf(operation.(change := change), current) == SuccessorOf(operation, current))
  }

  lemma SameInsert(operation: Operation, change: Change, head: Option<Head>, current: Option<Current>)
    requires operation.change.Insert? && change.Insert?
    requires var s, t := SortedMembers(operation.change.members), SortedMembers(change.members);
      CheckMemberIds(s) == CheckMemberIds(t) && (CheckMemberIds(s).None? ==> s == t)
    requires operation.change.members == [] <==> change.members == []
    ensures SameRequest(operation, change, head, current)
  {
    hide SortedMembers, InsertAll, CheckMemberIds, CheckFit, CheckFinite, CheckFamily;
  }

  lemma SameRebuild(operation: Operation, change: Change, head: Option<Head>, current: Option<Current>)
    requires operation.change.Rebuild? && change.Rebuild? && operation.change.config == change.config
    requires var s, t := SortedMembers(operation.change.members), SortedMembers(change.members);
      CheckMemberIds(s) == CheckMemberIds(t) && (CheckMemberIds(s).None? ==> s == t)
    ensures SameRequest(operation, change, head, current)
  {
    hide SortedMembers, RebuildAll, CheckMemberIds, CheckFit, CheckFinite, CheckFamily, Listed;
  }

  lemma SameRemove(operation: Operation, change: Change, head: Option<Head>, current: Option<Current>)
    requires operation.change.Remove? && change.Remove? && SortedIds(operation.change.ids) == SortedIds(change.ids)
    requires operation.change.ids == [] <==> change.ids == []
    ensures SameRequest(operation, change, head, current)
  {
    hide SortedIds, RemoveAll, CheckIds;
  }

  /** A batch that names one member twice is refused in every listing. */
  lemma RepeatsRefused(change: Change, i: nat, j: nat)
    requires match change
      case Insert(members) => i < j < |members| && members[i].id == members[j].id
      case Rebuild(_, members) => i < j < |members| && members[i].id == members[j].id
      case Remove(ids) => i < j < |ids| && ids[i] == ids[j]
      case _ => false
    ensures CheckChange(change).Some? && CheckChange(change).value.DuplicateMember?
  {
    match change
    case Insert(members) => MembersRepeat(members, i, j);
    case Rebuild(_, members) => MembersRepeat(members, i, j);
    case Remove(ids) => IdsRepeat(ids, i, j);
    hide CheckMemberIds, CheckFinite, CheckFit, CheckConfig, CheckFamily, SortedMembers;
  }

  lemma MembersRepeat(members: seq<IndexMember>, i: nat, j: nat)
    requires i < j < |members| && members[i].id == members[j].id
    ensures var refusal := CheckMemberIds(SortedMembers(members)); refusal.Some? && refusal.value.DuplicateMember?
  {
    var sorted := SortedMembers(members);
    BatchIsChecked(members);
    if Batch(sorted) {
      SameIds(sorted, members);
      DistinctIsCounted(IdsOf(sorted));
      DistinctIsCounted(IdsOf(members));
      assert false;
    }
    IdsSorted(sorted);
    OnlyDuplicates(IdsOf(sorted));
  }

  lemma IdsRepeat(ids: seq<Member>, i: nat, j: nat)
    requires i < j < |ids| && ids[i] == ids[j]
    ensures var refusal := CheckIds(SortedIds(ids)); refusal.Some? && refusal.value.DuplicateMember?
  {
    var sorted := SortedIds(ids);
    if OnceEach(sorted) {
      DistinctIsCounted(sorted);
      DistinctIsCounted(ids);
      assert false;
    }
    OnlyDuplicates(sorted);
  }

  lemma {:induction false} OnlyDuplicates(ids: seq<Member>)
    requires Sorted(Before, ids)
    ensures CheckIds(ids).Some? ==> CheckIds(ids).value.DuplicateMember?
  {
    if |ids| >= 2 {
      OnlyDuplicates(ids[1..]);
    }
  }
}
