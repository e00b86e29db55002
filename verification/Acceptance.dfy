/** Which operations the two checks accept, and which refusal the others meet,
    said of the request as the caller lists it. */
module Acceptance {
  import opened Options
  import opened Orders
  import opened Records
  import opened Audit
  import opened Validate
  import HnswGraph

  /** Below infinity once the sign is dropped. */
  predicate Measurable(c: HnswGraph.Component) {
    c % 0x8000_0000 < 0x7f80_0000
  }

  predicate Usable(content: Content) {
    content.VectorContent? ==> forall i | 0 <= i < |content.vector| :: Measurable(content.vector[i])
  }

  /** A configuration an engine can run under. */
  predicate Runs(config: IndexConfig) {
    match config
    case Vector(hnsw) => hnsw.dimensions > 0 && hnsw.mNeighbours > 0 && hnsw.efConstruction > 0
    case Fts(fts) => fts.tokenizer.name == "Simple" && fts.tokenizer.args == [] && fts.filters == []
  }

  predicate Kin(config: IndexConfig, content: Content) {
    config.Vector? <==> content.VectorContent?
  }

  /** Content of the index's family and, for a vector, of its dimension. */
  predicate Fits(config: IndexConfig, content: Content) {
    match (config, content)
    case (Vector(hnsw), VectorContent(vector)) => |vector| == hnsw.dimensions
    case (Fts(_), Document(_)) => true
    case (_, _) => false
  }

  predicate Twice(ids: seq<Member>, id: Member) {
    exists i, j :: 0 <= i < j < |ids| && ids[i] == id && ids[j] == id
  }

  ghost predicate Once(ids: seq<Member>) {
    forall id :: !Twice(ids, id)
  }

  /** The lowest identity a batch lists twice. */
  ghost predicate LowestTwice(ids: seq<Member>, id: Member) {
    Twice(ids, id) && forall other | Twice(ids, other) :: id <= other
  }

  ghost predicate AllUsable(members: seq<IndexMember>) {
    forall m | m in members :: Usable(m.content)
  }

  ghost predicate AllKin(config: IndexConfig, members: seq<IndexMember>) {
    forall m | m in members :: Kin(config, m.content)
  }

  ghost predicate AllFit(config: IndexConfig, members: seq<IndexMember>) {
    forall m | m in members :: Fits(config, m.content)
  }

  ghost predicate OneFamily(members: seq<IndexMember>) {
    forall m, n | m in members && n in members :: m.content.VectorContent? <==> n.content.VectorContent?
  }

  function OtherFamily(family: Family): Family {
    if family.VectorFamily? then FtsFamily else VectorFamily
  }

  function FamilyOf(config: IndexConfig): Family {
    if config.Vector? then VectorFamily else FtsFamily
  }

  function Misconfigured(config: IndexConfig): Refusal {
    if config.Vector? then EngineRefused(HnswGraph.InvalidConfig) else NotYetImplemented
  }

  ghost predicate Duplicate(refusal: Option<Refusal>, ids: seq<Member>) {
    refusal.Some? && refusal.value.DuplicateMember? && LowestTwice(ids, refusal.value.id)
  }

  /** The family of the member of lowest identity, against the other. */
  ghost predicate Mixed(refusal: Option<Refusal>, members: seq<IndexMember>) {
    exists m | m in members ::
      && (forall n | n in members :: m.id <= n.id)
      && refusal == Some(FamilyMismatch(ContentFamily(m.content), OtherFamily(ContentFamily(m.content))))
  }

  /** What the stateless check answers, in the order of its steps. */
  ghost predicate Answers(change: Change, r: Option<Refusal>) {
    match change
    case Create(config) => r == if Runs(config) then None else Some(Misconfigured(config))
    case Insert(members) =>
      if members == [] then r == Some(EmptyBatch(InsertT))
      else if !Once(IdsOf(members)) then Duplicate(r, IdsOf(members))
      else if !AllUsable(members) then r == Some(EngineRefused(HnswGraph.InvalidVector))
      else if !OneFamily(members) then Mixed(r, members)
      else r == None
    case Remove(ids) =>
      if ids == [] then r == Some(EmptyBatch(RemoveT))
      else if !Once(ids) then Duplicate(r, ids)
      else r == None
    case Rebuild(config, members) =>
      if !Once(IdsOf(members)) then Duplicate(r, IdsOf(members))
      else if !AllUsable(members) then r == Some(EngineRefused(HnswGraph.InvalidVector))
      else if !Runs(config) then r == Some(Misconfigured(config))
      else r == Unfit(config, members)
    case Destroy(_) => r == None
  }

  /** Every member's family is checked before any member's dimension. */
  ghost function Unfit(config: IndexConfig, members: seq<IndexMember>): Option<Refusal> {
    if !AllKin(config, members) then Some(FamilyMismatch(FamilyOf(config), OtherFamily(FamilyOf(config))))
    else if !AllFit(config, members) then Some(EngineRefused(HnswGraph.DimensionMismatch))
    else None
  }

  // ---------- repeats ----------

  lemma {:induction false} TwiceCounted(ids: seq<Member>, id: Member)
    ensures Twice(ids, id) <==> multiset(ids)[id] >= 2
    ensures id in ids <==> multiset(ids)[id] >= 1
  {
    if ids != [] {
      var front, last := ids[..|ids| - 1], ids[|ids| - 1];
      assert ids == front + [last];
      TwiceCounted(front, id);
      if Twice(front, id) {
        var i, j :| 0 <= i < j < |front| && front[i] == id && front[j] == id;
        assert ids[i] == id && ids[j] == id;
      } else if id in front && last == id {
        var i :| 0 <= i < |front| && front[i] == id;
        assert ids[i] == id && ids[|ids| - 1] == id;
      }
    }
  }

  ghost predicate Found(ids: seq<Member>, r: Option<Refusal>) {
    if r.None? then forall id :: multiset(ids)[id] <= 1
    else
      && r.value.DuplicateMember? && multiset(ids)[r.value.id] >= 2
      && forall other | multiset(ids)[other] >= 2 :: r.value.id <= other
  }

  lemma {:induction false} FirstRepeat(ids: seq<Member>)
    requires Sorted(Before, ids)
    ensures Found(ids, CheckIds(ids))
  {
    if |ids| >= 2 {
      if ids[0] == ids[1] {
        LeadRepeats(ids);
      } else {
        FirstRepeat(ids[1..]);
        LeadOnce(ids);
      }
    } else if |ids| == 1 {
      assert ids == [ids[0]];
    }
  }

  lemma LeadsAll(ids: seq<Member>, other: Member)
    requires Sorted(Before, ids) && other in ids
    ensures ids[0] <= other
  {
    var i :| 0 <= i < |ids| && ids[i] == other;
    if i > 0 {
      assert !Before(ids[i], ids[0]);
    }
  }

  lemma LeadRepeats(ids: seq<Member>)
    requires |ids| >= 2 && Sorted(Before, ids) && ids[0] == ids[1]
    ensures Found(ids, Some(DuplicateMember(ids[0])))
  {
    assert ids == [ids[0]] + ([ids[1]] + ids[2..]);
    forall other | multiset(ids)[other] >= 2 ensures ids[0] <= other {
      assert other in multiset(ids);
      LeadsAll(ids, other);
    }
  }

  lemma LeadOnce(ids: seq<Member>)
    requires |ids| >= 2 && Sorted(Before, ids) && ids[0] != ids[1]
    ensures multiset(ids)[ids[0]] == 1
    ensures forall other | other != ids[0] :: multiset(ids)[other] == multiset(ids[1..])[other]
  {
    assert ids == [ids[0]] + ids[1..];
    assert !Before(ids[1], ids[0]);
    forall other | other in ids[1..] ensures ids[1] <= other {
      LeadsAll(ids[1..], other);
    }
    assert ids[0] !in multiset(ids[1..]);
  }

  /** The identity check finds the lowest repeat of any listing. */
  lemma RepeatsFound(sorted: seq<Member>, ids: seq<Member>)
    requires Sorted(Before, sorted) && multiset(sorted) == multiset(ids)
    ensures CheckIds(sorted).None? <==> Once(ids)
    ensures CheckIds(sorted).Some? ==> Duplicate(CheckIds(sorted), ids)
  {
    FirstRepeat(sorted);
    hide CheckIds, Twice;
    forall id ensures Twice(ids, id) <==> multiset(ids)[id] >= 2 {
      TwiceCounted(ids, id);
    }
  }

  lemma MembersRepeatFound(members: seq<IndexMember>)
    ensures var r := CheckMemberIds(SortedMembers(members));
      && (r.None? <==> Once(IdsOf(members)))
      && (r.Some? ==> Duplicate(r, IdsOf(members)))
  {
    var sorted := SortedMembers(members);
    IdsSorted(sorted);
    SameIds(sorted, members);
    RepeatsFound(IdsOf(sorted), IdsOf(members));
    hide SortedMembers, Once, Duplicate, CheckIds;
  }

  // ---------- contents ----------

  lemma MeasurableIs(c: HnswGraph.Component)
    ensures HnswGraph.Finite(c) <==> Measurable(c)
  {
  }

  lemma UsableIs(content: Content)
    ensures FiniteContent(content) <==> Usable(content)
  {
    hide HnswGraph.Finite, Measurable;
    if content.VectorContent? {
      forall i | 0 <= i < |content.vector| ensures HnswGraph.Finite(content.vector[i]) <==> Measurable(content.vector[i]) {
        MeasurableIs(content.vector[i]);
      }
    }
  }

  lemma SortedHas(members: seq<IndexMember>)
    ensures forall m :: m in SortedMembers(members) <==> m in members
    ensures members == [] <==> SortedMembers(members) == []
  {
    var sorted := SortedMembers(members);
    SameMembers(sorted, members);
    hide SortedMembers;
    forall m ensures m in sorted <==> m in members {
      assert m in sorted <==> m in Elements(sorted);
      assert m in members <==> m in Elements(members);
    }
  }

  lemma {:induction false} FiniteAnswers(members: seq<IndexMember>)
    ensures CheckFinite(members) == if AllUsable(members) then None else Some(EngineRefused(HnswGraph.InvalidVector))
  {
    hide FiniteContent, Usable;
    if members != [] {
      UsableIs(members[0].content);
      FiniteAnswers(members[1..]);
      assert forall m :: m in members <==> m == members[0] || m in members[1..];
    }
  }

  lemma {:induction false} FamilyAnswers(expected: Family, members: seq<IndexMember>)
    ensures CheckFamily(expected, members)
      == if forall m | m in members :: ContentFamily(m.content) == expected then None
         else Some(FamilyMismatch(expected, OtherFamily(expected)))
  {
    if members != [] {
      FamilyAnswers(expected, members[1..]);
      assert forall m :: m in members <==> m == members[0] || m in members[1..];
    }
  }

  lemma ContentAnswers(config: IndexConfig, content: Content)
    requires Runs(config) && Usable(content) && Kin(config, content)
    ensures CheckContent(config, content)
      == if Fits(config, content) then None else Some(EngineRefused(HnswGraph.DimensionMismatch))
  {
    UsableIs(content);
    hide HnswGraph.Finite, Usable;
  }

  lemma {:induction false} ContentsAnswer(config: IndexConfig, members: seq<IndexMember>)
    requires Runs(config) && AllUsable(members) && AllKin(config, members)
    ensures CheckContents(config, members)
      == if AllFit(config, members) then None else Some(EngineRefused(HnswGraph.DimensionMismatch))
  {
    hide CheckContent, Usable, Fits, Runs;
    if members != [] {
      assert forall m :: m in members <==> m == members[0] || m in members[1..];
      ContentAnswers(config, members[0].content);
      ContentsAnswer(config, members[1..]);
    }
  }

  lemma FitAnswers(config: IndexConfig, members: seq<IndexMember>)
    requires Runs(config) && AllUsable(members)
    ensures CheckFit(config, members) == Unfit(config, members)
  {
    hide CheckFamily, CheckContents, Usable, Fits, Runs;
    FamilyAnswers(ConfigFamily(config), members);
    KinIs(config, members);
    if AllKin(config, members) {
      ContentsAnswer(config, members);
    }
  }

  lemma KinIs(config: IndexConfig, members: seq<IndexMember>)
    ensures AllKin(config, members) <==> forall m | m in members :: ContentFamily(m.content) == ConfigFamily(config)
  {
  }

  lemma SortedFits(config: IndexConfig, members: seq<IndexMember>)
    requires Runs(config) && AllUsable(members)
    ensures CheckFit(config, SortedMembers(members)) == Unfit(config, members)
  {
    SortedHas(members);
    hide CheckFit, SortedMembers, Usable, Fits, Runs, Kin;
    FitAnswers(config, SortedMembers(members));
  }

  lemma SortedFinite(members: seq<IndexMember>)
    ensures CheckFinite(SortedMembers(members)) == if AllUsable(members) then None else Some(EngineRefused(HnswGraph.InvalidVector))
  {
    SortedHas(members);
    hide CheckFinite, SortedMembers, Usable;
    FiniteAnswers(SortedMembers(members));
  }

  lemma ConfigAnswers(config: IndexConfig)
    ensures CheckConfig(config) == if Runs(config) then None else Some(Misconfigured(config))
  {
  }

  lemma FamilyFound(members: seq<IndexMember>)
    requires members != []
    ensures var sorted := SortedMembers(members);
      var r := CheckFamily(ContentFamily(sorted[0].content), sorted);
      && (r.None? <==> OneFamily(members))
      && (r.Some? ==> Mixed(r, members))
  {
    SortedHas(members);
    var sorted := SortedMembers(members);
    FamilyAnswers(ContentFamily(sorted[0].content), sorted);
    var m := sorted[0];
    forall n | n in members ensures m.id <= n.id {
      assert n in sorted;
      var i :| 0 <= i < |sorted| && sorted[i] == n;
      assert i > 0 ==> !ById(sorted[i], sorted[0]);
    }
    assert m in members;
    hide SortedMembers, CheckFamily;
  }

  /** The stateless check answers every request as documented, whatever order
      its members are listed in. */
  lemma CheckAnswers(change: Change)
    ensures Answers(change, CheckChange(change))
  {
    match change
    case Create(config) => ConfigAnswers(config);
    case Insert(members) => InsertAnswers(members);
    case Remove(ids) => RepeatsFound(SortedIds(ids), ids);
    case Rebuild(config, members) => RebuildAnswers(config, members);
    case Destroy(_) =>
  }

  lemma InsertAnswers(members: seq<IndexMember>)
    ensures Answers(Insert(members), CheckChange(Insert(members)))
  {
    if members != [] {
      MembersRepeatFound(members);
      SortedFinite(members);
      FamilyFound(members);
    }
    hide SortedMembers, CheckMemberIds, CheckFinite, CheckFamily, Once, Duplicate, Mixed, OneFamily, AllUsable;
  }

  lemma RebuildAnswers(config: IndexConfig, members: seq<IndexMember>)
    ensures Answers(Rebuild(config, members), CheckChange(Rebuild(config, members)))
  {
    MembersRepeatFound(members);
    SortedFinite(members);
    ConfigAnswers(config);
    hide SortedMembers, CheckMemberIds, CheckFinite, CheckConfig, CheckFit, Once, Duplicate, AllUsable, Runs, Misconfigured, Unfit;
    if Runs(config) && AllUsable(members) {
      SortedFits(config, members);
    }
  }

  /** Exactly these requests pass the stateless check. */
  ghost predicate Acceptable(change: Change) {
    match change
    case Create(config) => Runs(config)
    case Insert(members) => members != [] && Once(IdsOf(members)) && AllUsable(members) && OneFamily(members)
    case Remove(ids) => ids != [] && Once(ids)
    case Rebuild(config, members) => Once(IdsOf(members)) && AllUsable(members) && Runs(config) && AllFit(config, members)
    case Destroy(_) => true
  }

  lemma CheckedIff(change: Change)
    ensures CheckChange(change).None? <==> Acceptable(change)
  {
    CheckAnswers(change);
    FitIsKin(change);
    hide CheckChange, Once, AllUsable, Runs, Misconfigured, AllKin, AllFit, OneFamily;
  }

  lemma FitIsKin(change: Change)
    ensures change.Rebuild? && AllFit(change.config, change.members) ==> AllKin(change.config, change.members)
  {
  }

  // ---------- against a state ----------

  /** What the stateful check answers for a checked request. */
  ghost predicate Permits(change: Change, head: Option<Head>, r: Option<Refusal>) {
    match head
    case None => r == if change.Create? then None else Some(TransitionNotPermitted(AbsentKind))
    case Some(Head(_, config, state)) =>
      if state.Destroyed? then r == Some(TransitionNotPermitted(DestroyedKind))
      else
        match change
        case Create(_) => r == Some(TransitionNotPermitted(ActiveKind))
        case Insert(members) => r == Unfit(config, members)
        case Rebuild(next, _) =>
          r == if next.Vector? == config.Vector? then None else Some(FamilyMismatch(FamilyOf(config), FamilyOf(next)))
        case Remove(_) => r == None
        case Destroy(_) => r == None
  }

  lemma PermitAnswers(operation: Operation, head: Option<Head>)
    requires CheckChange(operation.change).None?
    requires head.Some? ==> head.value.identity == operation.index
    requires head.Some? && head.value.state.Active? ==> CheckConfig(head.value.config).None?
    ensures Permits(operation.change, head, Permit(operation, head))
  {
    CheckedIff(operation.change);
    if head.Some? {
      ConfigAnswers(head.value.config);
      if operation.change.Insert? && head.value.state.Active? {
        SortedFits(head.value.config, operation.change.members);
      }
    }
    hide CheckChange, CheckFit, CheckConfig, Unfit, Runs, AllUsable, Once, OneFamily, SortedMembers;
  }
}
