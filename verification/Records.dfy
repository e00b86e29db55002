/** The lifecycle's values: operations, heads, version payloads, audit records,
    and the engine a version holds. */
module Records {
  import opened Options
  import opened Orders
  import HnswGraph
  import Identifiers

  datatype Result<+T> = Ok(value: T) | Err(refusal: Refusal)

  /** A member identity: any totally ordered consumer value. */
  type Member = int

  /** Consumer values the lifecycle stores and never interprets. */
  type Provenance = int
  type Retention = int

  type Index = Identifiers.Identity
  type Key = string

  /** Versions count from 1 in a u64. */
  const VERSION_MAX: nat := Identifiers.U64_MAX

  datatype TokenizerConfig = TokenizerConfig(name: string, args: seq<string>)

  datatype FtsConfig = FtsConfig(tokenizer: TokenizerConfig, filters: seq<TokenizerConfig>)

  datatype IndexConfig = Vector(hnsw: HnswGraph.Config) | Fts(fts: FtsConfig)

  datatype Family = VectorFamily | FtsFamily

  datatype Content = VectorContent(vector: HnswGraph.Vector) | Document(text: string)

  datatype IndexMember = IndexMember(id: Member, provenance: Provenance, content: Content)

  datatype Change =
    | Create(config: IndexConfig)
    | Insert(members: seq<IndexMember>)
    | Remove(ids: seq<Member>)
    | Rebuild(config: IndexConfig, members: seq<IndexMember>)
    | Destroy(retention: Retention)

  datatype Transition = CreateT | InsertT | RemoveT | RebuildT | DestroyT

  datatype Operation = Operation(index: Index, key: Key, change: Change)

  /** The canonical content a digest stands for: index and change, members in
      identity order. Equal digests mean equal canonical content. */
  datatype Digest = Digest(index: Index, change: Change)

  datatype OperationIdentity = OperationIdentity(key: Key, digest: Digest)

  datatype State = Active(version: nat) | Destroyed(lastVersion: nat, retention: Retention, operation: Key)

  datatype StateKind = AbsentKind | ActiveKind | DestroyedKind

  datatype Head = Head(identity: Index, config: IndexConfig, state: State)

  datatype Entry = Entry(provenance: Provenance, introduced: nat, supersedes: Option<nat>)

  type Table = map<Member, Entry>

  datatype MemberChange =
    | Inserted(id: Member)
    | Replaced(id: Member, previous: Entry)
    | Removed(id: Member, previous: Entry)
    | AbsentOnRemove(id: Member)
    | Dropped(id: Member, previous: Entry)
    | Retired(id: Member, previous: Entry)

  /** An engine is determined by its configuration and the calls made on it
      since it was empty: both engines are deterministic in them. */
  datatype Call = Put(id: Member, content: Content) | Take(id: Member)

  datatype Engine = Engine(config: IndexConfig, calls: seq<Call>)

  datatype Payload = Payload(index: Index, version: nat, predecessor: Option<nat>, operation: OperationIdentity,
                             config: IndexConfig, engine: Engine, members: Table)

  datatype Record = Record(index: Index, operation: OperationIdentity, transition: Transition, from: Option<nat>,
                           resulting: State, previousConfig: Option<IndexConfig>, changes: seq<MemberChange>)

  datatype Refusal =
    | EmptyBatch(transition: Transition)
    | DuplicateMember(id: Member)
    | FamilyMismatch(expected: Family, actual: Family)
    | EngineRefused(reason: HnswGraph.Refusal)
    | NotYetImplemented
    | RecordMismatch
    | TransitionNotPermitted(state: StateKind)
    | VersionExhausted

  function ConfigFamily(config: IndexConfig): Family {
    if config.Vector? then VectorFamily else FtsFamily
  }

  function ContentFamily(content: Content): Family {
    if content.VectorContent? then VectorFamily else FtsFamily
  }

  function TransitionOf(change: Change): Transition {
    match change
    case Create(_) => CreateT
    case Insert(_) => InsertT
    case Remove(_) => RemoveT
    case Rebuild(_, _) => RebuildT
    case Destroy(_) => DestroyT
  }

  function KindOf(head: Option<Head>): StateKind {
    if head.None? then AbsentKind else if head.value.state.Active? then ActiveKind else DestroyedKind
  }

  predicate PermittedFrom(transition: Transition, kind: StateKind) {
    if transition == CreateT then kind == AbsentKind else kind == ActiveKind
  }

  predicate ById(a: IndexMember, b: IndexMember) {
    a.id < b.id
  }

  predicate Before(a: Member, b: Member) {
    a < b
  }

  function SortedMembers(members: seq<IndexMember>): (r: seq<IndexMember>)
    ensures multiset(r) == multiset(members) && |r| == |members| && Sorted(ById, r)
  {
    Sort(ById, members)
  }

  function SortedIds(ids: seq<Member>): (r: seq<Member>)
    ensures multiset(r) == multiset(ids) && |r| == |ids| && Sorted(Before, r)
  {
    Sort(Before, ids)
  }

  function IdsOf(members: seq<IndexMember>): (r: seq<Member>)
    ensures |r| == |members| && forall i | 0 <= i < |r| :: r[i] == members[i].id
  {
    seq(|members|, i requires 0 <= i < |members| => members[i].id)
  }

  /** The change with its members in identity order. */
  function Canonical(change: Change): Change {
    match change
    case Insert(members) => Insert(SortedMembers(members))
    case Remove(ids) => Remove(SortedIds(ids))
    case Rebuild(config, members) => Rebuild(config, SortedMembers(members))
    case _ => change
  }

  function IdentityOf(operation: Operation): OperationIdentity {
    OperationIdentity(operation.key, Digest(operation.index, Canonical(operation.change)))
  }

  /** The only pipeline the full-text engine runs. */
  predicate SimplePipeline(config: FtsConfig) {
    config.tokenizer.name == "Simple" && config.tokenizer.args == [] && config.filters == []
  }

  function CheckConfig(config: IndexConfig): Option<Refusal> {
    match config
    case Vector(hnsw) => if HnswGraph.ConfigOk(hnsw) then None else Some(EngineRefused(HnswGraph.InvalidConfig))
    case Fts(fts) => if SimplePipeline(fts) then None else Some(NotYetImplemented)
  }

  /** The check an engine under `config` makes when `content` enters it. */
  function CheckContent(config: IndexConfig, content: Content): Option<Refusal> {
    match (config, content)
    case (Vector(hnsw), VectorContent(vector)) =>
      var refusal := HnswGraph.CheckVector(hnsw, vector);
      if refusal.Some? then Some(EngineRefused(refusal.value)) else None
    case (Fts(fts), Document(_)) => if SimplePipeline(fts) then None else Some(NotYetImplemented)
    case (_, _) => Some(FamilyMismatch(ConfigFamily(config), ContentFamily(content)))
  }

  function EngineInsert(engine: Engine, id: Member, content: Content): Result<Engine> {
    var refusal := CheckContent(engine.config, content);
    if refusal.Some? then Err(refusal.value) else Ok(Engine(engine.config, engine.calls + [Put(id, content)]))
  }

  function EngineRemove(engine: Engine, id: Member): Result<Engine> {
    if engine.config.Fts? && !SimplePipeline(engine.config.fts) then Err(NotYetImplemented)
    else Ok(Engine(engine.config, engine.calls + [Take(id)]))
  }

  /** What an engine holds after its calls. */
  function Holds(calls: seq<Call>): map<Member, Content> {
    if calls == [] then map[]
    else
      var held := Holds(calls[..|calls| - 1]);
      match calls[|calls| - 1]
      case Put(id, content) => held[id := content]
      case Take(id) => held - {id}
  }

  function Lookup(table: Table, id: Member): Option<Entry> {
    if id in table then Some(table[id]) else None
  }

  function Predecessor(version: nat): Option<nat> {
    if version <= 1 then None else Some(version - 1)
  }

  /** What decoding a stored payload checks beyond its bytes. */
  predicate DecoderAccepts(payload: Payload) {
    && payload.engine.config == payload.config
    && Holds(payload.engine.calls).Keys == payload.members.Keys
    && payload.predecessor == Predecessor(payload.version)
    && forall id | id in payload.members :: EntryFits(payload.members[id], payload.version)
  }

  predicate EntryFits(entry: Entry, version: nat) {
    entry.introduced <= version && (entry.supersedes.Some? ==> entry.supersedes.value < entry.introduced)
  }

  /** A payload the lifecycle can have published. */
  ghost predicate Publishable(payload: Payload) {
    DecoderAccepts(payload) && CheckConfig(payload.config).None? && 1 <= payload.version <= VERSION_MAX
  }
}
