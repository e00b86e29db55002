/** The stored graph of an HNSW index, its layers, and what insertion and
    removal make of them. */
module HnswGraph {
  import opened Options
  import opened Orders
  import opened Adjacency
  import opened Backbone
  import opened BestFirst

  /** A component is an f32, held as its 32-bit pattern. */
  type Component = n: nat | n < 0x1_0000_0000

  type Vector = seq<Component>

  /** Not a NaN and not an infinity: the exponent bits are not all ones. */
  predicate Finite(c: Component) {
    (c / 0x80_0000) % 0x100 != 0xff
  }

  datatype VectorDistance = L2 | Cosine | InnerProduct

  datatype Config = Config(dimensions: nat, distance: VectorDistance, efConstruction: nat, mNeighbours: nat)

  datatype Refusal = InvalidConfig | DimensionMismatch | InvalidVector | DistanceNotRepresentable

  datatype Result<+T> = Ok(value: T) | Err(refusal: Refusal)

  const USIZE_MAX: nat := 0xffff_ffff_ffff_ffff
  const MAX_LEVEL: nat := 16

  /** The place of positive infinity among f64 bit patterns. */
  const INFINITY: int := 0x7ff0_0000_0000_0000

  predicate ConfigOk(config: Config) {
    config.dimensions != 0 && config.mNeighbours != 0 && config.efConstruction != 0
  }

  function CheckVector(config: Config, vector: Vector): Option<Refusal> {
    if !ConfigOk(config) then Some(InvalidConfig)
    else if |vector| != config.dimensions then Some(DimensionMismatch)
    else if exists i | 0 <= i < |vector| :: !Finite(vector[i]) then Some(InvalidVector)
    else None
  }

  function SaturatingMul(a: nat, b: nat): nat {
    if a * b <= USIZE_MAX then a * b else USIZE_MAX
  }

  function Max(a: nat, b: nat): nat {
    if a < b then b else a
  }

  function Min(a: nat, b: nat): nat {
    if a < b then a else b
  }

  function DegreeLimit(config: Config, level: nat): nat {
    if level == 0 then SaturatingMul(config.mNeighbours, 2) else config.mNeighbours
  }

  function ConstructionBudget(config: Config): nat {
    Max(Max(config.efConstruction, config.mNeighbours), 1)
  }

  function QueryBeam(config: Config, k: nat): nat {
    Max(Max(k, SaturatingMul(config.mNeighbours, 8)), 1)
  }

  datatype Node = Node(vector: Vector, level: nat, neighbours: seq<set<Id>>, backbone: set<Id>)

  type Nodes = map<Id, Node>

  function Vectors(nodes: Nodes): map<Id, Vector> {
    map id | id in nodes :: nodes[id].vector
  }

  /** The normal links of one level. */
  function Layer(nodes: Nodes, level: nat): (adj: Adj) {
    map id | id in nodes && level < |nodes[id].neighbours| :: nodes[id].neighbours[level]
  }

  function Ring(nodes: Nodes): (adj: Adj)
    ensures adj.Keys == nodes.Keys
  {
    map id | id in nodes :: nodes[id].backbone
  }

  /** Everything a search at `level` follows: normal links, and at the base
      layer the backbone too. */
  function Around(nodes: Nodes, level: nat): (adj: Adj)
    ensures adj.Keys == Layer(nodes, level).Keys
  {
    map id | id in nodes && level < |nodes[id].neighbours| ::
      nodes[id].neighbours[level] + (if level == 0 then nodes[id].backbone else {})
  }

  function SetLayer(nodes: Nodes, level: nat, adj: Adj): (r: Nodes)
    ensures r.Keys == nodes.Keys
  {
    map id | id in nodes ::
      if level < |nodes[id].neighbours| && id in adj then
        nodes[id].(neighbours := nodes[id].neighbours[level := adj[id]])
      else nodes[id]
  }

  function SetRing(nodes: Nodes, ring: Adj): (r: Nodes)
    ensures r.Keys == nodes.Keys
  {
    map id | id in nodes ::
      if id in ring then nodes[id].(backbone := ring[id]) else nodes[id]
  }

  /** Where distances are measured: the stored vectors and the metric. A
      distance is the place of its f64 in `total_cmp` order. */
  datatype Space = Space(vectors: map<Id, Vector>, measure: (Vector, Vector) -> int)

  function Gauge(space: Space, query: Vector): Id -> int {
    (id: Id) => if id in space.vectors then space.measure(query, space.vectors[id]) else INFINITY
  }

  function RulerOf(space: Space): Ruler {
    (x: Id) => Gauge(space, if x in space.vectors then space.vectors[x] else [])
  }

  lemma LayerOfSet(nodes: Nodes, level: nat, adj: Adj)
    requires adj.Keys == Layer(nodes, level).Keys
    ensures Layer(SetLayer(nodes, level, adj), level) == adj
  {
    var r := SetLayer(nodes, level, adj);
    forall id | id in adj ensures id in Layer(r, level) && Layer(r, level)[id] == adj[id] {
      assert id in Layer(nodes, level);
    }
    assert Layer(r, level).Keys <= Layer(nodes, level).Keys;
  }

  /** Setting one level leaves the others, the backbone and the vectors. */
  lemma SetLayerFrame(nodes: Nodes, level: nat, adj: Adj)
    ensures Vectors(SetLayer(nodes, level, adj)) == Vectors(nodes)
    ensures Ring(SetLayer(nodes, level, adj)) == Ring(nodes)
  {
  }

  lemma OtherLayer(nodes: Nodes, level: nat, adj: Adj, l: nat)
    requires l != level
    ensures Layer(SetLayer(nodes, level, adj), l) == Layer(nodes, l)
  {
  }

  lemma SetSameLayer(nodes: Nodes, level: nat)
    ensures SetLayer(nodes, level, Layer(nodes, level)) == nodes
  {
    forall id | id in nodes ensures SetLayer(nodes, level, Layer(nodes, level))[id] == nodes[id] {
      if level < |nodes[id].neighbours| {
        assert Layer(nodes, level)[id] == nodes[id].neighbours[level];
        assert nodes[id].neighbours[level := Layer(nodes, level)[id]] == nodes[id].neighbours;
      }
    }
  }

  lemma SetLayerTwice(nodes: Nodes, level: nat, a: Adj, b: Adj)
    requires a.Keys == Layer(nodes, level).Keys == b.Keys
    ensures SetLayer(SetLayer(nodes, level, a), level, b) == SetLayer(nodes, level, b)
  {
    var one := SetLayer(nodes, level, a);
    forall id | id in nodes && level < |nodes[id].neighbours|
      ensures SetLayer(one, level, b)[id] == SetLayer(nodes, level, b)[id]
    {
      assert id in Layer(nodes, level);
      assert one[id].neighbours[level := b[id]] == nodes[id].neighbours[level := b[id]];
    }
  }

  lemma SetRingIs(nodes: Nodes, ring: Adj)
    requires ring.Keys == nodes.Keys
    ensures Ring(SetRing(nodes, ring)) == ring && Vectors(SetRing(nodes, ring)) == Vectors(nodes)
    ensures forall l: nat :: Layer(SetRing(nodes, ring), l) == Layer(nodes, l)
  {
  }

  ghost predicate NodeOk(config: Config, node: Node) {
    && CheckVector(config, node.vector).None?
    && node.level <= MAX_LEVEL
    && |node.neighbours| == node.level + 1
  }

  ghost predicate LayerOk(config: Config, nodes: Nodes, level: nat) {
    Reciprocal(Layer(nodes, level)) && Bounded(Layer(nodes, level), DegreeLimit(config, level))
  }

  ghost predicate LayersOk(config: Config, nodes: Nodes) {
    forall level: nat :: LayerOk(config, nodes, level)
  }

  /** The entry is the smallest identity at the highest level. */
  ghost predicate IsEntry(nodes: Nodes, entry: Option<Id>, maxLevel: nat) {
    if nodes == map[] then entry.None? && maxLevel == 0
    else
      && entry.Some? && entry.value in nodes && nodes[entry.value].level == maxLevel
      && forall id | id in nodes ::
           nodes[id].level <= maxLevel && (nodes[id].level == maxLevel ==> entry.value <= id)
  }

  /** Everything the graph promises except the configuration's own validity,
      which nothing stored can lack. */
  ghost predicate Sound(config: Config, nodes: Nodes) {
    && (forall id | id in nodes :: NodeOk(config, nodes[id]))
    && LayersOk(config, nodes)
    && SingleCycle(Ring(nodes))
  }

  /** A graph any snapshot may hold. */
  ghost predicate WellFormed(config: Config, nodes: Nodes, entry: Option<Id>, maxLevel: nat, levelState: bv64) {
    && ConfigOk(config) && levelState != 0
    && IsEntry(nodes, entry, maxLevel)
    && Sound(config, nodes)
  }

  lemma AroundInside(nodes: Nodes, level: nat)
    requires Inside(Layer(nodes, level)) && Inside(Ring(nodes))
    requires forall id | id in nodes :: |nodes[id].neighbours| > 0
    ensures Inside(Around(nodes, level))
  {
    var around := Around(nodes, level);
    forall x, y | x in around && y in around[x] ensures y in around {
      if y in nodes[x].neighbours[level] {
        assert y in Layer(nodes, level)[x];
      } else {
        assert level == 0 && y in Ring(nodes)[x];
      }
    }
  }

  /** From any node the base layer reaches every node. */
  lemma BaseSpans(config: Config, nodes: Nodes, entry: Id)
    requires Sound(config, nodes) && entry in nodes
    ensures Inside(Around(nodes, 0)) && Around(nodes, 0).Keys == nodes.Keys
    ensures Spans(Around(nodes, 0), [entry])
  {
    var c :| CycleOf(Ring(nodes), c);
    CycleIsReciprocal(Ring(nodes), c);
    assert LayerOk(config, nodes, 0);
    assert Inside(Layer(nodes, 0));
    assert forall id | id in nodes :: NodeOk(config, nodes[id]);
    AroundInside(nodes, 0);
    CycleSpans(Ring(nodes), [entry]);
    var around := Around(nodes, 0);
    forall id | id in nodes ensures id in around {
      assert NodeOk(config, nodes[id]);
    }
    forall s: set<Id> | Elements([entry]) <= s && Closed(around, s) ensures around.Keys <= s {
      forall x, y | x in s && x in Ring(nodes) && y in Ring(nodes)[x] ensures y in s {
        assert x in around && y in around[x];
      }
      assert Closed(Ring(nodes), s);
    }
  }

  /** Which refusal a vector meets: a configuration with a zero, then the wrong
      dimension, then a component at or past infinity. */
  lemma VectorRefusal(config: Config, vector: Vector)
    ensures CheckVector(config, vector)
      == if config.dimensions == 0 || config.mNeighbours == 0 || config.efConstruction == 0 then Some(InvalidConfig)
         else if |vector| != config.dimensions then Some(DimensionMismatch)
         else if exists i | 0 <= i < |vector| :: vector[i] % 0x8000_0000 >= 0x7f80_0000 then Some(InvalidVector)
         else None
  {
    forall i | 0 <= i < |vector| ensures Finite(vector[i]) <==> vector[i] % 0x8000_0000 < 0x7f80_0000 {
      FiniteIs(vector[i]);
    }
    hide Finite;
  }

  lemma FiniteIs(c: Component)
    ensures Finite(c) <==> c % 0x8000_0000 < 0x7f80_0000
  {
  }
}
