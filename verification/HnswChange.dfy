/** What inserting and removing a node make of the graph, and why the graph
    stays well-formed. */
module HnswChange {
  import opened Options
  import opened Orders
  import opened Adjacency
  import opened Backbone
  import opened BestFirst
  import opened HnswGraph

  /** `after` is `before` without `id`: on every level its neighbours are linked
      pairwise, on the backbone its two neighbours are joined. */
  ghost predicate IsRemoval(config: Config, measure: (Vector, Vector) -> int, before: Nodes, after: Nodes, id: Id)
    requires Sound(config, before)
  {
    && after.Keys == before.Keys - {id}
    && (forall z | z in after :: SameShape(before[z], after[z]))
    && (forall l: nat :: Layer(after, l) == LayerWithout(config, measure, before, id, l))
    && Ring(after) == RingWithout(before, id)
  }

  ghost predicate SameShape(a: Node, b: Node) {
    a.vector == b.vector && a.level == b.level && |a.neighbours| == |b.neighbours|
  }

  ghost function LayerWithout(config: Config, measure: (Vector, Vector) -> int, before: Nodes, id: Id, l: nat): Adj
    requires LayersOk(config, before)
  {
    assert LayerOk(config, before, l);
    Removed(Layer(before, l), RulerOf(Space(Vectors(before) - {id}, measure)), id, DegreeLimit(config, l))
  }

  ghost function RingWithout(before: Nodes, id: Id): Adj
    requires SingleCycle(Ring(before))
  {
    if id in before then
      BypassKeepsCycle(Ring(before), id);
      Bypassed(Ring(before), id)
    else Ring(before)
  }

  lemma RemovalKeepsSound(config: Config, measure: (Vector, Vector) -> int, before: Nodes, after: Nodes, id: Id)
    requires Sound(config, before) && IsRemoval(config, measure, before, after, id)
    ensures Sound(config, after)
  {
    forall l: nat ensures LayerOk(config, after, l) {
      assert LayerOk(config, before, l);
      RemovedKeepsLayer(Layer(before, l), RulerOf(Space(Vectors(before) - {id}, measure)), id, DegreeLimit(config, l));
      assert Layer(after, l) == LayerWithout(config, measure, before, id, l);
    }
    forall z | z in after ensures NodeOk(config, after[z]) {
      assert NodeOk(config, before[z]) && SameShape(before[z], after[z]);
    }
    if id in before {
      BypassKeepsCycle(Ring(before), id);
    }
  }

  /** Removing a node that is not the entry leaves the entry right. */
  lemma EntrySurvives(before: Nodes, after: Nodes, id: Id, entry: Option<Id>, maxLevel: nat)
    requires IsEntry(before, entry, maxLevel) && entry != Some(id)
    requires after.Keys == before.Keys - {id}
    requires forall z | z in after :: after[z].level == before[z].level
    ensures IsEntry(after, entry, maxLevel)
  {
    if before == map[] {
      assert after == map[];
    } else {
      var e: Id := entry.value;
      assert e in after && after[e].level == before[e].level;
    }
  }

  function FreshNode(vector: Vector, level: nat): Node {
    Node(vector, level, seq(level + 1, i => {}), {})
  }

  /** Steepest descent through the levels `from` down to `to`. */
  function Descend(nodes: Nodes, d: Id -> int, entry: Id, from: nat, to: nat, budget: nat): Id
    decreases from
  {
    if from < to || from == 0 then entry
    else Descend(nodes, d, Walk(Around(nodes, from), d, entry, budget), from - 1, to, budget)
  }

  /** The nodes a new node is offered at `level`: the nearest a search from
      `entry` finds, as many as the degree limit. */
  function Candidates(config: Config, d: Id -> int, nodes: Nodes, entry: Id, level: nat): (c: seq<Id>)
    ensures Elements(c) <= Layer(nodes, level).Keys
  {
    var found := Kept(d, Visits(Around(nodes, level), d, [entry], ConstructionBudget(config)), ConstructionBudget(config));
    var c := Take(found, DegreeLimit(config, level));
    CandidatesInLayer(config, d, nodes, entry, level);
    c
  }

  lemma CandidatesInLayer(config: Config, d: Id -> int, nodes: Nodes, entry: Id, level: nat)
    ensures
      var found := Kept(d, Visits(Around(nodes, level), d, [entry], ConstructionBudget(config)), ConstructionBudget(config));
      Elements(Take(found, DegreeLimit(config, level))) <= Layer(nodes, level).Keys
  {
    var visits := Visits(Around(nodes, level), d, [entry], ConstructionBudget(config));
    var sorted := Ranked(d, visits);
    SameMembers(visits, sorted);
    assert forall x | x in sorted :: x in Elements(sorted);
  }

  /** The graph after linking `id` to its candidates at `level`. */
  function ConnectedAt(config: Config, ruler: Ruler, d: Id -> int, id: Id, nodes: Nodes, entry: Id, level: nat): (r: Nodes)
    requires id in nodes && level < |nodes[id].neighbours|
    ensures r.Keys == nodes.Keys
    ensures forall z | z in nodes :: SameShape(nodes[z], r[z]) && r[z].backbone == nodes[z].backbone
  {
    SetLayer(nodes, level,
      LinkedEach(Layer(nodes, level), ruler, id, Candidates(config, d, nodes, entry, level), DegreeLimit(config, level)))
  }

  /** Links `id` at `level` and every level below, moving the search entry by
      steepest descent after each. */
  function ConnectedDown(config: Config, ruler: Ruler, d: Id -> int, id: Id, nodes: Nodes, entry: Id, level: nat): (r: Nodes)
    requires id in nodes && level < |nodes[id].neighbours|
    ensures r.Keys == nodes.Keys
    ensures forall z | z in nodes :: SameShape(nodes[z], r[z]) && r[z].backbone == nodes[z].backbone
    decreases level
  {
    var one := ConnectedAt(config, ruler, d, id, nodes, entry, level);
    if level == 0 then one
    else
      var next := Walk(Around(one, level), d, entry, ConstructionBudget(config));
      ConnectedDown(config, ruler, d, id, one, next, level - 1)
  }

  lemma ConnectedAtKeepsLayers(config: Config, ruler: Ruler, d: Id -> int, id: Id, nodes: Nodes, entry: Id, level: nat)
    requires id in nodes && level < |nodes[id].neighbours| && LayersOk(config, nodes)
    ensures LayersOk(config, ConnectedAt(config, ruler, d, id, nodes, entry, level))
  {
    var layer, ys := Layer(nodes, level), Candidates(config, d, nodes, entry, level);
    var linked := LinkedEach(layer, ruler, id, ys, DegreeLimit(config, level));
    assert LayerOk(config, nodes, level);
    LinkedEachKeepsLayer(layer, ruler, id, ys, DegreeLimit(config, level));
    LayerOfSet(nodes, level, linked);
    var after := ConnectedAt(config, ruler, d, id, nodes, entry, level);
    forall l: nat ensures LayerOk(config, after, l) {
      assert LayerOk(config, nodes, l);
      if l != level {
        OtherLayer(nodes, level, linked, l);
      }
    }
  }

  lemma {:induction false} ConnectedDownKeepsLayers(config: Config, ruler: Ruler, d: Id -> int, id: Id, nodes: Nodes, entry: Id, level: nat)
    requires id in nodes && level < |nodes[id].neighbours| && LayersOk(config, nodes)
    ensures LayersOk(config, ConnectedDown(config, ruler, d, id, nodes, entry, level))
    decreases level
  {
    hide Candidates, ConnectedAt, LayersOk, Walk, Around;
    ConnectedAtKeepsLayers(config, ruler, d, id, nodes, entry, level);
    if level > 0 {
      var one := ConnectedAt(config, ruler, d, id, nodes, entry, level);
      assert SameShape(nodes[id], one[id]);
      var next := Walk(Around(one, level), d, entry, ConstructionBudget(config));
      ConnectedDownKeepsLayers(config, ruler, d, id, one, next, level - 1);
    }
  }

  /** The graph with `id` stored and spliced into the backbone beside `entry`,
      before any normal link. */
  function Placed(nodes: Nodes, id: Id, newNode: Node, entry: Id): (r: Nodes)
    requires entry in nodes && nodes[entry].backbone <= nodes.Keys && id !in nodes && newNode.backbone == {}
    ensures r.Keys == nodes.Keys + {id}
    ensures forall z | z in nodes :: SameShape(nodes[z], r[z])
    ensures SameShape(newNode, r[id])
  {
    var open := nodes[id := newNode];
    assert Ring(open)[entry] == nodes[entry].backbone;
    SetRing(open, Spliced(Ring(open), id, entry))
  }

  lemma EntryLinks(nodes: Nodes, entry: Id)
    requires SingleCycle(Ring(nodes)) && entry in nodes
    ensures nodes[entry].backbone <= nodes.Keys
  {
    var ring := Ring(nodes);
    var c :| CycleOf(ring, c);
    CycleIsReciprocal(ring, c);
    assert ring[entry] == nodes[entry].backbone;
    assert forall y | y in ring[entry] :: y in nodes;
  }

  lemma PlacedKeepsSound(config: Config, nodes: Nodes, id: Id, vector: Vector, level: nat, entry: Id)
    requires Sound(config, nodes) && entry in nodes && id !in nodes && level <= MAX_LEVEL
    requires nodes[entry].backbone <= nodes.Keys && CheckVector(config, vector).None?
    ensures Sound(config, Placed(nodes, id, FreshNode(vector, level), entry))
  {
    var newNode := FreshNode(vector, level);
    PlacedRing(nodes, id, newNode, entry);
    PlacedKeepsLayers(config, nodes, id, newNode, entry);
    hide LayersOk, Spliced, SingleCycle, CheckVector, Placed;
    var after := Placed(nodes, id, newNode, entry);
    forall z | z in after ensures NodeOk(config, after[z]) {
      if z != id {
        assert NodeOk(config, nodes[z]) && SameShape(nodes[z], after[z]);
      }
    }
  }

  lemma PlacedRing(nodes: Nodes, id: Id, newNode: Node, entry: Id)
    requires entry in nodes && nodes[entry].backbone <= nodes.Keys && id !in nodes && newNode.backbone == {}
    requires SingleCycle(Ring(nodes))
    ensures SingleCycle(Ring(Placed(nodes, id, newNode, entry)))
  {
    var ring, open := Ring(nodes), nodes[id := newNode];
    SpliceKeepsCycle(ring, id, entry);
    hide SingleCycle;
    assert Ring(open) == ring[id := {}];
    SetRingIs(open, Spliced(Ring(open), id, entry));
  }

  lemma PlacedKeepsLayers(config: Config, nodes: Nodes, id: Id, newNode: Node, entry: Id)
    requires entry in nodes && nodes[entry].backbone <= nodes.Keys && id !in nodes && newNode.backbone == {}
    requires LayersOk(config, nodes)
    requires forall i | 0 <= i < |newNode.neighbours| :: newNode.neighbours[i] == {}
    ensures LayersOk(config, Placed(nodes, id, newNode, entry))
  {
    var open := nodes[id := newNode];
    assert Ring(open)[entry] == nodes[entry].backbone;
    SetRingIs(open, Spliced(Ring(open), id, entry));
    var after := Placed(nodes, id, newNode, entry);
    forall l: nat ensures LayerOk(config, after, l) {
      assert LayerOk(config, nodes, l);
      assert Layer(after, l) == Layer(open, l);
      OpenLayer(nodes, id, newNode, l);
    }
  }

  lemma OpenLayer(nodes: Nodes, id: Id, newNode: Node, l: nat)
    requires id !in nodes && forall i | 0 <= i < |newNode.neighbours| :: newNode.neighbours[i] == {}
    requires Reciprocal(Layer(nodes, l))
    ensures Reciprocal(Layer(nodes[id := newNode], l))
    ensures forall limit: nat | Bounded(Layer(nodes, l), limit) :: Bounded(Layer(nodes[id := newNode], l), limit)
  {
    var layer := Layer(nodes[id := newNode], l);
    if l < |newNode.neighbours| {
      assert newNode.neighbours[l] == {};
      assert layer == Layer(nodes, l)[id := {}];
      OpenAdjacency(Layer(nodes, l), id);
    } else {
      assert layer == Layer(nodes, l);
    }
  }

  lemma OpenAdjacency(adj: Adj, id: Id)
    requires Reciprocal(adj) && id !in adj
    ensures Reciprocal(adj[id := {}])
  {
    var open := adj[id := {}];
    forall x, y | x in open && y in open[x] ensures y != x && y in open && x in open[y] {
      assert x in adj && y in adj[x];
    }
  }

  /** The graph insertion leaves: the fresh node alone, or placed on the
      backbone beside the surviving entry and linked level by level. */
  function Inserted(config: Config, measure: (Vector, Vector) -> int, nodes: Nodes, entry: Option<Id>, maxLevel: nat,
                    id: Id, vector: Vector, level: nat): (r: Nodes)
    requires id !in nodes
    requires entry.Some? ==> entry.value in nodes && nodes[entry.value].backbone <= nodes.Keys
    ensures r.Keys == nodes.Keys + {id}
    ensures forall z | z in nodes :: SameShape(nodes[z], r[z])
    ensures SameShape(FreshNode(vector, level), r[id])
  {
    var newNode := FreshNode(vector, level);
    if entry.None? then nodes[id := newNode]
    else
      var placed := Placed(nodes, id, newNode, entry.value);
      var space := Space(Vectors(placed), measure);
      var d := Gauge(space, vector);
      var start := Descend(placed, d, entry.value, maxLevel, level + 1, ConstructionBudget(config));
      ConnectedDown(config, RulerOf(space), d, id, placed, start, Min(level, maxLevel))
  }

  /** The entry after inserting: the new node when it is higher, or as high
      with a smaller identity. */
  function EntryWith(entry: Option<Id>, maxLevel: nat, id: Id, level: nat): (r: (Option<Id>, nat)) {
    if entry.None? || level > maxLevel || (level == maxLevel && id < entry.value) then (Some(id), level)
    else (entry, maxLevel)
  }

  /** Inserting an absent node into a sound graph leaves a sound graph. */
  lemma InsertedKeepsSound(config: Config, measure: (Vector, Vector) -> int, nodes: Nodes, entry: Option<Id>, maxLevel: nat,
                           id: Id, vector: Vector, level: nat)
    requires Sound(config, nodes) && IsEntry(nodes, entry, maxLevel) && id !in nodes
    requires entry.Some? ==> nodes[entry.value].backbone <= nodes.Keys
    requires CheckVector(config, vector).None? && level <= MAX_LEVEL
    ensures Sound(config, Inserted(config, measure, nodes, entry, maxLevel, id, vector, level))
  {
    hide *;
    var newNode := FreshNode(vector, level);
    InsertedUnfolds(config, measure, nodes, entry, maxLevel, id, vector, level);
    if entry.None? {
      LoneIsSound(config, nodes, id, vector, level);
    } else {
      PlacedKeepsSound(config, nodes, id, vector, level, entry.value);
      var placed := Placed(nodes, id, newNode, entry.value);
      var space := Space(Vectors(placed), measure);
      var d := Gauge(space, vector);
      var start := Descend(placed, d, entry.value, maxLevel, level + 1, ConstructionBudget(config));
      ShapeLevels(newNode, placed[id], vector, level);
      LinkingKeepsSound(config, RulerOf(space), d, id, placed, start, Min(level, maxLevel));
    }
  }

  lemma InsertedUnfolds(config: Config, measure: (Vector, Vector) -> int, nodes: Nodes, entry: Option<Id>, maxLevel: nat,
                        id: Id, vector: Vector, level: nat)
    requires id !in nodes && IsEntry(nodes, entry, maxLevel)
    requires entry.Some? ==> nodes[entry.value].backbone <= nodes.Keys
    ensures entry.Some? <==> nodes != map[]
    ensures entry.Some? ==> entry.value in nodes
    ensures FreshNode(vector, level).backbone == {}
    ensures
      var after := Inserted(config, measure, nodes, entry, maxLevel, id, vector, level);
      if entry.None? then after == nodes[id := FreshNode(vector, level)]
      else
        var placed := Placed(nodes, id, FreshNode(vector, level), entry.value);
        var space := Space(Vectors(placed), measure);
        var d := Gauge(space, vector);
        var start := Descend(placed, d, entry.value, maxLevel, level + 1, ConstructionBudget(config));
        after == ConnectedDown(config, RulerOf(space), d, id, placed, start, Min(level, maxLevel))
  {
    hide ConnectedDown, Descend, Placed, Gauge, RulerOf, ConstructionBudget;
  }

  lemma ShapeLevels(newNode: Node, placed: Node, vector: Vector, level: nat)
    requires newNode == FreshNode(vector, level) && SameShape(newNode, placed)
    ensures |placed.neighbours| == level + 1 && forall m :: Min(level, m) < |placed.neighbours|
  {
  }

  lemma LoneIsSound(config: Config, nodes: Nodes, id: Id, vector: Vector, level: nat)
    requires nodes == map[] && CheckVector(config, vector).None? && level <= MAX_LEVEL
    ensures Sound(config, nodes[id := FreshNode(vector, level)])
  {
    var newNode := FreshNode(vector, level);
    var after := nodes[id := newNode];
    forall l: nat ensures LayerOk(config, after, l) {
      assert Layer(nodes, l) == map[];
      OpenLayer(nodes, id, newNode, l);
      assert Bounded(Layer(nodes, l), DegreeLimit(config, l));
    }
    assert CycleOf(Ring(after), [id]);
  }

  lemma LinkingKeepsSound(config: Config, ruler: Ruler, d: Id -> int, id: Id, nodes: Nodes, entry: Id, level: nat)
    requires Sound(config, nodes) && id in nodes && level < |nodes[id].neighbours|
    ensures Sound(config, ConnectedDown(config, ruler, d, id, nodes, entry, level))
  {
    ConnectedDownKeepsLayers(config, ruler, d, id, nodes, entry, level);
    var after := ConnectedDown(config, ruler, d, id, nodes, entry, level);
    SameRing(nodes, after);
    forall z | z in after ensures NodeOk(config, after[z]) {
      assert NodeOk(config, nodes[z]) && SameShape(nodes[z], after[z]);
    }
  }

  lemma SameRing(a: Nodes, b: Nodes)
    requires a.Keys == b.Keys && forall z | z in a :: a[z].backbone == b[z].backbone
    ensures Ring(a) == Ring(b)
  {
    forall z | z in a ensures Ring(a)[z] == Ring(b)[z] {
    }
  }

  /** The incremental entry update agrees with a full selection. */
  lemma EntryWithIsEntry(nodes: Nodes, after: Nodes, entry: Option<Id>, maxLevel: nat, id: Id, level: nat)
    requires IsEntry(nodes, entry, maxLevel) && id !in nodes
    requires after.Keys == nodes.Keys + {id} && after[id].level == level
    requires forall z | z in nodes :: after[z].level == nodes[z].level
    ensures IsEntry(after, EntryWith(entry, maxLevel, id, level).0, EntryWith(entry, maxLevel, id, level).1)
  {
    assert id in after;
  }
}
