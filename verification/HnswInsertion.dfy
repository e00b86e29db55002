/** Where an insertion searches and which nodes it links, said of the stored
    links: the descent, the visits, and the nearest of them. */
module HnswInsertion {
  import opened Options
  import opened Orders
  import opened Adjacency
  import opened Backbone
  import opened BestFirst
  import opened HnswGraph
  import opened HnswChange
  import opened HnswQuery
  import opened HnswSearch
  import opened HnswLinks

  // ---------- level by level ----------

  /** Level `l` of `r` is that of `nodes` with `id` linked to what a search from
      `start` offers. */
  ghost predicate LinkedLevel(config: Config, ruler: Ruler, d: Id -> int, id: Id, nodes: Nodes, r: Nodes, start: Id, l: nat) {
    && id in Layer(nodes, l)
    && Layer(r, l) == LinkedEach(Layer(nodes, l), ruler, id, Candidates(config, d, nodes, start, l), DegreeLimit(config, l))
  }

  /** Levels up to `top` are linked, each entered at its start; the walks follow
      the links left behind. */
  ghost predicate Traced(config: Config, ruler: Ruler, d: Id -> int, id: Id, nodes: Nodes, r: Nodes, starts: seq<Id>, entry: Id, top: nat) {
    && |starts| == top + 1 && starts[top] == entry
    && Ring(r) == Ring(nodes) && Vectors(r) == Vectors(nodes)
    && (forall l: nat | l > top :: Layer(r, l) == Layer(nodes, l))
    && (forall l: nat | l <= top :: LinkedLevel(config, ruler, d, id, nodes, r, starts[l], l))
    && forall l: nat | 0 < l <= top :: starts[l - 1] == Walk(Around(r, l), d, starts[l], ConstructionBudget(config))
  }

  lemma AroundOf(a: Nodes, b: Nodes, l: nat)
    requires Layer(a, l) == Layer(b, l) && Ring(a) == Ring(b)
    ensures Around(a, l) == Around(b, l)
  {
    forall x ensures x in Around(a, l) <==> x in Around(b, l) {
      assert x in Layer(a, l) <==> x in Layer(b, l);
    }
    forall x | x in Around(a, l) ensures Around(a, l)[x] == Around(b, l)[x] {
      assert Layer(a, l)[x] == Layer(b, l)[x];
      assert Ring(a)[x] == Ring(b)[x];
    }
  }

  lemma CandidatesOf(config: Config, d: Id -> int, a: Nodes, b: Nodes, start: Id, l: nat)
    requires Around(a, l) == Around(b, l)
    ensures Candidates(config, d, a, start, l) == Candidates(config, d, b, start, l)
  {
    hide Around, Visits, Kept, Take;
  }

  /** One level linked. */
  lemma ConnectedLevel(config: Config, ruler: Ruler, d: Id -> int, id: Id, nodes: Nodes, entry: Id, level: nat)
    requires id in nodes && level < |nodes[id].neighbours|
    ensures var one := ConnectedAt(config, ruler, d, id, nodes, entry, level);
      && LinkedLevel(config, ruler, d, id, nodes, one, entry, level)
      && Ring(one) == Ring(nodes) && Vectors(one) == Vectors(nodes)
      && (forall l: nat | l != level :: Layer(one, l) == Layer(nodes, l))
      && id in one && |one[id].neighbours| == |nodes[id].neighbours|
  {
    var linked := LinkedEach(Layer(nodes, level), ruler, id, Candidates(config, d, nodes, entry, level), DegreeLimit(config, level));
    LayerOfSet(nodes, level, linked);
    SetLayerFrame(nodes, level, linked);
    forall l: nat | l != level ensures Layer(SetLayer(nodes, level, linked), l) == Layer(nodes, l) {
      OtherLayer(nodes, level, linked, l);
    }
    assert SameShape(nodes[id], ConnectedAt(config, ruler, d, id, nodes, entry, level)[id]);
    hide LinkedEach, Candidates, SetLayer;
  }

  lemma {:induction false} ConnectTraces(config: Config, ruler: Ruler, d: Id -> int, id: Id, nodes: Nodes, entry: Id, level: nat)
    returns (starts: seq<Id>)
    requires id in nodes && level < |nodes[id].neighbours|
    ensures |starts| == level + 1
    ensures Traced(config, ruler, d, id, nodes, ConnectedDown(config, ruler, d, id, nodes, entry, level), starts, entry, level)
    decreases level
  {
    hide *;
    ConnectedLevel(config, ruler, d, id, nodes, entry, level);
    var one := ConnectedAt(config, ruler, d, id, nodes, entry, level);
    DownIs(config, ruler, d, id, nodes, entry, level);
    if level == 0 {
      starts := [entry];
      TracedBase(config, ruler, d, id, nodes, one, entry);
    } else {
      var next := Walk(Around(one, level), d, entry, ConstructionBudget(config));
      var below := ConnectTraces(config, ruler, d, id, one, next, level - 1);
      starts := below + [entry];
      TracedMore(config, ruler, d, id, nodes, one, ConnectedDown(config, ruler, d, id, one, next, level - 1), below, entry, level);
    }
  }

  lemma DownIs(config: Config, ruler: Ruler, d: Id -> int, id: Id, nodes: Nodes, entry: Id, level: nat)
    requires id in nodes && level < |nodes[id].neighbours|
    ensures var one := ConnectedAt(config, ruler, d, id, nodes, entry, level);
      && id in one && |one[id].neighbours| == |nodes[id].neighbours|
      && ConnectedDown(config, ruler, d, id, nodes, entry, level)
           == if level == 0 then one
              else ConnectedDown(config, ruler, d, id, one, Walk(Around(one, level), d, entry, ConstructionBudget(config)), level - 1)
  {
    hide ConnectedAt, Walk, Around, ConstructionBudget;
    assert SameShape(nodes[id], ConnectedAt(config, ruler, d, id, nodes, entry, level)[id]);
  }

  lemma TracedBase(config: Config, ruler: Ruler, d: Id -> int, id: Id, nodes: Nodes, one: Nodes, entry: Id)
    requires LinkedLevel(config, ruler, d, id, nodes, one, entry, 0)
    requires Ring(one) == Ring(nodes) && Vectors(one) == Vectors(nodes)
    requires forall l: nat | l != 0 :: Layer(one, l) == Layer(nodes, l)
    ensures Traced(config, ruler, d, id, nodes, one, [entry], entry, 0)
  {
    hide LinkedLevel, Layer, Ring, Vectors;
  }

  lemma TracedMore(config: Config, ruler: Ruler, d: Id -> int, id: Id, nodes: Nodes, one: Nodes, r: Nodes, below: seq<Id>, entry: Id, level: nat)
    requires level > 0 && LinkedLevel(config, ruler, d, id, nodes, one, entry, level)
    requires Ring(one) == Ring(nodes) && Vectors(one) == Vectors(nodes)
    requires forall l: nat | l != level :: Layer(one, l) == Layer(nodes, l)
    requires Traced(config, ruler, d, id, one, r, below, Walk(Around(one, level), d, entry, ConstructionBudget(config)), level - 1)
    ensures Traced(config, ruler, d, id, nodes, r, below + [entry], entry, level)
  {
    hide Layer, Ring, Vectors, Walk, LinkedEach, Candidates, Around;
    var starts := below + [entry];
    AroundOf(r, one, level);
    forall l: nat | l <= level ensures LinkedLevel(config, ruler, d, id, nodes, r, starts[l], l) {
      if l < level {
        assert LinkedLevel(config, ruler, d, id, one, r, below[l], l);
        AroundOf(one, nodes, l);
        CandidatesOf(config, d, one, nodes, below[l], l);
      }
    }
  }

  /** Where each level above `base` is left. */
  ghost predicate Walked(nodes: Nodes, d: Id -> int, starts: seq<Id>, entry: Id, base: nat, from: nat, budget: nat) {
    && base <= from && |starts| == from - base + 1 && starts[from - base] == entry
    && forall l: nat | base < l <= from :: starts[l - base - 1] == Walk(Around(nodes, l), d, starts[l - base], budget)
  }

  lemma {:induction false} DescendWalks(nodes: Nodes, d: Id -> int, entry: Id, from: nat, to: nat, budget: nat) returns (starts: seq<Id>)
    requires to >= 1
    ensures Walked(nodes, d, starts, entry, Min(from, to - 1), from, budget)
    ensures |starts| > 0 && starts[0] == Descend(nodes, d, entry, from, to, budget)
    decreases from
  {
    hide *;
    DescendStep(nodes, d, entry, from, to, budget);
    if from >= to {
      var next := Walk(Around(nodes, from), d, entry, budget);
      var below := DescendWalks(nodes, d, next, from - 1, to, budget);
      starts := below + [entry];
      WalkedMore(nodes, d, below, next, entry, to - 1, from, budget);
    } else {
      starts := [entry];
      WalkedHere(nodes, d, entry, from, budget);
    }
  }

  lemma WalkedHere(nodes: Nodes, d: Id -> int, entry: Id, from: nat, budget: nat)
    ensures Walked(nodes, d, [entry], entry, from, from, budget)
  {
  }

  lemma WalkedMore(nodes: Nodes, d: Id -> int, below: seq<Id>, next: Id, entry: Id, base: nat, from: nat, budget: nat)
    requires base < from && Walked(nodes, d, below, next, base, from - 1, budget)
    requires next == Walk(Around(nodes, from), d, entry, budget)
    ensures Walked(nodes, d, below + [entry], entry, base, from, budget) && (below + [entry])[0] == below[0]
  {
    hide Walk, Around;
    var starts := below + [entry];
    forall l: nat | base < l <= from ensures starts[l - base - 1] == Walk(Around(nodes, l), d, starts[l - base], budget) {
      if l < from {
        assert below[l - base - 1] == Walk(Around(nodes, l), d, below[l - base], budget);
      }
    }
  }

  /** Every level's start, from the entry down: each is where the walk over the
      level above, as the insertion leaves it, ends. */
  ghost predicate Route(config: Config, ruler: Ruler, d: Id -> int, id: Id, placed: Nodes, after: Nodes, starts: seq<Id>, entry: Id,
                        maxLevel: nat, top: nat)
  {
    && top <= maxLevel && |starts| == maxLevel + 1 && starts[maxLevel] == entry
    && Ring(after) == Ring(placed) && Vectors(after) == Vectors(placed)
    && (forall l: nat | l > top :: Layer(after, l) == Layer(placed, l))
    && (forall l: nat | l <= top :: LinkedLevel(config, ruler, d, id, placed, after, starts[l], l))
    && forall l: nat | 0 < l <= maxLevel :: starts[l - 1] == Walk(Around(after, l), d, starts[l], ConstructionBudget(config))
  }

  lemma RouteJoins(config: Config, ruler: Ruler, d: Id -> int, id: Id, placed: Nodes, after: Nodes, low: seq<Id>, high: seq<Id>,
                   entry: Id, maxLevel: nat, top: nat)
    requires top <= maxLevel && |high| > 0 && Walked(placed, d, high, entry, top, maxLevel, ConstructionBudget(config))
    requires Traced(config, ruler, d, id, placed, after, low, high[0], top)
    ensures Route(config, ruler, d, id, placed, after, low[..top] + high, entry, maxLevel, top)
  {
    hide Layer, Ring, Vectors, Walk, Around, LinkedLevel;
    var starts := low[..top] + high;
    forall l: nat | l <= top ensures starts[l] == low[l] {
    }
    forall l: nat | 0 < l <= maxLevel ensures starts[l - 1] == Walk(Around(after, l), d, starts[l], ConstructionBudget(config)) {
      if l > top {
        AroundOf(after, placed, l);
        assert starts[l] == high[l - top] && starts[l - 1] == high[l - top - 1];
      }
    }
  }

  /** The graph with the new node placed and not yet linked. */
  ghost predicate Unlinked(before: Nodes, after: Nodes, placed: Nodes, id: Id) {
    && placed.Keys == after.Keys == before.Keys + {id}
    && (forall z | z in after ::
          placed[z].vector == after[z].vector && placed[z].level == after[z].level && placed[z].backbone == after[z].backbone
          && |placed[z].neighbours| == |after[z].neighbours|)
    && (forall z | z in before :: z in placed && placed[z].neighbours == before[z].neighbours && placed[z].vector == before[z].vector)
    && forall l | 0 <= l < |placed[id].neighbours| :: placed[id].neighbours[l] == {}
  }

  lemma PlacedUnlinked(nodes: Nodes, id: Id, vector: Vector, level: nat, entry: Id)
    requires entry in nodes && nodes[entry].backbone <= nodes.Keys && id !in nodes
    ensures var placed := Placed(nodes, id, FreshNode(vector, level), entry);
      && placed.Keys == nodes.Keys + {id} && placed[id].vector == vector && placed[id].level == level
      && |placed[id].neighbours| == level + 1
      && (forall z | z in nodes ::
            placed[z].neighbours == nodes[z].neighbours && placed[z].vector == nodes[z].vector && placed[z].level == nodes[z].level)
      && forall l | 0 <= l <= level :: placed[id].neighbours[l] == {}
  {
    hide Spliced;
    var open := nodes[id := FreshNode(vector, level)];
    assert Ring(open)[entry] == nodes[entry].backbone;
  }

  /** An insertion follows its route. */
  lemma InsertedRoute(config: Config, measure: (Vector, Vector) -> int, nodes: Nodes, entry: Id, maxLevel: nat, id: Id,
                      vector: Vector, level: nat)
    returns (placed: Nodes, starts: seq<Id>)
    requires Sound(config, nodes) && IsEntry(nodes, Some(entry), maxLevel) && id !in nodes
    requires nodes[entry].backbone <= nodes.Keys && CheckVector(config, vector).None? && level <= MAX_LEVEL
    ensures var after := Inserted(config, measure, nodes, Some(entry), maxLevel, id, vector, level);
      var space := Space(Vectors(placed), measure);
      && Sound(config, placed) && Sound(config, after)
      && Route(config, RulerOf(space), Gauge(space, vector), id, placed, after, starts, entry, maxLevel, Min(level, maxLevel))
      && Unlinked(nodes, after, placed, id) && after[id].vector == vector && after[id].level == level
      && forall z | z in nodes :: after[z].level == nodes[z].level
  {
    hide *;
    EntryStands(nodes, entry, maxLevel);
    var after := Inserted(config, measure, nodes, Some(entry), maxLevel, id, vector, level);
    SomeEntry(entry, nodes);
    InsertedKeepsSound(config, measure, nodes, Some(entry), maxLevel, id, vector, level);
    InsertedUnfolds(config, measure, nodes, Some(entry), maxLevel, id, vector, level);
    InsertedShapes(config, measure, nodes, entry, maxLevel, id, vector, level);
    placed := Placed(nodes, id, FreshNode(vector, level), entry);
    PlacedKeepsSound(config, nodes, id, vector, level, entry);
    PlacedUnlinked(nodes, id, vector, level, entry);
    var space := Space(Vectors(placed), measure);
    var d, ruler := Gauge(space, vector), RulerOf(space);
    var budget, top := ConstructionBudget(config), Min(level, maxLevel);
    TopFits(level, maxLevel);
    var high := DescendWalks(placed, d, entry, maxLevel, level + 1, budget);
    var low := ConnectTraces(config, ruler, d, id, placed, high[0], top);
    starts := low[..top] + high;
    RouteJoins(config, ruler, d, id, placed, after, low, high, entry, maxLevel, top);
    RouteUnlinked(config, ruler, d, nodes, id, vector, level, placed, after, starts, entry, maxLevel, top);
  }

  lemma SomeEntry(entry: Id, nodes: Nodes)
    ensures Some(entry).Some? && Some(entry).value == entry
  {
  }

  lemma TopFits(level: nat, maxLevel: nat)
    ensures Min(level, maxLevel) == Min(maxLevel, level + 1 - 1) <= maxLevel && Min(level, maxLevel) < level + 1
  {
  }

  lemma InsertedShapes(config: Config, measure: (Vector, Vector) -> int, nodes: Nodes, entry: Id, maxLevel: nat, id: Id,
                       vector: Vector, level: nat)
    requires id !in nodes && entry in nodes && nodes[entry].backbone <= nodes.Keys
    ensures var after := Inserted(config, measure, nodes, Some(entry), maxLevel, id, vector, level);
      && after.Keys == nodes.Keys + {id}
      && after[id].vector == vector && after[id].level == level && |after[id].neighbours| == level + 1
      && forall z | z in nodes ::
           after[z].level == nodes[z].level && after[z].vector == nodes[z].vector && |after[z].neighbours| == |nodes[z].neighbours|
  {
    var after := Inserted(config, measure, nodes, Some(entry), maxLevel, id, vector, level);
    assert SameShape(FreshNode(vector, level), after[id]);
    forall z | z in nodes
      ensures after[z].level == nodes[z].level && after[z].vector == nodes[z].vector && |after[z].neighbours| == |nodes[z].neighbours|
    {
      assert SameShape(nodes[z], after[z]);
    }
    hide Inserted;
  }

  lemma RouteUnlinked(config: Config, ruler: Ruler, d: Id -> int, nodes: Nodes, id: Id, vector: Vector, level: nat, placed: Nodes,
                      after: Nodes, starts: seq<Id>, entry: Id, maxLevel: nat, top: nat)
    requires Route(config, ruler, d, id, placed, after, starts, entry, maxLevel, top)
    requires placed.Keys == nodes.Keys + {id} == after.Keys && id !in nodes
    requires placed[id].level == level && |placed[id].neighbours| == level + 1
    requires (forall z | z in nodes :: placed[z].neighbours == nodes[z].neighbours && placed[z].vector == nodes[z].vector)
    requires forall l | 0 <= l <= level :: placed[id].neighbours[l] == {}
    requires after[id].level == level && |after[id].neighbours| == level + 1
    requires forall z | z in nodes ::
      after[z].level == nodes[z].level && |after[z].neighbours| == |nodes[z].neighbours|
    requires forall z | z in nodes :: placed[z].level == nodes[z].level
    ensures Unlinked(nodes, after, placed, id)
  {
    hide LinkedLevel, Walk, Around, Layer;
    forall z | z in after ensures placed[z].backbone == after[z].backbone && placed[z].vector == after[z].vector {
      assert Ring(after)[z] == Ring(placed)[z] && Vectors(after)[z] == Vectors(placed)[z];
    }
  }

  // ---------- said of the stored links ----------

  /** The listed nodes nearer to the new vector than `y` is. */
  function Before(s: Search, ids: set<Id>, y: Id): set<Id> {
    set z | z in ids && Closer(s, z, y)
  }

  /** The stored links of `y` nearer to it than a node `id` at `vector`. */
  function Crowd(nodes: Nodes, measure: (Vector, Vector) -> int, l: nat, y: Id, id: Id, vector: Vector): set<Id>
    requires y in nodes && l < |nodes[y].neighbours|
  {
    set z | z in nodes[y].neighbours[l] && z in nodes && NearerTo(nodes, measure, y, z, id, vector)
  }

  predicate NearerTo(nodes: Nodes, measure: (Vector, Vector) -> int, y: Id, z: Id, id: Id, vector: Vector)
    requires y in nodes && z in nodes
  {
    var dz, dx := measure(nodes[y].vector, nodes[z].vector), measure(nodes[y].vector, vector);
    dz < dx || (dz == dx && z < id)
  }

  /** The new node's links at level `l`: among the `limit` nearest of `order`; all
      of those with fewer than `limit` nearer links of their own; and the nearest
      of them only then. No other node gains a link but to the new one. */
  ghost predicate LinkedNearest(before: Nodes, s: Search, id: Id, l: nat, order: seq<Id>, limit: nat) {
    && id in s.nodes && l < |s.nodes[id].neighbours|
    && (forall y | y in s.nodes[id].neighbours[l] :: y != id && y in order && |Before(s, Elements(order), y)| < limit)
    && (forall y | y in order && y != id && |Before(s, Elements(order), y)| < limit ::
          && y in before && l < |before[y].neighbours|
          && (|Crowd(before, s.measure, l, y, id, s.vector)| < limit ==> y in s.nodes[id].neighbours[l])
          && (NearestOther(s, order, id, y) && y in s.nodes[id].neighbours[l] ==> |Crowd(before, s.measure, l, y, id, s.vector)| < limit))
  }

  ghost predicate NearestOther(s: Search, order: seq<Id>, id: Id, y: Id) {
    y in order && y != id && forall z | z in order && z != id :: z == y || Closer(s, y, z)
  }

  // ---------- from the engine's terms to those ----------

  lemma OfferedRank(s: Search, order: seq<Id>, limit: nat)
    requires Distinct(order) && Elements(order) <= s.nodes.Keys
    ensures var d := Gauge(Space(Vectors(s.nodes), s.measure), s.vector);
      var offer := Take(Ranked(d, order), limit);
      && Distinct(offer) && |offer| <= limit && Ascends(Nearer(d), offer)
      && forall y :: y in offer <==> y in order && |Before(s, Elements(order), y)| < limit
  {
    var d := Gauge(Space(Vectors(s.nodes), s.measure), s.vector);
    var offer := Take(Ranked(d, order), limit);
    NearerIsTotal(d);
    SortAscends(Nearer(d), order);
    hide Gauge, Nearer;
    AscendsIsSorted(Nearer(d), offer);
    assert Elements(offer) == Nearest(d, Elements(order), limit);
    hide Ranked, Nearest;
    forall y ensures y in offer <==> y in order && |Before(s, Elements(order), y)| < limit {
      assert y in offer <==> y in Elements(offer);
      assert y in order <==> y in Elements(order);
      if y in order {
        NearestRank(d, Elements(order), limit, y);
        AheadIsBefore(s, Elements(order), y);
      }
    }
  }

  lemma AheadIsBefore(s: Search, ids: set<Id>, y: Id)
    requires ids <= s.nodes.Keys && y in ids
    ensures Ahead(Gauge(Space(Vectors(s.nodes), s.measure), s.vector), ids, y) == Before(s, ids, y)
  {
    var d := Gauge(Space(Vectors(s.nodes), s.measure), s.vector);
    hide Gauge, Nearer, Closer;
    forall z | z in ids ensures Nearer(d)(z, y) <==> Closer(s, z, y) {
      CloserIs(s, z, y);
    }
  }

  /** Who is ahead of the new node on a candidate's ruler. */
  lemma AheadIsCrowd(before: Nodes, placed: Nodes, after: Nodes, measure: (Vector, Vector) -> int, id: Id, l: nat, y: Id)
    requires Unlinked(before, after, placed, id) && id !in before && y in before && l < |before[y].neighbours|
    requires before[y].neighbours[l] <= before.Keys
    ensures l < |placed[y].neighbours| && y in Layer(placed, l)
    ensures Ahead(RulerOf(Space(Vectors(placed), measure))(y), Layer(placed, l)[y], id)
      == Crowd(before, measure, l, y, id, placed[id].vector)
  {
    var d := RulerOf(Space(Vectors(placed), measure))(y);
    assert d == Gauge(Space(Vectors(placed), measure), placed[y].vector);
    assert Layer(placed, l)[y] == before[y].neighbours[l];
    forall z | z in before[y].neighbours[l] ensures Nearer(d)(z, id) <==> NearerTo(before, measure, y, z, id, placed[id].vector) {
      assert z in before;
    }
  }

  /** The first candidate besides the new node is the nearest other one. */
  lemma FirstIsNearest(s: Search, order: seq<Id>, offer: seq<Id>, id: Id, y: Id)
    requires Elements(order) <= s.nodes.Keys && NearestOther(s, order, id, y) && y in offer
    requires forall z | z in offer :: z in order
    requires Ascends(Nearer(Gauge(Space(Vectors(s.nodes), s.measure), s.vector)), offer)
    ensures FirstOther(offer, id, y)
  {
    var d := Gauge(Space(Vectors(s.nodes), s.measure), s.vector);
    var i :| 0 <= i < |offer| && offer[i] == y;
    NearerIsTotal(d);
    hide Gauge, Nearer, Closer;
    forall j | 0 <= j < i ensures offer[j] == id {
      assert Nearer(d)(offer[j], y);
      var z: Id := offer[j];
      assert z in offer && z in order && z in Elements(order) && y in Elements(order);
      CloserIs(s, z, y);
      CloserOrder(s, y, z, y);
    }
  }

  lemma LinkedLevelNearest(config: Config, before: Nodes, placed: Nodes, s: Search, id: Id, start: Id, l: nat)
    requires Sound(config, before) && Sound(config, placed) && Unlinked(before, s.nodes, placed, id) && id !in before
    requires placed[id].vector == s.vector && Vectors(placed) == Vectors(s.nodes)
    requires var space := Space(Vectors(placed), s.measure);
      LinkedLevel(config, RulerOf(space), Gauge(space, s.vector), id, placed, s.nodes, start, l)
    ensures var budget := ConstructionBudget(config);
      var order := Visits(Around(placed, l), Gauge(Space(Vectors(placed), s.measure), s.vector), [start], budget);
      LinkedNearest(before, s, id, l, order, DegreeLimit(config, l))
  {
    var space := Space(Vectors(placed), s.measure);
    var d, ruler, budget, limit := Gauge(space, s.vector), RulerOf(space), ConstructionBudget(config), DegreeLimit(config, l);
    var adj := Layer(placed, l);
    var order := Visits(Around(placed, l), d, [start], budget);
    var offer := Candidates(config, d, placed, start, l);
    hide *;
    OrderStored(placed, s.nodes, d, start, l, budget);
    OfferIs(config, d, placed, start, l);
    OfferedRank(s, order, limit);
    StartsBare(before, placed, s.nodes, id, l);
    LevelOk(config, placed, l);
    LinkedIs(config, ruler, d, id, placed, s.nodes, start, l);
    OfferFits(config, adj, id, offer, limit);
    LinksMade(adj, ruler, id, offer, limit);
    LinksAre(s.nodes, id, l);
    forall y | y in offer && y != id
      ensures y in before && l < |before[y].neighbours| && y in adj
      ensures Ahead(ruler(y), adj[y], id) == Crowd(before, s.measure, l, y, id, s.vector)
    {
      OfferStored(config, before, placed, s.nodes, id, l, offer, y);
      AheadIsCrowd(before, placed, s.nodes, s.measure, id, l, y);
    }
    forall y | NearestOther(s, order, id, y) && y in offer ensures FirstOther(offer, id, y) {
      FirstIsNearest(s, order, offer, id, y);
    }
    LinkedSo(before, s, adj, ruler, id, l, order, offer, limit);
  }

  lemma OrderStored(placed: Nodes, after: Nodes, d: Id -> int, start: Id, l: nat, budget: nat)
    requires Vectors(placed) == Vectors(after)
    ensures var order := Visits(Around(placed, l), d, [start], budget);
      Distinct(order) && Elements(order) <= after.Keys && |order| <= budget
  {
    assert Vectors(placed).Keys == placed.Keys && Vectors(after).Keys == after.Keys;
  }

  lemma OfferIs(config: Config, d: Id -> int, placed: Nodes, start: Id, l: nat)
    ensures Candidates(config, d, placed, start, l)
      == Take(Ranked(d, Visits(Around(placed, l), d, [start], ConstructionBudget(config))), DegreeLimit(config, l))
  {
    hide Around, Ranked, ConstructionBudget, DegreeLimit;
  }

  lemma StartsBare(before: Nodes, placed: Nodes, after: Nodes, id: Id, l: nat)
    requires Unlinked(before, after, placed, id)
    ensures id in Layer(placed, l) ==> Layer(placed, l)[id] == {}
  {
  }

  lemma LevelOk(config: Config, nodes: Nodes, l: nat)
    requires Sound(config, nodes)
    ensures Reciprocal(Layer(nodes, l)) && Bounded(Layer(nodes, l), DegreeLimit(config, l))
  {
    assert LayerOk(config, nodes, l);
  }

  lemma LinkedIs(config: Config, ruler: Ruler, d: Id -> int, id: Id, nodes: Nodes, r: Nodes, start: Id, l: nat)
    requires LinkedLevel(config, ruler, d, id, nodes, r, start, l)
    ensures var offer := Candidates(config, d, nodes, start, l);
      && id in Layer(nodes, l) && Elements(offer) <= Layer(nodes, l).Keys
      && Layer(r, l) == LinkedEach(Layer(nodes, l), ruler, id, offer, DegreeLimit(config, l))
  {
    hide LinkedEach;
  }

  lemma OfferFits(config: Config, adj: Adj, id: Id, offer: seq<Id>, limit: nat)
    requires id in adj && adj[id] == {} && |offer| <= limit
    ensures |adj[id]| + |offer| <= limit && forall y | y in offer :: y !in adj[id]
  {
  }

  lemma LinksAre(after: Nodes, id: Id, l: nat)
    ensures id in Layer(after, l) ==> id in after && l < |after[id].neighbours| && Layer(after, l)[id] == after[id].neighbours[l]
  {
  }

  lemma OfferStored(config: Config, before: Nodes, placed: Nodes, after: Nodes, id: Id, l: nat, offer: seq<Id>, y: Id)
    requires Sound(config, before) && Unlinked(before, after, placed, id) && Elements(offer) <= Layer(placed, l).Keys
    requires y in offer && y != id
    ensures y in Layer(placed, l) && y in before && l < |before[y].neighbours| && before[y].neighbours[l] <= before.Keys
  {
    assert y in Elements(offer);
    assert y in Layer(placed, l);
    LevelOk(config, before, l);
    assert Layer(before, l)[y] == before[y].neighbours[l];
    forall z | z in before[y].neighbours[l] ensures z in before {
      assert z in Layer(before, l);
    }
  }

  lemma LinkedSo(before: Nodes, s: Search, adj: Adj, ruler: Ruler, id: Id, l: nat, order: seq<Id>, offer: seq<Id>, limit: nat)
    requires id in adj && adj[id] == {} && Elements(offer) <= adj.Keys && id in Layer(s.nodes, l)
    requires id in s.nodes && l < |s.nodes[id].neighbours| && Layer(s.nodes, l)[id] == s.nodes[id].neighbours[l]
    requires LinksOf(adj, ruler, id, offer, limit, Layer(s.nodes, l))
    requires forall y :: y in offer <==> y in order && |Before(s, Elements(order), y)| < limit
    requires forall y | y in offer && y != id ::
      y in before && l < |before[y].neighbours| && y in adj
      && Ahead(ruler(y), adj[y], id) == Crowd(before, s.measure, l, y, id, s.vector)
    requires forall y | NearestOther(s, order, id, y) && y in offer :: FirstOther(offer, id, y)
    ensures LinkedNearest(before, s, id, l, order, limit)
  {
    hide Layer, Before, Crowd, Ahead, NearestOther, FirstOther;
    forall y | y in s.nodes[id].neighbours[l] ensures y in offer && y != id {
      assert y in Elements(offer);
    }
  }

  // ---------- the whole insertion ----------

  /** How many nodes an insertion's searches visit, from the configuration's
      fields. */
  function Effort(config: Config): nat {
    if config.efConstruction >= config.mNeighbours then if config.efConstruction == 0 then 1 else config.efConstruction
    else config.mNeighbours
  }

  /** Twice `m` at the base, `m` above. */
  function Room(config: Config, l: nat): nat {
    if l > 0 then config.mNeighbours
    else if 2 * config.mNeighbours <= USIZE_MAX then 2 * config.mNeighbours
    else USIZE_MAX
  }

  lemma LimitsAre(config: Config, l: nat)
    ensures ConstructionBudget(config) == Effort(config) > 0 && DegreeLimit(config, l) == Room(config, l)
  {
  }

  /** At level `l` the new node is linked to the nearest of those visited from
      `start` over the links stored before. */
  ghost predicate LevelLinked(config: Config, before: Nodes, s: Search, placed: Nodes, id: Id, start: Id, l: nat) {
    exists order ::
      && VisitsNearest(Search(placed, s.measure, s.vector), l, start, order, Effort(config))
      && LinkedNearest(before, s, id, l, order, Room(config, l))
  }

  /** Other nodes gain no link but to the new node. */
  ghost predicate GainsOnlyNew(before: Nodes, after: Nodes, id: Id) {
    forall z, l | z in before && z in after && 0 <= l < |before[z].neighbours| && l < |after[z].neighbours| ::
      after[z].neighbours[l] <= before[z].neighbours[l] + {id}
  }

  predicate Bare(nodes: Nodes, id: Id, l: nat) {
    id in nodes && l < |nodes[id].neighbours| && nodes[id].neighbours[l] == {}
  }

  predicate Stands(nodes: Nodes, x: Id, l: nat) {
    x in nodes && nodes[x].level >= l
  }

  ghost predicate Follows(config: Config, before: Nodes, s: Search, placed: Nodes, starts: seq<Id>, entry: Id, maxLevel: nat,
                          id: Id, level: nat)
  {
    && Unlinked(before, s.nodes, placed, id)
    && |starts| == maxLevel + 1 && starts[maxLevel] == entry
    && (forall l: nat | 0 < l <= maxLevel :: DescendsTo(s, l, starts[l], starts[l - 1], Effort(config)))
    && (forall l: nat | l <= level && l <= maxLevel :: LevelLinked(config, before, s, placed, id, starts[l], l))
    && (forall l: nat | maxLevel < l <= level :: Bare(s.nodes, id, l))
    && (forall l: nat | l <= maxLevel :: Stands(s.nodes, starts[l], l))
    && GainsOnlyNew(before, s.nodes, id)
  }

  lemma {:induction false} RouteStands(config: Config, ruler: Ruler, d: Id -> int, id: Id, placed: Nodes, after: Nodes, starts: seq<Id>,
                                       entry: Id, maxLevel: nat, top: nat, l: nat)
    requires Route(config, ruler, d, id, placed, after, starts, entry, maxLevel, top) && l <= maxLevel
    requires Sound(config, after) && entry in after && after[entry].level >= maxLevel
    ensures |starts| == maxLevel + 1 && starts[l] in after && after[starts[l]].level >= l
    ensures l > 0 ==> starts[l - 1] == Walk(Around(after, l), d, starts[l], ConstructionBudget(config))
    decreases maxLevel - l
  {
    hide *;
    RouteStep(config, ruler, d, id, placed, after, starts, entry, maxLevel, top, l);
    if l < maxLevel {
      RouteStands(config, ruler, d, id, placed, after, starts, entry, maxLevel, top, l + 1);
      WalkStays(config, after, d, starts[l + 1], l + 1, ConstructionBudget(config));
    }
  }

  lemma RouteStep(config: Config, ruler: Ruler, d: Id -> int, id: Id, placed: Nodes, after: Nodes, starts: seq<Id>,
                  entry: Id, maxLevel: nat, top: nat, l: nat)
    requires Route(config, ruler, d, id, placed, after, starts, entry, maxLevel, top) && l <= maxLevel
    ensures |starts| == maxLevel + 1 && starts[maxLevel] == entry && top <= maxLevel && Vectors(placed) == Vectors(after)
    ensures l > 0 ==> starts[l - 1] == Walk(Around(after, l), d, starts[l], ConstructionBudget(config))
    ensures l <= top ==> LinkedLevel(config, ruler, d, id, placed, after, starts[l], l)
    ensures l > top ==> Layer(after, l) == Layer(placed, l)
  {
    hide LinkedLevel, Walk, Around, Layer, Ring;
  }

  lemma InsertionFollows(config: Config, measure: (Vector, Vector) -> int, nodes: Nodes, entry: Id, maxLevel: nat, id: Id,
                         vector: Vector, level: nat)
    requires Sound(config, nodes) && IsEntry(nodes, Some(entry), maxLevel) && id !in nodes
    requires nodes[entry].backbone <= nodes.Keys && CheckVector(config, vector).None? && level <= MAX_LEVEL
    ensures var s := Search(Inserted(config, measure, nodes, Some(entry), maxLevel, id, vector, level), measure, vector);
      exists placed, starts ::
        Sound(config, placed) && Follows(config, nodes, s, placed, starts, entry, maxLevel, id, level)
  {
    hide *;
    EntryStands(nodes, entry, maxLevel);
    SomeEntry(entry, nodes);
    var placed, starts := InsertedRoute(config, measure, nodes, entry, maxLevel, id, vector, level);
    var after := Inserted(config, measure, nodes, Some(entry), maxLevel, id, vector, level);
    var s, space := Search(after, measure, vector), Space(Vectors(placed), measure);
    var d, ruler, top := Gauge(space, vector), RulerOf(space), Min(level, maxLevel);
    UnlinkedKeys(nodes, after, placed, id);
    RouteStep(config, ruler, d, id, placed, after, starts, entry, maxLevel, top, 0);
    LimitsAre(config, 0);
    forall l: nat | 0 < l <= maxLevel ensures DescendsTo(s, l, starts[l], starts[l - 1], Effort(config)) {
      RouteStands(config, ruler, d, id, placed, after, starts, entry, maxLevel, top, l);
      InAround(config, after, starts[l], l);
      LevelInside(config, after, l);
      WalkIsDownhill(s, l, starts[l], Effort(config));
    }
    forall l: nat | l <= level && l <= maxLevel ensures LevelLinked(config, nodes, s, placed, id, starts[l], l) {
      TopIs(level, maxLevel, l);
      RouteStands(config, ruler, d, id, placed, after, starts, entry, maxLevel, top, l);
      RouteStep(config, ruler, d, id, placed, after, starts, entry, maxLevel, top, l);
      LevelFollows(config, nodes, placed, s, id, starts[l], l);
    }
    forall l: nat | l <= maxLevel ensures Stands(s.nodes, starts[l], l) {
      RouteStands(config, ruler, d, id, placed, after, starts, entry, maxLevel, top, l);
      StandsIs(s.nodes, starts[l], l);
    }
    forall l: nat | maxLevel < l <= level ensures Bare(s.nodes, id, l) {
      TopIs(level, maxLevel, l);
      AboveUnlinked(config, ruler, d, nodes, id, placed, after, starts, entry, maxLevel, top, level, l);
    }
    RouteGains(config, ruler, d, nodes, id, placed, after, starts, entry, maxLevel, top);
    AllFollows(config, nodes, s, placed, starts, entry, maxLevel, id, level);
  }

  lemma TopIs(level: nat, maxLevel: nat, l: nat)
    ensures l <= level && l <= maxLevel <==> l <= Min(level, maxLevel)
  {
  }

  lemma UnlinkedKeys(before: Nodes, after: Nodes, placed: Nodes, id: Id)
    requires Unlinked(before, after, placed, id)
    ensures id in after && id in placed && (forall z | z in before :: z in after) && placed.Keys == after.Keys
    ensures placed[id].vector == after[id].vector
    ensures forall z | z in after :: placed[z].level == after[z].level
  {
  }

  lemma AllFollows(config: Config, before: Nodes, s: Search, placed: Nodes, starts: seq<Id>, entry: Id, maxLevel: nat, id: Id, level: nat)
    requires Unlinked(before, s.nodes, placed, id)
    requires |starts| == maxLevel + 1 && starts[maxLevel] == entry
    requires forall l: nat | 0 < l <= maxLevel :: DescendsTo(s, l, starts[l], starts[l - 1], Effort(config))
    requires forall l: nat | l <= level && l <= maxLevel :: LevelLinked(config, before, s, placed, id, starts[l], l)
    requires forall l: nat | maxLevel < l <= level :: Bare(s.nodes, id, l)
    requires forall l: nat | l <= maxLevel :: Stands(s.nodes, starts[l], l)
    requires GainsOnlyNew(before, s.nodes, id)
    ensures Follows(config, before, s, placed, starts, entry, maxLevel, id, level)
  {
    hide DescendsTo, LevelLinked, Unlinked, GainsOnlyNew, Bare, Stands;
  }

  lemma StandsIs(nodes: Nodes, x: Id, l: nat)
    ensures Stands(nodes, x, l) <==> x in nodes && nodes[x].level >= l
  {
  }

  lemma LevelFollows(config: Config, before: Nodes, placed: Nodes, s: Search, id: Id, start: Id, l: nat)
    requires Sound(config, before) && Sound(config, placed) && Unlinked(before, s.nodes, placed, id) && id !in before
    requires placed[id].vector == s.vector && Vectors(placed) == Vectors(s.nodes)
    requires start in s.nodes && s.nodes[start].level >= l
    requires var space := Space(Vectors(placed), s.measure);
      LinkedLevel(config, RulerOf(space), Gauge(space, s.vector), id, placed, s.nodes, start, l)
    ensures LevelLinked(config, before, s, placed, id, start, l)
  {
    hide *;
    UnlinkedKeys(before, s.nodes, placed, id);
    LimitsAre(config, l);
    InAround(config, placed, start, l);
    LevelInside(config, placed, l);
    VisitsInOrder(Search(placed, s.measure, s.vector), l, start, Effort(config));
    LinkedLevelNearest(config, before, placed, s, id, start, l);
    var order := Visits(Around(placed, l), Gauge(Space(Vectors(placed), s.measure), s.vector), [start], Effort(config));
    OneOrder(config, before, s, placed, id, start, l, order);
  }

  lemma OneOrder(config: Config, before: Nodes, s: Search, placed: Nodes, id: Id, start: Id, l: nat, order: seq<Id>)
    requires VisitsNearest(Search(placed, s.measure, s.vector), l, start, order, Effort(config))
    requires LinkedNearest(before, s, id, l, order, Room(config, l))
    ensures LevelLinked(config, before, s, placed, id, start, l)
  {
    hide VisitsNearest, LinkedNearest, Effort, Room;
  }

  lemma AboveUnlinked(config: Config, ruler: Ruler, d: Id -> int, before: Nodes, id: Id, placed: Nodes, after: Nodes, starts: seq<Id>,
                      entry: Id, maxLevel: nat, top: nat, level: nat, l: nat)
    requires Route(config, ruler, d, id, placed, after, starts, entry, maxLevel, top) && Unlinked(before, after, placed, id)
    requires top < l <= level && Sound(config, after) && after[id].level == level
    ensures Bare(after, id, l)
  {
    hide LinkedLevel, Walk, Around, LayersOk, SingleCycle;
    assert NodeOk(config, after[id]);
    assert id in Layer(after, l) && id in Layer(placed, l);
    assert Layer(after, l)[id] == Layer(placed, l)[id];
  }

  lemma RouteGains(config: Config, ruler: Ruler, d: Id -> int, before: Nodes, id: Id, placed: Nodes, after: Nodes, starts: seq<Id>,
                   entry: Id, maxLevel: nat, top: nat)
    requires Route(config, ruler, d, id, placed, after, starts, entry, maxLevel, top) && Unlinked(before, after, placed, id)
    requires Sound(config, placed) && id !in before
    ensures GainsOnlyNew(before, after, id)
  {
    hide *;
    forall z, l | z in before && z in after && 0 <= l < |before[z].neighbours| && l < |after[z].neighbours|
      ensures after[z].neighbours[l] <= before[z].neighbours[l] + {id}
    {
      AnyStep(config, ruler, d, id, placed, after, starts, entry, maxLevel, top, l);
      StoredIs(before, placed, after, id, z, l);
      if l <= top {
        LinkedIs(config, ruler, d, id, placed, after, starts[l], l);
        StartsBare(before, placed, after, id, l);
        LevelOk(config, placed, l);
        OfferShort(config, d, placed, starts[l], l);
        OfferFits(config, Layer(placed, l), id, Candidates(config, d, placed, starts[l], l), DegreeLimit(config, l));
        GainsOnly(Layer(placed, l), ruler, id, Candidates(config, d, placed, starts[l], l), DegreeLimit(config, l));
      }
    }
    GainsIs(before, after, id);
  }

  lemma AnyStep(config: Config, ruler: Ruler, d: Id -> int, id: Id, placed: Nodes, after: Nodes, starts: seq<Id>,
                entry: Id, maxLevel: nat, top: nat, l: nat)
    requires Route(config, ruler, d, id, placed, after, starts, entry, maxLevel, top)
    ensures l <= top ==> l < |starts| && LinkedLevel(config, ruler, d, id, placed, after, starts[l], l)
    ensures l > top ==> Layer(after, l) == Layer(placed, l)
  {
    hide LinkedLevel, Walk, Around, Layer, Ring;
  }

  lemma GainsIs(before: Nodes, after: Nodes, id: Id)
    requires forall z, l | z in before && z in after && 0 <= l < |before[z].neighbours| && l < |after[z].neighbours| ::
      after[z].neighbours[l] <= before[z].neighbours[l] + {id}
    ensures GainsOnlyNew(before, after, id)
  {
  }

  lemma StoredIs(before: Nodes, placed: Nodes, after: Nodes, id: Id, z: Id, l: nat)
    requires Unlinked(before, after, placed, id) && z in before && l < |before[z].neighbours| && z in after && l < |after[z].neighbours|
    requires id !in before
    ensures z != id && z in Layer(placed, l) && Layer(placed, l)[z] == before[z].neighbours[l]
    ensures z in Layer(after, l) && Layer(after, l)[z] == after[z].neighbours[l]
  {
  }

  lemma OfferShort(config: Config, d: Id -> int, placed: Nodes, start: Id, l: nat)
    ensures var offer := Candidates(config, d, placed, start, l); |offer| <= DegreeLimit(config, l) && Distinct(offer)
  {
    OfferIs(config, d, placed, start, l);
    var order := Visits(Around(placed, l), d, [start], ConstructionBudget(config));
    SameMembers(order, Ranked(d, order));
    hide Candidates, DegreeLimit, Ranked, Visits;
  }

  // ---------- when the effort covers the graph ----------

  lemma VisitsAll(config: Config, s: Search, start: Id, order: seq<Id>, n: nat)
    requires Sound(config, s.nodes) && start in s.nodes && n >= |s.nodes|
    requires VisitsNearest(s, 0, start, order, n) && Elements(order) <= s.nodes.Keys
    ensures Elements(order) == s.nodes.Keys
  {
    BaseSpans(config, s.nodes, start);
    hide Sound, Spans, Around, Closer;
    DistinctSize(order);
    if |order| == n {
      Smaller(Elements(order), s.nodes.Keys);
      Whole(Elements(order), s.nodes.Keys);
    } else {
      ClosedOrder(s, start, order, n);
      SpannedAll(s.nodes, start, Elements(order));
    }
  }

  lemma SpannedAll(nodes: Nodes, start: Id, s: set<Id>)
    requires Spans(Around(nodes, 0), [start]) && Around(nodes, 0).Keys == nodes.Keys
    requires start in s && Closed(Around(nodes, 0), s) && s <= nodes.Keys
    ensures s == nodes.Keys
  {
    hide Around, Closed;
    assert Elements([start]) <= s;
  }

  lemma ClosedOrder(s: Search, start: Id, order: seq<Id>, n: nat)
    requires VisitsNearest(s, 0, start, order, n) && |order| < n
    ensures start in Elements(order) && Closed(Around(s.nodes, 0), Elements(order))
  {
    hide Closer, Around, Adjacent;
    forall x, y | x in Elements(order) && x in Around(s.nodes, 0) && y in Around(s.nodes, 0)[x] ensures y in Elements(order) {
      AdjacentIs(s.nodes, 0, x, y);
      var i :| 0 <= i < |order| && order[i] == x;
      assert Offered(s.nodes, 0, order, y);
    }
  }

  /** The base links of a new node: among the `min(2m, n)` nearest of all nodes;
      every one of those that has fewer than `2m` nearer links of its own; and the
      nearest other node exactly when it has. */
  ghost predicate BaseNearest(config: Config, before: Nodes, s: Search, id: Id) {
    && id in s.nodes && 0 < |s.nodes[id].neighbours|
    && (forall y | y in s.nodes[id].neighbours[0] :: y != id && y in before && |Before(s, s.nodes.Keys, y)| < Room(config, 0))
    && (forall y | y in before && |Before(s, s.nodes.Keys, y)| < Room(config, 0) ::
          && 0 < |before[y].neighbours|
          && (|Crowd(before, s.measure, 0, y, id, s.vector)| < Room(config, 0) ==> y in s.nodes[id].neighbours[0]))
    && (forall y | y in before && (forall z | z in before :: z == y || Closer(s, y, z)) ::
          && 0 < |before[y].neighbours|
          && (y in s.nodes[id].neighbours[0] <==> |Crowd(before, s.measure, 0, y, id, s.vector)| < Room(config, 0)))
  }

  /** Insertion's counterpart of the exact query: when its effort covers the
      graph, the new node is linked at the base to its nearest. */
  lemma InsertionIsNearest(config: Config, measure: (Vector, Vector) -> int, nodes: Nodes, entry: Id, maxLevel: nat, id: Id,
                           vector: Vector, level: nat)
    requires Sound(config, nodes) && IsEntry(nodes, Some(entry), maxLevel) && id !in nodes
    requires nodes[entry].backbone <= nodes.Keys && CheckVector(config, vector).None? && level <= MAX_LEVEL
    requires Effort(config) >= |nodes| + 1
    ensures BaseNearest(config, nodes,
      Search(Inserted(config, measure, nodes, Some(entry), maxLevel, id, vector, level), measure, vector), id)
  {
    hide *;
    EntryStands(nodes, entry, maxLevel);
    SomeEntry(entry, nodes);
    InsertionFollows(config, measure, nodes, entry, maxLevel, id, vector, level);
    var s := Search(Inserted(config, measure, nodes, Some(entry), maxLevel, id, vector, level), measure, vector);
    RoomIsTwo(config, vector);
    FollowsNearest(config, nodes, s, entry, maxLevel, id, level);
  }

  lemma FollowsNearest(config: Config, before: Nodes, s: Search, entry: Id, maxLevel: nat, id: Id, level: nat)
    requires exists placed, starts :: Sound(config, placed) && Follows(config, before, s, placed, starts, entry, maxLevel, id, level)
    requires id !in before && Effort(config) >= |before| + 1 && Room(config, 0) >= 2
    ensures BaseNearest(config, before, s, id)
  {
    hide *;
    var placed, starts :| Sound(config, placed) && Follows(config, before, s, placed, starts, entry, maxLevel, id, level);
    var order := BaseOrder(config, before, s, placed, starts, entry, maxLevel, id, level);
    UnlinkedKeys(before, s.nodes, placed, id);
    StandsIs(s.nodes, starts[0], 0);
    OrderCovers(config, before, s, placed, id, starts[0], order);
    CoveredNearest(config, before, s, id, order);
  }

  lemma RoomIsTwo(config: Config, vector: Vector)
    requires CheckVector(config, vector).None?
    ensures Room(config, 0) >= 2
  {
  }

  lemma BaseOrder(config: Config, before: Nodes, s: Search, placed: Nodes, starts: seq<Id>, entry: Id, maxLevel: nat,
                  id: Id, level: nat) returns (order: seq<Id>)
    requires Follows(config, before, s, placed, starts, entry, maxLevel, id, level)
    ensures |starts| > 0 && Unlinked(before, s.nodes, placed, id) && Stands(s.nodes, starts[0], 0)
    ensures VisitsNearest(Search(placed, s.measure, s.vector), 0, starts[0], order, Effort(config))
    ensures LinkedNearest(before, s, id, 0, order, Room(config, 0))
  {
    hide VisitsNearest, LinkedNearest, DescendsTo, Effort, Room, Unlinked, GainsOnlyNew, Bare, Stands;
    assert LevelLinked(config, before, s, placed, id, starts[0], 0);
    order :|
      && VisitsNearest(Search(placed, s.measure, s.vector), 0, starts[0], order, Effort(config))
      && LinkedNearest(before, s, id, 0, order, Room(config, 0));
  }

  lemma OrderCovers(config: Config, before: Nodes, s: Search, placed: Nodes, id: Id, start: Id, order: seq<Id>)
    requires Sound(config, placed) && Unlinked(before, s.nodes, placed, id) && id !in before && Effort(config) >= |before| + 1
    requires start in placed && VisitsNearest(Search(placed, s.measure, s.vector), 0, start, order, Effort(config))
    ensures Elements(order) == s.nodes.Keys == before.Keys + {id}
  {
    hide Sound, VisitsNearest, Effort;
    assert |placed.Keys| == |before.Keys| + 1;
    assert |placed| == |placed.Keys| && |before| == |before.Keys|;
    LevelInside(config, placed, 0);
    BaseSpans(config, placed, start);
    OrderStays(Search(placed, s.measure, s.vector), start, order, Effort(config));
    VisitsAll(config, Search(placed, s.measure, s.vector), start, order, Effort(config));
  }

  lemma OrderStays(s: Search, start: Id, order: seq<Id>, n: nat)
    requires Inside(Around(s.nodes, 0)) && start in s.nodes && Around(s.nodes, 0).Keys == s.nodes.Keys
    requires VisitsNearest(s, 0, start, order, n)
    ensures Elements(order) <= s.nodes.Keys
  {
    hide Around, Adjacent, Closer;
    forall i | 0 <= i < |order| ensures order[i] in s.nodes {
      if i > 0 {
        assert Offered(s.nodes, 0, order[..i], order[i]);
        var j :| 0 <= j < i && Adjacent(s.nodes, 0, order[..i][j], order[i]);
        AdjacentIs(s.nodes, 0, order[j], order[i]);
        InsideIs(Around(s.nodes, 0), order[j], order[i]);
      }
    }
  }

  lemma CoveredNearest(config: Config, before: Nodes, s: Search, id: Id, order: seq<Id>)
    requires LinkedNearest(before, s, id, 0, order, Room(config, 0)) && Elements(order) == s.nodes.Keys
    requires s.nodes.Keys == before.Keys + {id} && id !in before && Room(config, 0) >= 2
    ensures BaseNearest(config, before, s, id)
  {
    hide Before, Crowd, Closer, Room;
    forall y ensures y in order <==> y in s.nodes {
      assert y in order <==> y in Elements(order);
    }
    forall y | y in before && (forall z | z in before :: z == y || Closer(s, y, z))
      ensures NearestOther(s, order, id, y) && |Before(s, s.nodes.Keys, y)| < Room(config, 0)
    {
      OnlyOneBefore(before, s, id, y);
    }
  }

  lemma OnlyOneBefore(before: Nodes, s: Search, id: Id, y: Id)
    requires s.nodes.Keys == before.Keys + {id} && y in before && forall z | z in before :: z == y || Closer(s, y, z)
    ensures |Before(s, s.nodes.Keys, y)| <= 1
  {
    forall z | z in Before(s, s.nodes.Keys, y) ensures z == id {
      CloserOrder(s, y, z, y);
    }
    Smaller(Before(s, s.nodes.Keys, y), {id});
  }

  // ---------- the backbone ----------

  /** The backbone of `z` once the new node stands between the entry and
      `first`. */
  function SplicedLinks(before: Nodes, entry: Id, id: Id, first: Id, z: Id): set<Id>
    requires entry in before && (z == id || z in before)
  {
    var cut := |before[entry].backbone| > 1;
    if z == id then {entry, first}
    else if z == entry then (if cut then before[z].backbone - {first} else before[z].backbone) + {id}
    else if z == first then (if cut then before[z].backbone - {entry} else before[z].backbone) + {id}
    else before[z].backbone
  }

  /** The new node goes on the backbone edge from the entry to the smallest of its
      backbone neighbours, or beside the only node. With two nodes the edge stays
      as the third side. */
  ghost predicate SplicedBeside(before: Nodes, after: Nodes, entry: Id, id: Id)
    requires entry in before
  {
    exists first ::
      && (if before[entry].backbone == {} then first == entry
          else first in before[entry].backbone && forall other | other in before[entry].backbone :: first <= other)
      && after.Keys == before.Keys + {id}
      && forall z | z in after :: (z == id || z in before) && after[z].backbone == SplicedLinks(before, entry, id, first, z)
  }

  lemma InsertionSplices(config: Config, measure: (Vector, Vector) -> int, nodes: Nodes, entry: Id, maxLevel: nat, id: Id,
                         vector: Vector, level: nat)
    requires Sound(config, nodes) && IsEntry(nodes, Some(entry), maxLevel) && id !in nodes
    requires nodes[entry].backbone <= nodes.Keys && CheckVector(config, vector).None? && level <= MAX_LEVEL
    ensures SplicedBeside(nodes, Inserted(config, measure, nodes, Some(entry), maxLevel, id, vector, level), entry, id)
  {
    hide *;
    EntryStands(nodes, entry, maxLevel);
    SomeEntry(entry, nodes);
    var placed, starts := InsertedRoute(config, measure, nodes, entry, maxLevel, id, vector, level);
    var after := Inserted(config, measure, nodes, Some(entry), maxLevel, id, vector, level);
    InsertedRing(config, measure, nodes, entry, maxLevel, id, vector, level);
    LoneEntry(config, nodes, entry);
    SpliceIs(Ring(nodes), id, entry);
    RingSpliced(nodes, after, entry, id);
  }

  lemma InsertedRing(config: Config, measure: (Vector, Vector) -> int, nodes: Nodes, entry: Id, maxLevel: nat, id: Id,
                     vector: Vector, level: nat)
    requires entry in nodes && nodes[entry].backbone <= nodes.Keys && id !in nodes
    ensures entry in Ring(nodes) && Ring(nodes)[entry] <= Ring(nodes).Keys && id !in Ring(nodes) && Ring(nodes)[entry] == nodes[entry].backbone
    ensures Ring(Inserted(config, measure, nodes, Some(entry), maxLevel, id, vector, level)) == Spliced(Ring(nodes)[id := {}], id, entry)
    ensures var after := Inserted(config, measure, nodes, Some(entry), maxLevel, id, vector, level); after.Keys == nodes.Keys + {id}
  {
    hide Spliced, Descend, ConnectedDown;
    var newNode := FreshNode(vector, level);
    var open := nodes[id := newNode];
    assert Ring(open) == Ring(nodes)[id := {}];
    SetRingIs(open, Spliced(Ring(open), id, entry));
    var placed := Placed(nodes, id, newNode, entry);
    var after := Inserted(config, measure, nodes, Some(entry), maxLevel, id, vector, level);
    SameRing(after, placed);
  }

  lemma LoneEntry(config: Config, nodes: Nodes, entry: Id)
    requires Sound(config, nodes) && entry in nodes
    ensures entry in Ring(nodes) && entry !in Ring(nodes)[entry] && forall y | y in Ring(nodes)[entry] :: y in Ring(nodes)
  {
    var c :| CycleOf(Ring(nodes), c);
    CycleIsReciprocal(Ring(nodes), c);
  }

  lemma SpliceIs(ring: Adj, id: Id, entry: Id)
    requires id !in ring && entry in ring && ring[entry] <= ring.Keys && entry !in ring[entry]
    ensures var ns := Listed(ring[entry]);
      Spliced(ring[id := {}], id, entry) == SplicedInto(ring, id, entry, if ns == [] then entry else ns[0], |ns| > 1)
  {
    var ns := Listed(ring[entry]);
    if ns != [] {
      assert ns[0] in Elements(ns);
    }
    SplicedIs(ring, id, entry, if ns == [] then entry else ns[0]);
    hide Spliced, SplicedInto;
  }

  lemma RingSpliced(before: Nodes, after: Nodes, entry: Id, id: Id)
    requires entry in before && id !in before && after.Keys == before.Keys + {id}
    requires entry in Ring(before) && Ring(before)[entry] == before[entry].backbone && entry !in before[entry].backbone
    requires before[entry].backbone <= before.Keys
    requires var ns := Listed(before[entry].backbone);
      Ring(after) == SplicedInto(Ring(before), id, entry, if ns == [] then entry else ns[0], |ns| > 1)
    ensures SplicedBeside(before, after, entry, id)
  {
    var ends, ns := before[entry].backbone, Listed(before[entry].backbone);
    var first := if ns == [] then entry else ns[0];
    LeastListed(ends);
    assert |ns| == |ends|;
    hide Listed;
    forall z | z in after ensures (z == id || z in before) && after[z].backbone == SplicedLinks(before, entry, id, first, z) {
      LinksAt(before, after, entry, id, first, |ns| > 1, z);
    }
    hide SplicedLinks, SplicedInto, Ring;
  }

  lemma LinksAt(before: Nodes, after: Nodes, entry: Id, id: Id, first: Id, cut: bool, z: Id)
    requires entry in before && id !in before && after.Keys == before.Keys + {id} && z in after
    requires cut == (|before[entry].backbone| > 1) && Ring(after) == SplicedInto(Ring(before), id, entry, first, cut)
    ensures (z == id || z in before) && after[z].backbone == SplicedLinks(before, entry, id, first, z)
  {
    assert Ring(after)[z] == after[z].backbone;
    if z != id {
      assert Ring(before)[z] == before[z].backbone;
    }
  }

  lemma LeastListed(s: set<Id>)
    ensures Listed(s) == [] <==> s == {}
    ensures s != {} ==> Listed(s)[0] in s && forall other | other in s :: Listed(s)[0] <= other
  {
    var r := Listed(s);
    if s != {} {
      assert r != [] by {
        assert |r| == |s|;
      }
      assert r[0] in Elements(r);
      forall other | other in s ensures r[0] <= other {
        assert other in Elements(r);
        var i :| 0 <= i < |r| && r[i] == other;
        assert i > 0 ==> ById(r[0], r[i]);
      }
    }
  }
}
