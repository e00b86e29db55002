/** What a removal links and what it leaves alone, said of the stored links
    before and after. */
module HnswRemoval {
  import opened Options
  import opened Orders
  import opened Adjacency
  import opened Backbone
  import opened BestFirst
  import opened HnswGraph
  import opened HnswChange
  import opened HnswLinks
  import opened HnswInsertion

  // ---------- one layer ----------

  /** What pairwise linking adds to `z`. */
  function Others(ns: set<Id>, z: Id): set<Id> {
    if z in ns then ns - {z} else {}
  }

  /** Nobody gains a link but a former neighbour, to another. */
  ghost predicate GainsAmong(adj: Adj, r: Adj, ns: set<Id>) {
    r.Keys == adj.Keys && forall z | z in adj :: r[z] <= adj[z] + Others(ns, z)
  }

  lemma LinkedGains(adj: Adj, ruler: Ruler, x: Id, y: Id, limit: nat, ns: set<Id>)
    requires x in adj && y in adj && x in ns && y in ns
    ensures GainsAmong(adj, Linked(adj, ruler, x, y, limit), ns)
  {
    hide Nearest;
    if x != y {
      var a := Connect(adj, x, y);
      assert GainsAmong(adj, a, ns);
      var b := Pruned(a, ruler, x, limit);
      assert forall z | z in a :: b[z] <= a[z];
      assert forall z | z in b :: Pruned(b, ruler, y, limit)[z] <= b[z];
    }
  }

  lemma GainsMore(adj: Adj, mid: Adj, r: Adj, ns: set<Id>)
    requires GainsAmong(adj, mid, ns) && GainsAmong(mid, r, ns)
    ensures GainsAmong(adj, r, ns)
  {
    forall z | z in adj ensures r[z] <= adj[z] + Others(ns, z) {
      assert r[z] <= mid[z] + Others(ns, z) && mid[z] <= adj[z] + Others(ns, z);
    }
  }

  lemma {:induction false} RelinkedGains(adj: Adj, ruler: Ruler, ns: seq<Id>, i: nat, j: nat, limit: nat)
    requires Elements(ns) <= adj.Keys
    ensures GainsAmong(adj, Relinked(adj, ruler, ns, i, j, limit), Elements(ns))
    decreases |ns| - i, |ns| - j
  {
    hide Linked, GainsAmong;
    if i >= |ns| {
      NoGains(adj, Elements(ns));
    } else if j >= |ns| {
      RelinkedGains(adj, ruler, ns, i + 1, i + 2, limit);
    } else {
      assert ns[i] in Elements(ns) && ns[j] in Elements(ns);
      var next := Linked(adj, ruler, ns[i], ns[j], limit);
      LinkedGains(adj, ruler, ns[i], ns[j], limit, Elements(ns));
      RelinkedGains(next, ruler, ns, i, j + 1, limit);
      GainsMore(adj, next, Relinked(next, ruler, ns, i, j + 1, limit), Elements(ns));
    }
  }

  lemma NoGains(adj: Adj, ns: set<Id>)
    ensures GainsAmong(adj, adj, ns)
  {
  }

  /** There is room for every link pairwise linking would add. */
  ghost predicate Roomy(adj: Adj, ns: set<Id>, limit: nat) {
    forall z | z in ns && z in adj :: |adj[z] + (ns - {z})| <= limit
  }

  /** The pairs from `(i, j)` on that `z` is in. */
  function Partners(ns: seq<Id>, i: nat, j: nat, z: Id): set<Id> {
    (set b: nat | i < |ns| && ns[i] == z && j <= b < |ns| :: ns[b])
    + (set b: nat | i < |ns| && j <= b < |ns| && ns[b] == z :: ns[i])
    + (set a: nat, b: nat | i < a < |ns| && a < b < |ns| && ns[a] == z :: ns[b])
    + (set a: nat, b: nat | i < a < |ns| && a < b < |ns| && ns[b] == z :: ns[a])
  }

  /** With room, linking only adds the link. */
  lemma LinkedRoomy(adj: Adj, ruler: Ruler, x: Id, y: Id, limit: nat)
    requires x in adj && y in adj && x != y && |adj[x] + {y}| <= limit && |adj[y] + {x}| <= limit
    ensures Linked(adj, ruler, x, y, limit) == Connect(adj, x, y)
  {
    var a := Connect(adj, x, y);
    assert a[x] == adj[x] + {y} && a[y] == adj[y] + {x};
    hide Connect;
    PrunedWhole(a, ruler, x, limit);
    PrunedWhole(a, ruler, y, limit);
  }

  lemma RoomyStep(adj: Adj, ns: set<Id>, x: Id, y: Id, limit: nat)
    requires Roomy(adj, ns, limit) && x in adj && y in adj && x in ns && y in ns && x != y
    ensures |adj[x] + {y}| <= limit && |adj[y] + {x}| <= limit
    ensures Roomy(Connect(adj, x, y), ns, limit)
  {
    hide *;
    RoomyAt(adj, ns, limit, x, y);
    RoomyAt(adj, ns, limit, y, x);
    forall z | z in ns && z in adj ensures Connect(adj, x, y)[z] + (ns - {z}) == adj[z] + (ns - {z}) {
      PairStays(adj, ns, x, y, z);
    }
    RoomyAlike(adj, Connect(adj, x, y), ns, limit);
  }

  lemma RoomyAt(adj: Adj, ns: set<Id>, limit: nat, x: Id, y: Id)
    requires Roomy(adj, ns, limit) && x in adj && x in ns && y in ns && x != y
    ensures |adj[x] + {y}| <= limit
  {
    Smaller(adj[x] + {y}, adj[x] + (ns - {x}));
  }

  lemma PairStays(adj: Adj, ns: set<Id>, x: Id, y: Id, z: Id)
    requires x in adj && y in adj && z in adj && x in ns && y in ns && x != y
    ensures Connect(adj, x, y)[z] + (ns - {z}) == adj[z] + (ns - {z})
  {
  }

  lemma RoomyAlike(adj: Adj, a: Adj, ns: set<Id>, limit: nat)
    requires a.Keys == adj.Keys && Roomy(adj, ns, limit)
    requires forall z | z in ns && z in adj :: a[z] + (ns - {z}) == adj[z] + (ns - {z})
    ensures Roomy(a, ns, limit)
  {
  }

  /** With room, relinking adds every pair and drops nothing. */
  ghost predicate AddsPairs(adj: Adj, r: Adj, ns: seq<Id>, i: nat, j: nat) {
    r.Keys == adj.Keys && forall z | z in adj :: r[z] == adj[z] + Partners(ns, i, j, z)
  }

  lemma {:induction false} RelinkedRoomy(adj: Adj, ruler: Ruler, ns: seq<Id>, i: nat, j: nat, limit: nat)
    requires Elements(ns) <= adj.Keys && Distinct(ns) && i < j && Roomy(adj, Elements(ns), limit)
    ensures AddsPairs(adj, Relinked(adj, ruler, ns, i, j, limit), ns, i, j)
    decreases |ns| - i, |ns| - j
  {
    hide *;
    RelinkedStep(adj, ruler, ns, i, j, limit);
    if i >= |ns| {
      NoPairs(adj, ns, i, j);
    } else if j >= |ns| {
      RelinkedRoomy(adj, ruler, ns, i + 1, i + 2, limit);
      NextRow(adj, Relinked(adj, ruler, ns, i + 1, i + 2, limit), ns, i, j);
    } else {
      Unequal(ns, i, j);
      RoomyStep(adj, Elements(ns), ns[i], ns[j], limit);
      LinkedRoomy(adj, ruler, ns[i], ns[j], limit);
      var next := Connect(adj, ns[i], ns[j]);
      RelinkedRoomy(next, ruler, ns, i, j + 1, limit);
      OnePair(adj, next, Relinked(next, ruler, ns, i, j + 1, limit), ns, i, j);
    }
  }

  lemma RelinkedStep(adj: Adj, ruler: Ruler, ns: seq<Id>, i: nat, j: nat, limit: nat)
    requires Elements(ns) <= adj.Keys
    ensures i < |ns| && j < |ns| ==> ns[i] in Elements(ns) && ns[j] in Elements(ns) && ns[i] in adj && ns[j] in adj
    ensures Relinked(adj, ruler, ns, i, j, limit)
      == if i >= |ns| then adj
         else if j >= |ns| then Relinked(adj, ruler, ns, i + 1, i + 2, limit)
         else Relinked(Linked(adj, ruler, ns[i], ns[j], limit), ruler, ns, i, j + 1, limit)
  {
    assert i < |ns| && j < |ns| ==> ns[i] in Elements(ns) && ns[j] in Elements(ns);
    hide Linked;
  }

  lemma Unequal(ns: seq<Id>, i: nat, j: nat)
    requires Distinct(ns) && i < j < |ns|
    ensures ns[i] != ns[j]
  {
  }

  lemma NoPairs(adj: Adj, ns: seq<Id>, i: nat, j: nat)
    requires i >= |ns|
    ensures AddsPairs(adj, adj, ns, i, j)
  {
  }

  lemma NextRow(adj: Adj, r: Adj, ns: seq<Id>, i: nat, j: nat)
    requires i < |ns| <= j && AddsPairs(adj, r, ns, i + 1, i + 2)
    ensures AddsPairs(adj, r, ns, i, j)
  {
    forall z ensures Partners(ns, i + 1, i + 2, z) == Partners(ns, i, j, z) {
      RowPartners(ns, i, j, z);
    }
    hide Partners;
  }

  predicate Paired(ns: seq<Id>, i: nat, j: nat, a: nat, b: nat) {
    a < b < |ns| && (a > i || (a == i && b >= j))
  }

  lemma PartnersAre(ns: seq<Id>, i: nat, j: nat, z: Id, w: Id)
    requires i < j
    ensures w in Partners(ns, i, j, z)
      <==> exists a: nat, b: nat :: Paired(ns, i, j, a, b) && ((ns[a] == z && ns[b] == w) || (ns[b] == z && ns[a] == w))
  {
    if w in Partners(ns, i, j, z) {
      if b: nat :| i < |ns| && ns[i] == z && j <= b < |ns| && ns[b] == w {
        assert Paired(ns, i, j, i, b);
      } else if b: nat :| i < |ns| && j <= b < |ns| && ns[b] == z && ns[i] == w {
        assert Paired(ns, i, j, i, b);
      } else if a: nat, b: nat :| i < a < |ns| && a < b < |ns| && ns[a] == z && ns[b] == w {
        assert Paired(ns, i, j, a, b);
      } else {
        var a: nat, b: nat :| i < a < |ns| && a < b < |ns| && ns[b] == z && ns[a] == w;
        assert Paired(ns, i, j, a, b);
      }
    }
  }

  lemma RowPartners(ns: seq<Id>, i: nat, j: nat, z: Id)
    requires i < |ns| <= j
    ensures Partners(ns, i + 1, i + 2, z) == Partners(ns, i, j, z)
  {
    hide Partners;
    forall w ensures w in Partners(ns, i + 1, i + 2, z) <==> w in Partners(ns, i, j, z) {
      PartnersAre(ns, i + 1, i + 2, z, w);
      PartnersAre(ns, i, j, z, w);
      assert forall a: nat, b: nat :: Paired(ns, i + 1, i + 2, a, b) <==> Paired(ns, i, j, a, b);
    }
  }

  lemma OnePair(adj: Adj, next: Adj, r: Adj, ns: seq<Id>, i: nat, j: nat)
    requires i < j < |ns| && ns[i] != ns[j] && ns[i] in adj && ns[j] in adj && next == Connect(adj, ns[i], ns[j])
    requires AddsPairs(next, r, ns, i, j + 1)
    ensures AddsPairs(adj, r, ns, i, j)
  {
    forall z | z in adj ensures r[z] == adj[z] + Partners(ns, i, j, z) {
      PairPartners(ns, i, j, z);
    }
  }

  lemma PairPartners(ns: seq<Id>, i: nat, j: nat, z: Id)
    requires i < j < |ns|
    ensures Partners(ns, i, j, z)
      == Partners(ns, i, j + 1, z) + (if z == ns[i] then {ns[j]} else {}) + (if z == ns[j] then {ns[i]} else {})
  {
    hide Partners;
    var rest, one, other := Partners(ns, i, j + 1, z), if z == ns[i] then {ns[j]} else {}, if z == ns[j] then {ns[i]} else {};
    forall w ensures w in Partners(ns, i, j, z) <==> w in rest + one + other {
      PartnersAre(ns, i, j, z, w);
      PartnersAre(ns, i, j + 1, z, w);
      assert forall a: nat, b: nat :: Paired(ns, i, j, a, b) <==> Paired(ns, i, j + 1, a, b) || (a == i && b == j);
      assert Paired(ns, i, j, i, j);
    }
  }

  lemma AllPartners(ns: seq<Id>, z: Id)
    requires Distinct(ns)
    ensures Partners(ns, 0, 1, z) == Others(Elements(ns), z)
  {
    hide Partners;
    forall w ensures w in Partners(ns, 0, 1, z) <==> w in Others(Elements(ns), z) {
      PartnersAre(ns, 0, 1, z, w);
      if w in Others(Elements(ns), z) {
        var a: nat :| a < |ns| && ns[a] == z;
        var b: nat :| b < |ns| && ns[b] == w;
        assert Paired(ns, 0, 1, a, b) || Paired(ns, 0, 1, b, a);
      }
    }
  }

  lemma RemovedGains(adj: Adj, ruler: Ruler, x: Id, limit: nat)
    requires Reciprocal(adj) && x in adj
    ensures var r := Removed(adj, ruler, x, limit);
      && r.Keys == adj.Keys - {x}
      && (forall z | z in r :: r[z] <= adj[z] - {x} + Others(adj[x], z))
      && (RoomyWithout(adj, x, limit) ==> forall z | z in r :: r[z] == adj[z] - {x} + Others(adj[x], z))
  {
    hide *;
    RemovedIs(adj, ruler, x, limit);
    var rest, ns := Detach(adj, x), Listed(adj[x]);
    ListedOnce(adj[x]);
    RelinkedGains(rest, ruler, ns, 0, 1, limit);
    GainsAt(rest, Removed(adj, ruler, x, limit), adj[x]);
    if RoomyWithout(adj, x, limit) {
      RoomyRest(adj, x, limit);
      RelinkedRoomy(rest, ruler, ns, 0, 1, limit);
      PairsAt(rest, Removed(adj, ruler, x, limit), ns);
    }
  }

  lemma RemovedIs(adj: Adj, ruler: Ruler, x: Id, limit: nat)
    requires Reciprocal(adj) && x in adj
    ensures var rest, ns := Detach(adj, x), Listed(adj[x]);
      && Elements(ns) <= rest.Keys && rest.Keys == adj.Keys - {x}
      && (forall z | z in rest :: rest[z] == adj[z] - {x})
      && Removed(adj, ruler, x, limit) == Relinked(rest, ruler, ns, 0, 1, limit)
  {
    assert forall y | y in adj[x] :: y in adj && y != x;
    hide Relinked, Listed;
  }

  lemma GainsAt(rest: Adj, r: Adj, ns: set<Id>)
    requires GainsAmong(rest, r, ns)
    ensures r.Keys == rest.Keys && forall z | z in r :: r[z] <= rest[z] + Others(ns, z)
  {
    hide Others;
  }

  lemma PairsAt(rest: Adj, r: Adj, ns: seq<Id>)
    requires AddsPairs(rest, r, ns, 0, 1) && Distinct(ns)
    ensures forall z | z in r :: r[z] == rest[z] + Others(Elements(ns), z)
  {
    hide Others, Partners, Distinct;
    forall z | z in r ensures Partners(ns, 0, 1, z) == Others(Elements(ns), z) {
      AllPartners(ns, z);
    }
  }

  lemma RoomyRest(adj: Adj, x: Id, limit: nat)
    requires x in adj && RoomyWithout(adj, x, limit)
    ensures Roomy(Detach(adj, x), adj[x], limit)
  {
  }

  lemma ListedOnce(s: set<Id>)
    ensures Distinct(Listed(s)) && Elements(Listed(s)) == s
  {
  }

  ghost predicate RoomyWithout(adj: Adj, x: Id, limit: nat)
    requires x in adj
  {
    forall z | z in adj[x] && z in adj :: |adj[z] - {x} + (adj[x] - {z})| <= limit
  }

  // ---------- the whole graph ----------

  /** What `z` would be linked to if every pair of former neighbours were. */
  function Rejoined(before: Nodes, id: Id, z: Id, l: nat): set<Id>
    requires id in before && z in before && l < |before[id].neighbours| && l < |before[z].neighbours|
  {
    var ns := before[id].neighbours[l];
    before[z].neighbours[l] - {id} + if z in ns then ns - {z} else {}
  }

  /** Rejoining overfills no former neighbour. */
  ghost predicate HasRoom(config: Config, before: Nodes, id: Id, l: nat)
    requires id in before && l < |before[id].neighbours|
  {
    forall z | z in before[id].neighbours[l] && z in before && l < |before[z].neighbours| ::
      |Rejoined(before, id, z, l)| <= Room(config, l)
  }

  /** Only former neighbours gain links, each to others, and with room enough
      they gain all of them and nothing else is lost. */
  ghost predicate LevelRejoined(config: Config, before: Nodes, after: Nodes, id: Id, l: nat)
    requires id in before && l < |before[id].neighbours|
  {
    forall z | z in after && l < |after[z].neighbours| ::
      && z in before && l < |before[z].neighbours|
      && after[z].neighbours[l] <= Rejoined(before, id, z, l)
      && (HasRoom(config, before, id, l) ==> after[z].neighbours[l] == Rejoined(before, id, z, l))
  }

  lemma RemovalRejoins(config: Config, measure: (Vector, Vector) -> int, before: Nodes, after: Nodes, id: Id, l: nat)
    requires Sound(config, before) && id in before && IsRemoval(config, measure, before, after, id)
    requires l < |before[id].neighbours|
    ensures LevelRejoined(config, before, after, id, l)
  {
    hide *;
    var adj, ruler := Layer(before, l), RulerOf(Space(Vectors(before) - {id}, measure));
    LevelOk(config, before, l);
    LinksAre(before, id, l);
    LayerHas(before, id, l);
    RemovalLayers(config, measure, before, after, id, l);
    LimitsAre(config, l);
    RemovedGains(adj, ruler, id, Room(config, l));
    LayerRejoined(config, before, after, id, l);
  }

  lemma LayerHas(nodes: Nodes, x: Id, l: nat)
    requires x in nodes && l < |nodes[x].neighbours|
    ensures x in Layer(nodes, l) && Layer(nodes, l)[x] == nodes[x].neighbours[l]
  {
  }

  lemma RemovalLayers(config: Config, measure: (Vector, Vector) -> int, before: Nodes, after: Nodes, id: Id, l: nat)
    requires Sound(config, before) && IsRemoval(config, measure, before, after, id) && Reciprocal(Layer(before, l))
    ensures Layer(after, l)
      == Removed(Layer(before, l), RulerOf(Space(Vectors(before) - {id}, measure)), id, DegreeLimit(config, l))
    ensures after.Keys == before.Keys - {id} && forall z | z in after :: |after[z].neighbours| == |before[z].neighbours|
  {
    hide Removed, Layer, LayersOk;
    assert Layer(after, l) == LayerWithout(config, measure, before, id, l);
    forall z | z in after ensures |after[z].neighbours| == |before[z].neighbours| {
      assert SameShape(before[z], after[z]);
    }
  }

  lemma LayerRejoined(config: Config, before: Nodes, after: Nodes, id: Id, l: nat)
    requires id in before && l < |before[id].neighbours| && after.Keys == before.Keys - {id}
    requires forall z | z in after :: |after[z].neighbours| == |before[z].neighbours|
    requires var adj, r := Layer(before, l), Layer(after, l);
      && id in adj && r.Keys == adj.Keys - {id}
      && (forall z | z in r :: r[z] <= adj[z] - {id} + Others(adj[id], z))
      && (RoomyWithout(adj, id, Room(config, l)) ==> forall z | z in r :: r[z] == adj[z] - {id} + Others(adj[id], z))
    ensures LevelRejoined(config, before, after, id, l)
  {
    hide Room;
    var adj := Layer(before, l);
    if HasRoom(config, before, id, l) {
      forall z | z in adj[id] && z in adj ensures |adj[z] - {id} + (adj[id] - {z})| <= Room(config, l) {
        assert Rejoined(before, id, z, l) == adj[z] - {id} + (adj[id] - {z});
      }
    }
    forall z | z in after && l < |after[z].neighbours|
      ensures z in before && l < |before[z].neighbours|
      ensures after[z].neighbours[l] <= Rejoined(before, id, z, l)
      ensures HasRoom(config, before, id, l) ==> after[z].neighbours[l] == Rejoined(before, id, z, l)
    {
      assert z in Layer(after, l) && z in adj;
    }
  }

  /** Levels the removed node did not reach stay as they were. */
  lemma RemovalSpares(config: Config, measure: (Vector, Vector) -> int, before: Nodes, after: Nodes, id: Id, z: Id, l: nat)
    requires Sound(config, before) && id in before && IsRemoval(config, measure, before, after, id)
    requires z in after && |before[id].neighbours| <= l < |after[z].neighbours|
    ensures z in before && l < |before[z].neighbours| && after[z].neighbours[l] == before[z].neighbours[l]
    ensures after[z].vector == before[z].vector && after[z].level == before[z].level
  {
    LevelOk(config, before, l);
    RemovalLayers(config, measure, before, after, id, l);
    hide Removed, LayersOk, Sound;
    assert SameShape(before[z], after[z]);
    assert id !in Layer(before, l);
    RemovedAbsent(Layer(before, l), RulerOf(Space(Vectors(before) - {id}, measure)), id, DegreeLimit(config, l));
    LayerHas(before, z, l);
    LayerHas(after, z, l);
  }

  lemma RemovedAbsent(adj: Adj, ruler: Ruler, x: Id, limit: nat)
    requires Reciprocal(adj) && x !in adj
    ensures Removed(adj, ruler, x, limit) == adj
  {
  }

  /** The removed node's two backbone neighbours become each other's; the rest of
      the backbone stays. */
  lemma RemovalBypasses(config: Config, measure: (Vector, Vector) -> int, before: Nodes, after: Nodes, id: Id, z: Id)
    requires Sound(config, before) && id in before && IsRemoval(config, measure, before, after, id) && z in after
    ensures z in before
    ensures after[z].backbone == before[z].backbone - {id} + (if z in before[id].backbone then before[id].backbone - {z} else {})
  {
    var ring, ends := Ring(before), before[id].backbone;
    assert Ring(after) == RingWithout(before, id);
    BypassKeepsCycle(ring, id);
    CycleHasDegrees(ring);
    hide Sound, SingleCycle, Bypassed;
    assert ring[id] == ends && |ends| <= 2 && z in ring && z != id;
    assert Ring(after)[z] == after[z].backbone && ring[z] == before[z].backbone;
    BypassedAt(ring, id, z);
  }

  lemma BypassedAt(ring: Adj, id: Id, z: Id)
    requires id in ring && z in ring && z != id && ring[id] <= ring.Keys - {id} && |ring[id]| <= 2
    ensures Bypassed(ring, id)[z] == ring[z] - {id} + Others(ring[id], z)
  {
    hide *;
    var anchors := Listed(ring[id]);
    ListedOnce(ring[id]);
    ListedSize(ring[id]);
    if |anchors| == 2 {
      TwoAnchors(ring[id], anchors);
      BypassedLinks(ring, anchors[0], anchors[1], id);
      OthersOfTwo(anchors[0], anchors[1], z);
    } else {
      BypassedAlone(ring, id);
      OnlyOne(ring[id], z);
      DetachAt(ring, id, z);
    }
  }

  lemma ListedSize(s: set<Id>)
    ensures |Listed(s)| == |s|
  {
  }

  lemma OthersOfTwo(a: Id, b: Id, z: Id)
    requires a != b
    ensures Others({a, b}, z) == if z == a then {b} else if z == b then {a} else {}
  {
  }

  lemma DetachAt(ring: Adj, id: Id, z: Id)
    requires z in ring && z != id
    ensures Detach(ring, id)[z] == ring[z] - {id} == ring[z] - {id} + {}
  {
  }

  lemma TwoAnchors(s: set<Id>, anchors: seq<Id>)
    requires Elements(anchors) == s && |anchors| == 2 && Distinct(anchors)
    ensures anchors == [anchors[0], anchors[1]] && anchors[0] != anchors[1] && s == {anchors[0], anchors[1]}
    ensures anchors[0] in s && anchors[1] in s
  {
  }

  lemma BypassedAlone(ring: Adj, id: Id)
    requires id in ring && ring[id] <= ring.Keys - {id} && |Listed(ring[id])| != 2
    ensures Bypassed(ring, id) == Detach(ring, id)
  {
    hide Detach;
  }

  lemma OnlyOne(s: set<Id>, z: Id)
    requires |s| < 2
    ensures Others(s, z) == {}
  {
    if z in s {
      assert |s - {z}| == |s| - 1;
    }
  }
}
