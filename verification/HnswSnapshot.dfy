/** The boundary a stored HNSW graph crosses when it is loaded: local checks
    that together accept exactly the well-formed graphs. */
module HnswSnapshot {
  import opened Options
  import opened Orders
  import opened Adjacency
  import opened Backbone
  import opened BestFirst
  import opened HnswGraph
  import opened HnswIndex

  /** A link to a node whose own shape is not yet checked may index past that
      node's levels, which aborts the load. */
  datatype Verdict = Accepted | Refused | Aborted

  datatype Raw = Raw(config: Config, nodes: Nodes, entryPoint: Option<Id>, maxLevel: nat, levelState: bv64)

  ghost predicate Loadable(raw: Raw) {
    WellFormed(raw.config, raw.nodes, raw.entryPoint, raw.maxLevel, raw.levelState)
  }

  /** The far end of a normal link stores the link too. */
  ghost predicate LinkMatched(nodes: Nodes, id: Id, level: nat, y: Id) {
    && y != id && y in nodes && nodes[y].level >= level
    && level < |nodes[y].neighbours| && id in nodes[y].neighbours[level]
  }

  ghost predicate LevelMatched(config: Config, nodes: Nodes, id: Id, level: nat)
    requires id in nodes && level < |nodes[id].neighbours|
  {
    && |nodes[id].neighbours[level]| <= DegreeLimit(config, level)
    && forall y | y in nodes[id].neighbours[level] :: LinkMatched(nodes, id, level, y)
  }

  ghost predicate RingMatched(nodes: Nodes, id: Id)
    requires id in nodes
  {
    forall y | y in nodes[id].backbone :: y != id && y in nodes && id in nodes[y].backbone
  }

  ghost predicate NodeMatched(config: Config, nodes: Nodes, id: Id)
    requires id in nodes
  {
    && NodeOk(config, nodes[id])
    && (forall level: nat | level < |nodes[id].neighbours| :: LevelMatched(config, nodes, id, level))
    && RingMatched(nodes, id)
  }

  method CheckLinks(nodes: Nodes, id: Id, level: nat, links: seq<Id>) returns (v: Verdict)
    ensures v == Accepted <==> forall i | 0 <= i < |links| :: LinkMatched(nodes, id, level, links[i])
  {
    for i := 0 to |links|
      invariant forall j | 0 <= j < i :: LinkMatched(nodes, id, level, links[j])
    {
      var y := links[i];
      if y == id || y !in nodes || nodes[y].level < level {
        return Refused;
      }
      if level >= |nodes[y].neighbours| {
        return Aborted;
      }
      if id !in nodes[y].neighbours[level] {
        return Refused;
      }
    }
    v := Accepted;
  }

  method CheckLevels(config: Config, nodes: Nodes, id: Id) returns (v: Verdict)
    requires id in nodes
    ensures v == Accepted <==>
      forall level: nat | level < |nodes[id].neighbours| :: LevelMatched(config, nodes, id, level)
  {
    var neighbours := nodes[id].neighbours;
    for level := 0 to |neighbours|
      invariant forall l: nat | l < level :: LevelMatched(config, nodes, id, l)
    {
      if |neighbours[level]| > DegreeLimit(config, level) {
        assert !LevelMatched(config, nodes, id, level);
        return Refused;
      }
      var links := Listed(neighbours[level]);
      v := CheckLinks(nodes, id, level, links);
      ListedAll(links, neighbours[level]);
      if v != Accepted {
        assert !LevelMatched(config, nodes, id, level);
        return;
      }
    }
    v := Accepted;
  }

  method CheckRing(nodes: Nodes, id: Id) returns (v: Verdict)
    requires id in nodes
    ensures v == Accepted <==> RingMatched(nodes, id)
  {
    var links := Listed(nodes[id].backbone);
    ListedAll(links, nodes[id].backbone);
    for i := 0 to |links|
      invariant forall j | 0 <= j < i :: links[j] != id && links[j] in nodes && id in nodes[links[j]].backbone
    {
      var y := links[i];
      if y == id || y !in nodes || id !in nodes[y].backbone {
        return Refused;
      }
    }
    v := Accepted;
  }

  lemma ListedAll(links: seq<Id>, s: set<Id>)
    requires Elements(links) == s
    ensures forall i | 0 <= i < |links| :: links[i] in s
    ensures forall y | y in s :: y in links
  {
    assert forall i | 0 <= i < |links| :: links[i] in Elements(links);
    assert forall y | y in s :: y in Elements(links);
  }

  method CheckNode(config: Config, nodes: Nodes, id: Id) returns (v: Verdict)
    requires id in nodes && ConfigOk(config)
    ensures v == Accepted <==> NodeMatched(config, nodes, id)
  {
    var node := nodes[id];
    if CheckVector(config, node.vector).Some? || node.level > MAX_LEVEL || |node.neighbours| != node.level + 1 {
      return Refused;
    }
    v := CheckLevels(config, nodes, id);
    if v == Accepted {
      v := CheckRing(nodes, id);
    }
  }

  method CheckNodes(config: Config, nodes: Nodes) returns (v: Verdict)
    requires ConfigOk(config)
    ensures v == Accepted <==> forall id | id in nodes :: NodeMatched(config, nodes, id)
  {
    var ids := Listed(nodes.Keys);
    ListedAll(ids, nodes.Keys);
    hide NodeMatched;
    for i := 0 to |ids|
      invariant forall j | 0 <= j < i :: NodeMatched(config, nodes, ids[j])
    {
      v := CheckNode(config, nodes, ids[i]);
      if v != Accepted {
        return;
      }
    }
    v := Accepted;
  }

  /** Checking every node on its own establishes every layer. */
  lemma MatchedIsSound(config: Config, nodes: Nodes)
    ensures (forall id | id in nodes :: NodeMatched(config, nodes, id)) <==>
      (forall id | id in nodes :: NodeOk(config, nodes[id])) && LayersOk(config, nodes) && Reciprocal(Ring(nodes))
  {
    if forall id | id in nodes :: NodeMatched(config, nodes, id) {
      MatchedGivesLayers(config, nodes);
    }
    if (forall id | id in nodes :: NodeOk(config, nodes[id])) && LayersOk(config, nodes) && Reciprocal(Ring(nodes)) {
      forall id | id in nodes ensures NodeMatched(config, nodes, id) {
        LayersGiveMatched(config, nodes, id);
      }
    }
  }

  lemma MatchedGivesLayers(config: Config, nodes: Nodes)
    requires forall id | id in nodes :: NodeMatched(config, nodes, id)
    ensures LayersOk(config, nodes) && Reciprocal(Ring(nodes))
  {
    forall l: nat ensures LayerOk(config, nodes, l) {
      var layer := Layer(nodes, l);
      forall x | x in layer ensures |layer[x]| <= DegreeLimit(config, l) {
        assert NodeMatched(config, nodes, x) && LevelMatched(config, nodes, x, l);
      }
      forall x, y | x in layer && y in layer[x] ensures y != x && y in layer && x in layer[y] {
        assert NodeMatched(config, nodes, x) && LevelMatched(config, nodes, x, l) && LinkMatched(nodes, x, l, y);
      }
    }
    forall x, y | x in Ring(nodes) && y in Ring(nodes)[x] ensures y != x && y in Ring(nodes) && x in Ring(nodes)[y] {
      assert NodeMatched(config, nodes, x) && RingMatched(nodes, x);
    }
  }

  lemma LayersGiveMatched(config: Config, nodes: Nodes, id: Id)
    requires (forall z | z in nodes :: NodeOk(config, nodes[z])) && LayersOk(config, nodes) && Reciprocal(Ring(nodes))
    requires id in nodes
    ensures NodeMatched(config, nodes, id)
  {
    forall level: nat | level < |nodes[id].neighbours| ensures LevelMatched(config, nodes, id, level) {
      var layer := Layer(nodes, level);
      assert LayerOk(config, nodes, level) && id in layer && layer[id] == nodes[id].neighbours[level];
      forall y | y in layer[id] ensures LinkMatched(nodes, id, level, y) {
        assert y in layer && id in layer[y];
        assert NodeOk(config, nodes[y]);
      }
    }
    forall y | y in nodes[id].backbone ensures y != id && y in nodes && id in nodes[y].backbone {
      assert y in Ring(nodes)[id];
    }
  }

  /** Walks the backbone from `start`: exactly the nodes reachable along it. */
  method Reach(nodes: Nodes, start: Id) returns (seen: set<Id>)
    requires start in nodes && Inside(Ring(nodes))
    ensures start in seen && seen <= nodes.Keys && Closed(Ring(nodes), seen)
    ensures forall s: set<Id> | start in s && Closed(Ring(nodes), s) :: seen <= s
  {
    seen := {};
    var pending := [start];
    assert Elements(pending) == {start};
    while pending != []
      invariant Reaching(Ring(nodes), start, seen, pending)
      decreases nodes.Keys - seen, |pending|
    {
      var id := pending[|pending| - 1];
      var rest := pending[..|pending| - 1];
      assert pending == rest + [id];
      PopPending(Ring(nodes), start, seen, rest, id);
      if id in seen {
        pending := rest;
      } else {
        var links := Listed(nodes[id].backbone);
        PushPending(Ring(nodes), start, seen, rest, id, links);
        seen := seen + {id};
        pending := rest + links;
      }
    }
    assert Elements(pending) == {};
  }

  /** What holds while the walk runs: seen nodes' links are seen or pending, and
      nothing outside any closed set with the start is touched. */
  ghost predicate Reaching(ring: Adj, start: Id, seen: set<Id>, pending: seq<Id>) {
    && seen + Elements(pending) <= ring.Keys && start in seen + Elements(pending)
    && (forall x | x in seen :: ring[x] <= seen + Elements(pending))
    && forall s: set<Id> | start in s && Closed(ring, s) :: seen + Elements(pending) <= s
  }

  lemma PopPending(ring: Adj, start: Id, seen: set<Id>, pending: seq<Id>, id: Id)
    requires Reaching(ring, start, seen, pending + [id])
    ensures id in seen ==> Reaching(ring, start, seen, pending)
    ensures id in ring
  {
    assert Elements(pending + [id]) == Elements(pending) + {id};
    assert id in Elements(pending + [id]);
    if id in seen {
      assert seen + Elements(pending + [id]) == seen + Elements(pending);
    }
  }

  lemma PushPending(ring: Adj, start: Id, seen: set<Id>, rest: seq<Id>, id: Id, links: seq<Id>)
    requires id in ring && Elements(links) == ring[id] && Inside(ring)
    requires Reaching(ring, start, seen, rest + [id])
    ensures Reaching(ring, start, seen + {id}, rest + links)
  {
    var was, now := seen + Elements(rest + [id]), seen + {id} + Elements(rest + links);
    assert Elements(rest + [id]) == Elements(rest) + {id};
    assert Elements(rest + links) == Elements(rest) + Elements(links);
    assert now == was + ring[id] && id in was;
    forall s: set<Id> | start in s && Closed(ring, s) ensures now <= s {
      assert was <= s && id in s;
      assert forall y | y in ring[id] :: y in s;
    }
    forall x | x in seen + {id} ensures ring[x] <= now {
      assert x == id || ring[x] <= was;
    }
  }

  /** The walk sees every node exactly when the backbone spans from `start`. */
  lemma ReachedAll(nodes: Nodes, start: Id, seen: set<Id>)
    requires start in seen && seen <= nodes.Keys && Closed(Ring(nodes), seen)
    requires forall s: set<Id> | start in s && Closed(Ring(nodes), s) :: seen <= s
    ensures |seen| == |nodes| <==> Spans(Ring(nodes), [start])
  {
    var ring := Ring(nodes);
    assert Elements([start]) == {start};
    assert |nodes| == |nodes.Keys|;
    if |seen| == |nodes| {
      SameSize(seen, nodes.Keys);
    }
    if Spans(ring, [start]) {
      assert Elements([start]) <= seen;
      assert seen == nodes.Keys;
    }
  }

  lemma SameSize(a: set<Id>, b: set<Id>)
    requires a <= b && |a| == |b|
    ensures a == b
  {
    assert b == a + (b - a);
    assert |b - a| == 0;
  }

  function ExpectedDegree(n: nat): nat {
    if n == 1 then 0 else if n == 2 then 1 else 2
  }

  function ExpectedEdges(n: nat): nat {
    if n == 1 then 0 else if n == 2 then 1 else n
  }

  /** Every backbone degree is the expected one, and the edges then count up to
      a cycle's. */
  method CheckDegrees(nodes: Nodes) returns (ok: bool, edges: nat)
    ensures ok <==> forall id | id in nodes :: |nodes[id].backbone| == ExpectedDegree(|nodes|)
    ensures ok && nodes != map[] ==> edges == ExpectedEdges(|nodes|)
  {
    var ids, degree := Listed(nodes.Keys), ExpectedDegree(|nodes|);
    ListedAll(ids, nodes.Keys);
    var sum := 0;
    for i := 0 to |ids|
      invariant forall j | 0 <= j < i :: |nodes[ids[j]].backbone| == degree
      invariant sum == if degree == 0 then 0 else if degree == 1 then i else 2 * i
    {
      if |nodes[ids[i]].backbone| != degree {
        return false, 0;
      }
      sum := sum + |nodes[ids[i]].backbone|;
    }
    assert |ids| == |nodes.Keys| == |nodes|;
    return true, sum / 2;
  }

  /** The smallest identity at the highest level. */
  method Selected(nodes: Nodes) returns (entry: Option<Id>, maxLevel: nat)
    ensures IsEntry(nodes, entry, maxLevel)
  {
    var ids := Listed(nodes.Keys);
    ListedAll(ids, nodes.Keys);
    entry, maxLevel := None, 0;
    hide SelectedAmong, Ascends;
    for i := 0 to |ids|
      invariant entry.None? <==> i == 0
      invariant entry.None? ==> maxLevel == 0
      invariant entry.Some? ==> SelectedAmong(nodes, ids[..i], entry.value, maxLevel)
    {
      var id := ids[i];
      SelectNext(nodes, ids, i, entry, maxLevel);
      if entry.None? || nodes[id].level > maxLevel {
        entry, maxLevel := Some(id), nodes[id].level;
      }
    }
    SelectedAll(nodes, ids, entry, maxLevel);
  }

  lemma SelectNext(nodes: Nodes, ids: seq<Id>, i: nat, entry: Option<Id>, maxLevel: nat)
    requires i < |ids| && Ascends(ById, ids) && forall j | 0 <= j < |ids| :: ids[j] in nodes
    requires entry.None? <==> i == 0
    requires entry.Some? ==> SelectedAmong(nodes, ids[..i], entry.value, maxLevel)
    ensures
      if entry.None? || nodes[ids[i]].level > maxLevel
      then SelectedAmong(nodes, ids[..i + 1], ids[i], nodes[ids[i]].level)
      else SelectedAmong(nodes, ids[..i + 1], entry.value, maxLevel)
  {
    var longer := ids[..i + 1];
    assert longer == ids[..i] + [ids[i]];
    assert forall j | 0 <= j < i :: ById(ids[j], ids[i]);
    if entry.Some? {
      assert entry.value in ids[..i];
    }
  }

  lemma SelectedAll(nodes: Nodes, ids: seq<Id>, entry: Option<Id>, maxLevel: nat)
    requires Elements(ids) == nodes.Keys && |ids| == |nodes.Keys|
    requires entry.None? <==> ids == []
    requires entry.None? ==> maxLevel == 0
    requires entry.Some? ==> SelectedAmong(nodes, ids[..|ids|], entry.value, maxLevel)
    ensures IsEntry(nodes, entry, maxLevel)
  {
    assert ids[..|ids|] == ids;
    if ids == [] {
      assert nodes.Keys == {};
    } else {
      assert ids[0] in Elements(ids);
      assert forall id | id in nodes :: id in Elements(ids);
    }
  }

  ghost predicate SelectedAmong(nodes: Nodes, ids: seq<Id>, entry: Id, maxLevel: nat) {
    && entry in ids && entry in nodes && nodes[entry].level == maxLevel
    && forall i | 0 <= i < |ids| ::
         ids[i] in nodes && nodes[ids[i]].level <= maxLevel && (nodes[ids[i]].level == maxLevel ==> entry <= ids[i])
  }

  lemma EntryOnce(nodes: Nodes, a: Option<Id>, m: nat, b: Option<Id>, n: nat)
    requires IsEntry(nodes, a, m) && IsEntry(nodes, b, n)
    ensures a == b && m == n
  {
    if nodes != map[] {
      var x: Id, y: Id := a.value, b.value;
      assert x in nodes && y in nodes;
    }
  }

  /** Accepts a stored graph exactly when it is well-formed. */
  method Load(raw: Raw) returns (v: Verdict)
    ensures v == Accepted <==> Loadable(raw)
  {
    if !ConfigOk(raw.config) || raw.levelState == 0 {
      return Refused;
    }
    var entry, maxLevel := Selected(raw.nodes);
    if raw.entryPoint != entry || raw.maxLevel != maxLevel {
      NotItsEntry(raw, entry, maxLevel);
      return Refused;
    }
    v := CheckNodes(raw.config, raw.nodes);
    LocallySound(raw);
    hide *;
    if v == Accepted {
      v := CheckBackbone(raw.nodes);
    }
  }

  lemma NotItsEntry(raw: Raw, entry: Option<Id>, maxLevel: nat)
    requires IsEntry(raw.nodes, entry, maxLevel) && (raw.entryPoint != entry || raw.maxLevel != maxLevel)
    ensures !Loadable(raw)
  {
    if IsEntry(raw.nodes, raw.entryPoint, raw.maxLevel) {
      EntryOnce(raw.nodes, raw.entryPoint, raw.maxLevel, entry, maxLevel);
    }
  }

  lemma LocallySound(raw: Raw)
    requires ConfigOk(raw.config) && raw.levelState != 0 && IsEntry(raw.nodes, raw.entryPoint, raw.maxLevel)
    ensures (forall id | id in raw.nodes :: NodeMatched(raw.config, raw.nodes, id)) ==> Reciprocal(Ring(raw.nodes))
    ensures Loadable(raw) <==>
      (forall id | id in raw.nodes :: NodeMatched(raw.config, raw.nodes, id)) && SingleCycle(Ring(raw.nodes))
  {
    MatchedIsSound(raw.config, raw.nodes);
    hide NodeMatched, LayersOk, NodeOk, ConfigOk, IsEntry;
    if SingleCycle(Ring(raw.nodes)) {
      var c :| CycleOf(Ring(raw.nodes), c);
      CycleIsReciprocal(Ring(raw.nodes), c);
    }
  }

  /** Degrees, the edge count and one walk decide whether a reciprocal backbone
      is a single cycle through every node. */
  method CheckBackbone(nodes: Nodes) returns (v: Verdict)
    requires Reciprocal(Ring(nodes))
    ensures v == Accepted <==> SingleCycle(Ring(nodes))
  {
    if nodes == map[] {
      assert CycleOf(Ring(nodes), []);
      return Accepted;
    }
    var ok, edges := CheckDegrees(nodes);
    DegreesAre(nodes);
    if !ok || edges != ExpectedEdges(|nodes|) {
      return Refused;
    }
    var ids := Listed(nodes.Keys);
    var start := ids[0];
    assert start in Elements(ids);
    var seen := Reach(nodes, start);
    ReachedAll(nodes, start, seen);
    BackboneDecided(nodes, start);
    v := if |seen| == |nodes| then Accepted else Refused;
  }

  lemma DegreesAre(nodes: Nodes)
    requires nodes != map[]
    ensures SingleCycle(Ring(nodes)) ==> forall id | id in nodes :: |nodes[id].backbone| == ExpectedDegree(|nodes|)
    ensures (forall id | id in nodes :: |nodes[id].backbone| == ExpectedDegree(|nodes|)) ==> CycleDegrees(Ring(nodes))
  {
    var ring := Ring(nodes);
    assert |ring| == |ring.Keys| == |nodes.Keys| == |nodes|;
    assert |nodes| > 0;
    if SingleCycle(ring) {
      CycleHasDegrees(ring);
      forall id | id in nodes ensures |nodes[id].backbone| == ExpectedDegree(|nodes|) {
        assert id in ring && ring[id] == nodes[id].backbone;
      }
    }
  }

  lemma BackboneDecided(nodes: Nodes, start: Id)
    requires Reciprocal(Ring(nodes)) && CycleDegrees(Ring(nodes)) && start in nodes
    ensures Spans(Ring(nodes), [start]) <==> SingleCycle(Ring(nodes))
  {
    if Spans(Ring(nodes), [start]) {
      DegreesMakeCycle(Ring(nodes), start);
    }
    if SingleCycle(Ring(nodes)) {
      CycleSpans(Ring(nodes), [start]);
    }
  }

  /** Every graph the index's own operations leave is accepted again, whatever
      their history, exactly when its configuration is one an insert accepts. */
  method SaveAndLoad(index: Index) returns (v: Verdict)
    requires index.Valid()
    ensures v == Accepted <==> ConfigOk(index.config)
  {
    v := Load(Raw(index.config, index.nodes, index.entryPoint, index.maxLevel, index.levelState));
  }
}
