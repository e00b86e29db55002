/** The HNSW index as the engine runs it: one object whose methods search and
    update the stored graph in place. */
module HnswIndex {
  import opened Options
  import opened Orders
  import opened Adjacency
  import opened Backbone
  import opened BestFirst
  import opened HnswGraph
  import opened HnswChange
  import opened HnswQuery

  class Index {
    const config: Config
    const measure: (Vector, Vector) -> int
    const narrow: Narrowing
    var nodes: Nodes
    var entryPoint: Option<Id>
    var maxLevel: nat
    var levelState: bv64

    ghost predicate Valid()
      reads this
    {
      && levelState != 0
      && (nodes != map[] ==> ConfigOk(config))
      && IsEntry(nodes, entryPoint, maxLevel)
      && Sound(config, nodes)
    }

    /** An empty index; its level seed is fixed and persisted. */
    constructor (config: Config, measure: (Vector, Vector) -> int, narrow: Narrowing)
      ensures Valid() && nodes == map[] && levelState == 0x9e37_79b9_7f4a_7c15
      ensures this.config == config && this.measure == measure && this.narrow == narrow
    {
      this.config, this.measure, this.narrow := config, measure, narrow;
      nodes, entryPoint, maxLevel, levelState := map[], None, 0, 0x9e37_79b9_7f4a_7c15;
      new;
      EmptyIsSound(config);
    }

    function Distances(vector: Vector): Id -> int
      reads this
    {
      Gauge(Space(Vectors(nodes), measure), vector)
    }

    lemma DistancesAre(vector: Vector)
      ensures Distances(vector) == Gauge(Space(Vectors(nodes), measure), vector)
    {
    }

    /** Follows the nearest link, at most `budget` times. */
    method GreedyAtLevel(vector: Vector, start: Id, level: nat, budget: nat) returns (current: Id)
      requires start in Around(nodes, level) && Inside(Around(nodes, level))
      ensures current == Walk(Around(nodes, level), Distances(vector), start, budget)
      ensures current in Around(nodes, level)
    {
      current := start;
      ghost var around, d := Around(nodes, level), Distances(vector);
      var left := budget;
      while left > 0
        invariant current in around
        invariant Walk(around, d, current, left) == Walk(around, d, start, budget)
      {
        var next := NearestLink(vector, current, level);
        if next == current {
          return;
        }
        current := next;
        left := left - 1;
      }
    }

    method NearestLink(vector: Vector, current: Id, level: nat) returns (next: Id)
      requires current in Around(nodes, level)
      ensures next == Steepest(Around(nodes, level), Distances(vector), current)
    {
      AroundLinks(nodes, level, current);
      hide *;
      var node := nodes[current];
      var d := Distances(vector);
      var nearest := NearestOf(d, node.neighbours[level], current);
      next := nearest;
      if level == 0 {
        next := NearestOf(d, node.backbone, nearest);
        NearestOfBoth(Around(nodes, level), d, current, node.neighbours[level], node.backbone, nearest, next);
      } else {
        NearestOfOne(Around(nodes, level), d, current, node.neighbours[level], nearest);
      }
    }

    static method NearestOf(d: Id -> int, candidates: set<Id>, first: Id) returns (next: Id)
      ensures IsNearest(d, candidates, first, next)
    {
      var listed := Listed(candidates);
      hide Ascends, ById;
      next := first;
      for i := 0 to |listed|
        invariant next == first || next in listed[..i]
        invariant next == first || Nearer(d)(next, first)
        invariant forall j | 0 <= j < i :: listed[j] == next || Nearer(d)(next, listed[j])
      {
        if Nearer(d)(listed[i], next) {
          next := listed[i];
        }
      }
      assert forall c | c in candidates :: c in Elements(listed);
      assert next == first || next in Elements(listed);
    }

    /** Expands the nearest unvisited node of a frontier that may repeat nodes,
        until the budget or the frontier runs out, keeping the `retained`
        nearest. The early stop is out of reach when `retained` covers the
        budget: the search then visits exactly what the plain definition does. */
    method SearchLayer(vector: Vector, entries: seq<Id>, level: nat, retained: nat, expansionBudget: nat)
      returns (results: seq<Id>, ghost pushed: nat)
      requires Elements(entries) <= Around(nodes, level).Keys && Inside(Around(nodes, level))
      ensures pushed <= expansionBudget
      ensures results ==
        Kept(Distances(vector), Visits(Around(nodes, level), Distances(vector), entries, pushed), retained)
      ensures retained >= expansionBudget ==>
        results == Kept(Distances(vector), Visits(Around(nodes, level), Distances(vector), entries, expansionBudget), retained)
    {
      ghost var around := Around(nodes, level);
      var d := Distances(vector);
      var visited: set<Id> := {};
      var frontier := entries;
      results := [];
      ghost var order: seq<Id> := [];
      SearchStarts(around, d, entries, retained);
      hide *;
      while frontier != [] && |visited| < expansionBudget
        invariant Searching(around, d, entries, order, frontier, visited)
        invariant |visited| == |order| <= expansionBudget
        invariant results == Kept(d, order, retained)
        decreases expansionBudget - |visited|, |frontier|
      {
        ghost var before := frontier;
        frontier := Ranked(d, frontier);
        SortedFrontier(around, d, entries, order, before, frontier, visited);
        var current := frontier[0];
        if current in visited {
          frontier := frontier[1..];
          continue;
        }
        if |results| >= retained && |results| > 0 && Nearer(d)(results[|results| - 1], current) {
          break;
        }
        results := Retain(d, results, current, retained, order);
        frontier, visited := Visit(d, entries, frontier, level, visited, order);
        order := order + [current];
      }
      pushed := |order|;
      SearchEnds(around, d, entries, order, frontier, visited, expansionBudget);
    }

    static method Retain(d: Id -> int, results: seq<Id>, current: Id, retained: nat, ghost order: seq<Id>) returns (r: seq<Id>)
      requires results == Kept(d, order, retained) && Distinct(order + [current])
      ensures r == Kept(d, order + [current], retained)
    {
      r := Take(Ranked(d, results + [current]), retained);
      KeepPush(d, order, current, retained);
    }

    /** Marks the first of the sorted frontier visited and puts its unvisited
        neighbours on the frontier. */
    method Visit(d: Id -> int, ghost entries: seq<Id>, sorted: seq<Id>, level: nat, visited: set<Id>, ghost order: seq<Id>)
      returns (frontier: seq<Id>, seen: set<Id>)
      requires Inside(Around(nodes, level)) && sorted != [] && Sorted(Nearer(d), sorted)
      requires Searching(Around(nodes, level), d, entries, order, sorted, visited)
      requires sorted[0] in Around(nodes, level) && sorted[0] !in order
      ensures Searching(Around(nodes, level), d, entries, order + [sorted[0]], frontier, seen)
      ensures |seen| == |order| + 1
    {
      assert visited == Elements(order);
      seen := visited + {sorted[0]};
      frontier := PushLinks(sorted[1..], sorted[0], level, seen);
      VisitedNext(Around(nodes, level), d, entries, order, sorted, seen, frontier);
    }

    method PushLinks(frontier: seq<Id>, current: Id, level: nat, visited: set<Id>) returns (r: seq<Id>)
      requires current in Around(nodes, level)
      ensures Elements(r) == Elements(frontier) + (Around(nodes, level)[current] - visited)
    {
      var node := nodes[current];
      r := PushUnvisited(frontier, Listed(node.neighbours[level]), visited);
      if level == 0 {
        r := PushUnvisited(r, Listed(node.backbone), visited);
      }
    }

    static method PushUnvisited(frontier: seq<Id>, neighbours: seq<Id>, visited: set<Id>) returns (r: seq<Id>)
      ensures Elements(r) == Elements(frontier) + (Elements(neighbours) - visited)
    {
      r := frontier;
      for i := 0 to |neighbours|
        invariant Elements(r) == Elements(frontier) + (Elements(neighbours[..i]) - visited)
      {
        ghost var was := r;
        if neighbours[i] !in visited {
          r := r + [neighbours[i]];
          assert Elements(r) == Elements(was) + {neighbours[i]};
        }
        assert Elements(neighbours[..i + 1]) == Elements(neighbours[..i]) + {neighbours[i]};
      }
      assert neighbours[..|neighbours|] == neighbours;
    }

    /** Keeps the nearest `limit` links of `id` and drops the reverse of every
        other. */
    method Prune(id: Id, level: nat)
      requires id in Layer(nodes, level) && Reciprocal(Layer(nodes, level))
      modifies this`nodes
      ensures nodes == SetLayer(old(nodes), level,
        Pruned(Layer(old(nodes), level), RulerOf(Space(Vectors(old(nodes)), measure)), id, DegreeLimit(config, level)))
    {
      PrunedIs(nodes, measure, id, level, DegreeLimit(config, level));
      hide *;
      var node := nodes[id];
      var ranked := Ranked(Distances(node.vector), Listed(node.neighbours[level]));
      var retained := Elements(Take(ranked, DegreeLimit(config, level)));
      DropReverse(id, level, Listed(node.neighbours[level] - retained), retained);
    }

    /** Stores `retained` as the links of `id` and removes `id` from the links
        of every node of `removed`. */
    method DropReverse(id: Id, level: nat, removed: seq<Id>, retained: set<Id>)
      requires id in Layer(nodes, level) && Reciprocal(Layer(nodes, level)) && Distinct(removed)
      requires Elements(removed) == nodes[id].neighbours[level] - retained
      modifies this`nodes
      ensures nodes == SetLayer(old(nodes), level, Trim(Layer(old(nodes), level), id, retained))
    {
      var node := nodes[id];
      RemovedAreLinks(nodes, id, level, removed, retained);
      nodes := nodes[id := node.(neighbours := node.neighbours[level := retained])];
      for i := 0 to |removed|
        invariant nodes.Keys == old(nodes).Keys
        invariant nodes[id] == node.(neighbours := node.neighbours[level := retained])
        invariant forall z | z in nodes && z != id ::
          nodes[z] == if z in removed[..i] then WithoutLink(old(nodes)[z], level, id) else old(nodes)[z]
      {
        var other := removed[i];
        assert other in old(nodes) && other != id;
        assert other !in removed[..i];
        nodes := nodes[other := WithoutLink(nodes[other], level, id)];
      }
      TrimmedNodes(old(nodes), nodes, id, level, removed, retained);
    }

    /** Links `left` and `right` both ways, then prunes both. */
    method Link(left: Id, right: Id, level: nat)
      requires left in Layer(nodes, level) && right in Layer(nodes, level)
      requires LayerOk(config, nodes, level)
      modifies this`nodes
      ensures nodes == SetLayer(old(nodes), level,
        Linked(Layer(old(nodes), level), RulerOf(Space(Vectors(old(nodes)), measure)), left, right, DegreeLimit(config, level)))
    {
      if left == right {
        SetSameLayer(nodes, level);
        return;
      }
      LinkSteps(config, nodes, measure, left, right, level);
      hide *;
      AddLink(left, right, level);
      Prune(left, level);
      Prune(right, level);
    }

    method AddLink(left: Id, right: Id, level: nat)
      requires left in Layer(nodes, level) && right in Layer(nodes, level) && left != right
      modifies this`nodes
      ensures nodes == SetLayer(old(nodes), level, Connect(Layer(old(nodes), level), left, right))
    {
      ghost var before := nodes;
      nodes := nodes[left := WithLink(nodes[left], level, right)];
      nodes := nodes[right := WithLink(nodes[right], level, left)];
      ghost var connected := Connect(Layer(before, level), left, right);
      forall z | z in before ensures nodes[z] == SetLayer(before, level, connected)[z] {
        if z in connected && z != left && z != right {
          assert before[z].neighbours[level := before[z].neighbours[level]] == before[z].neighbours;
        }
      }
    }

    method ConnectBackbone(left: Id, right: Id)
      requires left in nodes && right in nodes
      modifies this`nodes
      ensures nodes == SetRing(old(nodes), Connect(Ring(old(nodes)), left, right))
    {
      if left == right {
        SetSameRing(nodes);
        return;
      }
      ghost var before := nodes;
      nodes := nodes[left := nodes[left].(backbone := nodes[left].backbone + {right})];
      nodes := nodes[right := nodes[right].(backbone := nodes[right].backbone + {left})];
      assert nodes == SetRing(before, Connect(Ring(before), left, right)) by {
        forall z | z in before ensures nodes[z] == SetRing(before, Connect(Ring(before), left, right))[z] {
        }
      }
    }

    method DisconnectBackbone(left: Id, right: Id)
      requires left in nodes && right in nodes && left != right
      modifies this`nodes
      ensures nodes == SetRing(old(nodes), Disconnect(Ring(old(nodes)), left, right))
    {
      ghost var before := nodes;
      nodes := nodes[left := nodes[left].(backbone := nodes[left].backbone - {right})];
      nodes := nodes[right := nodes[right].(backbone := nodes[right].backbone - {left})];
      assert nodes == SetRing(before, Disconnect(Ring(before), left, right)) by {
        forall z | z in before ensures nodes[z] == SetRing(before, Disconnect(Ring(before), left, right))[z] {
        }
      }
    }

    /** Puts `id` on the backbone edge from `anchor` to its first neighbour. */
    method SpliceBackbone(id: Id, anchor: Id)
      requires id in nodes && anchor in nodes && anchor !in nodes[anchor].backbone
      requires nodes[anchor].backbone <= nodes.Keys
      modifies this`nodes
      ensures nodes == SetRing(old(nodes), Spliced(Ring(old(nodes)), id, anchor))
    {
      ghost var before := nodes;
      var neighbours := Listed(nodes[anchor].backbone);
      if neighbours == [] {
        ConnectBackbone(id, anchor);
      } else {
        var successor := neighbours[0];
        assert successor in Elements(neighbours);
        ghost var kept := Ring(nodes);
        if |neighbours| > 1 {
          DisconnectBackbone(anchor, successor);
          kept := Disconnect(Ring(before), anchor, successor);
        } else {
          SetSameRing(nodes);
        }
        SetRingIs(before, kept);
        SetRingIs(before, Connect(kept, anchor, id));
        ConnectBackbone(anchor, id);
        SetRingTwice(before, kept, Connect(kept, anchor, id));
        ConnectBackbone(id, successor);
        SetRingTwice(before, Connect(kept, anchor, id), Connect(Connect(kept, anchor, id), id, successor));
      }
    }

    /** Removes `id` from the links of its former neighbours at `level`. */
    method DetachLevel(id: Id, neighbours: seq<Id>, level: nat, ghost layer: Adj)
      requires Reciprocal(layer) && id in layer && Layer(nodes, level) == layer - {id}
      requires Elements(neighbours) == layer[id] && Distinct(neighbours)
      modifies this`nodes
      ensures nodes == SetLayer(old(nodes), level, Detach(layer, id))
    {
      ghost var before := nodes;
      for i := 0 to |neighbours|
        invariant nodes.Keys == before.Keys
        invariant forall z | z in nodes ::
          nodes[z] == if z in neighbours[..i] then WithoutLink(before[z], level, id) else before[z]
      {
        var other := neighbours[i];
        assert other !in neighbours[..i];
        if other in nodes {
          nodes := nodes[other := WithoutLink(nodes[other], level, id)];
        }
      }
      DetachedNodes(before, nodes, id, level, neighbours, layer);
    }

    /** Links the former neighbours of a removed node pairwise. */
    method RelinkLevel(ns: seq<Id>, level: nat)
      requires Relinkable(config, nodes, ns, level)
      modifies this`nodes
      ensures nodes == SetLayer(old(nodes), level, RelinkGoal(config, measure, old(nodes), ns, level))
    {
      hide *;
      ghost var before, goal := nodes, RelinkGoal(config, measure, nodes, ns, level);
      RelinkStarts(config, measure, nodes, ns, level);
      var i := 0;
      while i < |ns|
        invariant Relinking(config, measure, before, nodes, ns, i, i + 1, level, goal)
      {
        RelinkRow(ns, i, level, before, goal);
        i := i + 1;
      }
      RelinkEnds(config, measure, before, nodes, ns, i, level, goal);
    }

    /** Links `ns[i]` to every later former neighbour. */
    method RelinkRow(ns: seq<Id>, i: nat, level: nat, ghost before: Nodes, ghost goal: Adj)
      requires i < |ns| && Relinking(config, measure, before, nodes, ns, i, i + 1, level, goal)
      modifies this`nodes
      ensures Relinking(config, measure, before, nodes, ns, i + 1, i + 2, level, goal)
    {
      hide *;
      var j := i + 1;
      while j < |ns|
        invariant i < j && Relinking(config, measure, before, nodes, ns, i, j, level, goal)
      {
        RelinkStep(config, measure, before, nodes, ns, i, j, level, goal);
        var left, right := ns[i], ns[j];
        if left in nodes && nodes[left].level >= level && right in nodes && nodes[right].level >= level {
          Link(left, right, level);
        }
        j := j + 1;
      }
      RelinkNextRow(config, measure, before, nodes, ns, i, j, level, goal);
    }

    /** Takes `id` out of one level and reconnects its former neighbours. */
    method RemoveAtLevel(id: Id, ns: seq<Id>, level: nat, ghost before: Nodes)
      requires Sound(config, before) && Removing(config, measure, before, nodes, id, level)
      requires id in before && level < |before[id].neighbours| && ns == Listed(before[id].neighbours[level])
      modifies this`nodes
      ensures Removing(config, measure, before, nodes, id, level + 1)
    {
      RemoveStep(config, measure, before, nodes, id, level);
      hide *;
      DetachLevel(id, ns, level, Layer(before, level));
      RelinkLevel(ns, level);
    }

    /** Bypasses the removed node on the backbone. */
    method RemoveFromBackbone(id: Id, anchors: seq<Id>, ghost before: Nodes)
      requires id in before && nodes.Keys == before.Keys - {id} && SingleCycle(Ring(before))
      requires anchors == Listed(before[id].backbone)
      requires forall z | z in nodes :: nodes[z].backbone == before[z].backbone
      modifies this`nodes
      ensures nodes == SetRing(old(nodes), RingWithout(before, id))
    {
      ghost var start := nodes;
      BypassKeepsCycle(Ring(before), id);
      assert Ring(before)[id] == before[id].backbone;
      for i := 0 to |anchors|
        invariant nodes.Keys == start.Keys
        invariant forall z | z in nodes ::
          nodes[z] == if z in anchors[..i] then start[z].(backbone := start[z].backbone - {id}) else start[z]
      {
        var anchor := anchors[i];
        assert anchor in Elements(anchors) && anchor !in anchors[..i];
        nodes := nodes[anchor := nodes[anchor].(backbone := nodes[anchor].backbone - {id})];
      }
      OpenedRing(before, start, nodes, id, anchors);
      hide *;
      if |anchors| == 2 {
        ConnectBackbone(anchors[0], anchors[1]);
      }
    }

    method RemoveNode(id: Id)
      requires Valid()
      modifies this`nodes, this`entryPoint, this`maxLevel
      ensures Valid()
      ensures IsRemoval(config, measure, old(nodes), nodes, id)
      ensures id !in old(nodes) ==> unchanged(this)
    {
      if id !in nodes {
        AbsentRemoval(config, measure, nodes, id);
        return;
      }
      ghost var before := nodes;
      RemovePresent(id);
      RemovalKeepsSound(config, measure, before, nodes, id);
      assert ConfigOk(config);
      hide *;
      RefreshEntry(id, before);
    }

    method RemovePresent(id: Id)
      requires Sound(config, nodes) && id in nodes
      modifies this`nodes
      ensures IsRemoval(config, measure, old(nodes), nodes, id)
      ensures nodes.Keys == old(nodes).Keys - {id}
      ensures forall z | z in nodes :: nodes[z].level == old(nodes)[z].level
    {
      ghost var before := nodes;
      var node := nodes[id];
      RemoveStarts(config, measure, nodes, id);
      assert SingleCycle(Ring(before));
      hide *;
      nodes := nodes - {id};
      RemoveLinks(id, node.neighbours, before);
      RemovingIsShaped(config, measure, before, nodes, id, |node.neighbours|);
      ghost var unlinked := nodes;
      RemoveFromBackbone(id, Listed(node.backbone), before);
      RemoveEnds(config, measure, before, unlinked, nodes, id);
    }

    method RemoveLinks(id: Id, neighbours: seq<set<Id>>, ghost before: Nodes)
      requires Sound(config, before) && Removing(config, measure, before, nodes, id, 0)
      requires id in before && neighbours == before[id].neighbours
      modifies this`nodes
      ensures Removing(config, measure, before, nodes, id, |neighbours|)
    {
      hide *;
      for level := 0 to |neighbours|
        invariant Removing(config, measure, before, nodes, id, level)
      {
        RemoveAtLevel(id, Listed(neighbours[level]), level, before);
      }
    }

    /** Selects the entry again only when the removed node was the entry. */
    method RefreshEntry(id: Id, ghost before: Nodes)
      requires IsEntry(before, entryPoint, maxLevel) && id in before
      requires nodes.Keys == before.Keys - {id}
      requires forall z | z in nodes :: nodes[z].level == before[z].level
      modifies this`entryPoint, this`maxLevel
      ensures IsEntry(nodes, entryPoint, maxLevel)
    {
      if nodes == map[] {
        maxLevel := 0;
        entryPoint := None;
      } else if entryPoint == Some(id) {
        ReselectEntry();
      } else {
        EntrySurvives(before, nodes, id, entryPoint, maxLevel);
      }
    }

    method ReselectEntry()
      modifies this`entryPoint, this`maxLevel
      ensures IsEntry(nodes, entryPoint, maxLevel)
    {
      var ids := Listed(nodes.Keys);
      maxLevel := HighestLevel(ids);
      entryPoint := SelectEntry(ids);
      assert forall z | z in nodes :: z in Elements(ids);
    }

    method HighestLevel(ids: seq<Id>) returns (highest: nat)
      requires Elements(ids) <= nodes.Keys
      ensures forall i | 0 <= i < |ids| :: ids[i] in nodes && nodes[ids[i]].level <= highest
      ensures ids != [] ==> exists i | 0 <= i < |ids| :: nodes[ids[i]].level == highest
      ensures ids == [] ==> highest == 0
    {
      assert forall z | z in ids :: z in Elements(ids);
      highest := 0;
      for i := 0 to |ids|
        invariant forall j | 0 <= j < i :: nodes[ids[j]].level <= highest
        invariant i > 0 ==> exists j | 0 <= j < i :: nodes[ids[j]].level == highest
        invariant i == 0 ==> highest == 0
      {
        highest := Max(highest, nodes[ids[i]].level);
      }
    }

    method SelectEntry(ids: seq<Id>) returns (entry: Option<Id>)
      requires Elements(ids) == nodes.Keys && Ascends(ById, ids)
      ensures entry.None? ==> forall i | 0 <= i < |ids| :: ids[i] in nodes && nodes[ids[i]].level != maxLevel
      ensures entry.Some? ==> entry.value in nodes && nodes[entry.value].level == maxLevel
      ensures entry.Some? ==>
        forall i | 0 <= i < |ids| :: ids[i] in nodes && (nodes[ids[i]].level == maxLevel ==> entry.value <= ids[i])
    {
      assert forall z | z in ids :: z in Elements(ids);
      for i := 0 to |ids|
        invariant forall j | 0 <= j < i :: nodes[ids[j]].level != maxLevel
      {
        if nodes[ids[i]].level == maxLevel {
          assert forall j | i < j < |ids| :: ById(ids[i], ids[j]);
          return Some(ids[i]);
        }
      }
      entry := None;
    }

    /** Advances the level generator; the level is the number of trailing zero
        pairs of its new state, at most 16. */
    method NextLevel() returns (level: nat)
      requires levelState != 0
      modifies this`levelState
      ensures levelState == XorShift(old(levelState)) && levelState != 0
      ensures level == TrailingPairs(levelState, 0) && level <= MAX_LEVEL
    {
      Advance();
      level := CountPairs(levelState);
    }

    method Advance()
      requires levelState != 0
      modifies this`levelState
      ensures levelState == XorShift(old(levelState)) && levelState != 0
    {
      XorShiftKeepsNonZero(levelState);
      hide Left13, Right7, Left17;
      levelState := Left13(levelState);
      levelState := Right7(levelState);
      levelState := Left17(levelState);
    }

    static method CountPairs(from: bv64) returns (level: nat)
      ensures level == TrailingPairs(from, 0) && level <= MAX_LEVEL
    {
      var state := from;
      level := 0;
      while level < MAX_LEVEL && LowPairClear(state)
        invariant level <= MAX_LEVEL && TrailingPairs(state, level) == TrailingPairs(from, 0)
        decreases MAX_LEVEL - level
      {
        level := level + 1;
        state := NextPair(state);
      }
    }

    /** Steepest descent through the levels `from` down to `to`. */
    method DescendLevels(vector: Vector, start: Id, from: nat, to: nat, budget: nat) returns (entry: Id)
      requires Sound(config, nodes) && start in nodes && nodes[start].level >= from && to >= 1
      ensures entry == Descend(nodes, Distances(vector), start, from, to, budget)
      ensures entry in nodes && nodes[entry].level >= Min(from, to - 1)
    {
      ghost var d := Distances(vector);
      hide *;
      entry := start;
      var level: nat := from;
      DescendStays(config, nodes, d, entry, level, to, budget);
      while level >= to
        invariant entry in nodes && nodes[entry].level >= level
        invariant Descend(nodes, d, entry, level, to, budget) == Descend(nodes, d, start, from, to, budget)
      {
        WalkStays(config, nodes, d, entry, level, budget);
        DescendStep(nodes, d, entry, level, to, budget);
        entry := GreedyAtLevel(vector, entry, level, budget);
        level := level - 1;
      }
      DescendStep(nodes, d, entry, level, to, budget);
    }

    method Query(vector: Vector, k: nat) returns (r: Result<seq<Scored>>)
      requires Valid()
      ensures r == QueryAnswer(config, measure, narrow, nodes, entryPoint, maxLevel, vector, k)
    {
      var refusal := CheckVector(config, vector);
      if refusal.Some? {
        return Err(refusal.value);
      }
      if k == 0 || nodes == map[] || entryPoint.None? {
        return Ok([]);
      }
      var beam := QueryBeam(config, k);
      var d := Distances(vector);
      hide Sound, CheckVector, QueryBeam, Answer, Descend, Kept, Visits, Distances;
      var entry := DescendLevels(vector, entryPoint.value, maxLevel, 1, beam);
      LevelInside(config, nodes, 0);
      InLayer(config, nodes, entry, 0);
      var candidates, _ := SearchLayer(vector, [entry], 0, beam, beam);
      r := Publish(d, candidates, k);
    }

    /** Scores the candidates, refusing the first without a public score, and
        keeps the best `k`. */
    method Publish(d: Id -> int, candidates: seq<Id>, k: nat) returns (r: Result<seq<Scored>>)
      ensures r == Answer(narrow, d, candidates, k)
    {
      var results: seq<Scored> := [];
      for i := 0 to |candidates|
        invariant Representable(narrow, d, candidates[..i]) && results == Scores(narrow, d, candidates[..i])
      {
        var score := narrow(d(candidates[i]));
        if score.None? {
          return Err(DistanceNotRepresentable);
        }
        results := results + [Scored(candidates[i], score.value)];
      }
      assert candidates[..|candidates|] == candidates;
      assert StrictOrder(Better);
      r := Ok(Take(Sort(Better, results), k));
    }

    /** Links `id` to each candidate in turn at one level. */
    method LinkAll(id: Id, candidates: seq<Id>, level: nat)
      requires Linkable(config, nodes, id, candidates, level)
      modifies this`nodes
      ensures nodes == SetLayer(old(nodes), level, LinkGoal(config, measure, old(nodes), id, candidates, level))
    {
      ghost var before, goal := nodes, LinkGoal(config, measure, nodes, id, candidates, level);
      hide *;
      LinkingStarts(config, measure, nodes, id, candidates, level);
      for i := 0 to |candidates|
        invariant Linking(config, measure, before, nodes, id, candidates, i, level, goal)
      {
        LinkingStep(config, measure, before, nodes, id, candidates, i, level, goal);
        Link(id, candidates[i], level);
      }
      LinkingEnds(config, measure, before, nodes, id, candidates, level, goal);
    }

    /** Searches one level for the new node's neighbours and links them, then
        moves the entry for the level below. */
    method ConnectLevel(id: Id, vector: Vector, entry: Id, level: nat) returns (next: Id)
      requires Sound(config, nodes) && id in nodes && nodes[id].level >= level && vector == nodes[id].vector
      requires entry in nodes && nodes[entry].level >= level && level < |nodes[id].neighbours|
      modifies this`nodes
      ensures nodes == Connected(config, measure, old(nodes), id, entry, level)
      ensures next == NextEntry(config, measure, old(nodes), id, entry, level)
    {
      var budget := ConstructionBudget(config);
      var count := DegreeLimit(config, level);
      ghost var before := nodes;
      ConnectReady(config, measure, nodes, id, entry, level);
      CandidatesAre(config, Distances(vector), nodes, entry, level);
      assert Distances(vector) == Gauge(Space(Vectors(nodes), measure), vector);
      hide *;
      var candidates, _ := SearchLayer(vector, [entry], level, budget, budget);
      LinkAll(id, Take(candidates, count), level);
      ConnectedIsReady(config, measure, before, nodes, id, entry, level);
      next := GreedyAtLevel(vector, entry, level, budget);
    }

    /** Connects the new node from `top` down to the base level. */
    method ConnectLevels(id: Id, vector: Vector, start: Id, top: nat)
      requires Sound(config, nodes) && id in nodes && nodes[id].level >= top && vector == nodes[id].vector
      requires start in nodes && nodes[start].level >= top && top < |nodes[id].neighbours|
      modifies this`nodes
      ensures nodes == ConnectedFrom(config, measure, old(nodes), id, start, top)
    {
      hide *;
      ghost var goal := ConnectedFrom(config, measure, nodes, id, start, top);
      var entry, level := start, top;
      ConnectingStarts(config, measure, nodes, id, vector, entry, level);
      while level > 0
        invariant Connecting(config, measure, nodes, id, vector, entry, level, goal)
      {
        ConnectingStep(config, measure, nodes, id, vector, entry, level, goal);
        entry := ConnectLevel(id, vector, entry, level);
        ConnectedOnceIs(config, measure, nodes, id, vector, entry, level, goal);
        level := level - 1;
      }
      ConnectingStep(config, measure, nodes, id, vector, entry, 0, goal);
      entry := ConnectLevel(id, vector, entry, 0);
      ConnectedOnceIs(config, measure, nodes, id, vector, entry, 0, goal);
    }

    method ConsiderNewEntry(id: Id, level: nat)
      modifies this`entryPoint, this`maxLevel
      ensures (entryPoint, maxLevel) == EntryWith(old(entryPoint), old(maxLevel), id, level)
    {
      if entryPoint.None? || level > maxLevel || (level == maxLevel && id < entryPoint.value) {
        maxLevel := level;
        entryPoint := Some(id);
      }
    }

    /** Stores a node the graph does not hold: backbone first, then normal links
        from its level down, then the entry. */
    method StoreNode(id: Id, vector: Vector, level: nat)
      requires Sound(config, nodes) && IsEntry(nodes, entryPoint, maxLevel) && id !in nodes
      requires EntryLinked(nodes, entryPoint) && CheckVector(config, vector).None? && level <= MAX_LEVEL
      modifies this`nodes, this`entryPoint, this`maxLevel
      ensures nodes == Inserted(config, measure, old(nodes), old(entryPoint), old(maxLevel), id, vector, level)
      ensures (entryPoint, maxLevel) == EntryWith(old(entryPoint), old(maxLevel), id, level)
    {
      hide *;
      var surviving := entryPoint;
      EntryLinkedIs(config, nodes, surviving, maxLevel);
      if surviving.None? {
        InsertedAlone(config, measure, nodes, maxLevel, id, vector, level);
        nodes := nodes[id := FreshNode(vector, level)];
      } else {
        InsertedBeside(config, measure, nodes, surviving.value, maxLevel, id, vector, level);
        nodes := nodes[id := FreshNode(vector, level)];
        SpliceBackbone(id, surviving.value);
        DistancesAre(vector);
        var entry := DescendLevels(vector, surviving.value, maxLevel, level + 1, ConstructionBudget(config));
        ConnectLevels(id, vector, entry, Min(level, maxLevel));
      }
      ConsiderNewEntry(id, level);
    }

    /** Inserts or replaces `id`: the old node, if any, is removed first. A
        refused vector changes nothing. `cleared` is the state after the removal. */
    method Insert(id: Id, vector: Vector) returns (r: Option<Refusal>, ghost cleared: Graph)
      requires Valid()
      modifies this
      ensures Valid()
      ensures r == CheckVector(config, vector)
      ensures r.Some? ==> unchanged(this)
      ensures r.None? ==>
        && levelState == XorShift(old(levelState))
        && IsRemoval(config, measure, old(nodes), cleared.nodes, id)
        && IsInsertion(config, measure, cleared, Graph(nodes, entryPoint, maxLevel), id, vector, TrailingPairs(levelState, 0))
    {
      cleared := Graph(nodes, entryPoint, maxLevel);
      r := CheckVector(config, vector);
      if r.Some? {
        return;
      }
      RefusalFree(config, vector);
      hide *;
      RemoveValid(id);
      cleared := Graph(nodes, entryPoint, maxLevel);
      ReadyToStore(config, nodes, entryPoint, maxLevel);
      var level := NextLevel();
      StoreNode(id, vector, level);
      StoredIsValid(config, measure, cleared, Graph(nodes, entryPoint, maxLevel), id, vector, level);
    }

    method RemoveValid(id: Id)
      requires Valid()
      modifies this`nodes, this`entryPoint, this`maxLevel
      ensures levelState != 0 && Sound(config, old(nodes)) && Sound(config, nodes) && IsEntry(nodes, entryPoint, maxLevel)
      ensures IsRemoval(config, measure, old(nodes), nodes, id) && id !in nodes
    {
      RemoveNode(id);
    }

    /** Removing an absent identity changes nothing. */
    method Remove(id: Id)
      requires Valid()
      modifies this`nodes, this`entryPoint, this`maxLevel
      ensures Valid()
      ensures IsRemoval(config, measure, old(nodes), nodes, id)
      ensures id !in old(nodes) ==> unchanged(this)
    {
      RemoveNode(id);
    }

    method Len() returns (n: nat)
      ensures n == |nodes|
    {
      n := |nodes|;
    }
  }

  datatype Graph = Graph(nodes: Nodes, entry: Option<Id>, maxLevel: nat)

  ghost predicate EntryLinked(nodes: Nodes, entry: Option<Id>) {
    entry.Some? ==> entry.value in nodes && nodes[entry.value].backbone <= nodes.Keys
  }

  lemma EntryLinkedIs(config: Config, nodes: Nodes, entry: Option<Id>, maxLevel: nat)
    requires EntryLinked(nodes, entry) && Sound(config, nodes) && IsEntry(nodes, entry, maxLevel)
    ensures entry.Some? ==> entry.value in nodes && nodes[entry.value].backbone <= nodes.Keys
    ensures entry.Some? ==> nodes[entry.value].level >= maxLevel && SingleCycle(Ring(nodes))
  {
  }

  /** `after` is `cleared` with `id` stored at `level` and the entry reconsidered. */
  ghost predicate IsInsertion(config: Config, measure: (Vector, Vector) -> int, cleared: Graph, after: Graph, id: Id,
                              vector: Vector, level: nat)
  {
    && id !in cleared.nodes && IsEntry(cleared.nodes, cleared.entry, cleared.maxLevel)
    && EntryLinked(cleared.nodes, cleared.entry)
    && after.nodes == Inserted(config, measure, cleared.nodes, cleared.entry, cleared.maxLevel, id, vector, level)
    && (after.entry, after.maxLevel) == EntryWith(cleared.entry, cleared.maxLevel, id, level)
  }

  lemma RefusalFree(config: Config, vector: Vector)
    requires CheckVector(config, vector).None?
    ensures ConfigOk(config)
  {
  }

  lemma ReadyToStore(config: Config, nodes: Nodes, entry: Option<Id>, maxLevel: nat)
    requires Sound(config, nodes) && IsEntry(nodes, entry, maxLevel)
    ensures EntryLinked(nodes, entry)
  {
    if entry.Some? {
      EntryLinks(nodes, entry.value);
    }
  }

  lemma InsertedAlone(config: Config, measure: (Vector, Vector) -> int, nodes: Nodes, maxLevel: nat, id: Id, vector: Vector, level: nat)
    requires id !in nodes
    ensures Inserted(config, measure, nodes, None, maxLevel, id, vector, level) == nodes[id := FreshNode(vector, level)]
  {
  }

  lemma InsertedBeside(config: Config, measure: (Vector, Vector) -> int, nodes: Nodes, entry: Id, maxLevel: nat, id: Id,
                       vector: Vector, level: nat)
    requires Sound(config, nodes) && IsEntry(nodes, Some(entry), maxLevel) && id !in nodes
    requires entry in nodes && nodes[entry].backbone <= nodes.Keys && nodes[entry].level >= maxLevel
    requires CheckVector(config, vector).None? && level <= MAX_LEVEL && SingleCycle(Ring(nodes))
    ensures
      var open := nodes[id := FreshNode(vector, level)];
      && open[entry].backbone <= open.Keys && entry !in open[entry].backbone
      && Placed(nodes, id, FreshNode(vector, level), entry) == SetRing(open, Spliced(Ring(open), id, entry))
    ensures
      var placed := Placed(nodes, id, FreshNode(vector, level), entry);
      && Sound(config, placed) && placed[entry].level >= maxLevel
      && placed[id].level == level && placed[id].vector == vector && Min(level, maxLevel) < |placed[id].neighbours|
    ensures
      var placed := Placed(nodes, id, FreshNode(vector, level), entry);
      var d := Gauge(Space(Vectors(placed), measure), vector);
      var start := Descend(placed, d, entry, maxLevel, level + 1, ConstructionBudget(config));
      Inserted(config, measure, nodes, Some(entry), maxLevel, id, vector, level)
        == ConnectedFrom(config, measure, placed, id, start, Min(level, maxLevel))
    ensures Min(level, maxLevel) <= level && Min(level, maxLevel) == Min(maxLevel, level + 1 - 1)
  {
    hide *;
    PlacedKeepsSound(config, nodes, id, vector, level, entry);
    NoSelfBackbone(nodes, entry);
    PlacedIs(nodes, id, vector, level, entry, maxLevel);
    InsertedIs(config, measure, nodes, entry, maxLevel, id, vector, level);
  }

  lemma NoSelfBackbone(nodes: Nodes, entry: Id)
    requires entry in nodes && SingleCycle(Ring(nodes))
    ensures entry !in nodes[entry].backbone
  {
    var ring := Ring(nodes);
    var c :| CycleOf(ring, c);
    CycleIsReciprocal(ring, c);
    assert ring[entry] == nodes[entry].backbone;
  }

  lemma PlacedIs(nodes: Nodes, id: Id, vector: Vector, level: nat, entry: Id, maxLevel: nat)
    requires entry in nodes && nodes[entry].backbone <= nodes.Keys && id !in nodes && nodes[entry].level >= maxLevel
    ensures
      var open := nodes[id := FreshNode(vector, level)];
      && open[entry].backbone <= open.Keys && open[entry].backbone == nodes[entry].backbone
      && Placed(nodes, id, FreshNode(vector, level), entry) == SetRing(open, Spliced(Ring(open), id, entry))
    ensures
      var placed := Placed(nodes, id, FreshNode(vector, level), entry);
      && placed[entry].level >= maxLevel
      && placed[id].level == level && placed[id].vector == vector && Min(level, maxLevel) < |placed[id].neighbours|
    ensures Min(level, maxLevel) <= level && Min(level, maxLevel) == Min(maxLevel, level + 1 - 1)
  {
    hide Spliced, SetRing;
    var placed := Placed(nodes, id, FreshNode(vector, level), entry);
    assert SameShape(FreshNode(vector, level), placed[id]) && SameShape(nodes[entry], placed[entry]);
  }

  lemma InsertedIs(config: Config, measure: (Vector, Vector) -> int, nodes: Nodes, entry: Id, maxLevel: nat, id: Id,
                   vector: Vector, level: nat)
    requires entry in nodes && nodes[entry].backbone <= nodes.Keys && id !in nodes
    ensures
      var placed := Placed(nodes, id, FreshNode(vector, level), entry);
      var d := Gauge(Space(Vectors(placed), measure), vector);
      var start := Descend(placed, d, entry, maxLevel, level + 1, ConstructionBudget(config));
      && placed[id].vector == vector && Min(level, maxLevel) < |placed[id].neighbours|
      && Inserted(config, measure, nodes, Some(entry), maxLevel, id, vector, level)
           == ConnectedFrom(config, measure, placed, id, start, Min(level, maxLevel))
  {
    hide Placed, Descend, ConnectedDown;
    var placed := Placed(nodes, id, FreshNode(vector, level), entry);
    assert SameShape(FreshNode(vector, level), placed[id]);
  }

  lemma StoredIsValid(config: Config, measure: (Vector, Vector) -> int, cleared: Graph, after: Graph, id: Id, vector: Vector, level: nat)
    requires Sound(config, cleared.nodes) && IsEntry(cleared.nodes, cleared.entry, cleared.maxLevel)
    requires id !in cleared.nodes && EntryLinked(cleared.nodes, cleared.entry)
    requires CheckVector(config, vector).None? && level <= MAX_LEVEL
    requires after.nodes == Inserted(config, measure, cleared.nodes, cleared.entry, cleared.maxLevel, id, vector, level)
    requires (after.entry, after.maxLevel) == EntryWith(cleared.entry, cleared.maxLevel, id, level)
    ensures Sound(config, after.nodes) && IsEntry(after.nodes, after.entry, after.maxLevel)
    ensures IsInsertion(config, measure, cleared, after, id, vector, level)
  {
    InsertedKeepsSound(config, measure, cleared.nodes, cleared.entry, cleared.maxLevel, id, vector, level);
    hide Sound, Inserted, CheckVector;
    forall z | z in cleared.nodes ensures after.nodes[z].level == cleared.nodes[z].level {
      assert SameShape(cleared.nodes[z], after.nodes[z]);
    }
    assert SameShape(FreshNode(vector, level), after.nodes[id]);
    EntryWithIsEntry(cleared.nodes, after.nodes, cleared.entry, cleared.maxLevel, id, level);
  }

  ghost predicate Linkable(config: Config, nodes: Nodes, id: Id, candidates: seq<Id>, level: nat) {
    LayerOk(config, nodes, level) && id in Layer(nodes, level) && Elements(candidates) <= Layer(nodes, level).Keys
  }

  ghost function LinkGoal(config: Config, measure: (Vector, Vector) -> int, nodes: Nodes, id: Id, candidates: seq<Id>, level: nat): Adj
    requires Linkable(config, nodes, id, candidates, level)
  {
    LinkedEach(Layer(nodes, level), RulerOf(Space(Vectors(nodes), measure)), id, candidates, DegreeLimit(config, level))
  }

  /** What holds while the candidates from `i` on are still to link. */
  ghost predicate Linking(config: Config, measure: (Vector, Vector) -> int, before: Nodes, nodes: Nodes, id: Id,
                          candidates: seq<Id>, i: nat, level: nat, goal: Adj)
  {
    && i <= |candidates| && Linkable(config, nodes, id, candidates[i..], level)
    && nodes == SetLayer(before, level, Layer(nodes, level)) && Layer(nodes, level).Keys == Layer(before, level).Keys
    && Vectors(nodes) == Vectors(before)
    && LinkGoal(config, measure, nodes, id, candidates[i..], level) == goal
  }

  lemma LinkingStarts(config: Config, measure: (Vector, Vector) -> int, nodes: Nodes, id: Id, candidates: seq<Id>, level: nat)
    requires Linkable(config, nodes, id, candidates, level)
    ensures Linking(config, measure, nodes, nodes, id, candidates, 0, level,
      LinkGoal(config, measure, nodes, id, candidates, level))
  {
    assert candidates[0..] == candidates;
    SetSameLayer(nodes, level);
  }

  lemma LinkingStep(config: Config, measure: (Vector, Vector) -> int, before: Nodes, nodes: Nodes, id: Id,
                    candidates: seq<Id>, i: nat, level: nat, goal: Adj)
    requires i < |candidates| && Linking(config, measure, before, nodes, id, candidates, i, level, goal)
    ensures id in Layer(nodes, level) && candidates[i] in Layer(nodes, level) && LayerOk(config, nodes, level)
    ensures
      var ruler, limit := RulerOf(Space(Vectors(nodes), measure)), DegreeLimit(config, level);
      var after := SetLayer(nodes, level, Linked(Layer(nodes, level), ruler, id, candidates[i], limit));
      Linking(config, measure, before, after, id, candidates, i + 1, level, goal)
  {
    hide *;
    LinkingFirst(config, measure, before, nodes, id, candidates, i, level, goal);
    LinkingRest(config, measure, before, nodes, id, candidates, i, level, goal);
  }

  lemma LinkingFirst(config: Config, measure: (Vector, Vector) -> int, before: Nodes, nodes: Nodes, id: Id,
                     candidates: seq<Id>, i: nat, level: nat, goal: Adj)
    requires i < |candidates| && Linking(config, measure, before, nodes, id, candidates, i, level, goal)
    ensures id in Layer(nodes, level) && candidates[i] in Layer(nodes, level) && LayerOk(config, nodes, level)
    ensures candidates[i..][1..] == candidates[i + 1..] && Elements(candidates[i + 1..]) <= Layer(nodes, level).Keys
    ensures
      var ruler, limit := RulerOf(Space(Vectors(nodes), measure)), DegreeLimit(config, level);
      goal == LinkedEach(Linked(Layer(nodes, level), ruler, id, candidates[i], limit), ruler, id, candidates[i + 1..], limit)
  {
    var left := candidates[i..];
    assert left[0] == candidates[i] && left[0] in Elements(left) && left[1..] == candidates[i + 1..];
    assert Elements(left[1..]) <= Elements(left);
    hide Linked, Layer, Vectors, Reciprocal, Bounded, SetLayer;
  }

  lemma LinkingRest(config: Config, measure: (Vector, Vector) -> int, before: Nodes, nodes: Nodes, id: Id,
                    candidates: seq<Id>, i: nat, level: nat, goal: Adj)
    requires i < |candidates| && Linking(config, measure, before, nodes, id, candidates, i, level, goal)
    requires id in Layer(nodes, level) && candidates[i] in Layer(nodes, level) && LayerOk(config, nodes, level)
    requires Elements(candidates[i + 1..]) <= Layer(nodes, level).Keys
    requires
      var ruler, limit := RulerOf(Space(Vectors(nodes), measure)), DegreeLimit(config, level);
      goal == LinkedEach(Linked(Layer(nodes, level), ruler, id, candidates[i], limit), ruler, id, candidates[i + 1..], limit)
    ensures
      var ruler, limit := RulerOf(Space(Vectors(nodes), measure)), DegreeLimit(config, level);
      var after := SetLayer(nodes, level, Linked(Layer(nodes, level), ruler, id, candidates[i], limit));
      Linking(config, measure, before, after, id, candidates, i + 1, level, goal)
  {
    var ruler, limit := RulerOf(Space(Vectors(nodes), measure)), DegreeLimit(config, level);
    var layer := Layer(nodes, level);
    var linked := Linked(layer, ruler, id, candidates[i], limit);
    LinkedKeepsLayer(layer, ruler, id, candidates[i], limit);
    LayerOfSet(nodes, level, linked);
    SetLayerFrame(nodes, level, linked);
    SetLayerTwice(before, level, layer, linked);
    hide SetLayer, Linked, LinkedEach, Reciprocal, Bounded, Elements, Layer, Vectors;
  }

  lemma LinkingEnds(config: Config, measure: (Vector, Vector) -> int, before: Nodes, nodes: Nodes, id: Id,
                    candidates: seq<Id>, level: nat, goal: Adj)
    requires Linking(config, measure, before, nodes, id, candidates, |candidates|, level, goal)
    ensures nodes == SetLayer(before, level, goal)
  {
  }

  /** The graph after connecting `id` at one level, measured from its own vector. */
  ghost function Connected(config: Config, measure: (Vector, Vector) -> int, nodes: Nodes, id: Id, entry: Id, level: nat): Nodes
    requires id in nodes && level < |nodes[id].neighbours|
  {
    var space := Space(Vectors(nodes), measure);
    ConnectedAt(config, RulerOf(space), Gauge(space, nodes[id].vector), id, nodes, entry, level)
  }

  ghost function NextEntry(config: Config, measure: (Vector, Vector) -> int, nodes: Nodes, id: Id, entry: Id, level: nat): Id
    requires id in nodes && level < |nodes[id].neighbours|
  {
    var d := Gauge(Space(Vectors(nodes), measure), nodes[id].vector);
    Walk(Around(Connected(config, measure, nodes, id, entry, level), level), d, entry, ConstructionBudget(config))
  }

  ghost function ConnectedFrom(config: Config, measure: (Vector, Vector) -> int, nodes: Nodes, id: Id, entry: Id, top: nat): Nodes
    requires id in nodes && top < |nodes[id].neighbours|
  {
    var space := Space(Vectors(nodes), measure);
    ConnectedDown(config, RulerOf(space), Gauge(space, nodes[id].vector), id, nodes, entry, top)
  }

  lemma ConnectReady(config: Config, measure: (Vector, Vector) -> int, nodes: Nodes, id: Id, entry: Id, level: nat)
    requires Sound(config, nodes) && id in nodes && nodes[id].level >= level && level < |nodes[id].neighbours|
    requires entry in nodes && nodes[entry].level >= level
    ensures Inside(Around(nodes, level)) && Elements([entry]) <= Around(nodes, level).Keys
    ensures
      var d := Gauge(Space(Vectors(nodes), measure), nodes[id].vector);
      var candidates := Candidates(config, d, nodes, entry, level);
      && Linkable(config, nodes, id, candidates, level)
      && Connected(config, measure, nodes, id, entry, level)
           == SetLayer(nodes, level, LinkGoal(config, measure, nodes, id, candidates, level))
  {
    hide *;
    LevelInside(config, nodes, level);
    InLayer(config, nodes, entry, level);
    InLayer(config, nodes, id, level);
    SearchFrom(nodes, entry, level);
    CandidatesLinkable(config, Gauge(Space(Vectors(nodes), measure), nodes[id].vector), nodes, id, entry, level);
    ConnectedIs(config, measure, nodes, id, entry, level);
  }

  lemma SearchFrom(nodes: Nodes, entry: Id, level: nat)
    requires entry in Layer(nodes, level)
    ensures Elements([entry]) <= Around(nodes, level).Keys
  {
  }

  lemma CandidatesLinkable(config: Config, d: Id -> int, nodes: Nodes, id: Id, entry: Id, level: nat)
    requires Sound(config, nodes) && id in Layer(nodes, level)
    ensures Linkable(config, nodes, id, Candidates(config, d, nodes, entry, level), level)
  {
    assert LayerOk(config, nodes, level);
  }

  lemma ConnectedIs(config: Config, measure: (Vector, Vector) -> int, nodes: Nodes, id: Id, entry: Id, level: nat)
    requires id in nodes && level < |nodes[id].neighbours|
    requires var d := Gauge(Space(Vectors(nodes), measure), nodes[id].vector);
      Linkable(config, nodes, id, Candidates(config, d, nodes, entry, level), level)
    ensures var d := Gauge(Space(Vectors(nodes), measure), nodes[id].vector);
      Connected(config, measure, nodes, id, entry, level)
        == SetLayer(nodes, level, LinkGoal(config, measure, nodes, id, Candidates(config, d, nodes, entry, level), level))
  {
    hide Candidates, LinkedEach, SetLayer;
  }

  lemma CandidatesAre(config: Config, d: Id -> int, nodes: Nodes, entry: Id, level: nat)
    ensures
      var budget := ConstructionBudget(config);
      Candidates(config, d, nodes, entry, level)
        == Take(Kept(d, Visits(Around(nodes, level), d, [entry], budget), budget), DegreeLimit(config, level))
  {
  }

  lemma ConnectedIsReady(config: Config, measure: (Vector, Vector) -> int, before: Nodes, nodes: Nodes, id: Id, entry: Id, level: nat)
    requires Sound(config, before) && id in before && before[id].level >= level && level < |before[id].neighbours|
    requires entry in before && before[entry].level >= level
    requires nodes == Connected(config, measure, before, id, entry, level)
    ensures Sound(config, nodes) && id in nodes && SameShape(before[id], nodes[id])
    ensures entry in Around(nodes, level) && Inside(Around(nodes, level))
    ensures Vectors(nodes) == Vectors(before)
    ensures NextEntry(config, measure, before, id, entry, level)
      == Walk(Around(nodes, level), Gauge(Space(Vectors(nodes), measure), before[id].vector), entry, ConstructionBudget(config))
    ensures var next := NextEntry(config, measure, before, id, entry, level); next in nodes && nodes[next].level >= level
  {
    ConnectedIsSound(config, measure, before, id, entry, level);
    var space := Space(Vectors(before), measure);
    var d := Gauge(space, before[id].vector);
    SetLayerFrame(before, level, LinkedEach(Layer(before, level), RulerOf(space), id,
      Candidates(config, d, before, entry, level), DegreeLimit(config, level)));
    assert SameShape(before[entry], nodes[entry]);
    hide Sound, ConnectedAt, Walk, Around;
    WalkStays(config, nodes, d, entry, level, ConstructionBudget(config));
  }

  lemma ConnectedIsSound(config: Config, measure: (Vector, Vector) -> int, nodes: Nodes, id: Id, entry: Id, level: nat)
    requires Sound(config, nodes) && id in nodes && level < |nodes[id].neighbours|
    ensures Sound(config, Connected(config, measure, nodes, id, entry, level))
  {
    var space := Space(Vectors(nodes), measure);
    ConnectedAtKeepsLayers(config, RulerOf(space), Gauge(space, nodes[id].vector), id, nodes, entry, level);
    var after := Connected(config, measure, nodes, id, entry, level);
    hide LayersOk, ConnectedAt;
    SameRing(after, nodes);
    forall z | z in after ensures NodeOk(config, after[z]) {
      assert NodeOk(config, nodes[z]) && SameShape(nodes[z], after[z]);
    }
  }

  /** What holds while the levels from `level` down are still to connect. */
  ghost predicate Connecting(config: Config, measure: (Vector, Vector) -> int, nodes: Nodes, id: Id, vector: Vector, entry: Id,
                             level: nat, goal: Nodes)
  {
    && Sound(config, nodes) && id in nodes && nodes[id].level >= level && nodes[id].vector == vector
    && level < |nodes[id].neighbours|
    && entry in nodes && nodes[entry].level >= level
    && ConnectedFrom(config, measure, nodes, id, entry, level) == goal
  }

  ghost predicate ConnectedOnce(config: Config, measure: (Vector, Vector) -> int, nodes: Nodes, id: Id, vector: Vector, next: Id,
                                level: nat, goal: Nodes)
  {
    if level == 0 then nodes == goal else Connecting(config, measure, nodes, id, vector, next, level - 1, goal)
  }

  lemma ConnectedOnceIs(config: Config, measure: (Vector, Vector) -> int, nodes: Nodes, id: Id, vector: Vector, next: Id,
                        level: nat, goal: Nodes)
    requires ConnectedOnce(config, measure, nodes, id, vector, next, level, goal)
    ensures if level == 0 then nodes == goal else Connecting(config, measure, nodes, id, vector, next, level - 1, goal)
  {
  }

  lemma ConnectingStarts(config: Config, measure: (Vector, Vector) -> int, nodes: Nodes, id: Id, vector: Vector, entry: Id, level: nat)
    requires Sound(config, nodes) && id in nodes && nodes[id].level >= level && vector == nodes[id].vector
    requires entry in nodes && nodes[entry].level >= level && level < |nodes[id].neighbours|
    ensures Connecting(config, measure, nodes, id, vector, entry, level, ConnectedFrom(config, measure, nodes, id, entry, level))
  {
  }

  lemma ConnectingStep(config: Config, measure: (Vector, Vector) -> int, nodes: Nodes, id: Id, vector: Vector, entry: Id,
                       level: nat, goal: Nodes)
    requires Connecting(config, measure, nodes, id, vector, entry, level, goal)
    ensures Sound(config, nodes) && id in nodes && nodes[id].level >= level && nodes[id].vector == vector
    ensures level < |nodes[id].neighbours| && entry in nodes && nodes[entry].level >= level
    ensures
      var after := Connected(config, measure, nodes, id, entry, level);
      var next := NextEntry(config, measure, nodes, id, entry, level);
      ConnectedOnce(config, measure, after, id, vector, next, level, goal)
  {
    ConnectedIsReady(config, measure, nodes, Connected(config, measure, nodes, id, entry, level), id, entry, level);
  }

  lemma EmptyIsSound(config: Config)
    ensures Sound(config, map[])
  {
    var nodes: Nodes := map[];
    forall l: nat ensures LayerOk(config, nodes, l) {
      assert Layer(nodes, l) == map[];
    }
    assert CycleOf(Ring(nodes), []);
  }

  function Left13(state: bv64): bv64 {
    state ^ (state << 13)
  }

  function Right7(state: bv64): bv64 {
    state ^ (state >> 7)
  }

  function Left17(state: bv64): bv64 {
    state ^ (state << 17)
  }

  function XorShift(state: bv64): bv64 {
    Left17(Right7(Left13(state)))
  }

  lemma XorShiftKeepsNonZero(state: bv64)
    requires state != 0
    ensures XorShift(state) != 0
  {
  }

  /** At least two trailing zeros. */
  predicate LowPairClear(state: bv64) {
    state & 3 == 0
  }

  function NextPair(state: bv64): bv64 {
    state.RotateRight(2)
  }

  /** Trailing zero pairs of `state`, counted from `level` and at most 16. */
  function TrailingPairs(state: bv64, level: nat): (r: nat)
    ensures level <= MAX_LEVEL ==> level <= r <= MAX_LEVEL
    decreases MAX_LEVEL - level
  {
    if level < MAX_LEVEL && LowPairClear(state) then TrailingPairs(NextPair(state), level + 1) else level
  }

  /** What holds while `id` is being removed: levels below `level` are done,
      the others still name `id` in their link sets. */
  ghost predicate Removing(config: Config, measure: (Vector, Vector) -> int, before: Nodes, nodes: Nodes, id: Id, level: nat)
    requires Sound(config, before)
  {
    && Keeping(before, nodes, id)
    && (forall l: nat | l < level :: Layer(nodes, l) == LayerWithout(config, measure, before, id, l))
    && (forall l: nat | l >= level :: Layer(nodes, l) == Layer(before, l) - {id})
  }

  ghost predicate Keeping(before: Nodes, nodes: Nodes, id: Id) {
    && nodes.Keys == before.Keys - {id}
    && forall z | z in nodes :: SameShape(before[z], nodes[z]) && nodes[z].backbone == before[z].backbone
  }

  lemma RemoveStarts(config: Config, measure: (Vector, Vector) -> int, before: Nodes, id: Id)
    requires Sound(config, before) && id in before
    ensures Removing(config, measure, before, before - {id}, id, 0)
  {
  }

  lemma RemovingIsShaped(config: Config, measure: (Vector, Vector) -> int, before: Nodes, nodes: Nodes, id: Id, level: nat)
    requires Sound(config, before) && Removing(config, measure, before, nodes, id, level)
    ensures Keeping(before, nodes, id) && nodes.Keys == before.Keys - {id}
    ensures forall z | z in nodes :: nodes[z].backbone == before[z].backbone
  {
  }

  lemma SetLayerKeeps(before: Nodes, nodes: Nodes, id: Id, level: nat, adj: Adj)
    requires Keeping(before, nodes, id)
    ensures Keeping(before, SetLayer(nodes, level, adj), id)
  {
    var after := SetLayer(nodes, level, adj);
    forall z | z in after ensures SameShape(before[z], after[z]) && after[z].backbone == before[z].backbone {
      assert SameShape(before[z], nodes[z]) && nodes[z].backbone == before[z].backbone;
    }
  }

  lemma KeepingVectors(before: Nodes, nodes: Nodes, id: Id)
    requires Keeping(before, nodes, id)
    ensures Vectors(nodes) == Vectors(before) - {id}
  {
    forall z | z in nodes ensures Vectors(nodes)[z] == (Vectors(before) - {id})[z] {
      assert SameShape(before[z], nodes[z]);
    }
  }

  /** One level of removal: detach, then relink. */
  lemma RemoveStep(config: Config, measure: (Vector, Vector) -> int, before: Nodes, nodes: Nodes, id: Id, level: nat)
    requires Sound(config, before) && Removing(config, measure, before, nodes, id, level)
    requires id in before && level < |before[id].neighbours|
    ensures
      var layer, ns := Layer(before, level), Listed(before[id].neighbours[level]);
      var one := SetLayer(nodes, level, Detach(layer, id));
      && Reciprocal(layer) && id in layer && Layer(nodes, level) == layer - {id}
      && Elements(ns) == layer[id] && Distinct(ns)
      && Relinkable(config, one, ns, level)
      && Removing(config, measure, before, SetLayer(one, level, RelinkGoal(config, measure, one, ns, level)), id, level + 1)
  {
    var layer, ns := Layer(before, level), Listed(before[id].neighbours[level]);
    var detached := Detach(layer, id);
    var one := SetLayer(nodes, level, detached);
    DetachOpens(config, measure, before, nodes, id, level);
    KeepingVectors(before, one, id);
    var goal := RelinkGoal(config, measure, one, ns, level);
    assert goal == LayerWithout(config, measure, before, id, level) by {
      hide Relinked, Detach, SetLayer, Reciprocal, LayersOk, SingleCycle;
    }
    RemoveStepDone(config, measure, before, nodes, one, id, level, detached, goal);
  }

  lemma DetachOpens(config: Config, measure: (Vector, Vector) -> int, before: Nodes, nodes: Nodes, id: Id, level: nat)
    requires Sound(config, before) && Removing(config, measure, before, nodes, id, level)
    requires id in before && level < |before[id].neighbours|
    ensures
      var layer, ns := Layer(before, level), Listed(before[id].neighbours[level]);
      var one := SetLayer(nodes, level, Detach(layer, id));
      && Reciprocal(layer) && id in layer && Layer(nodes, level) == layer - {id}
      && Elements(ns) == layer[id] && Distinct(ns)
      && Relinkable(config, one, ns, level) && Layer(one, level) == Detach(layer, id)
      && Keeping(before, one, id)
  {
    var layer := Layer(before, level);
    assert LayerOk(config, before, level);
    assert Layer(nodes, level) == layer - {id} && id in layer;
    LayerOfSet(nodes, level, Detach(layer, id));
    DetachKeepsLayer(layer, id, DegreeLimit(config, level));
    SetLayerKeeps(before, nodes, id, level, Detach(layer, id));
    var one := SetLayer(nodes, level, Detach(layer, id));
    LinksOf(layer, before, id, level);
    hide SetLayer, Detach, Reciprocal, LayersOk, SingleCycle, Layer, CheckVector;
    forall z | z in one ensures |one[z].neighbours| == one[z].level + 1 {
      assert NodeOk(config, before[z]) && SameShape(before[z], one[z]);
    }
  }

  lemma LinksOf(layer: Adj, before: Nodes, id: Id, level: nat)
    requires layer == Layer(before, level) && id in layer && Reciprocal(layer)
    ensures Elements(Listed(before[id].neighbours[level])) == layer[id] <= Detach(layer, id).Keys
    ensures Distinct(Listed(before[id].neighbours[level]))
  {
    assert forall y | y in layer[id] :: y in layer && y != id;
  }

  lemma RemoveStepDone(config: Config, measure: (Vector, Vector) -> int, before: Nodes, nodes: Nodes, one: Nodes, id: Id,
                       level: nat, detached: Adj, goal: Adj)
    requires Sound(config, before) && Removing(config, measure, before, nodes, id, level)
    requires one == SetLayer(nodes, level, detached) && Layer(one, level) == detached && goal.Keys == detached.Keys
    requires goal == LayerWithout(config, measure, before, id, level)
    ensures Removing(config, measure, before, SetLayer(one, level, goal), id, level + 1)
  {
    var two := SetLayer(one, level, goal);
    hide LayerWithout, Sound, SetLayer, Layer;
    SetLayerKeeps(before, nodes, id, level, detached);
    SetLayerKeeps(before, one, id, level, goal);
    LayerOfSet(one, level, goal);
    forall l: nat | l != level ensures Layer(two, l) == Layer(nodes, l) {
      OtherLayer(nodes, level, detached, l);
      OtherLayer(one, level, goal, l);
    }
  }

  lemma OpenedRing(before: Nodes, start: Nodes, after: Nodes, id: Id, anchors: seq<Id>)
    requires id in before && after.Keys == start.Keys == before.Keys - {id} && SingleCycle(Ring(before))
    requires anchors == Listed(before[id].backbone)
    requires forall z | z in start :: start[z].backbone == before[z].backbone
    requires forall z | z in after ::
      after[z] == if z in anchors then start[z].(backbone := start[z].backbone - {id}) else start[z]
    ensures |anchors| == 2 ==> anchors[0] in after && anchors[1] in after
    ensures |anchors| == 2 ==>
      SetRing(after, Connect(Ring(after), anchors[0], anchors[1])) == SetRing(start, RingWithout(before, id))
    ensures |anchors| != 2 ==> after == SetRing(start, RingWithout(before, id))
  {
    var ring := Ring(before);
    BypassKeepsCycle(ring, id);
    var c :| CycleOf(ring, c);
    CycleIsReciprocal(ring, c);
    hide SingleCycle, CycleOf;
    OpenedRingIs(before, start, after, id, anchors);
    SetSameRing(after);
    assert forall i | 0 <= i < |anchors| :: anchors[i] in Elements(anchors);
    assert ring[id] == before[id].backbone;
    OpenedNodes(start, after, RingWithout(before, id));
  }

  lemma OpenedRingIs(before: Nodes, start: Nodes, after: Nodes, id: Id, anchors: seq<Id>)
    requires id in before && after.Keys == start.Keys == before.Keys - {id} && Reciprocal(Ring(before))
    requires Elements(anchors) == before[id].backbone
    requires forall z | z in start :: start[z].backbone == before[z].backbone
    requires forall z | z in after ::
      after[z] == if z in anchors then start[z].(backbone := start[z].backbone - {id}) else start[z]
    ensures Ring(after) == Detach(Ring(before), id)
  {
    var ring := Ring(before);
    forall z | z in after ensures Ring(after)[z] == Detach(ring, id)[z] {
      assert z in anchors <==> z in Elements(anchors);
      if z !in anchors {
        assert id !in ring[z];
      }
    }
  }

  lemma OpenedNodes(start: Nodes, after: Nodes, ring: Adj)
    requires after.Keys == start.Keys == ring.Keys
    requires forall z | z in after :: after[z] == start[z].(backbone := after[z].backbone)
    ensures SetRing(after, ring) == SetRing(start, ring)
  {
    forall z | z in after ensures SetRing(after, ring)[z] == SetRing(start, ring)[z] {
      assert after[z] == start[z].(backbone := after[z].backbone);
    }
  }

  lemma AbsentRemoval(config: Config, measure: (Vector, Vector) -> int, nodes: Nodes, id: Id)
    requires Sound(config, nodes) && id !in nodes
    ensures IsRemoval(config, measure, nodes, nodes, id)
  {
    forall l: nat ensures Layer(nodes, l) == LayerWithout(config, measure, nodes, id, l) {
      assert id !in Layer(nodes, l);
    }
  }

  lemma RemoveEnds(config: Config, measure: (Vector, Vector) -> int, before: Nodes, nodes: Nodes, after: Nodes, id: Id)
    requires Sound(config, before) && id in before
    requires Removing(config, measure, before, nodes, id, |before[id].neighbours|)
    requires after == SetRing(nodes, RingWithout(before, id))
    ensures IsRemoval(config, measure, before, after, id)
    ensures after.Keys == before.Keys - {id} && forall z | z in after :: after[z].level == before[z].level
  {
    SetRingIs(nodes, RingWithout(before, id));
    forall l: nat ensures Layer(after, l) == LayerWithout(config, measure, before, id, l) {
      assert Layer(after, l) == Layer(nodes, l);
      if l >= |before[id].neighbours| {
        assert id !in Layer(before, l);
        assert Layer(before, l) - {id} == Layer(before, l);
      }
    }
    forall z | z in after ensures SameShape(before[z], after[z]) {
      assert SameShape(before[z], nodes[z]);
    }
  }

  lemma SetSameRing(nodes: Nodes)
    ensures SetRing(nodes, Ring(nodes)) == nodes
  {
    forall z | z in nodes ensures SetRing(nodes, Ring(nodes))[z] == nodes[z] {
    }
  }

  lemma SetRingTwice(nodes: Nodes, a: Adj, b: Adj)
    requires a.Keys == nodes.Keys == b.Keys
    ensures SetRing(SetRing(nodes, a), b) == SetRing(nodes, b)
  {
  }

  lemma DetachedNodes(before: Nodes, after: Nodes, id: Id, level: nat, neighbours: seq<Id>, layer: Adj)
    requires Reciprocal(layer) && id in layer && Layer(before, level) == layer - {id}
    requires Elements(neighbours) == layer[id] && after.Keys == before.Keys
    requires forall z | z in after ::
      after[z] == if z in neighbours then WithoutLink(before[z], level, id) else before[z]
    ensures after == SetLayer(before, level, Detach(layer, id))
  {
    var detached := Detach(layer, id);
    forall z | z in before ensures after[z] == SetLayer(before, level, detached)[z] {
      assert z in neighbours <==> z in Elements(neighbours);
      if z in detached {
        assert z in Layer(before, level) && layer[z] == before[z].neighbours[level];
        if z !in neighbours {
          assert id !in layer[z];
          assert layer[z] - {id} == layer[z];
          assert before[z].neighbours[level := layer[z] - {id}] == before[z].neighbours;
        }
      } else {
        assert z !in Layer(before, level);
      }
    }
  }

  /** What holds while the pairs of `ns` from `(i, j)` on are still to link. */
  ghost predicate Relinking(config: Config, measure: (Vector, Vector) -> int, before: Nodes, nodes: Nodes, ns: seq<Id>,
                            i: nat, j: nat, level: nat, goal: Adj)
  {
    && nodes == SetLayer(before, level, Layer(nodes, level)) && Layer(nodes, level).Keys == Layer(before, level).Keys
    && LayerOk(config, nodes, level)
    && Elements(ns) <= Layer(nodes, level).Keys
    && (forall z | z in nodes :: |nodes[z].neighbours| == nodes[z].level + 1)
    && Relinked(Layer(nodes, level), RulerOf(Space(Vectors(before), measure)), ns, i, j, DegreeLimit(config, level)) == goal
  }

  ghost predicate Relinkable(config: Config, nodes: Nodes, ns: seq<Id>, level: nat) {
    && LayerOk(config, nodes, level) && Elements(ns) <= Layer(nodes, level).Keys
    && forall z | z in nodes :: |nodes[z].neighbours| == nodes[z].level + 1
  }

  ghost function RelinkGoal(config: Config, measure: (Vector, Vector) -> int, nodes: Nodes, ns: seq<Id>, level: nat): Adj
    requires Relinkable(config, nodes, ns, level)
  {
    Relinked(Layer(nodes, level), RulerOf(Space(Vectors(nodes), measure)), ns, 0, 1, DegreeLimit(config, level))
  }

  lemma RelinkStarts(config: Config, measure: (Vector, Vector) -> int, nodes: Nodes, ns: seq<Id>, level: nat)
    requires Relinkable(config, nodes, ns, level)
    ensures Relinking(config, measure, nodes, nodes, ns, 0, 1, level, RelinkGoal(config, measure, nodes, ns, level))
  {
    SetSameLayer(nodes, level);
  }

  lemma RelinkNextRow(config: Config, measure: (Vector, Vector) -> int, before: Nodes, nodes: Nodes, ns: seq<Id>,
                      i: nat, j: nat, level: nat, goal: Adj)
    requires Relinking(config, measure, before, nodes, ns, i, j, level, goal) && i < |ns| <= j
    ensures Relinking(config, measure, before, nodes, ns, i + 1, i + 2, level, goal)
  {
  }

  lemma RelinkEnds(config: Config, measure: (Vector, Vector) -> int, before: Nodes, nodes: Nodes, ns: seq<Id>,
                   i: nat, level: nat, goal: Adj)
    requires Relinking(config, measure, before, nodes, ns, i, i + 1, level, goal) && i >= |ns|
    ensures nodes == SetLayer(before, level, goal)
  {
  }

  lemma RelinkStep(config: Config, measure: (Vector, Vector) -> int, before: Nodes, nodes: Nodes, ns: seq<Id>,
                   i: nat, j: nat, level: nat, goal: Adj)
    requires Relinking(config, measure, before, nodes, ns, i, j, level, goal) && i < j < |ns|
    ensures ns[i] in Layer(nodes, level) && ns[j] in Layer(nodes, level) && LayerOk(config, nodes, level)
    ensures ns[i] in nodes && nodes[ns[i]].level >= level && ns[j] in nodes && nodes[ns[j]].level >= level
    ensures
      var ruler := RulerOf(Space(Vectors(nodes), measure));
      var linked := Linked(Layer(nodes, level), ruler, ns[i], ns[j], DegreeLimit(config, level));
      Relinking(config, measure, before, SetLayer(nodes, level, linked), ns, i, j + 1, level, goal)
  {
    var ruler, limit := RulerOf(Space(Vectors(nodes), measure)), DegreeLimit(config, level);
    assert ns[i] in Elements(ns) && ns[j] in Elements(ns);
    var linked := Linked(Layer(nodes, level), ruler, ns[i], ns[j], limit);
    LinkedKeepsLayer(Layer(nodes, level), ruler, ns[i], ns[j], limit);
    LayerOfSet(nodes, level, linked);
    SetLayerFrame(before, level, Layer(nodes, level));
    SetLayerFrame(nodes, level, linked);
    SetLayerTwice(before, level, Layer(nodes, level), linked);
    var after := SetLayer(nodes, level, linked);
    forall z | z in after ensures |after[z].neighbours| == after[z].level + 1 {
      assert |nodes[z].neighbours| == nodes[z].level + 1;
    }
  }

  function WithLink(node: Node, level: nat, id: Id): Node
    requires level < |node.neighbours|
  {
    node.(neighbours := node.neighbours[level := node.neighbours[level] + {id}])
  }

  /** The three updates of a link compose, level by level. */
  lemma LinkSteps(config: Config, nodes: Nodes, measure: (Vector, Vector) -> int, left: Id, right: Id, level: nat)
    requires left in Layer(nodes, level) && right in Layer(nodes, level) && left != right
    requires LayerOk(config, nodes, level)
    ensures
      var ruler, limit := RulerOf(Space(Vectors(nodes), measure)), DegreeLimit(config, level);
      var layer := Layer(nodes, level);
      var a := Connect(layer, left, right);
      var one := SetLayer(nodes, level, a);
      var b := Pruned(a, ruler, left, limit);
      var two := SetLayer(one, level, b);
      && left in Layer(one, level) && Reciprocal(Layer(one, level)) && Layer(one, level) == a
      && RulerOf(Space(Vectors(one), measure)) == ruler == RulerOf(Space(Vectors(two), measure))
      && right in Layer(two, level) && Reciprocal(Layer(two, level)) && Layer(two, level) == b
      && SetLayer(two, level, Pruned(b, ruler, right, limit)) == SetLayer(nodes, level, Linked(layer, ruler, left, right, limit))
  {
    var ruler, limit := RulerOf(Space(Vectors(nodes), measure)), DegreeLimit(config, level);
    var a := Connect(Layer(nodes, level), left, right);
    LayerOfSet(nodes, level, a);
    SetLayerFrame(nodes, level, a);
    ConnectKeepsReciprocal(Layer(nodes, level), left, right);
    PrunedKeepsLayer(a, ruler, left, right, limit);
    var one, b := SetLayer(nodes, level, a), Pruned(a, ruler, left, limit);
    LayerOfSet(one, level, b);
    SetLayerFrame(one, level, b);
    var c := Pruned(b, ruler, right, limit);
    SetLayerTwice(nodes, level, a, b);
    SetLayerTwice(nodes, level, b, c);
  }

  function WithoutLink(node: Node, level: nat, id: Id): Node {
    if level < |node.neighbours| then
      node.(neighbours := node.neighbours[level := node.neighbours[level] - {id}])
    else node
  }

  /** Ranking the links and taking the first few is keeping the nearest. */
  lemma PrunedIs(nodes: Nodes, measure: (Vector, Vector) -> int, id: Id, level: nat, limit: nat)
    requires id in Layer(nodes, level) && Reciprocal(Layer(nodes, level))
    ensures id in nodes && level < |nodes[id].neighbours|
    ensures
      var space, node := Space(Vectors(nodes), measure), nodes[id];
      var retained := Elements(Take(Ranked(Gauge(space, node.vector), Listed(node.neighbours[level])), limit));
      && Distinct(Listed(node.neighbours[level] - retained))
      && Pruned(Layer(nodes, level), RulerOf(space), id, limit) == Trim(Layer(nodes, level), id, retained)
  {
    var space, node := Space(Vectors(nodes), measure), nodes[id];
    var d := Gauge(space, node.vector);
    NearerIsTotal(d);
    SortAscends(Nearer(d), Listed(node.neighbours[level]));
    assert RulerOf(space)(id) == d;
  }

  lemma RemovedAreLinks(nodes: Nodes, id: Id, level: nat, removed: seq<Id>, retained: set<Id>)
    requires id in Layer(nodes, level) && Reciprocal(Layer(nodes, level))
    requires Elements(removed) == nodes[id].neighbours[level] - retained
    ensures forall i | 0 <= i < |removed| :: removed[i] in nodes && removed[i] != id
    ensures id !in removed && Inside(Layer(nodes, level))
  {
    forall x | x in removed ensures x in nodes && x != id {
      assert x in Elements(removed) && x in Layer(nodes, level)[id];
      assert x in Layer(nodes, level);
    }
  }

  lemma TrimmedNodes(before: Nodes, after: Nodes, id: Id, level: nat, removed: seq<Id>, retained: set<Id>)
    requires id in Layer(before, level) && Inside(Layer(before, level)) && id !in removed
    requires Elements(removed) == before[id].neighbours[level] - retained
    requires after.Keys == before.Keys
    requires after[id] == before[id].(neighbours := before[id].neighbours[level := retained])
    requires forall z | z in after && z != id ::
      after[z] == if z in removed then WithoutLink(before[z], level, id) else before[z]
    ensures after == SetLayer(before, level, Trim(Layer(before, level), id, retained))
  {
    var layer := Layer(before, level);
    var trimmed := Trim(layer, id, retained);
    assert layer[id] - retained == Elements(removed);
    forall z | z in before ensures after[z] == SetLayer(before, level, trimmed)[z] {
      assert z in removed <==> z in Elements(removed);
      if z in removed {
        assert z in layer[id] && z in layer;
      } else if z in layer && z != id {
        assert before[z].neighbours[level := before[z].neighbours[level]] == before[z].neighbours;
      }
    }
  }

  lemma BoundaryAtStart(adj: Adj, entries: seq<Id>)
    requires Elements(entries) <= adj.Keys
    ensures Boundary(adj, entries, []) == Elements(entries)
  {
    forall y ensures y in Boundary(adj, entries, []) <==> y in Elements(entries) {
      assert Adjoins(adj, entries, [], y) <==> y in entries;
      assert y in entries ==> y in Elements(entries);
    }
  }

  lemma PopFirst(sorted: seq<Id>)
    requires sorted != []
    ensures Elements(sorted) == Elements(sorted[1..]) + {sorted[0]}
  {
    assert sorted == [sorted[0]] + sorted[1..];
  }

  lemma SearchStarts(adj: Adj, d: Id -> int, entries: seq<Id>, retained: nat)
    requires Elements(entries) <= adj.Keys
    ensures Searching(adj, d, entries, [], entries, {}) && Kept(d, [], retained) == []
  {
    BoundaryAtStart(adj, entries);
  }

  /** What holds at the head of the search loop: `order` lists the visits so
      far, and the frontier holds the whole boundary and otherwise only nodes
      already visited. */
  ghost predicate Searching(adj: Adj, d: Id -> int, entries: seq<Id>, order: seq<Id>, frontier: seq<Id>, visited: set<Id>) {
    && visited == Elements(order) && Distinct(order) && |visited| == |order|
    && order == Visits(adj, d, entries, |order|)
    && Elements(frontier) <= adj.Keys
    && Boundary(adj, entries, order) <= Elements(frontier)
    && Elements(frontier) <= Boundary(adj, entries, order) + visited
  }

  /** After the frontier is sorted its first node is either already visited,
      and can be dropped, or is the next visit. */
  lemma SortedFrontier(adj: Adj, d: Id -> int, entries: seq<Id>, order: seq<Id>, frontier: seq<Id>, sorted: seq<Id>, visited: set<Id>)
    requires Searching(adj, d, entries, order, frontier, visited) && frontier != []
    requires multiset(sorted) == multiset(frontier) && Sorted(Nearer(d), sorted)
    ensures |sorted| == |frontier| && Searching(adj, d, entries, order, sorted, visited)
    ensures |visited| == |order|
    ensures sorted[0] in visited ==> Searching(adj, d, entries, order, sorted[1..], visited)
    ensures sorted[0] !in visited ==> sorted[0] in adj && sorted[0] !in order && Distinct(order + [sorted[0]])
  {
    SameMembers(sorted, frontier);
    PopFirst(sorted);
    assert sorted[0] in Elements(sorted);
    assert forall y | y in Boundary(adj, entries, order) :: y !in visited;
  }

  lemma AroundLinks(nodes: Nodes, level: nat, x: Id)
    requires x in Around(nodes, level)
    ensures x in nodes && level < |nodes[x].neighbours|
    ensures Around(nodes, level)[x] == nodes[x].neighbours[level] + (if level == 0 then nodes[x].backbone else {})
  {
  }

  lemma VisitedNext(adj: Adj, d: Id -> int, entries: seq<Id>, order: seq<Id>, sorted: seq<Id>, visited: set<Id>, frontier: seq<Id>)
    requires Inside(adj) && sorted != [] && sorted[0] !in order && sorted[0] in adj
    requires Searching(adj, d, entries, order, sorted, Elements(order)) && Sorted(Nearer(d), sorted)
    requires visited == Elements(order) + {sorted[0]}
    requires Elements(frontier) == Elements(sorted[1..]) + (adj[sorted[0]] - visited)
    ensures Searching(adj, d, entries, order + [sorted[0]], frontier, visited)
  {
    var current := sorted[0];
    var longer := order + [current];
    NextVisit(adj, d, entries, order, sorted);
    PopFirst(sorted);
    assert Elements(longer) == visited;
    BoundaryGrows(adj, entries, order, current);
    DistinctSize(longer);
    hide Boundary, Visits, Distinct, Inside;
    assert Elements(frontier) <= adj.Keys by {
      assert forall y | y in adj[current] :: y in adj;
    }
  }

  lemma SearchEnds(adj: Adj, d: Id -> int, entries: seq<Id>, order: seq<Id>, frontier: seq<Id>, visited: set<Id>, budget: nat)
    requires Searching(adj, d, entries, order, frontier, visited) && |order| <= budget
    ensures order == Visits(adj, d, entries, |order|)
    ensures frontier == [] || |order| == budget ==> order == Visits(adj, d, entries, budget)
  {
    if frontier == [] {
      Stuck(adj, d, entries, |order|, budget);
    }
  }

  /** The first of the sorted frontier, when unvisited, is what the plain
      definition visits next. */
  lemma NextVisit(adj: Adj, d: Id -> int, entries: seq<Id>, order: seq<Id>, sorted: seq<Id>)
    requires order == Visits(adj, d, entries, |order|) && sorted != [] && Sorted(Nearer(d), sorted)
    requires Boundary(adj, entries, order) <= Elements(sorted) <= Boundary(adj, entries, order) + Elements(order)
    requires sorted[0] !in Elements(order)
    ensures Visits(adj, d, entries, |order| + 1) == order + [sorted[0]]
  {
    NearerIsTotal(d);
    var b := Boundary(adj, entries, order);
    assert sorted[0] in Elements(sorted);
    forall y | y in b ensures y == sorted[0] || Nearer(d)(sorted[0], y) {
      assert y in Elements(sorted);
    }
    assert Least(Nearer(d), b) == sorted[0];
  }

  ghost predicate IsNearest(d: Id -> int, candidates: set<Id>, first: Id, next: Id) {
    && next in candidates + {first}
    && forall c | c in candidates + {first} :: c == next || Nearer(d)(next, c)
  }

  lemma NearestOfOne(adj: Adj, d: Id -> int, x: Id, a: set<Id>, next: Id)
    requires x in adj && adj[x] == a + {} && IsNearest(d, a, x, next)
    ensures next == Steepest(adj, d, x)
  {
    NearerIsTotal(d);
    var best := Steepest(adj, d, x);
    assert best in a + {x};
  }

  /** Taking the nearest of two link sets in turn finds the nearest of both. */
  lemma NearestOfBoth(adj: Adj, d: Id -> int, x: Id, a: set<Id>, b: set<Id>, first: Id, second: Id)
    requires x in adj && adj[x] == a + b
    requires IsNearest(d, a, x, first) && IsNearest(d, b, first, second)
    ensures second == Steepest(adj, d, x)
  {
    NearerIsTotal(d);
    var best := Steepest(adj, d, x);
    assert best in a + b + {x};
    assert Nearer(d)(best, second) || best == second || Nearer(d)(second, best);
  }

  /** Visiting `current` puts its unvisited neighbours on the boundary. */
  lemma BoundaryGrows(adj: Adj, entries: seq<Id>, order: seq<Id>, current: Id)
    requires Inside(adj) && current in adj && current !in order
    ensures Boundary(adj, entries, order + [current])
         == Boundary(adj, entries, order) - {current} + (adj[current] - Elements(order + [current]))
  {
    var longer := order + [current];
    forall y ensures y in Boundary(adj, entries, longer) <==>
      y in Boundary(adj, entries, order) - {current} + (adj[current] - Elements(longer))
    {
      assert y in longer <==> y in order || y == current;
      if y in adj {
        assert Adjoins(adj, entries, longer, y) <==> Adjoins(adj, entries, order, y) || y in adj[current] by {
          if y in adj[current] {
            assert current in longer;
          }
        }
      }
    }
  }
}
