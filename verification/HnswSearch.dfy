/** What a search finds, said of the stored links alone: the descent through the
    upper levels, the order the base layer is visited in, and the best of it. */
module HnswSearch {
  import opened Options
  import opened Orders
  import opened Adjacency
  import opened BestFirst
  import opened HnswGraph
  import opened HnswChange
  import opened HnswQuery

  /** A graph, and a vector distances are measured from. */
  datatype Search = Search(nodes: Nodes, measure: (Vector, Vector) -> int, vector: Vector)

  /** A stored link: at the base layer the backbone counts too. */
  predicate Adjacent(nodes: Nodes, level: nat, x: Id, y: Id) {
    && x in nodes && level < |nodes[x].neighbours|
    && (y in nodes[x].neighbours[level] || (level == 0 && y in nodes[x].backbone))
  }

  /** Smaller distance, ties by identity. */
  predicate Closer(s: Search, x: Id, y: Id) {
    && x in s.nodes && y in s.nodes
    && var dx, dy := s.measure(s.vector, s.nodes[x].vector), s.measure(s.vector, s.nodes[y].vector);
       dx < dy || (dx == dy && x < y)
  }

  /** No link of `x` leads nearer. */
  ghost predicate Bottom(s: Search, level: nat, x: Id) {
    forall z | Adjacent(s.nodes, level, x, z) :: !Closer(s, z, x)
  }

  /** One step of steepest descent. */
  ghost predicate StepsDown(s: Search, level: nat, x: Id, y: Id) {
    && Adjacent(s.nodes, level, x, y) && Closer(s, y, x)
    && forall z | Adjacent(s.nodes, level, x, z) :: z == y || Closer(s, y, z)
  }

  /** Steepest descent from `x` to `y`, stopped by a bottom or after `budget`
      steps. */
  ghost predicate Downhill(s: Search, level: nat, path: seq<Id>, budget: nat) {
    && 0 < |path| <= budget + 1
    && (forall i | 0 < i < |path| :: StepsDown(s, level, path[i - 1], path[i]))
    && (|path| <= budget ==> Bottom(s, level, path[|path| - 1]))
  }

  ghost predicate DescendsTo(s: Search, level: nat, x: Id, y: Id, budget: nat) {
    exists path :: Downhill(s, level, path, budget) && path[0] == x && path[|path| - 1] == y
  }

  /** One descent a level, each from where the one above ended; `starts[l]` is
      where level `l` is entered. */
  ghost predicate Descent(s: Search, starts: seq<Id>, entry: Id, maxLevel: nat, budget: nat) {
    && |starts| == maxLevel + 1 && starts[maxLevel] == entry
    && forall l: nat | 0 < l <= maxLevel :: DescendsTo(s, l, starts[l], starts[l - 1], budget)
  }

  /** `y` is a link away from one of `visited`. */
  predicate Offered(nodes: Nodes, level: nat, visited: seq<Id>, y: Id) {
    exists i | 0 <= i < |visited| :: Adjacent(nodes, level, visited[i], y)
  }

  /** From `start`, always the nearest node a link away from those visited,
      until `n` are visited or no link leads out. */
  ghost predicate VisitsNearest(s: Search, level: nat, start: Id, order: seq<Id>, n: nat) {
    && 0 < |order| <= n && order[0] == start && Distinct(order)
    && (forall i | 0 < i < |order| :: Offered(s.nodes, level, order[..i], order[i]))
    && (forall i, y | 0 < i < |order| && Offered(s.nodes, level, order[..i], y) ::
          y in order[..i] || y == order[i] || Closer(s, order[i], y))
    && (|order| < n ==> forall y | Offered(s.nodes, level, order, y) :: y in order)
  }

  /** The candidates a query scores. */
  ghost predicate Finds(s: Search, entry: Id, maxLevel: nat, beam: nat, pool: seq<Id>) {
    exists starts, order ::
      && Descent(s, starts, entry, maxLevel, beam)
      && VisitsNearest(s, 0, starts[0], order, beam)
      && multiset(order) == multiset(pool)
  }

  // ---------- distances ----------

  lemma CloserIs(s: Search, x: Id, y: Id)
    requires x in s.nodes && y in s.nodes
    ensures Nearer(Gauge(Space(Vectors(s.nodes), s.measure), s.vector))(x, y) <==> Closer(s, x, y)
  {
  }

  lemma AdjacentIs(nodes: Nodes, level: nat, x: Id, y: Id)
    ensures x in Around(nodes, level) ==> (y in Around(nodes, level)[x] <==> Adjacent(nodes, level, x, y))
    ensures Adjacent(nodes, level, x, y) ==> x in Around(nodes, level)
    ensures x in Around(nodes, level) ==> x in nodes
  {
  }

  // ---------- one descent ----------

  lemma {:induction false} WalkIsDownhill(s: Search, level: nat, x: Id, budget: nat)
    requires Inside(Around(s.nodes, level)) && x in Around(s.nodes, level)
    ensures DescendsTo(s, level, x, Walk(Around(s.nodes, level), Gauge(Space(Vectors(s.nodes), s.measure), s.vector), x, budget), budget)
    decreases budget
  {
    var around, d := Around(s.nodes, level), Gauge(Space(Vectors(s.nodes), s.measure), s.vector);
    var y := Walk(around, d, x, budget);
    hide *;
    AdjacentIs(s.nodes, level, x, x);
    WalkStep(around, d, x, budget);
    if budget == 0 {
      StandStill(s, level, x, budget);
    } else {
      var next := Steepest(around, d, x);
      SteepestSteps(s, level, x);
      if next == x {
        StandStill(s, level, x, budget);
      } else {
        WalkIsDownhill(s, level, next, budget - 1);
        StepThenDescend(s, level, x, next, y, budget);
      }
    }
  }

  lemma WalkStep(adj: Adj, d: Id -> int, x: Id, budget: nat)
    ensures var next := Steepest(adj, d, x);
      Walk(adj, d, x, budget) == if budget == 0 || next == x then x else Walk(adj, d, next, budget - 1)
  {
  }

  lemma SteepestSteps(s: Search, level: nat, x: Id)
    requires Inside(Around(s.nodes, level)) && x in Around(s.nodes, level)
    ensures var y := Steepest(Around(s.nodes, level), Gauge(Space(Vectors(s.nodes), s.measure), s.vector), x);
      y in Around(s.nodes, level) && if y == x then Bottom(s, level, x) else StepsDown(s, level, x, y)
  {
    var around, d := Around(s.nodes, level), Gauge(Space(Vectors(s.nodes), s.measure), s.vector);
    var y := Steepest(around, d, x);
    AdjacentIs(s.nodes, level, x, y);
    AdjacentIs(s.nodes, level, y, y);
    NearerIsTotal(d);
    hide Gauge, Closer, Adjacent, Around, Nearer;
    CloserIs(s, y, x);
    forall z | Adjacent(s.nodes, level, x, z)
      ensures !Closer(s, z, y) && (z == y || Closer(s, y, z))
    {
      AdjacentIs(s.nodes, level, x, z);
      AdjacentIs(s.nodes, level, z, z);
      CloserIs(s, z, y);
      CloserIs(s, y, z);
    }
  }

  lemma StandStill(s: Search, level: nat, x: Id, budget: nat)
    requires budget == 0 || Bottom(s, level, x)
    ensures DescendsTo(s, level, x, x, budget)
  {
    hide Bottom, StepsDown;
    assert Downhill(s, level, [x], budget);
  }

  lemma StepThenDescend(s: Search, level: nat, x: Id, next: Id, y: Id, budget: nat)
    requires budget > 0 && StepsDown(s, level, x, next) && DescendsTo(s, level, next, y, budget - 1)
    ensures DescendsTo(s, level, x, y, budget)
  {
    hide Bottom, StepsDown;
    var rest :| Downhill(s, level, rest, budget - 1) && rest[0] == next && rest[|rest| - 1] == y;
    var path := [x] + rest;
    forall i | 0 < i < |path| ensures StepsDown(s, level, path[i - 1], path[i]) {
      if i > 1 {
        assert StepsDown(s, level, rest[i - 2], rest[i - 1]);
      }
    }
    assert Downhill(s, level, path, budget);
  }

  // ---------- every level ----------

  /** The descent reaches where the levels' descents lead. */
  lemma {:induction false} DescendIsDescent(config: Config, s: Search, entry: Id, from: nat, budget: nat) returns (starts: seq<Id>)
    requires Sound(config, s.nodes) && entry in s.nodes && s.nodes[entry].level >= from
    ensures Descent(s, starts, entry, from, budget)
    ensures |starts| > 0 && starts[0] == Descend(s.nodes, Gauge(Space(Vectors(s.nodes), s.measure), s.vector), entry, from, 1, budget)
    ensures starts[0] in s.nodes
    decreases from
  {
    var d := Gauge(Space(Vectors(s.nodes), s.measure), s.vector);
    hide *;
    DescendStep(s.nodes, d, entry, from, 1, budget);
    if from == 0 {
      starts := [entry];
      NoDescent(s, entry, budget);
    } else {
      var next := Walk(Around(s.nodes, from), d, entry, budget);
      WalkStays(config, s.nodes, d, entry, from, budget);
      WalkIsDownhill(s, from, entry, budget);
      var below := DescendIsDescent(config, s, next, from - 1, budget);
      starts := below + [entry];
      OneMoreDescent(s, below, next, entry, from, budget);
    }
  }

  lemma NoDescent(s: Search, entry: Id, budget: nat)
    ensures Descent(s, [entry], entry, 0, budget)
  {
  }

  lemma OneMoreDescent(s: Search, below: seq<Id>, next: Id, entry: Id, from: nat, budget: nat)
    requires from > 0 && Descent(s, below, next, from - 1, budget) && DescendsTo(s, from, entry, next, budget)
    ensures Descent(s, below + [entry], entry, from, budget) && (below + [entry])[0] == below[0]
  {
    hide DescendsTo;
    var starts := below + [entry];
    forall l: nat | 0 < l <= from ensures DescendsTo(s, l, starts[l], starts[l - 1], budget) {
      if l < from {
        assert DescendsTo(s, l, below[l], below[l - 1], budget);
      }
    }
  }

  // ---------- the order of visits ----------

  lemma BoundaryIs(nodes: Nodes, level: nat, start: Id, visited: seq<Id>, y: Id)
    requires Inside(Around(nodes, level)) && start in Around(nodes, level)
    ensures y in Boundary(Around(nodes, level), [start], visited)
      <==> y !in visited && (y == start || Offered(nodes, level, visited, y))
  {
    hide Inside, Adjacent, Around;
    var around := Around(nodes, level);
    if y in around && y !in visited && Adjoins(around, [start], visited, y) && y != start {
      var x :| x in visited && x in around && y in around[x];
      AdjacentIs(nodes, level, x, y);
      var i :| 0 <= i < |visited| && visited[i] == x;
      assert Adjacent(nodes, level, visited[i], y);
    }
    if Offered(nodes, level, visited, y) {
      var i :| 0 <= i < |visited| && Adjacent(nodes, level, visited[i], y);
      AdjacentIs(nodes, level, visited[i], y);
      InsideIs(around, visited[i], y);
    }
  }

  lemma InsideIs(adj: Adj, x: Id, y: Id)
    requires Inside(adj) && x in adj && y in adj[x]
    ensures y in adj
  {
  }

  lemma {:induction false} VisitsInOrder(s: Search, level: nat, start: Id, n: nat)
    requires Inside(Around(s.nodes, level)) && start in Around(s.nodes, level) && n > 0
    ensures VisitsNearest(s, level, start, Visits(Around(s.nodes, level), Gauge(Space(Vectors(s.nodes), s.measure), s.vector), [start], n), n)
    decreases n
  {
    var around, d := Around(s.nodes, level), Gauge(Space(Vectors(s.nodes), s.measure), s.vector);
    hide *;
    if n == 1 {
      FirstVisit(s, level, start);
    } else {
      VisitsInOrder(s, level, start, n - 1);
      var order := Visits(around, d, [start], n - 1);
      VisitsMore(around, d, [start], n);
      if Boundary(around, [start], order) == {} {
        StopsHere(s, level, start, order, n);
      } else {
        NextNearest(s, level, start, order, n);
      }
    }
  }

  lemma VisitsMore(adj: Adj, d: Id -> int, entries: seq<Id>, n: nat)
    requires n > 0
    ensures StrictTotal(Nearer(d))
    ensures var order := Visits(adj, d, entries, n - 1);
      Visits(adj, d, entries, n)
        == if Boundary(adj, entries, order) == {} then order else order + [Least(Nearer(d), Boundary(adj, entries, order))]
  {
    NearerIsTotal(d);
    hide Boundary, Nearer;
  }

  lemma FirstVisit(s: Search, level: nat, start: Id)
    requires Inside(Around(s.nodes, level)) && start in Around(s.nodes, level)
    ensures VisitsNearest(s, level, start, Visits(Around(s.nodes, level), Gauge(Space(Vectors(s.nodes), s.measure), s.vector), [start], 1), 1)
  {
    var around, d := Around(s.nodes, level), Gauge(Space(Vectors(s.nodes), s.measure), s.vector);
    VisitsMore(around, d, [start], 1);
    assert Visits(around, d, [start], 0) == [];
    hide Around, Inside, Gauge, Nearer, Boundary, Adjacent;
    BoundaryIs(s.nodes, level, start, [], start);
    forall y | y in Boundary(around, [start], []) ensures y == start {
      BoundaryIs(s.nodes, level, start, [], y);
    }
    assert Visits(around, d, [start], 1) == [start];
  }

  lemma StopsHere(s: Search, level: nat, start: Id, order: seq<Id>, n: nat)
    requires Inside(Around(s.nodes, level)) && start in Around(s.nodes, level) && n > 1
    requires VisitsNearest(s, level, start, order, n - 1) && Boundary(Around(s.nodes, level), [start], order) == {}
    ensures VisitsNearest(s, level, start, order, n)
  {
    hide Inside, Around, Boundary, Offered, Closer;
    forall y | Offered(s.nodes, level, order, y) ensures y in order {
      BoundaryIs(s.nodes, level, start, order, y);
    }
  }

  lemma NextNearest(s: Search, level: nat, start: Id, order: seq<Id>, n: nat)
    requires Inside(Around(s.nodes, level)) && start in Around(s.nodes, level) && n > 1
    requires VisitsNearest(s, level, start, order, n - 1) && Boundary(Around(s.nodes, level), [start], order) != {}
    requires StrictTotal(Nearer(Gauge(Space(Vectors(s.nodes), s.measure), s.vector)))
    ensures var d := Gauge(Space(Vectors(s.nodes), s.measure), s.vector);
      VisitsNearest(s, level, start, order + [Least(Nearer(d), Boundary(Around(s.nodes, level), [start], order))], n)
  {
    var around, d := Around(s.nodes, level), Gauge(Space(Vectors(s.nodes), s.measure), s.vector);
    var b := Boundary(around, [start], order);
    var next := Least(Nearer(d), b);
    hide *;
    LeastIs(Nearer(d), b);
    LeadsWithStart(s, level, start, order, n - 1);
    BoundaryIs(s.nodes, level, start, order, next);
    BoundaryNodes(s.nodes, level, start, order, next);
    forall y | Offered(s.nodes, level, order, y) ensures y in order || y == next || Closer(s, next, y) {
      BoundaryIs(s.nodes, level, start, order, y);
      if y !in order && y != next {
        BoundaryNodes(s.nodes, level, start, order, y);
        CloserIs(s, next, y);
      }
    }
    ExtendsOrder(s, level, start, order, next, n);
  }

  lemma LeastIs(lt: (Id, Id) -> bool, b: set<Id>)
    requires StrictTotal(lt) && b != {}
    ensures Least(lt, b) in b && forall y | y in b :: y == Least(lt, b) || lt(Least(lt, b), y)
  {
  }

  lemma BoundaryNodes(nodes: Nodes, level: nat, start: Id, order: seq<Id>, y: Id)
    ensures y in Boundary(Around(nodes, level), [start], order) ==> y in nodes
  {
  }

  lemma LeadsWithStart(s: Search, level: nat, start: Id, order: seq<Id>, n: nat)
    requires VisitsNearest(s, level, start, order, n)
    ensures |order| > 0 && order[0] == start && start in order
    ensures |order| < n ==> forall y | Offered(s.nodes, level, order, y) :: y in order
  {
    hide Offered, Closer;
  }

  lemma ExtendsOrder(s: Search, level: nat, start: Id, order: seq<Id>, next: Id, n: nat)
    requires n > 1 && VisitsNearest(s, level, start, order, n - 1)
    requires next !in order && Offered(s.nodes, level, order, next)
    requires forall y | Offered(s.nodes, level, order, y) :: y in order || y == next || Closer(s, next, y)
    ensures VisitsNearest(s, level, start, order + [next], n)
  {
    hide Offered, Closer;
    var longer := order + [next];
    assert longer[..|order|] == order;
    forall i | 0 < i < |longer|
      ensures Offered(s.nodes, level, longer[..i], longer[i])
      ensures forall y | Offered(s.nodes, level, longer[..i], y) :: y in longer[..i] || y == longer[i] || Closer(s, longer[i], y)
    {
      if i < |order| {
        assert longer[..i] == order[..i];
      }
    }
  }

  // ---------- what a query finds ----------

  /** The beam of a query, from the configuration's fields. */
  function Beam(config: Config, k: nat): nat {
    var eight := if config.mNeighbours * 8 <= USIZE_MAX then config.mNeighbours * 8 else USIZE_MAX;
    var wide := if k < eight then eight else k;
    if wide == 0 then 1 else wide
  }

  /** A query's candidates are where the descent through every upper level leads
      and the nodes visited from there, nearest first. */
  lemma PoolFinds(config: Config, s: Search, entry: Id, maxLevel: nat, k: nat)
    requires Sound(config, s.nodes) && IsEntry(s.nodes, Some(entry), maxLevel)
    ensures Finds(s, entry, maxLevel, Beam(config, k),
                  Pool(config, s.nodes, Gauge(Space(Vectors(s.nodes), s.measure), s.vector), entry, maxLevel, k))
  {
    var d, beam := Gauge(Space(Vectors(s.nodes), s.measure), s.vector), Beam(config, k);
    hide *;
    EntryStands(s.nodes, entry, maxLevel);
    BeamIs(config, k);
    var starts := DescendIsDescent(config, s, entry, maxLevel, beam);
    BaseSpans(config, s.nodes, starts[0]);
    VisitsInOrder(s, 0, starts[0], beam);
    var order := Visits(Around(s.nodes, 0), d, [starts[0]], beam);
    PoolIsKept(config, s.nodes, d, entry, maxLevel, k);
    KeptIsRanked(d, order, beam);
    FoundSo(s, entry, maxLevel, beam, starts, order, Pool(config, s.nodes, d, entry, maxLevel, k));
  }

  lemma EntryStands(nodes: Nodes, entry: Id, maxLevel: nat)
    requires IsEntry(nodes, Some(entry), maxLevel)
    ensures entry in nodes && nodes[entry].level == maxLevel
  {
  }

  lemma BeamIs(config: Config, k: nat)
    ensures QueryBeam(config, k) == Beam(config, k) > 0
  {
  }

  lemma PoolIsKept(config: Config, nodes: Nodes, d: Id -> int, entry: Id, maxLevel: nat, k: nat)
    ensures var beam := QueryBeam(config, k);
      var order := Visits(Around(nodes, 0), d, [Descend(nodes, d, entry, maxLevel, 1, beam)], beam);
      Pool(config, nodes, d, entry, maxLevel, k) == Kept(d, order, beam) && |order| <= beam
  {
    hide Descend, Around, Kept, QueryBeam;
  }

  lemma FoundSo(s: Search, entry: Id, maxLevel: nat, beam: nat, starts: seq<Id>, order: seq<Id>, pool: seq<Id>)
    requires Descent(s, starts, entry, maxLevel, beam) && VisitsNearest(s, 0, starts[0], order, beam)
    requires multiset(order) == multiset(pool)
    ensures Finds(s, entry, maxLevel, beam, pool)
  {
    hide Descent, VisitsNearest;
  }

  // ---------- the best of what was found ----------

  /** The public score of a stored node. */
  function ScoreOf(s: Search, narrow: Narrowing, x: Id): Option<int>
    requires x in s.nodes
  {
    narrow(s.measure(s.vector, s.nodes[x].vector))
  }

  predicate Unscored(s: Search, narrow: Narrowing, pool: seq<Id>) {
    exists x | x in pool :: x in s.nodes && ScoreOf(s, narrow, x).None?
  }

  predicate Precedes(a: Scored, b: Scored) {
    a.score < b.score || (a.score == b.score && a.id < b.id)
  }

  ghost predicate Lists(list: seq<Scored>, x: Id) {
    exists i | 0 <= i < |list| :: list[i].id == x
  }

  ghost predicate OwnScore(s: Search, narrow: Narrowing, pool: seq<Id>, hit: Scored) {
    hit.id in pool && hit.id in s.nodes && ScoreOf(s, narrow, hit.id) == Some(hit.score)
  }

  /** The `k` best of the pool, each with its own score; who is left out comes
      after everyone listed. */
  ghost predicate Tops(s: Search, narrow: Narrowing, pool: seq<Id>, k: nat, list: seq<Scored>) {
    && |list| == (if |pool| <= k then |pool| else k)
    && (forall i, j | 0 <= i < j < |list| :: Precedes(list[i], list[j]))
    && (forall i | 0 <= i < |list| :: OwnScore(s, narrow, pool, list[i]))
    && forall x, i | x in pool && !Lists(list, x) && 0 <= i < |list| ::
         x in s.nodes && ScoreOf(s, narrow, x).Some? && Precedes(list[i], Scored(x, ScoreOf(s, narrow, x).value))
  }

  /** Refused when a candidate has no public score, else the best of them. */
  ghost predicate AnswersBest(s: Search, narrow: Narrowing, pool: seq<Id>, k: nat, r: Result<seq<Scored>>) {
    if Unscored(s, narrow, pool) then r == Err(DistanceNotRepresentable)
    else r.Ok? && Tops(s, narrow, pool, k, r.value)
  }

  lemma GaugeIs(s: Search, x: Id)
    requires x in s.nodes
    ensures Gauge(Space(Vectors(s.nodes), s.measure), s.vector)(x) == s.measure(s.vector, s.nodes[x].vector)
  {
  }

  lemma PoolNodes(s: Search, pool: seq<Id>)
    requires Elements(pool) <= s.nodes.Keys
    ensures forall x | x in pool :: x in s.nodes
    ensures forall x | x in pool ::
      Gauge(Space(Vectors(s.nodes), s.measure), s.vector)(x) == s.measure(s.vector, s.nodes[x].vector)
  {
    forall x | x in pool ensures x in s.nodes {
      assert x in Elements(pool);
    }
  }

  lemma AnswerTops(s: Search, narrow: Narrowing, pool: seq<Id>, k: nat)
    requires Distinct(pool) && Elements(pool) <= s.nodes.Keys
    ensures AnswersBest(s, narrow, pool, k, Answer(narrow, Gauge(Space(Vectors(s.nodes), s.measure), s.vector), pool, k))
  {
    var d := Gauge(Space(Vectors(s.nodes), s.measure), s.vector);
    PoolNodes(s, pool);
    hide Gauge, Sort, Scores;
    if Representable(narrow, d, pool) {
      assert !Unscored(s, narrow, pool);
      BetterTotal();
      SortedScores(narrow, d, pool);
      ScoredAll(s, narrow, pool);
      TakeTops(s, narrow, pool, k, Sort(Better, Scores(narrow, d, pool)));
    } else {
      var i :| 0 <= i < |pool| && narrow(d(pool[i])).None?;
      var x: Id := pool[i];
      assert x in pool && ScoreOf(s, narrow, x).None?;
    }
  }

  /** The whole pool, scored and sorted. */
  lemma ScoredAll(s: Search, narrow: Narrowing, pool: seq<Id>)
    requires Distinct(pool) && Elements(pool) <= s.nodes.Keys
    requires StrictOrder(Better) && Representable(narrow, Gauge(Space(Vectors(s.nodes), s.measure), s.vector), pool)
    ensures var sorted := Sort(Better, Scores(narrow, Gauge(Space(Vectors(s.nodes), s.measure), s.vector), pool));
      && (forall i | 0 <= i < |sorted| :: OwnScore(s, narrow, pool, sorted[i]))
      && forall x | x in pool :: Lists(sorted, x)
  {
    var d := Gauge(Space(Vectors(s.nodes), s.measure), s.vector);
    PoolNodes(s, pool);
    hide Gauge, Sort;
    var scores := Scores(narrow, d, pool);
    var sorted := Sort(Better, scores);
    SameMembers(scores, sorted);
    forall i | 0 <= i < |sorted| ensures OwnScore(s, narrow, pool, sorted[i]) {
      assert sorted[i] in Elements(scores);
      var j :| 0 <= j < |scores| && scores[j] == sorted[i];
      assert scores[j].id == pool[j];
    }
    forall x | x in pool ensures Lists(sorted, x) {
      var j :| 0 <= j < |pool| && pool[j] == x;
      assert scores[j] in Elements(sorted);
      var i :| 0 <= i < |sorted| && sorted[i] == scores[j];
    }
  }

  lemma TakeTops(s: Search, narrow: Narrowing, pool: seq<Id>, k: nat, sorted: seq<Scored>)
    requires Ascends(Better, sorted) && |sorted| == |pool|
    requires (forall i | 0 <= i < |sorted| :: OwnScore(s, narrow, pool, sorted[i])) && forall x | x in pool :: Lists(sorted, x)
    ensures Tops(s, narrow, pool, k, Take(sorted, k))
  {
    var list := Take(sorted, k);
    forall i, j | 0 <= i < j < |list| ensures Precedes(list[i], list[j]) {
      assert Better(sorted[i], sorted[j]);
    }
    assert forall t | 0 <= t < |list| :: list[t] == sorted[t] && Lists(list, sorted[t].id);
    forall x, i | x in pool && !Lists(list, x) && 0 <= i < |list|
      ensures x in s.nodes && ScoreOf(s, narrow, x).Some? && Precedes(list[i], Scored(x, ScoreOf(s, narrow, x).value))
    {
      var j :| 0 <= j < |sorted| && sorted[j].id == x;
      assert OwnScore(s, narrow, pool, sorted[j]);
      assert Better(sorted[i], sorted[j]);
    }
  }

  /** What a query answers: the best of the candidates the descent and the
      base-layer search find, which are as many as the beam or all nodes. */
  ghost predicate QueryFound(config: Config, s: Search, narrow: Narrowing, entry: Id, maxLevel: nat, k: nat, pool: seq<Id>,
                             r: Result<seq<Scored>>)
  {
    && Distinct(pool) && Elements(pool) <= s.nodes.Keys
    && |pool| == (if Beam(config, k) <= |s.nodes| then Beam(config, k) else |s.nodes|)
    && (Beam(config, k) >= |s.nodes| ==> Elements(pool) == s.nodes.Keys)
    && Finds(s, entry, maxLevel, Beam(config, k), pool)
    && AnswersBest(s, narrow, pool, k, r)
  }

  lemma QueryFinds(config: Config, s: Search, narrow: Narrowing, entry: Option<Id>, maxLevel: nat, k: nat)
    requires Sound(config, s.nodes) && IsEntry(s.nodes, entry, maxLevel) && CheckVector(config, s.vector).None?
    ensures var r := QueryAnswer(config, s.measure, narrow, s.nodes, entry, maxLevel, s.vector, k);
      if k == 0 || s.nodes == map[] then r == Ok([])
      else entry.Some? && exists pool :: QueryFound(config, s, narrow, entry.value, maxLevel, k, pool, r)
  {
    hide *;
    EntryIs(s.nodes, entry, maxLevel);
    QueryAnswerIs(config, s.measure, narrow, s.nodes, entry, maxLevel, s.vector, k);
    if k > 0 && s.nodes != map[] {
      var d := Gauge(Space(Vectors(s.nodes), s.measure), s.vector);
      var pool := Pool(config, s.nodes, d, entry.value, maxLevel, k);
      PoolIs(config, s.nodes, d, entry.value, maxLevel, k);
      PoolFinds(config, s, entry.value, maxLevel, k);
      AnswerTops(s, narrow, pool, k);
      FoundIs(config, s, narrow, entry.value, maxLevel, k, pool, Answer(narrow, d, pool, k));
    }
  }

  lemma FoundIs(config: Config, s: Search, narrow: Narrowing, entry: Id, maxLevel: nat, k: nat, pool: seq<Id>, r: Result<seq<Scored>>)
    requires Distinct(pool) && Elements(pool) <= s.nodes.Keys && |pool| == Min(QueryBeam(config, k), |s.nodes|)
    requires QueryBeam(config, k) >= |s.nodes| ==> Elements(pool) == s.nodes.Keys
    requires Finds(s, entry, maxLevel, Beam(config, k), pool) && AnswersBest(s, narrow, pool, k, r)
    ensures QueryFound(config, s, narrow, entry, maxLevel, k, pool, r)
  {
    hide Finds, AnswersBest, Elements, Distinct;
    BeamIs(config, k);
  }

  // ---------- where the descent ends ----------

  /** The stored nodes high enough for a level. */
  function High(nodes: Nodes, level: nat): set<Id> {
    set x | x in nodes && nodes[x].level >= level
  }

  lemma CloserOrder(s: Search, x: Id, y: Id, z: Id)
    ensures Closer(s, x, y) && Closer(s, y, z) ==> Closer(s, x, z)
    ensures !Closer(s, x, x)
    ensures x in s.nodes && y in s.nodes ==> x == y || Closer(s, x, y) || Closer(s, y, x)
  {
  }

  /** A path downhill never climbs and repeats no node. */
  lemma {:induction false} PathFalls(s: Search, level: nat, path: seq<Id>, i: nat, j: nat)
    requires forall l | 0 < l < |path| :: StepsDown(s, level, path[l - 1], path[l])
    requires i < j < |path|
    ensures Closer(s, path[j], path[i])
    decreases j
  {
    hide Closer, Adjacent;
    assert StepsDown(s, level, path[j - 1], path[j]);
    if i < j - 1 {
      PathFalls(s, level, path, i, j - 1);
      CloserOrder(s, path[j], path[j - 1], path[i]);
    }
  }

  lemma {:induction false} PathStays(config: Config, s: Search, level: nat, path: seq<Id>, i: nat)
    requires Sound(config, s.nodes) && i < |path| && path[0] in s.nodes && s.nodes[path[0]].level >= level
    requires forall l | 0 < l < |path| :: StepsDown(s, level, path[l - 1], path[l])
    ensures path[i] in s.nodes && s.nodes[path[i]].level >= level
  {
    hide *;
    if i > 0 {
      PathStays(config, s, level, path, i - 1);
      LevelInside(config, s.nodes, level);
      StepLinks(s, level, path[i - 1], path[i]);
      AdjacentIs(s.nodes, level, path[i - 1], path[i]);
      InsideIs(Around(s.nodes, level), path[i - 1], path[i]);
      InAround(config, s.nodes, path[i], level);
    }
  }

  lemma StepLinks(s: Search, level: nat, x: Id, y: Id)
    requires StepsDown(s, level, x, y)
    ensures Adjacent(s.nodes, level, x, y)
  {
  }

  lemma InAround(config: Config, nodes: Nodes, x: Id, level: nat)
    requires Sound(config, nodes)
    ensures x in Around(nodes, level) <==> x in nodes && nodes[x].level >= level
  {
    InLayer(config, nodes, x, level);
  }

  /** With steps enough for the level, a descent ends where no link leads nearer. */
  lemma DescentBottoms(config: Config, s: Search, level: nat, x: Id, y: Id, budget: nat)
    requires Sound(config, s.nodes) && x in s.nodes && s.nodes[x].level >= level
    requires DescendsTo(s, level, x, y, budget)
    ensures y in s.nodes && s.nodes[y].level >= level && !Closer(s, x, y)
    ensures budget >= |High(s.nodes, level)| ==> Bottom(s, level, y)
  {
    var path :| Downhill(s, level, path, budget) && path[0] == x && path[|path| - 1] == y;
    hide Bottom, Closer, StepsDown, Sound, High;
    PathStays(config, s, level, path, |path| - 1);
    if |path| > 1 {
      PathFalls(s, level, path, 0, |path| - 1);
      CloserOrder(s, x, y, x);
    }
    CloserOrder(s, x, x, x);
    if |path| > budget {
      PathFits(config, s, level, path);
    }
  }

  lemma PathFits(config: Config, s: Search, level: nat, path: seq<Id>)
    requires Sound(config, s.nodes) && |path| > 0 && path[0] in s.nodes && s.nodes[path[0]].level >= level
    requires forall l | 0 < l < |path| :: StepsDown(s, level, path[l - 1], path[l])
    ensures |path| <= |High(s.nodes, level)|
  {
    hide Sound, StepsDown, Closer;
    forall i, j | 0 <= i < j < |path| ensures path[i] != path[j] {
      PathFalls(s, level, path, i, j);
      CloserOrder(s, path[i], path[i], path[i]);
    }
    DistinctSize(path);
    forall x | x in path ensures x in High(s.nodes, level) {
      var i :| 0 <= i < |path| && path[i] == x;
      PathStays(config, s, level, path, i);
    }
    Smaller(Elements(path), High(s.nodes, level));
  }

  lemma {:induction false} StartsStand(config: Config, s: Search, starts: seq<Id>, entry: Id, maxLevel: nat, budget: nat, l: nat)
    requires Sound(config, s.nodes) && IsEntry(s.nodes, Some(entry), maxLevel)
    requires Descent(s, starts, entry, maxLevel, budget) && l <= maxLevel
    ensures starts[l] in s.nodes && s.nodes[starts[l]].level >= (if l < maxLevel then l + 1 else l)
    ensures !Closer(s, entry, starts[l])
    ensures l < maxLevel && budget >= |High(s.nodes, l + 1)| ==> Bottom(s, l + 1, starts[l])
    decreases maxLevel - l
  {
    hide Sound, Closer, Bottom, DescendsTo, High;
    if l == maxLevel {
      CloserOrder(s, entry, entry, entry);
    } else {
      StartsStand(config, s, starts, entry, maxLevel, budget, l + 1);
      assert DescendsTo(s, l + 1, starts[l + 1], starts[l], budget);
      DescentBottoms(config, s, l + 1, starts[l + 1], starts[l], budget);
      CloserOrder(s, entry, starts[l], starts[l + 1]);
      CloserOrder(s, starts[l], starts[l + 1], entry);
      CloserOrder(s, starts[l + 1], entry, entry);
    }
  }

  /** When the beam covers level 1, some candidate of level 1 or higher is no
      farther than the entry, and no level-1 link of it leads nearer. */
  lemma CandidatesDescend(config: Config, s: Search, entry: Id, maxLevel: nat, k: nat, pool: seq<Id>)
    requires Sound(config, s.nodes) && IsEntry(s.nodes, Some(entry), maxLevel) && maxLevel >= 1
    requires pool == Pool(config, s.nodes, Gauge(Space(Vectors(s.nodes), s.measure), s.vector), entry, maxLevel, k)
    requires Beam(config, k) >= |High(s.nodes, 1)|
    ensures exists x | x in pool :: Reached(s, entry, x)
  {
    hide *;
    PoolFinds(config, s, entry, maxLevel, k);
    var starts, order := FoundParts(s, entry, maxLevel, Beam(config, k), pool);
    StartsStand(config, s, starts, entry, maxLevel, Beam(config, k), 0);
    StartIsReached(s, entry, starts[0]);
  }

  ghost predicate Reached(s: Search, entry: Id, x: Id) {
    && x in s.nodes && s.nodes[x].level >= 1 && !Closer(s, entry, x)
    && forall y | y in s.nodes && 1 < |s.nodes[x].neighbours| && y in s.nodes[x].neighbours[1] :: !Closer(s, y, x)
  }

  lemma StartIsReached(s: Search, entry: Id, x: Id)
    requires x in s.nodes && s.nodes[x].level >= 1 && !Closer(s, entry, x) && Bottom(s, 1, x)
    ensures Reached(s, entry, x)
  {
    hide Closer;
    forall y | y in s.nodes && 1 < |s.nodes[x].neighbours| && y in s.nodes[x].neighbours[1] ensures !Closer(s, y, x) {
      assert Adjacent(s.nodes, 1, x, y);
    }
  }

  lemma FoundParts(s: Search, entry: Id, maxLevel: nat, beam: nat, pool: seq<Id>) returns (starts: seq<Id>, order: seq<Id>)
    requires Finds(s, entry, maxLevel, beam, pool)
    ensures Descent(s, starts, entry, maxLevel, beam) && |starts| == maxLevel + 1
    ensures VisitsNearest(s, 0, starts[0], order, beam) && multiset(order) == multiset(pool)
    ensures starts[0] in pool
  {
    hide DescendsTo, Offered, Closer;
    starts, order :|
      && Descent(s, starts, entry, maxLevel, beam)
      && VisitsNearest(s, 0, starts[0], order, beam)
      && multiset(order) == multiset(pool);
    SameMembers(order, pool);
    assert order[0] in Elements(pool);
  }
}
