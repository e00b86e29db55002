/** What a query answers, and how that compares with scoring every node. */
module HnswQuery {
  import opened Options
  import opened Orders
  import opened Adjacency
  import opened Backbone
  import opened BestFirst
  import opened HnswGraph
  import opened HnswChange

  /** One public result: an identity and its f32 score, held as the place of
      the score in `total_cmp` order. */
  datatype Scored = Scored(id: Id, score: int)

  /** Ascending score, ties by ascending identity. */
  predicate Better(a: Scored, b: Scored) {
    a.score < b.score || (a.score == b.score && a.id < b.id)
  }

  /** Turns an f64 distance into a public score; nothing when the narrowed
      value is not finite. */
  type Narrowing = int -> Option<int>

  predicate Representable(narrow: Narrowing, d: Id -> int, ids: seq<Id>) {
    forall i | 0 <= i < |ids| :: narrow(d(ids[i])).Some?
  }

  function Scores(narrow: Narrowing, d: Id -> int, ids: seq<Id>): (r: seq<Scored>)
    requires Representable(narrow, d, ids)
    ensures |r| == |ids|
    ensures forall i | 0 <= i < |ids| :: r[i] == Scored(ids[i], narrow(d(ids[i])).value)
  {
    seq(|ids|, i requires 0 <= i < |ids| => Scored(ids[i], narrow(d(ids[i])).value))
  }

  /** The candidates' public answer: refused when any of them has no score,
      otherwise the best `k` by public score. */
  function Answer(narrow: Narrowing, d: Id -> int, candidates: seq<Id>, k: nat): Result<seq<Scored>> {
    if !Representable(narrow, d, candidates) then Err(DistanceNotRepresentable)
    else
      assert StrictOrder(Better);
      Ok(Take(Sort(Better, Scores(narrow, d, candidates)), k))
  }

  /** The candidates a query considers: everything a search from the upper
      levels' descent finds within the beam. */
  function Pool(config: Config, nodes: Nodes, d: Id -> int, entry: Id, maxLevel: nat, k: nat): seq<Id> {
    var beam := QueryBeam(config, k);
    var start := Descend(nodes, d, entry, maxLevel, 1, beam);
    Kept(d, Visits(Around(nodes, 0), d, [start], beam), beam)
  }

  function QueryAnswer(config: Config, measure: (Vector, Vector) -> int, narrow: Narrowing, nodes: Nodes, entry: Option<Id>,
                       maxLevel: nat, vector: Vector, k: nat): Result<seq<Scored>>
  {
    var refusal := CheckVector(config, vector);
    if refusal.Some? then Err(refusal.value)
    else if k == 0 || nodes == map[] || entry.None? then Ok([])
    else
      var d := Gauge(Space(Vectors(nodes), measure), vector);
      Answer(narrow, d, Pool(config, nodes, d, entry.value, maxLevel, k), k)
  }

  /** Scoring every stored node and keeping the best `k`. */
  function BruteForce(measure: (Vector, Vector) -> int, narrow: Narrowing, nodes: Nodes, vector: Vector, k: nat): Result<seq<Scored>> {
    Answer(narrow, Gauge(Space(Vectors(nodes), measure), vector), Listed(nodes.Keys), k)
  }

  /** The descent stays on nodes high enough for the levels still to visit. */
  lemma {:induction false} DescendStays(config: Config, nodes: Nodes, d: Id -> int, entry: Id, from: nat, to: nat, budget: nat)
    requires Sound(config, nodes) && entry in nodes && nodes[entry].level >= from && to >= 1
    ensures var e := Descend(nodes, d, entry, from, to, budget); e in nodes && nodes[e].level >= Min(from, to - 1)
    decreases from
  {
    hide *;
    DescendStep(nodes, d, entry, from, to, budget);
    if from >= to {
      WalkStays(config, nodes, d, entry, from, budget);
      DescendStays(config, nodes, d, Walk(Around(nodes, from), d, entry, budget), from - 1, to, budget);
    }
  }

  lemma DescendStep(nodes: Nodes, d: Id -> int, entry: Id, from: nat, to: nat, budget: nat)
    requires to >= 1
    ensures Descend(nodes, d, entry, from, to, budget) ==
      if from >= to then Descend(nodes, d, Walk(Around(nodes, from), d, entry, budget), from - 1, to, budget) else entry
    ensures if from >= to then Min(from, to - 1) == to - 1 == Min(from - 1, to - 1) else Min(from, to - 1) == from
  {
  }

  lemma WalkStays(config: Config, nodes: Nodes, d: Id -> int, entry: Id, level: nat, budget: nat)
    requires Sound(config, nodes) && entry in nodes && nodes[entry].level >= level
    ensures entry in Around(nodes, level) && Inside(Around(nodes, level))
    ensures var e := Walk(Around(nodes, level), d, entry, budget); e in nodes && nodes[e].level >= level
  {
    LevelInside(config, nodes, level);
    InLayer(config, nodes, entry, level);
    var e := Walk(Around(nodes, level), d, entry, budget);
    InLayer(config, nodes, e, level);
  }

  lemma InLayer(config: Config, nodes: Nodes, id: Id, level: nat)
    requires Sound(config, nodes)
    ensures id in Layer(nodes, level) <==> id in nodes && nodes[id].level >= level
  {
    if id in nodes {
      assert NodeOk(config, nodes[id]);
    }
  }

  lemma LevelInside(config: Config, nodes: Nodes, level: nat)
    requires Sound(config, nodes)
    ensures Inside(Around(nodes, level))
  {
    var c :| CycleOf(Ring(nodes), c);
    CycleIsReciprocal(Ring(nodes), c);
    assert LayerOk(config, nodes, level);
    forall id | id in nodes ensures |nodes[id].neighbours| > 0 {
      assert NodeOk(config, nodes[id]);
    }
    AroundInside(nodes, level);
  }

  /** The pool holds distinct stored nodes: as many as the beam, or all. */
  lemma PoolIs(config: Config, nodes: Nodes, d: Id -> int, entry: Id, maxLevel: nat, k: nat)
    requires Sound(config, nodes) && IsEntry(nodes, Some(entry), maxLevel)
    ensures
      var pool := Pool(config, nodes, d, entry, maxLevel, k);
      && Distinct(pool) && Elements(pool) <= nodes.Keys
      && |pool| == Min(QueryBeam(config, k), |nodes|)
      && (QueryBeam(config, k) >= |nodes| ==> Elements(pool) == nodes.Keys)
  {
    var beam := QueryBeam(config, k);
    var start := Descend(nodes, d, entry, maxLevel, 1, beam);
    DescendStays(config, nodes, d, entry, maxLevel, 1, beam);
    BaseSpans(config, nodes, start);
    hide Sound, Around, Descend, Spans, Inside;
    FoundFrom(Around(nodes, 0), d, start, beam);
    assert |nodes.Keys| == |nodes|;
  }

  lemma FoundFrom(adj: Adj, d: Id -> int, start: Id, beam: nat)
    requires Inside(adj) && start in adj && Spans(adj, [start])
    ensures
      var found := Kept(d, Visits(adj, d, [start], beam), beam);
      && Distinct(found) && Elements(found) <= adj.Keys && |found| == Min(beam, |adj.Keys|)
      && (beam >= |adj.Keys| ==> Elements(found) == adj.Keys)
  {
    hide *;
    var visits := Visits(adj, d, [start], beam);
    FromOne(adj, start, beam);
    VisitsCount(adj, d, [start], beam);
    KeptIsRanked(d, visits, beam);
    SameMembers(visits, Ranked(d, visits));
  }

  lemma FromOne(adj: Adj, start: Id, beam: nat)
    requires start in adj
    ensures Elements([start]) <= adj.Keys && |adj| == |adj.Keys|
    ensures Min(beam, |adj|) == if beam <= |adj| then beam else |adj|
  {
  }

  lemma KeptIsRanked(d: Id -> int, visits: seq<Id>, beam: nat)
    requires |visits| <= beam
    ensures Kept(d, visits, beam) == Ranked(d, visits) && multiset(Ranked(d, visits)) == multiset(visits)
  {
  }

  lemma ScoresOnce(narrow: Narrowing, d: Id -> int, a: seq<Id>, b: seq<Id>)
    requires Distinct(a) && Distinct(b) && Elements(a) == Elements(b)
    ensures Representable(narrow, d, a) <==> Representable(narrow, d, b)
    ensures forall k: nat :: Answer(narrow, d, a, k) == Answer(narrow, d, b, k)
  {
    forall x ensures x in a <==> x in b {
      assert x in a <==> x in Elements(a);
      assert x in b <==> x in Elements(b);
    }
    RepresentableOnce(narrow, d, a, b);
    RepresentableOnce(narrow, d, b, a);
    if Representable(narrow, d, a) {
      var s, t := Scores(narrow, d, a), Scores(narrow, d, b);
      assert StrictTotal(Better);
      assert Distinct(s) && Distinct(t);
      ScoredElements(narrow, d, a, b);
      ScoredElements(narrow, d, b, a);
      assert Elements(s) == Elements(t);
      SortAscends(Better, s);
      SortAscends(Better, t);
    }
  }

  lemma RepresentableOnce(narrow: Narrowing, d: Id -> int, a: seq<Id>, b: seq<Id>)
    requires forall x | x in b :: x in a
    ensures Representable(narrow, d, a) ==> Representable(narrow, d, b)
  {
    forall i | Representable(narrow, d, a) && 0 <= i < |b| ensures narrow(d(b[i])).Some? {
      var x := b[i];
      assert x in a;
    }
  }

  lemma ScoredElements(narrow: Narrowing, d: Id -> int, a: seq<Id>, b: seq<Id>)
    requires Representable(narrow, d, a) && Representable(narrow, d, b) && forall x | x in a :: x in b
    ensures Elements(Scores(narrow, d, a)) <= Elements(Scores(narrow, d, b))
  {
    var s, t := Scores(narrow, d, a), Scores(narrow, d, b);
    forall e | e in s ensures e in t {
      var i :| 0 <= i < |s| && s[i] == e;
      var x := a[i];
      assert x in b;
      var j :| 0 <= j < |b| && b[j] == x;
      assert t[j] == e;
    }
  }

  /** Every accepted answer lists `min(k, n)` distinct stored nodes with their
      own scores, best first. */
  lemma QueryRanks(config: Config, measure: (Vector, Vector) -> int, narrow: Narrowing, nodes: Nodes, entry: Option<Id>,
                   maxLevel: nat, vector: Vector, k: nat)
    requires Sound(config, nodes) && IsEntry(nodes, entry, maxLevel)
    ensures
      var answer := QueryAnswer(config, measure, narrow, nodes, entry, maxLevel, vector, k);
      answer.Ok? ==> Ranking(measure, narrow, nodes, vector, Min(k, |nodes|), answer.value)
  {
    hide *;
    var d := Gauge(Space(Vectors(nodes), measure), vector);
    QueryAnswerIs(config, measure, narrow, nodes, entry, maxLevel, vector, k);
    EntryIs(nodes, entry, maxLevel);
    if nodes != map[] && k > 0 {
      var pool := Pool(config, nodes, d, entry.value, maxLevel, k);
      PoolIs(config, nodes, d, entry.value, maxLevel, k);
      BeamCovers(config, k, |nodes|);
      PoolRanks(measure, narrow, nodes, vector, pool, k);
    } else {
      NothingRanked(measure, narrow, nodes, vector, k);
    }
  }

  lemma QueryAnswerIs(config: Config, measure: (Vector, Vector) -> int, narrow: Narrowing, nodes: Nodes, entry: Option<Id>,
                      maxLevel: nat, vector: Vector, k: nat)
    ensures
      var answer := QueryAnswer(config, measure, narrow, nodes, entry, maxLevel, vector, k);
      var refusal := CheckVector(config, vector);
      if refusal.Some? then answer == Err(refusal.value)
      else if k == 0 || nodes == map[] || entry.None? then answer == Ok([])
      else
        var d := Gauge(Space(Vectors(nodes), measure), vector);
        answer == Answer(narrow, d, Pool(config, nodes, d, entry.value, maxLevel, k), k)
  {
    hide CheckVector, Answer, Pool, Gauge;
  }

  lemma EntryIs(nodes: Nodes, entry: Option<Id>, maxLevel: nat)
    requires IsEntry(nodes, entry, maxLevel)
    ensures entry.None? <==> nodes == map[]
  {
  }

  /** The beam is never narrower than the answer. */
  lemma BeamCovers(config: Config, k: nat, n: nat)
    ensures Min(k, Min(QueryBeam(config, k), n)) == Min(k, n)
  {
  }

  lemma NothingRanked(measure: (Vector, Vector) -> int, narrow: Narrowing, nodes: Nodes, vector: Vector, k: nat)
    requires k == 0 || nodes == map[]
    ensures Ranking(measure, narrow, nodes, vector, Min(k, |nodes|), [])
  {
  }

  /** `size` distinct stored nodes with their own scores, best first. */
  ghost predicate Ranking(measure: (Vector, Vector) -> int, narrow: Narrowing, nodes: Nodes, vector: Vector, size: nat, list: seq<Scored>) {
    && |list| == size && Ascends(Better, list)
    && (forall i, j | 0 <= i < j < |list| :: list[i].id != list[j].id)
    && forall i | 0 <= i < |list| :: HasScore(measure, narrow, nodes, vector, list[i])
  }

  predicate HasScore(measure: (Vector, Vector) -> int, narrow: Narrowing, nodes: Nodes, vector: Vector, s: Scored) {
    s.id in nodes && narrow(measure(vector, nodes[s.id].vector)) == Some(s.score)
  }

  lemma PoolRanks(measure: (Vector, Vector) -> int, narrow: Narrowing, nodes: Nodes, vector: Vector, pool: seq<Id>, k: nat)
    requires Distinct(pool) && Elements(pool) <= nodes.Keys
    ensures
      var answer := Answer(narrow, Gauge(Space(Vectors(nodes), measure), vector), pool, k);
      answer.Ok? ==> Ranking(measure, narrow, nodes, vector, Min(k, |pool|), answer.value)
  {
    var d := Gauge(Space(Vectors(nodes), measure), vector);
    if Representable(narrow, d, pool) {
      SortedRanks(measure, narrow, nodes, vector, pool);
      hide HasScore, Sort, Scores, Gauge;
      TakeRanks(measure, narrow, nodes, vector, Sort(Better, Scores(narrow, d, pool)), k);
    }
  }

  lemma TakeRanks(measure: (Vector, Vector) -> int, narrow: Narrowing, nodes: Nodes, vector: Vector, list: seq<Scored>, k: nat)
    requires Ranking(measure, narrow, nodes, vector, |list|, list)
    ensures Ranking(measure, narrow, nodes, vector, Min(k, |list|), Take(list, k))
  {
  }

  lemma SortedRanks(measure: (Vector, Vector) -> int, narrow: Narrowing, nodes: Nodes, vector: Vector, pool: seq<Id>)
    requires Distinct(pool) && Elements(pool) <= nodes.Keys
    requires Representable(narrow, Gauge(Space(Vectors(nodes), measure), vector), pool)
    ensures StrictOrder(Better)
    ensures Ranking(measure, narrow, nodes, vector, |pool|,
      Sort(Better, Scores(narrow, Gauge(Space(Vectors(nodes), measure), vector), pool)))
  {
    var d := Gauge(Space(Vectors(nodes), measure), vector);
    SortedScores(narrow, d, pool);
    hide HasScore, Sort, Scores, Gauge;
    var sorted := Sort(Better, Scores(narrow, d, pool));
    forall i | 0 <= i < |sorted| ensures HasScore(measure, narrow, nodes, vector, sorted[i]) {
      ScoreOfPool(measure, narrow, nodes, vector, pool, sorted[i]);
    }
    SameIdOnce(narrow, d, pool, sorted);
  }

  lemma SortedScores(narrow: Narrowing, d: Id -> int, pool: seq<Id>)
    requires Distinct(pool) && Representable(narrow, d, pool)
    ensures StrictOrder(Better)
    ensures
      var scores := Scores(narrow, d, pool);
      var sorted := Sort(Better, scores);
      && Ascends(Better, sorted) && |sorted| == |pool|
      && forall i | 0 <= i < |sorted| :: sorted[i] in scores
  {
    hide *;
    var scores := Scores(narrow, d, pool);
    BetterTotal();
    ScoresDistinct(narrow, d, pool);
    SortAscends(Better, scores);
    SameMembers(scores, Sort(Better, scores));
    SortedMembers(scores, Sort(Better, scores));
  }

  lemma BetterTotal()
    ensures StrictTotal(Better) && StrictOrder(Better)
  {
  }

  lemma ScoresDistinct(narrow: Narrowing, d: Id -> int, pool: seq<Id>)
    requires Distinct(pool) && Representable(narrow, d, pool)
    ensures Distinct(Scores(narrow, d, pool))
  {
  }

  lemma SortedMembers(scores: seq<Scored>, sorted: seq<Scored>)
    requires Elements(sorted) == Elements(scores)
    ensures forall i | 0 <= i < |sorted| :: sorted[i] in scores
  {
    forall i | 0 <= i < |sorted| ensures sorted[i] in scores {
      assert sorted[i] in Elements(scores);
    }
  }

  lemma ScoreOfPool(measure: (Vector, Vector) -> int, narrow: Narrowing, nodes: Nodes, vector: Vector, pool: seq<Id>, s: Scored)
    requires Elements(pool) <= nodes.Keys
    requires var d := Gauge(Space(Vectors(nodes), measure), vector);
      Representable(narrow, d, pool) && s in Scores(narrow, d, pool)
    ensures HasScore(measure, narrow, nodes, vector, s)
  {
    var scores := Scores(narrow, Gauge(Space(Vectors(nodes), measure), vector), pool);
    var j :| 0 <= j < |scores| && scores[j] == s;
    var x := pool[j];
    assert x in Elements(pool);
  }

  lemma SameIdOnce(narrow: Narrowing, d: Id -> int, pool: seq<Id>, sorted: seq<Scored>)
    requires Distinct(pool) && Representable(narrow, d, pool) && Ascends(Better, sorted)
    requires forall i | 0 <= i < |sorted| :: sorted[i] in Scores(narrow, d, pool)
    ensures forall i, j | 0 <= i < j < |sorted| :: sorted[i].id != sorted[j].id
  {
    var scores := Scores(narrow, d, pool);
    forall i, j | 0 <= i < j < |sorted| ensures sorted[i].id != sorted[j].id {
      assert Better(sorted[i], sorted[j]);
      var a :| 0 <= a < |scores| && scores[a] == sorted[i];
      var b :| 0 <= b < |scores| && scores[b] == sorted[j];
    }
  }

  /** Once the beam covers the graph, the answer is the brute-force one. */
  lemma QueryIsExact(config: Config, measure: (Vector, Vector) -> int, narrow: Narrowing, nodes: Nodes, entry: Option<Id>,
                     maxLevel: nat, vector: Vector, k: nat)
    requires Sound(config, nodes) && IsEntry(nodes, entry, maxLevel) && CheckVector(config, vector).None?
    requires QueryBeam(config, k) >= |nodes| && k > 0
    ensures QueryAnswer(config, measure, narrow, nodes, entry, maxLevel, vector, k)
         == BruteForce(measure, narrow, nodes, vector, k)
  {
    if nodes == map[] {
      assert Listed(nodes.Keys) == [];
    } else {
      hide Pool, Answer, Sound, Gauge;
      ExactPool(config, nodes, narrow, Gauge(Space(Vectors(nodes), measure), vector), entry.value, maxLevel, k);
    }
  }

  lemma ExactPool(config: Config, nodes: Nodes, narrow: Narrowing, d: Id -> int, entry: Id, maxLevel: nat, k: nat)
    requires Sound(config, nodes) && IsEntry(nodes, Some(entry), maxLevel) && QueryBeam(config, k) >= |nodes|
    ensures Answer(narrow, d, Pool(config, nodes, d, entry, maxLevel, k), k) == Answer(narrow, d, Listed(nodes.Keys), k)
  {
    PoolIs(config, nodes, d, entry, maxLevel, k);
    assert Distinct(Listed(nodes.Keys));
    hide Pool, Answer, Sound, Representable, Distinct, Listed;
    ScoresOnce(narrow, d, Pool(config, nodes, d, entry, maxLevel, k), Listed(nodes.Keys));
  }

  /** Asking for fewer results, within eight adjacency widths, gives a prefix. */
  lemma QueryPrefix(config: Config, measure: (Vector, Vector) -> int, narrow: Narrowing, nodes: Nodes, entry: Option<Id>,
                    maxLevel: nat, vector: Vector, k1: nat, k2: nat)
    requires k1 <= k2 <= SaturatingMul(config.mNeighbours, 8)
    ensures
      var one := QueryAnswer(config, measure, narrow, nodes, entry, maxLevel, vector, k1);
      var two := QueryAnswer(config, measure, narrow, nodes, entry, maxLevel, vector, k2);
      if two.Err? && k1 > 0 then one == two else two.Ok? ==> one.Ok? && one.value <= two.value
  {
    hide *;
    QueryAnswerIs(config, measure, narrow, nodes, entry, maxLevel, vector, k1);
    QueryAnswerIs(config, measure, narrow, nodes, entry, maxLevel, vector, k2);
    if nodes != map[] && entry.Some? {
      var d := Gauge(Space(Vectors(nodes), measure), vector);
      SamePool(config, nodes, d, entry.value, maxLevel, k1, k2);
      AnswerPrefix(narrow, d, Pool(config, nodes, d, entry.value, maxLevel, k2), k1, k2);
    }
  }

  lemma SamePool(config: Config, nodes: Nodes, d: Id -> int, entry: Id, maxLevel: nat, k1: nat, k2: nat)
    requires k1 <= k2 <= SaturatingMul(config.mNeighbours, 8)
    ensures Pool(config, nodes, d, entry, maxLevel, k1) == Pool(config, nodes, d, entry, maxLevel, k2)
  {
    hide Visits, Kept, Descend, Around;
  }

  lemma AnswerPrefix(narrow: Narrowing, d: Id -> int, pool: seq<Id>, k1: nat, k2: nat)
    requires k1 <= k2
    ensures var one, two := Answer(narrow, d, pool, k1), Answer(narrow, d, pool, k2);
      if two.Err? then one == two else one.Ok? && one.value <= two.value
  {
    hide Representable, Sort;
  }
}
