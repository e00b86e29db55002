/** Undirected neighbour sets over node identities: one HNSW layer, or the
    backbone. Identities are any totally ordered values; integers stand for
    them here. */
module Adjacency {
  import opened Orders

  type Id = int
  type Adj = map<Id, set<Id>>

  /** No self-link, no dangling identity, and every link stored at both ends. */
  ghost predicate Reciprocal(adj: Adj) {
    forall x, y | x in adj && y in adj[x] :: y != x && y in adj && x in adj[y]
  }

  ghost predicate Bounded(adj: Adj, limit: nat) {
    forall x | x in adj :: |adj[x]| <= limit
  }

  ghost predicate Closed(adj: Adj, s: set<Id>) {
    forall x, y | x in s && x in adj && y in adj[x] :: y in s
  }

  /** Whatever contains `entries` and follows every link contains every node:
      each node is reachable from `entries`. */
  ghost predicate Spans(adj: Adj, entries: seq<Id>) {
    forall s: set<Id> | Elements(entries) <= s && Closed(adj, s) :: adj.Keys <= s
  }

  predicate ById(a: Id, b: Id) {
    a < b
  }

  /** Ascending distance, ties by ascending identity. */
  function Nearer(d: Id -> int): (Id, Id) -> bool {
    (a: Id, b: Id) => d(a) < d(b) || (d(a) == d(b) && a < b)
  }

  lemma NearerIsTotal(d: Id -> int)
    ensures StrictTotal(Nearer(d))
  {
  }

  function Listed(s: set<Id>): (r: seq<Id>)
    ensures Ascends(ById, r) && Elements(r) == s && |r| == |s|
  {
    assert StrictTotal(ById);
    Ascending(ById, s)
  }

  /** The first `limit` identities of `s` by distance. */
  function Nearest(d: Id -> int, s: set<Id>, limit: nat): (r: set<Id>)
    ensures r <= s && |r| == if |s| <= limit then |s| else limit
    ensures forall x, y | x in r && y in s - r :: Nearer(d)(x, y)
  {
    NearerIsTotal(d);
    var ranked := Ascending(Nearer(d), s);
    var kept := Take(ranked, limit);
    DistinctSize(kept);
    assert forall x :: x in ranked <==> x in Elements(ranked);
    Elements(kept)
  }

  function Take<T>(s: seq<T>, n: nat): seq<T> {
    if n <= |s| then s[..n] else s
  }

  function Connect(adj: Adj, x: Id, y: Id): (r: Adj)
    requires x in adj && y in adj
    ensures r.Keys == adj.Keys
  {
    if x == y then adj
    else
      map z | z in adj ::
        (if z == x then adj[z] + {y} else if z == y then adj[z] + {x} else adj[z])
  }

  function Disconnect(adj: Adj, x: Id, y: Id): (r: Adj)
    requires x in adj && y in adj
    ensures r.Keys == adj.Keys
  {
    map z | z in adj ::
      if z == x then adj[z] - {y} else if z == y then adj[z] - {x} else adj[z]
  }

  /** `adj` without node `x`: no key and no mention of it. */
  function Detach(adj: Adj, x: Id): (r: Adj)
    ensures r.Keys == adj.Keys - {x}
  {
    map z | z in adj && z != x :: adj[z] - {x}
  }

  /** Node `x` keeps only `keep`; the dropped neighbours drop `x`. */
  function Trim(adj: Adj, x: Id, keep: set<Id>): (r: Adj)
    requires x in adj
    ensures r.Keys == adj.Keys
  {
    map z | z in adj ::
      if z == x then keep else if z in adj[x] - keep then adj[z] - {x} else adj[z]
  }

  /** The distance from each node's own vector to every node. */
  type Ruler = Id -> (Id -> int)

  /** Node `x` keeps its `limit` nearest neighbours. */
  function Pruned(adj: Adj, ruler: Ruler, x: Id, limit: nat): (r: Adj)
    requires x in adj
    ensures r.Keys == adj.Keys
  {
    Trim(adj, x, Nearest(ruler(x), adj[x], limit))
  }

  /** Links `x` and `y`, then prunes both, `x` first. */
  function Linked(adj: Adj, ruler: Ruler, x: Id, y: Id, limit: nat): (r: Adj)
    requires x in adj && y in adj
    ensures r.Keys == adj.Keys
  {
    if x == y then adj
    else Pruned(Pruned(Connect(adj, x, y), ruler, x, limit), ruler, y, limit)
  }

  /** Links `x` to each of `ys`, in order. */
  function LinkedEach(adj: Adj, ruler: Ruler, x: Id, ys: seq<Id>, limit: nat): (r: Adj)
    requires x in adj && Elements(ys) <= adj.Keys
    ensures r.Keys == adj.Keys
  {
    if ys == [] then adj
    else
      assert ys[0] in Elements(ys) && Elements(ys[1..]) <= Elements(ys);
      LinkedEach(Linked(adj, ruler, x, ys[0], limit), ruler, x, ys[1..], limit)
  }

  /** Links every pair of `ns` from the pair at `(i, j)` on: each left end in
      turn with every later right end. */
  function Relinked(adj: Adj, ruler: Ruler, ns: seq<Id>, i: nat, j: nat, limit: nat): (r: Adj)
    requires Elements(ns) <= adj.Keys
    ensures r.Keys == adj.Keys
    decreases |ns| - i, |ns| - j
  {
    if i >= |ns| then adj
    else if j >= |ns| then Relinked(adj, ruler, ns, i + 1, i + 2, limit)
    else
      assert ns[i] in Elements(ns) && ns[j] in Elements(ns);
      Relinked(Linked(adj, ruler, ns[i], ns[j], limit), ruler, ns, i, j + 1, limit)
  }

  /** Removes `x` and links its former neighbours pairwise. */
  function Removed(adj: Adj, ruler: Ruler, x: Id, limit: nat): (r: Adj)
    requires Reciprocal(adj)
    ensures r.Keys == adj.Keys - {x}
  {
    if x in adj then
      assert forall y | y in adj[x] :: y in adj && y != x;
      Relinked(Detach(adj, x), ruler, Listed(adj[x]), 0, 1, limit)
    else adj
  }

  lemma TrimKeepsReciprocal(adj: Adj, x: Id, keep: set<Id>)
    requires Reciprocal(adj) && x in adj && keep <= adj[x]
    ensures Reciprocal(Trim(adj, x, keep))
    ensures forall z | z in adj && z != x :: |Trim(adj, x, keep)[z]| <= |adj[z]|
  {
    forall z | z in adj && z != x ensures |Trim(adj, x, keep)[z]| <= |adj[z]| {
      Smaller(adj[z] - {x}, adj[z]);
    }
  }

  lemma {:induction false} Smaller(a: set<Id>, b: set<Id>)
    requires a <= b
    ensures |a| <= |b|
  {
    assert b == a + (b - a);
  }

  /** All nodes except possibly `x` and `y` are within the limit. */
  ghost predicate BoundedBut(adj: Adj, limit: nat, x: Id, y: Id) {
    forall z | z in adj && z != x && z != y :: |adj[z]| <= limit
  }

  lemma PrunedKeepsLayer(adj: Adj, ruler: Ruler, x: Id, y: Id, limit: nat)
    requires x in adj && Reciprocal(adj) && BoundedBut(adj, limit, x, y)
    ensures Reciprocal(Pruned(adj, ruler, x, limit))
    ensures BoundedBut(Pruned(adj, ruler, x, limit), limit, y, y)
    ensures y in adj && y != x ==> |Pruned(adj, ruler, x, limit)[y]| <= |adj[y]|
  {
    TrimKeepsReciprocal(adj, x, Nearest(ruler(x), adj[x], limit));
  }

  lemma ConnectKeepsReciprocal(adj: Adj, x: Id, y: Id)
    requires Reciprocal(adj) && x in adj && y in adj
    ensures Reciprocal(Connect(adj, x, y))
  {
  }

  lemma LinkedKeepsLayer(adj: Adj, ruler: Ruler, x: Id, y: Id, limit: nat)
    requires x in adj && y in adj && Reciprocal(adj) && Bounded(adj, limit)
    ensures Reciprocal(Linked(adj, ruler, x, y, limit))
    ensures Bounded(Linked(adj, ruler, x, y, limit), limit)
  {
    if x != y {
      var a := Connect(adj, x, y);
      ConnectKeepsReciprocal(adj, x, y);
      PrunedKeepsLayer(a, ruler, x, y, limit);
      PrunedKeepsLayer(Pruned(a, ruler, x, limit), ruler, y, y, limit);
      assert |Pruned(Pruned(a, ruler, x, limit), ruler, y, limit)[y]| <= limit;
    }
  }

  lemma {:induction false} LinkedEachKeepsLayer(adj: Adj, ruler: Ruler, x: Id, ys: seq<Id>, limit: nat)
    requires x in adj && Elements(ys) <= adj.Keys && Reciprocal(adj) && Bounded(adj, limit)
    ensures Reciprocal(LinkedEach(adj, ruler, x, ys, limit))
    ensures Bounded(LinkedEach(adj, ruler, x, ys, limit), limit)
    decreases |ys|
  {
    if ys != [] {
      assert ys[0] in Elements(ys) && Elements(ys[1..]) <= Elements(ys);
      LinkedKeepsLayer(adj, ruler, x, ys[0], limit);
      LinkedEachKeepsLayer(Linked(adj, ruler, x, ys[0], limit), ruler, x, ys[1..], limit);
    }
  }

  lemma {:induction false} RelinkedKeepsLayer(adj: Adj, ruler: Ruler, ns: seq<Id>, i: nat, j: nat, limit: nat)
    requires Elements(ns) <= adj.Keys && Reciprocal(adj) && Bounded(adj, limit)
    ensures Reciprocal(Relinked(adj, ruler, ns, i, j, limit))
    ensures Bounded(Relinked(adj, ruler, ns, i, j, limit), limit)
    decreases |ns| - i, |ns| - j
  {
    if i < |ns| {
      if j >= |ns| {
        RelinkedKeepsLayer(adj, ruler, ns, i + 1, i + 2, limit);
      } else {
        assert ns[i] in Elements(ns) && ns[j] in Elements(ns);
        LinkedKeepsLayer(adj, ruler, ns[i], ns[j], limit);
        RelinkedKeepsLayer(Linked(adj, ruler, ns[i], ns[j], limit), ruler, ns, i, j + 1, limit);
      }
    }
  }

  lemma DetachKeepsLayer(adj: Adj, x: Id, limit: nat)
    requires Reciprocal(adj) && Bounded(adj, limit)
    ensures Reciprocal(Detach(adj, x)) && Bounded(Detach(adj, x), limit)
  {
    forall z | z in adj ensures |adj[z] - {x}| <= |adj[z]| {
      Smaller(adj[z] - {x}, adj[z]);
    }
  }

  /** Removing a node and reconnecting its neighbourhood keeps the layer
      reciprocal and within its degree limit. */
  lemma RemovedKeepsLayer(adj: Adj, ruler: Ruler, x: Id, limit: nat)
    requires Reciprocal(adj) && Bounded(adj, limit)
    ensures Reciprocal(Removed(adj, ruler, x, limit))
    ensures Bounded(Removed(adj, ruler, x, limit), limit)
  {
    if x in adj {
      DetachKeepsLayer(adj, x, limit);
      assert forall y | y in adj[x] :: y in adj && y != x;
      RelinkedKeepsLayer(Detach(adj, x), ruler, Listed(adj[x]), 0, 1, limit);
    }
  }
}
