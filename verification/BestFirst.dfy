/** The graph walks of the HNSW engine as plain definitions: which node comes
    next, without frontier, duplicates or re-sorting. */
module BestFirst {
  import opened Orders
  import opened Adjacency

  /** Every link leads to a node of the same graph. */
  ghost predicate Inside(adj: Adj) {
    forall x, y | x in adj && y in adj[x] :: y in adj
  }

  /** The unvisited nodes one link away from `visited`, and unvisited entries. */
  function Boundary(adj: Adj, entries: seq<Id>, visited: seq<Id>): (b: set<Id>)
    ensures forall y :: y in b <==> y in adj && y !in visited && Adjoins(adj, entries, visited, y)
  {
    set y | y in adj && y !in visited && Adjoins(adj, entries, visited, y)
  }

  predicate Adjoins(adj: Adj, entries: seq<Id>, visited: seq<Id>, y: Id) {
    y in entries || exists x | x in visited :: x in adj && y in adj[x]
  }

  /** Visits up to `n` nodes, always the nearest of the boundary. */
  function Visits(adj: Adj, d: Id -> int, entries: seq<Id>, n: nat): (s: seq<Id>)
    ensures |s| <= n && Distinct(s) && Elements(s) <= adj.Keys
  {
    if n == 0 then []
    else
      var s := Visits(adj, d, entries, n - 1);
      var b := Boundary(adj, entries, s);
      NearerIsTotal(d);
      if b == {} then s else s + [Least(Nearer(d), b)]
  }

  /** With nothing left on the boundary a larger budget changes nothing. */
  lemma {:induction false} Stuck(adj: Adj, d: Id -> int, entries: seq<Id>, n: nat, m: nat)
    requires n <= m && Boundary(adj, entries, Visits(adj, d, entries, n)) == {}
    ensures Visits(adj, d, entries, m) == Visits(adj, d, entries, n)
  {
    if n < m {
      Stuck(adj, d, entries, n, m - 1);
    }
  }

  /** A larger budget only extends the visits. */
  lemma {:induction false} VisitsExtend(adj: Adj, d: Id -> int, entries: seq<Id>, n: nat, m: nat)
    requires n <= m
    ensures Visits(adj, d, entries, n) <= Visits(adj, d, entries, m)
  {
    if n < m {
      VisitsExtend(adj, d, entries, n, m - 1);
    }
  }

  /** On a graph reachable from its entries the visits run until the budget or
      the nodes run out. */
  lemma {:induction false} VisitsCount(adj: Adj, d: Id -> int, entries: seq<Id>, n: nat)
    requires Inside(adj) && Elements(entries) <= adj.Keys && Spans(adj, entries)
    ensures |Visits(adj, d, entries, n)| == if n <= |adj| then n else |adj|
    ensures n >= |adj| ==> Elements(Visits(adj, d, entries, n)) == adj.Keys
  {
    hide *;
    VisitsStep(adj, d, entries, n);
    if n > 0 {
      VisitsCount(adj, d, entries, n - 1);
      var s := Visits(adj, d, entries, n - 1);
      DistinctSize(s);
      assert |adj.Keys| == |adj|;
      if Boundary(adj, entries, s) == {} {
        NothingOutside(adj, entries, s);
      } else {
        VisitsFit(adj, d, entries, n);
      }
    }
    if n >= |adj| {
      FullSet(adj, Visits(adj, d, entries, n));
    }
  }

  lemma VisitsStep(adj: Adj, d: Id -> int, entries: seq<Id>, n: nat)
    ensures n == 0 ==> Visits(adj, d, entries, n) == []
    ensures n > 0 ==>
      var s := Visits(adj, d, entries, n - 1);
      if Boundary(adj, entries, s) == {} then Visits(adj, d, entries, n) == s
      else |Visits(adj, d, entries, n)| == |s| + 1
  {
    hide Boundary, Nearer;
  }

  lemma FullSet(adj: Adj, s: seq<Id>)
    requires Distinct(s) && Elements(s) <= adj.Keys && |s| == |adj|
    ensures Elements(s) == adj.Keys
  {
    DistinctSize(s);
    assert |adj.Keys| == |adj|;
    var rest := adj.Keys - Elements(s);
    assert adj.Keys == Elements(s) + rest;
    assert |rest| == 0;
  }

  lemma VisitsFit(adj: Adj, d: Id -> int, entries: seq<Id>, n: nat)
    ensures |Visits(adj, d, entries, n)| <= |adj|
  {
    var t := Visits(adj, d, entries, n);
    DistinctSize(t);
    Smaller(Elements(t), adj.Keys);
    assert |adj.Keys| == |adj|;
  }

  lemma NothingOutside(adj: Adj, entries: seq<Id>, s: seq<Id>)
    requires Inside(adj) && Elements(entries) <= adj.Keys && Spans(adj, entries)
    requires Elements(s) <= adj.Keys && Boundary(adj, entries, s) == {}
    ensures Elements(s) == adj.Keys
  {
    var v := Elements(s);
    forall y | y in entries ensures y in v {
      assert y in Elements(entries);
      assert y !in Boundary(adj, entries, s);
    }
    forall x, y | x in v && x in adj && y in adj[x] ensures y in v {
      assert Adjoins(adj, entries, s, y);
      assert y !in Boundary(adj, entries, s);
    }
    assert Elements(entries) <= v && Closed(adj, v);
  }

  /** `s` by ascending distance, ties by ascending identity. */
  function Ranked(d: Id -> int, s: seq<Id>): (r: seq<Id>)
    ensures multiset(r) == multiset(s) && |r| == |s| && Sorted(Nearer(d), r)
  {
    NearerIsTotal(d);
    Sort(Nearer(d), s)
  }

  /** The `retained` nearest of `s`, nearest first. */
  function Kept(d: Id -> int, s: seq<Id>, retained: nat): (r: seq<Id>)
    ensures |r| == if |s| <= retained then |s| else retained
  {
    Take(Ranked(d, s), retained)
  }

  /** Pushing one more candidate, sorting and dropping the overflow keeps the
      nearest of everything pushed so far. */
  lemma KeepPush(d: Id -> int, s: seq<Id>, c: Id, retained: nat)
    requires Distinct(s + [c])
    ensures Take(Ranked(d, Kept(d, s, retained) + [c]), retained) == Kept(d, s + [c], retained)
  {
    NearerIsTotal(d);
    var lt := Nearer(d);
    var all := Sort(lt, s);
    var kept := Take(all, retained);
    assert (s + [c])[..|s|] == s && (kept + [c])[..|kept|] == kept;
    assert Sort(lt, s + [c]) == Place(lt, c, all);
    TakeSorted(lt, all, retained);
    SortOfSorted(lt, kept);
    assert Sort(lt, kept + [c]) == Place(lt, c, kept);
    TakePlace(lt, c, all, retained);
  }

  lemma SortOfSorted(lt: (Id, Id) -> bool, s: seq<Id>)
    requires StrictTotal(lt) && Sorted(lt, s)
    ensures Sort(lt, s) == s
  {
    SortedOnce(lt, Sort(lt, s), s);
  }

  lemma TakeSorted(lt: (Id, Id) -> bool, s: seq<Id>, n: nat)
    requires Sorted(lt, s)
    ensures Sorted(lt, Take(s, n))
  {
  }

  lemma {:induction false} TakePlace(lt: (Id, Id) -> bool, c: Id, s: seq<Id>, n: nat)
    requires StrictOrder(lt) && Sorted(lt, s) && Sorted(lt, Take(s, n))
    ensures Take(Place(lt, c, Take(s, n)), n) == Take(Place(lt, c, s), n)
  {
    if n >= |s| {
      assert Take(s, n) == s;
    } else if n == 0 {
      assert Take(Place(lt, c, Take(s, n)), n) == [] == Take(Place(lt, c, s), n);
    } else {
      var t := s[..n];
      assert t[0] == s[0] && Take(s, n) == t;
      if lt(c, s[0]) {
        assert ([c] + s)[..n] == [c] + s[..n - 1] == ([c] + t)[..n];
      } else {
        assert t[1..] == Take(s[1..], n - 1);
        TakeSorted(lt, s[1..], n - 1);
        TakePlace(lt, c, s[1..], n - 1);
        TakeCons(s[0], Place(lt, c, t[1..]), n);
        TakeCons(s[0], Place(lt, c, s[1..]), n);
      }
    }
  }

  lemma TakeCons(x: Id, s: seq<Id>, n: nat)
    requires n > 0
    ensures Take([x] + s, n) == [x] + Take(s, n - 1)
  {
  }

  /** The nearest of a node and its neighbours. */
  function Steepest(adj: Adj, d: Id -> int, x: Id): (y: Id)
    ensures x in adj ==> y in adj[x] + {x}
    ensures forall z | x in adj && z in adj[x] :: !Nearer(d)(z, y)
    ensures !Nearer(d)(x, y)
  {
    NearerIsTotal(d);
    if x in adj then Least(Nearer(d), adj[x] + {x}) else x
  }

  /** Steepest descent from `x`, at most `budget` steps. */
  function Walk(adj: Adj, d: Id -> int, x: Id, budget: nat): (y: Id)
    ensures Inside(adj) && x in adj ==> y in adj
    decreases budget
  {
    var next := Steepest(adj, d, x);
    if budget == 0 || next == x then x else Walk(adj, d, next, budget - 1)
  }

  /** A walk never ends farther away than it began, and it stops before its
      budget only where no neighbour is nearer. */
  lemma {:induction false} WalkDescends(adj: Adj, d: Id -> int, x: Id, budget: nat)
    requires Inside(adj) && x in adj
    ensures !Nearer(d)(x, Walk(adj, d, x, budget))
    ensures budget >= |adj| ==>
      forall z | z in adj[Walk(adj, d, x, budget)] :: !Nearer(d)(z, Walk(adj, d, x, budget))
  {
    WalkFrom(adj, d, x, budget, {});
  }

  lemma {:induction false} WalkFrom(adj: Adj, d: Id -> int, x: Id, budget: nat, left: set<Id>)
    requires Inside(adj) && x in adj && left <= adj.Keys
    requires forall z | z in left :: Nearer(d)(x, z)
    ensures !Nearer(d)(x, Walk(adj, d, x, budget))
    ensures budget + |left| >= |adj| ==>
      forall z | z in adj[Walk(adj, d, x, budget)] :: !Nearer(d)(z, Walk(adj, d, x, budget))
    decreases budget
  {
    var next := Steepest(adj, d, x);
    if budget == 0 {
      if |left| >= |adj| {
        Smaller(left + {x}, adj.Keys);
      }
    } else if next != x {
      WalkFrom(adj, d, next, budget - 1, left + {x});
    }
  }
}
