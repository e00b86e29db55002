/** Which nodes a new node is linked to, and what a removal links, said of the
    stored links before and after. */
module HnswLinks {
  import opened Options
  import opened Orders
  import opened Adjacency
  import opened Backbone
  import opened BestFirst
  import opened HnswGraph
  import opened HnswChange
  import opened HnswQuery
  import opened HnswSearch

  // ---------- keeping the nearest ----------

  function Ahead(d: Id -> int, s: set<Id>, x: Id): set<Id> {
    set z | z in s && Nearer(d)(z, x)
  }

  /** The nearest few of a set are those with fewer than that many ahead. */
  lemma NearestRank(d: Id -> int, s: set<Id>, limit: nat, x: Id)
    requires x in s
    ensures x in Nearest(d, s, limit) <==> |Ahead(d, s, x)| < limit
  {
    NearerIsTotal(d);
    var r, ahead := Nearest(d, s, limit), Ahead(d, s, x);
    if x in r {
      forall z | z in ahead ensures z in r - {x} {
        assert z !in r ==> z in s - r;
      }
      Smaller(ahead, r - {x});
    } else {
      assert x in s - r;
      if |s| <= limit {
        Whole(r, s);
      }
      forall z | z in r ensures z in ahead {
      }
      Smaller(r, ahead);
    }
  }

  lemma Whole(r: set<Id>, s: set<Id>)
    requires r <= s && |r| == |s|
    ensures r == s
  {
    assert s == r + (s - r);
  }

  lemma NearestAll(d: Id -> int, s: set<Id>, limit: nat)
    requires |s| <= limit
    ensures Nearest(d, s, limit) == s
  {
    Whole(Nearest(d, s, limit), s);
  }

  // ---------- linking one node ----------

  /** A link that fits at one end is made unless the other end has `limit`
      nearer ones; no link of the end it fits is lost. */
  lemma LinkFits(adj: Adj, ruler: Ruler, x: Id, y: Id, limit: nat)
    requires x in adj && y in adj && x != y && Reciprocal(adj) && y !in adj[x] && |adj[x]| < limit
    ensures var r := Linked(adj, ruler, x, y, limit);
      && r[x] == (if |Ahead(ruler(y), adj[y], x)| < limit then adj[x] + {y} else adj[x])
      && r[y] <= adj[y] + {x}
      && forall z | z in adj && z != x && z != y :: r[z] <= adj[z]
  {
    var a := Connect(adj, x, y);
    hide *;
    ConnectIs(adj, x, y);
    PrunedWhole(a, ruler, x, limit);
    NearestRank(ruler(y), a[y], limit, x);
    AheadOfSelf(ruler(y), adj[y], x);
    LinkedIs(adj, ruler, x, y, limit);
    TrimmedAt(a, x, y, Nearest(ruler(y), a[y], limit));
    BackAgain(adj[x], y);
  }

  lemma LinkedIs(adj: Adj, ruler: Ruler, x: Id, y: Id, limit: nat)
    requires x in adj && y in adj && x != y
    ensures var a := Connect(adj, x, y);
      Linked(adj, ruler, x, y, limit) == Pruned(Pruned(a, ruler, x, limit), ruler, y, limit)
      && Pruned(a, ruler, y, limit) == Trim(a, y, Nearest(ruler(y), a[y], limit))
    ensures Nearest(ruler(y), Connect(adj, x, y)[y], limit) <= Connect(adj, x, y)[y]
  {
    hide Connect, Trim, Nearest;
  }

  lemma ConnectIs(adj: Adj, x: Id, y: Id)
    requires x in adj && y in adj && x != y && Reciprocal(adj) && y !in adj[x]
    ensures var a := Connect(adj, x, y);
      && a[x] == adj[x] + {y} && |a[x]| == |adj[x]| + 1 && a[y] == adj[y] + {x} && x in a[y]
      && forall z | z in adj && z != x && z != y :: a[z] == adj[z]
  {
  }

  lemma PrunedWhole(a: Adj, ruler: Ruler, x: Id, limit: nat)
    requires x in a && |a[x]| <= limit
    ensures Pruned(a, ruler, x, limit) == a
  {
    NearestAll(ruler(x), a[x], limit);
    hide Nearest;
    assert forall z | z in a :: Trim(a, x, a[x])[z] == a[z];
  }

  lemma AheadOfSelf(d: Id -> int, s: set<Id>, x: Id)
    ensures Ahead(d, s + {x}, x) == Ahead(d, s, x)
  {
  }

  lemma BackAgain(s: set<Id>, y: Id)
    requires y !in s
    ensures s + {y} - {y} == s
  {
  }

  lemma TrimmedAt(a: Adj, x: Id, y: Id, keep: set<Id>)
    requires x in a && y in a && x in a[y] && keep <= a[y] && x != y
    ensures var r := Trim(a, y, keep);
      && r[x] == (if x in keep then a[x] else a[x] - {y}) && r[y] == keep
      && forall z | z in a && z != y :: r[z] <= a[z]
  {
  }

  /** The links of the new node `x` after offering it `ys` in turn. */
  ghost predicate LinksOf(adj: Adj, ruler: Ruler, x: Id, ys: seq<Id>, limit: nat, r: Adj)
    requires x in adj && x in r && Elements(ys) <= adj.Keys
  {
    && adj[x] <= r[x] <= adj[x] + Elements(ys)
    && (x !in adj[x] ==> x !in r[x])
    && (forall y | y in ys && y != x :: y in adj && (|Ahead(ruler(y), adj[y], x)| < limit ==> y in r[x]))
    && (forall y | FirstOther(ys, x, y) :: y in adj && (y in r[x] ==> |Ahead(ruler(y), adj[y], x)| < limit))
  }

  /** The first of `ys` besides `x`. */
  predicate FirstOther(ys: seq<Id>, x: Id, y: Id) {
    y != x && exists i | 0 <= i < |ys| :: ys[i] == y && forall j | 0 <= j < i :: ys[j] == x
  }

  lemma {:induction false} LinksMade(adj: Adj, ruler: Ruler, x: Id, ys: seq<Id>, limit: nat)
    requires x in adj && Elements(ys) <= adj.Keys && Reciprocal(adj) && Bounded(adj, limit) && Distinct(ys)
    requires |adj[x]| + |ys| <= limit && forall y | y in ys :: y !in adj[x]
    ensures LinksOf(adj, ruler, x, ys, limit, LinkedEach(adj, ruler, x, ys, limit))
    decreases |ys|
  {
    hide *;
    KeysIn(adj, ys);
    if ys == [] {
      NothingLinked(adj, ruler, x, limit);
    } else {
      var y, rest := ys[0], ys[1..];
      var next := Linked(adj, ruler, x, y, limit);
      EachStep(adj, ruler, x, ys, limit);
      LinkedKeepsLayer(adj, ruler, x, y, limit);
      if y == x {
        LinkSelf(adj, ruler, x, limit);
        TailFresh(ys);
        LinksMade(adj, ruler, x, rest, limit);
        SelfFirst(adj, ruler, x, ys, limit, LinkedEach(next, ruler, x, rest, limit));
      } else {
        LinkFits(adj, ruler, x, y, limit);
        TailFresh(ys);
        OneMore(adj[x], y);
        LinksMade(next, ruler, x, rest, limit);
        OtherFirst(adj, next, ruler, x, ys, limit, LinkedEach(next, ruler, x, rest, limit));
      }
    }
  }

  lemma KeysIn(adj: Adj, ys: seq<Id>)
    requires Elements(ys) <= adj.Keys
    ensures forall y | y in ys :: y in adj
    ensures ys != [] ==> ys[0] in adj && Elements(ys[1..]) <= adj.Keys && ys[0] in ys
  {
    forall y | y in ys ensures y in adj {
      assert y in Elements(ys);
    }
  }

  lemma NothingLinked(adj: Adj, ruler: Ruler, x: Id, limit: nat)
    requires x in adj
    ensures Elements<Id>([]) <= adj.Keys && LinksOf(adj, ruler, x, [], limit, LinkedEach(adj, ruler, x, [], limit))
  {
  }

  lemma EachStep(adj: Adj, ruler: Ruler, x: Id, ys: seq<Id>, limit: nat)
    requires x in adj && Elements(ys) <= adj.Keys && ys != [] && ys[0] in adj && Elements(ys[1..]) <= adj.Keys
    ensures var next := Linked(adj, ruler, x, ys[0], limit);
      next.Keys == adj.Keys && LinkedEach(adj, ruler, x, ys, limit) == LinkedEach(next, ruler, x, ys[1..], limit)
  {
    hide Linked;
  }

  lemma LinkSelf(adj: Adj, ruler: Ruler, x: Id, limit: nat)
    requires x in adj
    ensures Linked(adj, ruler, x, x, limit) == adj
  {
  }

  lemma TailFresh(ys: seq<Id>)
    requires ys != [] && Distinct(ys)
    ensures Distinct(ys[1..]) && ys[0] !in ys[1..] && |ys[1..]| == |ys| - 1
    ensures forall y | y in ys[1..] :: y in ys
    ensures forall y | y in ys :: y == ys[0] || y in ys[1..]
    ensures Elements(ys) == Elements(ys[1..]) + {ys[0]}
  {
  }

  lemma OneMore(s: set<Id>, y: Id)
    ensures |s + {y}| <= |s| + 1
  {
    if y in s {
      assert s + {y} == s;
    }
  }

  lemma FirstIs(ys: seq<Id>, x: Id, y: Id)
    requires ys != [] && Distinct(ys)
    ensures ys[0] != x ==> (FirstOther(ys, x, y) <==> y == ys[0])
    ensures ys[0] == x ==> (FirstOther(ys, x, y) <==> FirstOther(ys[1..], x, y))
  {
    if ys[0] == x {
      if FirstOther(ys, x, y) {
        var i :| 0 <= i < |ys| && ys[i] == y && forall j | 0 <= j < i :: ys[j] == x;
        assert ys[1..][i - 1] == y;
      }
      if FirstOther(ys[1..], x, y) {
        var i :| 0 <= i < |ys| - 1 && ys[1..][i] == y && forall j | 0 <= j < i :: ys[1..][j] == x;
        assert ys[i + 1] == y && forall j | 0 < j < i + 1 :: ys[j] == ys[1..][j - 1];
      }
    } else {
      assert ys[0] != x ==> FirstOther(ys, x, ys[0]);
    }
  }

  lemma SelfFirst(adj: Adj, ruler: Ruler, x: Id, ys: seq<Id>, limit: nat, r: Adj)
    requires ys != [] && Distinct(ys) && ys[0] == x && x in adj && x in r
    requires Elements(ys) == Elements(ys[1..]) + {ys[0]} && Elements(ys) <= adj.Keys
    requires LinksOf(adj, ruler, x, ys[1..], limit, r)
    ensures LinksOf(adj, ruler, x, ys, limit, r)
  {
    TailFresh(ys);
    hide Ahead, FirstOther;
    forall y ensures FirstOther(ys, x, y) <==> FirstOther(ys[1..], x, y) {
      FirstIs(ys, x, y);
    }
  }

  lemma OtherFirst(adj: Adj, next: Adj, ruler: Ruler, x: Id, ys: seq<Id>, limit: nat, r: Adj)
    requires ys != [] && Distinct(ys) && ys[0] != x && x in adj && x in r && next.Keys == adj.Keys
    requires Elements(ys) == Elements(ys[1..]) + {ys[0]} && Elements(ys) <= adj.Keys && ys[0] in adj
    requires (forall y | y in ys :: y !in adj[x])
    requires next[x] == (if |Ahead(ruler(ys[0]), adj[ys[0]], x)| < limit then adj[x] + {ys[0]} else adj[x])
    requires forall z | z in adj && z != x && z != ys[0] :: next[z] <= adj[z]
    requires LinksOf(next, ruler, x, ys[1..], limit, r)
    ensures LinksOf(adj, ruler, x, ys, limit, r)
  {
    TailFresh(ys);
    hide Ahead, FirstOther;
    forall y ensures FirstOther(ys, x, y) <==> y == ys[0] {
      FirstIs(ys, x, y);
    }
    forall y | y in ys && y != x
      ensures y in adj && (|Ahead(ruler(y), adj[y], x)| < limit ==> y in r[x])
    {
      assert y in Elements(ys);
      if y != ys[0] {
        AheadLess(ruler(y), next[y], adj[y], x);
      }
    }
    assert ys[0] in r[x] ==> ys[0] in next[x] by {
      assert ys[0] !in ys[1..];
    }
  }

  lemma AheadLess(d: Id -> int, a: set<Id>, b: set<Id>, x: Id)
    requires a <= b
    ensures |Ahead(d, a, x)| <= |Ahead(d, b, x)|
  {
    Smaller(Ahead(d, a, x), Ahead(d, b, x));
  }

  /** No other node gains a link but to `x`. */
  lemma {:induction false} GainsOnly(adj: Adj, ruler: Ruler, x: Id, ys: seq<Id>, limit: nat)
    requires x in adj && Elements(ys) <= adj.Keys && Reciprocal(adj) && Bounded(adj, limit) && Distinct(ys)
    requires |adj[x]| + |ys| <= limit && forall y | y in ys :: y !in adj[x]
    ensures var r := LinkedEach(adj, ruler, x, ys, limit); forall z | z in adj && z != x :: r[z] <= adj[z] + {x}
    decreases |ys|
  {
    hide *;
    KeysIn(adj, ys);
    if ys == [] {
      NothingLinked(adj, ruler, x, limit);
      UnlinkedSame(adj, ruler, x, limit);
    } else {
      var y, rest := ys[0], ys[1..];
      EachStep(adj, ruler, x, ys, limit);
      LinkedKeepsLayer(adj, ruler, x, y, limit);
      TailFresh(ys);
      if y == x {
        LinkSelf(adj, ruler, x, limit);
        GainsOnly(adj, ruler, x, rest, limit);
      } else {
        LinkFits(adj, ruler, x, y, limit);
        OneMore(adj[x], y);
        GainsOnly(Linked(adj, ruler, x, y, limit), ruler, x, rest, limit);
      }
    }
  }

  lemma UnlinkedSame(adj: Adj, ruler: Ruler, x: Id, limit: nat)
    requires x in adj && Elements<Id>([]) <= adj.Keys
    ensures LinkedEach(adj, ruler, x, [], limit) == adj
  {
  }
}
