/** The base-layer backbone: one cycle through every node that normal-link
    pruning never touches. */
module Backbone {
  import opened Orders
  import opened Adjacency

  function After(c: seq<Id>, i: nat): Id
    requires i < |c|
  {
    if i + 1 < |c| then c[i + 1] else c[0]
  }

  function Before(c: seq<Id>, i: nat): Id
    requires i < |c|
  {
    if i > 0 then c[i - 1] else c[|c| - 1]
  }

  /** Position `i` of the walk: its node's links are exactly its two
      neighbours on the walk. */
  ghost predicate Seated(ring: Adj, c: seq<Id>, i: nat)
    requires i < |c|
  {
    c[i] in ring && ring[c[i]] == {Before(c, i), After(c, i)} - {c[i]}
  }

  /** `c` walks the whole backbone once and comes back to its start. One node
      has no links, two share one. */
  ghost predicate CycleOf(ring: Adj, c: seq<Id>) {
    && Distinct(c)
    && Elements(c) == ring.Keys
    && forall i | 0 <= i < |c| :: Seated(ring, c, i)
  }

  ghost predicate SingleCycle(ring: Adj) {
    exists c :: CycleOf(ring, c)
  }

  /** Adds `id` beside `anchor`, on the edge to the anchor's first neighbour. */
  function Spliced(ring: Adj, id: Id, anchor: Id): (r: Adj)
    requires id in ring && anchor in ring && ring[anchor] <= ring.Keys
    ensures r.Keys == ring.Keys
  {
    var successors := Listed(ring[anchor]);
    if successors == [] then Connect(ring, id, anchor)
    else
      assert successors[0] in Elements(successors);
      var kept := if |successors| == 1 then ring else Disconnect(ring, anchor, successors[0]);
      Connect(Connect(kept, anchor, id), id, successors[0])
  }

  /** Takes `id` out and joins its two neighbours, when it has two. */
  function Bypassed(ring: Adj, id: Id): (r: Adj)
    requires id in ring && ring[id] <= ring.Keys - {id}
    ensures r.Keys == ring.Keys - {id}
  {
    var anchors := Listed(ring[id]);
    var rest := Detach(ring, id);
    if |anchors| == 2 then
      assert anchors[0] in Elements(anchors) && anchors[1] in Elements(anchors);
      Connect(rest, anchors[0], anchors[1])
    else rest
  }

  lemma CycleIsReciprocal(ring: Adj, c: seq<Id>)
    requires CycleOf(ring, c)
    ensures Reciprocal(ring)
  {
    forall x, y | x in ring && y in ring[x] ensures y != x && y in ring && x in ring[y] {
      var i := PlaceOf(ring, c, x);
      var j := if y == After(c, i) then (if i + 1 < |c| then i + 1 else 0)
               else (if i > 0 then i - 1 else |c| - 1);
      assert Seated(ring, c, j) && c[j] == y;
    }
  }

  lemma PlaceOf(ring: Adj, c: seq<Id>, x: Id) returns (i: nat)
    requires CycleOf(ring, c) && x in ring
    ensures i < |c| && c[i] == x && Seated(ring, c, i)
  {
    assert x in Elements(c);
    i :| 0 <= i < |c| && c[i] == x;
    assert Seated(ring, c, i);
  }

  /** Starting the walk elsewhere. */
  function Rotated(c: seq<Id>, k: nat): seq<Id>
    requires k <= |c|
  {
    c[k..] + c[..k]
  }

  function Reversed(c: seq<Id>): (r: seq<Id>)
    ensures |r| == |c| && forall i | 0 <= i < |c| :: r[i] == c[|c| - 1 - i]
  {
    seq(|c|, i requires 0 <= i < |c| => c[|c| - 1 - i])
  }

  lemma RotatedElements(c: seq<Id>, k: nat)
    requires k <= |c| && Distinct(c)
    ensures Distinct(Rotated(c, k)) && Elements(Rotated(c, k)) == Elements(c)
  {
    assert c == c[..k] + c[k..];
  }

  lemma RotatedSeat(ring: Adj, c: seq<Id>, k: nat, i: nat)
    requires CycleOf(ring, c) && k <= |c| && i < |c|
    ensures Seated(ring, Rotated(c, k), i)
  {
    var r := Rotated(c, k);
    var j := if i + k < |c| then i + k else i + k - |c|;
    assert Seated(ring, c, j);
    assert r[i] == c[j];
    assert After(r, i) == After(c, j);
    assert Before(r, i) == Before(c, j);
  }

  lemma RotatedCycle(ring: Adj, c: seq<Id>, k: nat)
    requires CycleOf(ring, c) && k <= |c|
    ensures CycleOf(ring, Rotated(c, k))
  {
    RotatedElements(c, k);
    forall i | 0 <= i < |c| ensures Seated(ring, Rotated(c, k), i) {
      RotatedSeat(ring, c, k, i);
    }
  }

  lemma ReversedElements(c: seq<Id>)
    requires Distinct(c)
    ensures Distinct(Reversed(c)) && Elements(Reversed(c)) == Elements(c)
  {
    var r := Reversed(c);
    forall x ensures x in r <==> x in c {
      if x in c {
        var i :| 0 <= i < |c| && c[i] == x;
        assert r[|c| - 1 - i] == x;
      }
    }
  }

  lemma ReversedCycle(ring: Adj, c: seq<Id>)
    requires CycleOf(ring, c)
    ensures CycleOf(ring, Reversed(c))
  {
    ReversedElements(c);
    var r := Reversed(c);
    forall i | 0 <= i < |c| ensures Seated(ring, r, i) {
      assert Seated(ring, c, |c| - 1 - i);
    }
  }

  /** The walk can be arranged to end at `x`. */
  lemma EndAt(ring: Adj, c: seq<Id>, x: Id) returns (r: seq<Id>)
    requires CycleOf(ring, c) && x in ring
    ensures CycleOf(ring, r) && |r| == |c| && r != [] && r[|r| - 1] == x
  {
    var i := PlaceOf(ring, c, x);
    RotatedCycle(ring, c, i + 1);
    r := Rotated(c, i + 1);
  }

  /** The walk can be arranged to step from its end `x` to `y`, a neighbour. */
  lemma EndAtBefore(ring: Adj, c: seq<Id>, x: Id, y: Id) returns (r: seq<Id>)
    requires CycleOf(ring, c) && x in ring && y in ring[x]
    ensures CycleOf(ring, r) && |r| >= 2 && r[|r| - 1] == x && r[0] == y
  {
    r := EndAt(ring, c, x);
    assert Seated(ring, r, |r| - 1);
    if r[0] != y {
      var back := Reversed(r);
      ReversedCycle(ring, r);
      assert back[0] == x && back[1] == y;
      RotatedCycle(ring, back, 1);
      r := Rotated(back, 1);
    }
  }

  /** Degrees on a cycle: 0, 1 or 2 for one, two or more nodes. */
  lemma Degree(ring: Adj, c: seq<Id>, i: nat)
    requires CycleOf(ring, c) && i < |c|
    ensures c[i] in ring && |ring[c[i]]| == if |c| <= 2 then |c| - 1 else 2
  {
    assert Seated(ring, c, i);
    if |c| == 1 {
      assert ring[c[i]] == {};
    } else if |c| == 2 {
      assert ring[c[i]] == {After(c, i)};
    } else {
      assert Before(c, i) != After(c, i) && Before(c, i) != c[i] && After(c, i) != c[i];
      assert ring[c[i]] == {Before(c, i), After(c, i)};
    }
  }

  /** Inserting keeps one cycle: the new node goes between the anchor and the
      anchor's first neighbour. */
  lemma SpliceKeepsCycle(ring: Adj, id: Id, anchor: Id)
    requires SingleCycle(ring) && anchor in ring && id !in ring
    ensures ring[anchor] <= ring[id := {}].Keys
    ensures SingleCycle(Spliced(ring[id := {}], id, anchor))
  {
    var c :| CycleOf(ring, c);
    CycleIsReciprocal(ring, c);
    assert forall y | y in ring[anchor] :: y in ring;
    var successors := Listed(ring[anchor]);
    c := EndAt(ring, c, anchor);
    Degree(ring, c, |c| - 1);
    if successors != [] {
      assert successors[0] in Elements(successors);
      c := EndAtBefore(ring, c, anchor, successors[0]);
      Degree(ring, c, |c| - 1);
    }
    SpliceAtEnd(ring, c, id);
  }

  lemma SpliceAtEnd(ring: Adj, c: seq<Id>, id: Id)
    requires CycleOf(ring, c) && id !in ring && c != []
    requires c[|c| - 1] in ring && ring[c[|c| - 1]] <= ring.Keys
    requires var ns := Listed(ring[c[|c| - 1]]);
      |ns| == (if |c| <= 2 then |c| - 1 else 2) && (ns != [] ==> ns[0] == c[0])
    ensures SingleCycle(Spliced(ring[id := {}], id, c[|c| - 1]))
  {
    hide Spliced, Seated, Listed;
    var after, longer := Spliced(ring[id := {}], id, c[|c| - 1]), c + [id];
    assert id !in Elements(c);
    assert Elements(longer) == after.Keys by {
      assert forall x :: x in longer <==> x in c || x == id;
      assert forall x :: x in Elements(c) <==> x in c;
    }
    forall i | 0 <= i < |longer| ensures Seated(after, longer, i) {
      SplicedSeat(ring, c, id, i);
    }
    assert CycleOf(after, longer);
  }

  lemma SplicedSeat(ring: Adj, c: seq<Id>, id: Id, i: nat)
    requires CycleOf(ring, c) && id !in ring && c != [] && i <= |c|
    requires c[|c| - 1] in ring && ring[c[|c| - 1]] <= ring.Keys
    requires var ns := Listed(ring[c[|c| - 1]]);
      |ns| == (if |c| <= 2 then |c| - 1 else 2) && (ns != [] ==> ns[0] == c[0])
    ensures Seated(Spliced(ring[id := {}], id, c[|c| - 1]), c + [id], i)
  {
    assert id !in c by {
      assert forall x :: x in c <==> x in Elements(c);
    }
    assert Seated(ring, c, 0) && Seated(ring, c, |c| - 1);
    SplicedIs(ring, id, c[|c| - 1], c[0]);
    SeatsAfterSplice(ring, c, id, i);
  }

  lemma SplicedIs(ring: Adj, id: Id, anchor: Id, first: Id)
    requires id !in ring && anchor in ring && first in ring && ring[anchor] <= ring.Keys
    requires var ns := Listed(ring[anchor]); if ns == [] then first == anchor else ns[0] == first
    requires anchor !in ring[anchor]
    ensures Spliced(ring[id := {}], id, anchor)
         == SplicedInto(ring, id, anchor, first, |Listed(ring[anchor])| > 1)
  {
    var ns, open := Listed(ring[anchor]), ring[id := {}];
    var into := SplicedInto(ring, id, anchor, first, |ns| > 1);
    if ns == [] {
      assert open[id] + {anchor} == {anchor} == into[id];
      assert |ns| == 0 && open[anchor] == ring[anchor];
      assert Connect(open, id, anchor) == into;
    } else {
      assert first in Elements(ns);
      var kept := if |ns| == 1 then open else Disconnect(open, anchor, first);
      JoinedIs(kept, id, anchor, first);
      CutIs(ring, id, anchor, first, |ns| > 1);
    }
  }

  lemma CutIs(ring: Adj, id: Id, anchor: Id, first: Id, cut: bool)
    requires id !in ring && anchor in ring && first in ring && anchor != first
    ensures
      var kept := if cut then Disconnect(ring[id := {}], anchor, first) else ring[id := {}];
      kept[id := {anchor, first}][anchor := kept[anchor] + {id}][first := kept[first] + {id}]
        == SplicedInto(ring, id, anchor, first, cut)
  {
  }

  lemma JoinedIs(kept: Adj, id: Id, anchor: Id, first: Id)
    requires id in kept && anchor in kept && first in kept && kept[id] == {}
    requires id != anchor && id != first && anchor != first
    ensures Connect(Connect(kept, anchor, id), id, first)
         == kept[id := {anchor, first}][anchor := kept[anchor] + {id}][first := kept[first] + {id}]
  {
    assert kept[id] + {anchor} + {first} == {anchor, first};
  }

  /** The spliced backbone, link by link. */
  function SplicedInto(ring: Adj, id: Id, anchor: Id, first: Id, cut: bool): Adj {
    map z | z in ring.Keys + {id} ::
      if z == id then {anchor, first}
      else if z == anchor then (if cut then ring[z] - {first} else ring[z]) + {id}
      else if z == first then (if cut then ring[z] - {anchor} else ring[z]) + {id}
      else ring[z]
  }

  lemma SeatsAfterSplice(ring: Adj, c: seq<Id>, id: Id, i: nat)
    requires CycleOf(ring, c) && id !in ring && c != [] && i <= |c| && id !in c
    ensures Seated(SplicedInto(ring, id, c[|c| - 1], c[0], |c| > 2), c + [id], i)
  {
    var longer := c + [id];
    if i < |c| {
      assert Seated(ring, c, i) && longer[i] == c[i] != id;
      SplicedEnds(c, id, i);
    }
  }

  lemma SplicedEnds(c: seq<Id>, id: Id, i: nat)
    requires Distinct(c) && i < |c| && id !in c
    ensures
      var longer, n, own := c + [id], |c|, {Before(c, i), After(c, i)} - {c[i]};
      {Before(longer, i), After(longer, i)} - {c[i]} ==
        if i == n - 1 then (if n > 2 then own - {c[0]} else own) + {id}
        else if i == 0 then (if n > 2 then own - {c[n - 1]} else own) + {id}
        else own
  {
    if 0 < i < |c| - 1 {
      assert Before(c + [id], i) == Before(c, i) && After(c + [id], i) == After(c, i);
    }
  }

  /** Removing keeps one cycle through the surviving nodes. */
  lemma BypassKeepsCycle(ring: Adj, id: Id)
    requires SingleCycle(ring) && id in ring
    ensures ring[id] <= ring.Keys - {id}
    ensures SingleCycle(Bypassed(ring, id))
  {
    var c :| CycleOf(ring, c);
    CycleIsReciprocal(ring, c);
    assert forall y | y in ring[id] :: y in ring && y != id;
    c := EndAt(ring, c, id);
    BypassAtEnd(ring, c);
  }

  lemma BypassAtEnd(ring: Adj, c: seq<Id>)
    requires CycleOf(ring, c) && c != [] && c[|c| - 1] in ring
    requires ring[c[|c| - 1]] <= ring.Keys - {c[|c| - 1]}
    ensures SingleCycle(Bypassed(ring, c[|c| - 1]))
  {
    var id, rest := c[|c| - 1], c[..|c| - 1];
    var after := Bypassed(ring, id);
    assert c == rest + [id] && id !in rest;
    assert Elements(rest) == after.Keys by {
      assert forall x :: x in c <==> x in rest || x == id;
      assert forall x :: x in Elements(c) <==> x in c;
    }
    forall i | 0 <= i < |rest| ensures Seated(after, rest, i) {
      BypassedSeat(ring, c, i);
    }
    assert CycleOf(after, rest);
  }

  lemma BypassedSeat(ring: Adj, c: seq<Id>, i: nat)
    requires CycleOf(ring, c) && i + 1 < |c| && c[|c| - 1] in ring
    requires ring[c[|c| - 1]] <= ring.Keys - {c[|c| - 1]}
    ensures Seated(Bypassed(ring, c[|c| - 1]), c[..|c| - 1], i)
  {
    var id := c[|c| - 1];
    Degree(ring, c, |c| - 1);
    assert Seated(ring, c, |c| - 1) && Seated(ring, c, i) && Seated(ring, c, 0);
    if |c| >= 3 {
      assert c[0] != c[|c| - 2] && Seated(ring, c, |c| - 2);
      PairIs(Listed(ring[id]), c[0], c[|c| - 2]);
      BypassedLinks(ring, c[0], c[|c| - 2], id);
      SeatsAfterBypass(ring, Bypassed(ring, id), c, i);
    }
  }

  lemma SeatsAfterBypass(ring: Adj, after: Adj, c: seq<Id>, i: nat)
    requires Distinct(c) && |c| >= 3 && i + 1 < |c| && Seated(ring, c, i)
    requires c[i] in after && after[c[i]] == ring[c[i]] - {c[|c| - 1]}
      + (if c[i] == c[0] then {c[|c| - 2]} else if c[i] == c[|c| - 2] then {c[0]} else {})
    ensures Seated(after, c[..|c| - 1], i)
  {
    BypassedEnds(c, i);
    BypassedMiddle(c, i);
  }

  lemma BypassedMiddle(c: seq<Id>, i: nat)
    requires Distinct(c) && |c| >= 3 && i + 1 < |c|
    ensures c[..|c| - 1][i] == c[i] && c[i] != c[|c| - 1]
    ensures c[i] == c[0] <==> i == 0
    ensures c[i] == c[|c| - 2] <==> i == |c| - 2
  {
  }

  lemma BypassedEnds(c: seq<Id>, i: nat)
    requires Distinct(c) && |c| >= 3 && i + 1 < |c|
    ensures var id, rest := c[|c| - 1], c[..|c| - 1];
      {Before(rest, i), After(rest, i)} - {rest[i]} ==
      {Before(c, i), After(c, i)} - {c[i]} - {id}
        + (if i == 0 then {c[|c| - 2]} - {c[0]} else {}) + (if i == |c| - 2 then {c[0]} else {})
  {
  }

  lemma BypassedLinks(ring: Adj, x: Id, y: Id, id: Id)
    requires id in ring && ring[id] <= ring.Keys - {id} && x in ring && y in ring
    requires id != x && id != y && x != y
    requires Listed(ring[id]) == [x, y] || Listed(ring[id]) == [y, x]
    ensures forall z | z in ring && z != id ::
      Bypassed(ring, id)[z] == ring[z] - {id} + (if z == x then {y} else if z == y then {x} else {})
  {
  }

  lemma PairIs(s: seq<Id>, x: Id, y: Id)
    requires x != y && Elements(s) == {x, y} && |s| == 2
    ensures s == [x, y] || s == [y, x]
  {
    assert s[0] in Elements(s) && s[1] in Elements(s);
    assert x in Elements(s) && y in Elements(s);
  }

  /** From any node of the cycle, the backbone alone reaches every node. */
  lemma CycleSpans(ring: Adj, entries: seq<Id>)
    requires SingleCycle(ring) && entries != [] && entries[0] in ring
    ensures Spans(ring, entries)
  {
    var c :| CycleOf(ring, c);
    c := EndAt(ring, c, entries[0]);
    forall s: set<Id> | Elements(entries) <= s && Closed(ring, s) ensures ring.Keys <= s {
      assert entries[0] in Elements(entries);
      CycleFills(ring, c, s, 0);
      assert forall x | x in ring :: x in Elements(c);
    }
  }

  lemma {:induction false} CycleFills(ring: Adj, c: seq<Id>, s: set<Id>, i: nat)
    requires CycleOf(ring, c) && Closed(ring, s) && i <= |c| && c != [] && c[|c| - 1] in s
    requires forall j | 0 <= j < i :: c[j] in s
    ensures forall j | 0 <= j < |c| :: c[j] in s
    decreases |c| - i
  {
    if i < |c| {
      var p := if i == 0 then |c| - 1 else i - 1;
      assert Seated(ring, c, p) && After(c, p) == c[i] && (c[i] == c[p] || c[i] in ring[c[p]]);
      CycleFills(ring, c, s, i + 1);
    }
  }

  /** What the snapshot boundary checks locally: the degree a single cycle of
      this size has at every node. */
  ghost predicate CycleDegrees(ring: Adj) {
    forall x | x in ring :: |ring[x]| == if |ring| <= 2 then |ring| - 1 else 2
  }

  lemma CycleHasDegrees(ring: Adj)
    requires SingleCycle(ring)
    ensures CycleDegrees(ring)
  {
    var c :| CycleOf(ring, c);
    DistinctSize(c);
    forall x | x in ring ensures |ring[x]| == if |ring| <= 2 then |ring| - 1 else 2 {
      var i := PlaceOf(ring, c, x);
      Degree(ring, c, i);
    }
  }

  /** Local degrees, reciprocity and reachability from one node force a single
      cycle through every node. */
  lemma DegreesMakeCycle(ring: Adj, start: Id)
    requires Reciprocal(ring) && CycleDegrees(ring) && start in ring && Spans(ring, [start])
    ensures SingleCycle(ring)
  {
    assert Elements([start]) == {start} && |ring.Keys| == |ring|;
    hide Spans, Reciprocal;
    if |ring| == 1 {
      LoneCycle(ring, start);
    } else if |ring| == 2 {
      var y := Any(ring[start]);
      PairCycle(ring, start, y);
    } else {
      var y := Any(ring[start]);
      LongCycle(ring, start, y);
    }
  }

  lemma LoneCycle(ring: Adj, start: Id)
    requires Reciprocal(ring) && CycleDegrees(ring) && start in ring && Spans(ring, [start]) && |ring| == 1
    ensures SingleCycle(ring)
  {
    assert Elements([start]) == {start};
    assert Closed(ring, {start});
    assert ring.Keys <= {start};
    assert CycleOf(ring, [start]);
  }

  lemma PairCycle(ring: Adj, start: Id, y: Id)
    requires Reciprocal(ring) && CycleDegrees(ring) && start in ring && Spans(ring, [start]) && |ring| == 2 && y in ring[start]
    ensures SingleCycle(ring)
  {
    assert Elements([start]) == {start};
    Singleton(ring[start], y);
    Singleton(ring[y], start);
    assert Closed(ring, {start, y});
    assert ring.Keys <= {start, y};
    assert Seated(ring, [start, y], 0) && Seated(ring, [start, y], 1);
    assert CycleOf(ring, [start, y]);
  }

  lemma LongCycle(ring: Adj, start: Id, y: Id)
    requires Reciprocal(ring) && CycleDegrees(ring) && start in ring && Spans(ring, [start]) && |ring| > 2 && y in ring[start]
    ensures SingleCycle(ring)
  {
    assert |ring.Keys| == |ring|;
    ChainMakesCycle(ring, [start, y]);
  }

  lemma Any(s: set<Id>) returns (x: Id)
    requires |s| > 0
    ensures x in s
  {
    x := Listed(s)[0];
    assert x in Elements(Listed(s));
  }

  lemma Singleton(s: set<Id>, x: Id)
    requires |s| == 1 && x in s
    ensures s == {x}
  {
    assert |s - {x}| == 0;
  }

  lemma Pair(s: set<Id>, x: Id, y: Id)
    requires |s| == 2 && x in s && y in s && x != y
    ensures s == {x, y}
  {
    var rest := s - {x};
    assert |rest| == 1;
    Singleton(rest, y);
    assert s == rest + {x};
  }

  /** A repeat-free walk along backbone links. */
  ghost predicate Chain(ring: Adj, p: seq<Id>) {
    && |p| >= 2 && Distinct(p)
    && forall i | 0 <= i < |p| - 1 :: Step(ring, p, i)
  }

  ghost predicate Step(ring: Adj, p: seq<Id>, i: nat)
    requires i + 1 < |p|
  {
    p[i] in ring && p[i + 1] in ring && p[i + 1] in ring[p[i]] && p[i] in ring[p[i + 1]]
  }

  ghost predicate TwoRegular(ring: Adj) {
    Reciprocal(ring) && forall x | x in ring :: |ring[x]| == 2
  }

  lemma InnerLinks(ring: Adj, p: seq<Id>, i: nat)
    requires TwoRegular(ring) && Chain(ring, p) && 0 < i < |p| - 1
    ensures p[i] in ring && ring[p[i]] == {p[i - 1], p[i + 1]}
  {
    assert Step(ring, p, i - 1) && Step(ring, p, i);
    assert p[i - 1] != p[i + 1];
    var here, next := p[i], p[i + 1];
    assert here in ring && next in ring[here] && |ring[here]| == 2;
    Pair(ring[p[i]], p[i - 1], p[i + 1]);
  }

  lemma ChainMakesCycle(ring: Adj, p: seq<Id>)
    requires TwoRegular(ring) && CycleDegrees(ring) && |ring| >= 3
    requires Chain(ring, p) && Spans(ring, [p[0]])
    requires Elements(p) <= ring.Keys
    ensures SingleCycle(ring)
    decreases |ring.Keys - Elements(p)|
  {
    var last := p[|p| - 1];
    assert Step(ring, p, |p| - 2);
    var z := OtherLink(ring, last, p[|p| - 2]);
    if z in p {
      BackToStart(ring, p, z);
      ClosedChain(ring, p);
    } else {
      var q := p + [z];
      assert Step(ring, q, |p| - 1);
      forall i | 0 <= i < |q| - 1 ensures Step(ring, q, i) {
        assert i < |p| - 1 ==> Step(ring, p, i);
      }
      assert Elements(q) == Elements(p) + {z};
      assert ring.Keys - Elements(q) < ring.Keys - Elements(p);
      Shrinks(ring.Keys - Elements(q), ring.Keys - Elements(p));
      assert q[0] == p[0];
      ChainMakesCycle(ring, q);
    }
  }

  lemma Shrinks(a: set<Id>, b: set<Id>)
    requires a < b
    ensures |a| < |b|
  {
    assert b == a + (b - a);
  }

  lemma OtherLink(ring: Adj, x: Id, y: Id) returns (z: Id)
    requires TwoRegular(ring) && x in ring && y in ring[x]
    ensures z != y && z != x && z in ring && ring[x] == {y, z} && x in ring[z]
  {
    var rest := ring[x] - {y};
    assert |rest| == 1;
    z := Any(rest);
    Pair(ring[x], y, z);
  }

  /** A maximal chain can only come back to its first node. */
  lemma BackToStart(ring: Adj, p: seq<Id>, z: Id)
    requires TwoRegular(ring) && Chain(ring, p) && z in p
    requires p[|p| - 1] in ring && ring[p[|p| - 1]] == {p[|p| - 2], z} && z != p[|p| - 2]
    requires z in ring && z != p[|p| - 1] && p[|p| - 1] in ring[z]
    ensures z == p[0] && |p| >= 3
  {
    var i :| 0 <= i < |p| && p[i] == z;
    if 0 < i < |p| - 1 {
      InnerLinks(ring, p, i);
    }
  }

  lemma ClosedChain(ring: Adj, p: seq<Id>)
    requires TwoRegular(ring) && Chain(ring, p) && Spans(ring, [p[0]]) && |p| >= 3
    requires Elements(p) <= ring.Keys
    requires p[|p| - 1] in ring && ring[p[|p| - 1]] == {p[|p| - 2], p[0]}
    ensures SingleCycle(ring)
  {
    forall i | 0 <= i < |p| ensures Seated(ring, p, i) {
      assert p[i] in Elements(p);
      if 0 < i < |p| - 1 {
        InnerLinks(ring, p, i);
      } else if i == 0 {
        assert Step(ring, p, 0) && p[1] != p[|p| - 1];
        var first, last := p[0], p[|p| - 1];
        assert last in ring && first in ring[last] && last in ring[first] && |ring[first]| == 2;
        Pair(ring[p[0]], p[1], p[|p| - 1]);
      }
    }
    assert Closed(ring, Elements(p)) by {
      forall x, y | x in Elements(p) && x in ring && y in ring[x] ensures y in Elements(p) {
        var i :| 0 <= i < |p| && p[i] == x;
        assert Seated(ring, p, i);
      }
    }
    assert Elements([p[0]]) <= Elements(p);
    assert CycleOf(ring, p);
  }
}
