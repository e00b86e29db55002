/** Strict orders and the sorted sequences the engines, the validator and the
    encoder rely on for reproducible results. */
module Orders {

  ghost predicate StrictOrder<T(!new)>(lt: (T, T) -> bool) {
    && (forall a :: !lt(a, a))
    && (forall a, b, c :: lt(a, b) && lt(b, c) ==> lt(a, c))
  }

  ghost predicate StrictTotal<T(!new)>(lt: (T, T) -> bool) {
    && StrictOrder(lt)
    && forall a, b :: a == b || lt(a, b) || lt(b, a)
  }

  /** No later element is before an earlier one; equal ranks may repeat. */
  ghost predicate Sorted<T>(lt: (T, T) -> bool, s: seq<T>) {
    forall i, j | 0 <= i < j < |s| :: !lt(s[j], s[i])
  }

  /** Every element is strictly before every later one. */
  ghost predicate Ascends<T>(lt: (T, T) -> bool, s: seq<T>) {
    forall i, j | 0 <= i < j < |s| :: lt(s[i], s[j])
  }

  ghost predicate Distinct<T>(s: seq<T>) {
    forall i, j | 0 <= i < j < |s| :: s[i] != s[j]
  }

  function Elements<T>(s: seq<T>): set<T> {
    set x | x in s
  }

  /** Puts `x` after every element of a sorted `s` that is not after it. */
  function Place<T(!new)>(lt: (T, T) -> bool, x: T, s: seq<T>): (r: seq<T>)
    requires StrictOrder(lt) && Sorted(lt, s)
    ensures Sorted(lt, r) && multiset(r) == multiset(s) + multiset{x}
    ensures |r| == |s| + 1
  {
    if s == [] || lt(x, s[0]) then [x] + s
    else
      var rest := Place(lt, x, s[1..]);
      PlacedAfter(lt, x, s, rest);
      [s[0]] + rest
  }

  lemma PlacedAfter<T(!new)>(lt: (T, T) -> bool, x: T, s: seq<T>, rest: seq<T>)
    requires StrictOrder(lt) && s != [] && Sorted(lt, s) && !lt(x, s[0])
    requires Sorted(lt, rest) && multiset(rest) == multiset(s[1..]) + multiset{x}
    ensures Sorted(lt, [s[0]] + rest)
    ensures multiset([s[0]] + rest) == multiset(s) + multiset{x}
  {
    assert s == [s[0]] + s[1..];
    forall z | z in rest ensures !lt(z, s[0]) {
      assert z in multiset(rest);
    }
  }

  /** The stable insertion sort of `s`. */
  function Sort<T(!new)>(lt: (T, T) -> bool, s: seq<T>): (r: seq<T>)
    requires StrictOrder(lt)
    ensures Sorted(lt, r) && multiset(r) == multiset(s) && |r| == |s|
  {
    if s == [] then []
    else
      assert s == s[..|s| - 1] + [s[|s| - 1]];
      Place(lt, s[|s| - 1], Sort(lt, s[..|s| - 1]))
  }

  lemma SameMembers<T>(a: seq<T>, b: seq<T>)
    requires multiset(a) == multiset(b)
    ensures |a| == |b| && Elements(a) == Elements(b)
    ensures Distinct(a) ==> Distinct(b)
  {
    assert |multiset(a)| == |a| && |multiset(b)| == |b|;
    forall x ensures x in a <==> x in b {
      assert x in a <==> x in multiset(a);
      assert x in b <==> x in multiset(b);
    }
    if Distinct(a) {
      DistinctIsCounted(a);
      DistinctIsCounted(b);
    }
  }

  lemma {:induction false} DistinctIsCounted<T>(s: seq<T>)
    ensures Distinct(s) <==> forall x | x in s :: multiset(s)[x] == 1
  {
    if s != [] {
      var front, last := s[..|s| - 1], s[|s| - 1];
      assert s == front + [last];
      DistinctIsCounted(front);
      if Distinct(s) {
        assert last !in front;
      } else if Distinct(front) {
        assert last in front;
        assert multiset(s)[last] >= 2;
      } else {
        var x :| x in front && multiset(front)[x] != 1;
        assert multiset(front)[x] >= 1;
        assert multiset(s)[x] > 1;
      }
    }
  }

  lemma {:induction false} DistinctSize<T>(s: seq<T>)
    requires Distinct(s)
    ensures |Elements(s)| == |s|
  {
    if s != [] {
      var front, last := s[..|s| - 1], s[|s| - 1];
      assert s == front + [last];
      DistinctSize(front);
      assert Elements(s) == Elements(front) + {last};
    }
  }

  /** A sequence has one sorted arrangement when no two different elements tie. */
  lemma {:induction false} SortedOnce<T(!new)>(lt: (T, T) -> bool, a: seq<T>, b: seq<T>)
    requires StrictOrder(lt) && Sorted(lt, a) && Sorted(lt, b)
    requires multiset(a) == multiset(b)
    requires forall x, y | x in a && y in a :: x == y || lt(x, y) || lt(y, x)
    ensures a == b
  {
    SameMembers(a, b);
    if a != [] {
      SameFirst(lt, a, b);
      DropFirst(a);
      DropFirst(b);
      assert forall x | x in a[1..] :: x in a;
      SortedOnce(lt, a[1..], b[1..]);
    }
  }

  lemma DropFirst<T>(a: seq<T>)
    requires a != []
    ensures multiset(a[1..]) == multiset(a) - multiset{a[0]} && a == [a[0]] + a[1..]
  {
    assert a == [a[0]] + a[1..];
  }

  lemma SameFirst<T(!new)>(lt: (T, T) -> bool, a: seq<T>, b: seq<T>)
    requires StrictOrder(lt) && Sorted(lt, a) && Sorted(lt, b)
    requires a != [] && b != [] && Elements(a) == Elements(b)
    requires forall x, y | x in a && y in a :: x == y || lt(x, y) || lt(y, x)
    ensures a[0] == b[0]
  {
    assert a[0] in Elements(b) && b[0] in Elements(a);
    var i :| 0 <= i < |b| && b[i] == a[0];
    var j :| 0 <= j < |a| && a[j] == b[0];
  }

  /** The first element of a non-empty set. */
  function Least<T(!new)>(lt: (T, T) -> bool, s: set<T>): (least: T)
    requires StrictTotal(lt) && s != {}
    ensures least in s && forall x | x in s :: x == least || lt(least, x)
  {
    LeastExists(lt, s);
    var least :| least in s && forall x | x in s :: x == least || lt(least, x);
    least
  }

  lemma LeastExists<T(!new)>(lt: (T, T) -> bool, s: set<T>)
    requires StrictTotal(lt) && s != {}
    ensures exists least :: least in s && forall x | x in s :: x == least || lt(least, x)
  {
    var least := LeastOf(lt, s);
  }

  lemma {:induction false} LeastOf<T(!new)>(lt: (T, T) -> bool, s: set<T>) returns (least: T)
    requires StrictTotal(lt) && s != {}
    ensures least in s && forall x | x in s :: x == least || lt(least, x)
  {
    var y :| y in s;
    var rest := s - {y};
    least := y;
    if rest != {} {
      var m := LeastOf(lt, rest);
      least := if lt(y, m) then y else m;
    }
    forall x | x in s ensures x == least || lt(least, x) {
      assert x == y || x in rest;
    }
  }

  /** The elements of `s`, first to last: how an ordered set iterates. */
  function Ascending<T(!new)>(lt: (T, T) -> bool, s: set<T>): (r: seq<T>)
    requires StrictTotal(lt)
    ensures Ascends(lt, r) && Elements(r) == s && |r| == |s|
  {
    if s == {} then []
    else
      var least := Least(lt, s);
      var rest := Ascending(lt, s - {least});
      assert Elements([least] + rest) == s by {
        assert forall x :: x in [least] + rest <==> x == least || x in rest;
        assert forall x :: x in rest <==> x in Elements(rest);
      }
      assert forall x | x in rest :: x in Elements(rest);
      [least] + rest
  }

  lemma AscendsIsSorted<T(!new)>(lt: (T, T) -> bool, s: seq<T>)
    requires StrictOrder(lt) && Ascends(lt, s)
    ensures Sorted(lt, s) && Distinct(s)
  {
  }

  /** Sorting a repeat-free sequence lists its elements first to last. */
  lemma SortAscends<T(!new)>(lt: (T, T) -> bool, s: seq<T>)
    requires StrictTotal(lt) && Distinct(s)
    ensures Ascends(lt, Sort(lt, s)) && Sort(lt, s) == Ascending(lt, Elements(s))
  {
    var r := Sort(lt, s);
    SameMembers(s, r);
    AscendsOnce(lt, r, Ascending(lt, Elements(s)));
  }

  /** A set has one strictly ascending arrangement. */
  lemma {:induction false} AscendsOnce<T(!new)>(lt: (T, T) -> bool, a: seq<T>, b: seq<T>)
    requires StrictTotal(lt) && Sorted(lt, a) && Distinct(a) && Ascends(lt, b)
    requires Elements(a) == Elements(b)
    ensures a == b
  {
    AscendsIsSorted(lt, b);
    assert multiset(a) == multiset(b) by {
      DistinctIsCounted(a);
      DistinctIsCounted(b);
      forall x ensures multiset(a)[x] == multiset(b)[x] {
        assert x in a <==> x in Elements(a);
        assert x in b <==> x in Elements(b);
      }
    }
    SortedOnce(lt, a, b);
  }
}
