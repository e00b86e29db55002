/** Reciprocal-rank fusion over exact reals. */
module Rrf {
  import opened Orders

  type Id = int

  /** One ranked result; fusion does not look at its own score. */
  datatype Hit = Hit(id: Id, score: real)

  type Ranking = seq<Hit>

  datatype Constant = Finite(value: real) | NotFinite

  datatype Fused = Fused(hits: seq<Hit>) | InvalidConstant

  function Ids(ranking: Ranking): set<Id> {
    set i | 0 <= i < |ranking| :: ranking[i].id
  }

  /** Where an id stands first. */
  function FirstRank(ranking: Ranking, id: Id): (rank: nat)
    requires id in Ids(ranking)
    ensures rank < |ranking| && ranking[rank].id == id && forall i | 0 <= i < rank :: ranking[i].id != id
  {
    if ranking[0].id == id then 0
    else
      assert forall i | 0 < i < |ranking| :: ranking[i] == ranking[1..][i - 1];
      1 + FirstRank(ranking[1..], id)
  }

  /** What one ranking adds for an id: only its best rank counts. */
  function Share(k: real, ranking: Ranking, id: Id): real
    requires k > 0.0
  {
    if id in Ids(ranking) then 1.0 / (k + FirstRank(ranking, id) as real + 1.0) else 0.0
  }

  function Score(k: real, rankings: seq<Ranking>, id: Id): real
    requires k > 0.0
  {
    if rankings == [] then 0.0
    else Score(k, rankings[..|rankings| - 1], id) + Share(k, rankings[|rankings| - 1], id)
  }

  function AllIds(rankings: seq<Ranking>): set<Id> {
    set i, j | 0 <= i < |rankings| && 0 <= j < |rankings[i]| :: rankings[i][j].id
  }

  /** Score descending, then id ascending. */
  predicate Ahead(a: Hit, b: Hit) {
    a.score > b.score || (a.score == b.score && a.id < b.id)
  }

  lemma AheadTotal()
    ensures StrictTotal(Ahead)
  {
  }

  function Hits(k: real, rankings: seq<Ranking>): set<Hit>
    requires k > 0.0
  {
    set id | id in AllIds(rankings) :: Hit(id, Score(k, rankings, id))
  }

  function HitsOf(scores: map<Id, real>): set<Hit> {
    set id | id in scores :: Hit(id, scores[id])
  }

  /** The ids of the first `n` results of a ranking. */
  function SeenIn(ranking: Ranking, n: nat): set<Id>
    requires n <= |ranking|
  {
    Ids(ranking[..n])
  }

  /** Scores after some whole rankings and part of the next. */
  ghost predicate Summed(k: real, rankings: seq<Ranking>, i: nat, n: nat, scores: map<Id, real>)
    requires k > 0.0 && i < |rankings| && n <= |rankings[i]|
  {
    && scores.Keys == AllIds(rankings[..i]) + SeenIn(rankings[i], n)
    && forall id | id in scores ::
         scores[id] == Score(k, rankings[..i], id) + if id in SeenIn(rankings[i], n) then Share(k, rankings[i], id) else 0.0
  }

  ghost predicate Totalled(k: real, rankings: seq<Ranking>, scores: map<Id, real>)
    requires k > 0.0
  {
    scores.Keys == AllIds(rankings) && forall id | id in scores :: scores[id] == Score(k, rankings, id)
  }

  /** Every id once, with the sum over the rankings of the reciprocal of its best
      rank in each, best first. */
  method Fuse(rankings: seq<Ranking>, k: real) returns (fused: seq<Hit>)
    requires k > 0.0
    ensures Ascends(Ahead, fused) && Elements(fused) == Hits(k, rankings)
  {
    var scores: map<Id, real> := map[];
    Nothing(k, rankings);
    for i := 0 to |rankings|
      invariant Totalled(k, rankings[..i], scores)
    {
      var ranking := rankings[i];
      var seen: set<Id> := {};
      RankingStarts(k, rankings, i, scores);
      for rank := 0 to |ranking|
        invariant seen == SeenIn(ranking, rank)
        invariant Summed(k, rankings, i, rank, scores)
      {
        var id := ranking[rank].id;
        SeenMore(ranking, rank);
        SumStep(k, rankings, i, rank, scores);
        hide Summed, Share, Score, SeenIn;
        if id !in seen {
          seen := seen + {id};
          var soFar := if id in scores then scores[id] else 0.0;
          scores := scores[id := soFar + 1.0 / (k + (rank as real + 1.0))];
        }
      }
      RankingEnds(k, rankings, i, scores);
    }
    assert rankings[..|rankings|] == rankings;
    AheadTotal();
    assert HitsOf(scores) == Hits(k, rankings);
    fused := Ascending(Ahead, HitsOf(scores));
  }

  /** The constant must be finite and positive. */
  method Rrf(rankings: seq<Ranking>, constant: Constant) returns (r: Fused)
    ensures r.InvalidConstant? <==> constant.NotFinite? || constant.value <= 0.0
    ensures r.Fused? ==> Ascends(Ahead, r.hits) && Elements(r.hits) == Hits(constant.value, rankings)
  {
    if constant.NotFinite? || constant.value <= 0.0 {
      return InvalidConstant;
    }
    var hits := Fuse(rankings, constant.value);
    r := Fused.Fused(hits);
  }

  lemma Nothing(k: real, rankings: seq<Ranking>)
    requires k > 0.0
    ensures Totalled(k, rankings[..0], map[])
  {
    assert AllIds(rankings[..0]) == {};
  }

  lemma RankingStarts(k: real, rankings: seq<Ranking>, i: nat, scores: map<Id, real>)
    requires k > 0.0 && i < |rankings| && Totalled(k, rankings[..i], scores)
    ensures SeenIn(rankings[i], 0) == {} && Summed(k, rankings, i, 0, scores)
  {
    hide Score, Share;
  }

  lemma SeenMore(ranking: Ranking, n: nat)
    requires n < |ranking|
    ensures SeenIn(ranking, n + 1) == SeenIn(ranking, n) + {ranking[n].id}
    ensures ranking[n].id in Ids(ranking)
    ensures ranking[n].id !in SeenIn(ranking, n) ==> FirstRank(ranking, ranking[n].id) == n
    ensures ranking[n].id in SeenIn(ranking, n) ==> SeenIn(ranking, n + 1) == SeenIn(ranking, n)
  {
    var now, before := ranking[..n + 1], ranking[..n];
    assert now == before + [ranking[n]];
    forall id ensures id in Ids(now) <==> id in Ids(before) || id == ranking[n].id {
      if id in Ids(before) {
        var i :| 0 <= i < |before| && before[i].id == id;
        assert now[i].id == id;
      }
      if id == ranking[n].id {
        assert now[n].id == id;
      }
    }
    var id := ranking[n].id;
    assert ranking[n].id in Ids(ranking);
    var first := FirstRank(ranking, id);
    if first < n {
      assert before[first].id == id;
    }
    assert first <= n;
  }

  lemma SumStep(k: real, rankings: seq<Ranking>, i: nat, rank: nat, scores: map<Id, real>)
    requires k > 0.0 && i < |rankings| && rank < |rankings[i]| && Summed(k, rankings, i, rank, scores)
    ensures var id := rankings[i][rank].id;
      var soFar := if id in scores then scores[id] else 0.0;
      Summed(k, rankings, i, rank + 1,
             if id in SeenIn(rankings[i], rank) then scores
             else scores[id := soFar + 1.0 / (k + (rank as real + 1.0))])
  {
    var ranking := rankings[i];
    var id := ranking[rank].id;
    SeenMore(ranking, rank);
    if id !in SeenIn(ranking, rank) {
      assert Share(k, ranking, id) == 1.0 / (k + (rank as real + 1.0));
      if id !in scores {
        Unlisted(k, rankings[..i], id);
      }
    }
    hide Score, Share, SeenIn, AllIds;
  }

  lemma {:induction false} Unlisted(k: real, rankings: seq<Ranking>, id: Id)
    requires k > 0.0 && id !in AllIds(rankings)
    ensures Score(k, rankings, id) == 0.0
  {
    if rankings != [] {
      var front, last := rankings[..|rankings| - 1], rankings[|rankings| - 1];
      AllIdsMore(rankings, |rankings| - 1);
      assert rankings[..|rankings|] == rankings;
      Unlisted(k, front, id);
    }
  }

  lemma AllIdsMore(rankings: seq<Ranking>, i: nat)
    requires i < |rankings|
    ensures AllIds(rankings[..i + 1]) == AllIds(rankings[..i]) + Ids(rankings[i])
  {
    var more, before := rankings[..i + 1], rankings[..i];
    forall id ensures id in AllIds(more) <==> id in AllIds(before) || id in Ids(rankings[i]) {
      if id in AllIds(before) {
        var a, b :| 0 <= a < |before| && 0 <= b < |before[a]| && before[a][b].id == id;
        assert more[a][b].id == id;
      }
      if id in Ids(rankings[i]) {
        var b :| 0 <= b < |rankings[i]| && rankings[i][b].id == id;
        assert more[i][b].id == id;
      }
      if id in AllIds(more) {
        var a, b :| 0 <= a < |more| && 0 <= b < |more[a]| && more[a][b].id == id;
        if a < i {
          assert before[a][b].id == id;
        }
      }
    }
  }

  lemma RankingEnds(k: real, rankings: seq<Ranking>, i: nat, scores: map<Id, real>)
    requires k > 0.0 && i < |rankings| && Summed(k, rankings, i, |rankings[i]|, scores)
    ensures Totalled(k, rankings[..i + 1], scores)
  {
    AllIdsMore(rankings, i);
    var ranking := rankings[i];
    assert ranking[..|ranking|] == ranking;
    assert rankings[..i + 1][..i] == rankings[..i];
    hide AllIds, Ids;
  }

  /** Best first settles the output: one set of hits has one arrangement. */
  lemma OneOutput(k: real, rankings: seq<Ranking>, a: seq<Hit>, b: seq<Hit>)
    requires k > 0.0
    requires Ascends(Ahead, a) && Elements(a) == Hits(k, rankings)
    requires Ascends(Ahead, b) && Elements(b) == Hits(k, rankings)
    ensures a == b
  {
    AheadTotal();
    hide Ahead, Hits;
    AscendsIsSorted(Ahead, a);
    AscendsOnce(Ahead, a, b);
  }

  lemma {:induction false} ScoreWithout(k: real, rankings: seq<Ranking>, j: nat, id: Id)
    requires k > 0.0 && j < |rankings|
    ensures Score(k, rankings, id) == Score(k, rankings[..j] + rankings[j + 1..], id) + Share(k, rankings[j], id)
    decreases |rankings|
  {
    hide Share;
    var n := |rankings| - 1;
    if j == n {
      assert rankings[..j] + rankings[j + 1..] == rankings[..n];
    } else {
      var front := rankings[..n];
      ScoreWithout(k, front, j, id);
      assert front[..j] == rankings[..j];
      var rest := rankings[..j] + rankings[j + 1..];
      assert rest[..|rest| - 1] == front[..j] + front[j + 1..];
    }
  }

  /** The order the rankings are listed in changes nothing: exact sums commute. */
  lemma {:induction false} ArrangementScore(k: real, rankings: seq<Ranking>, other: seq<Ranking>, id: Id)
    requires k > 0.0 && multiset(rankings) == multiset(other)
    ensures Score(k, rankings, id) == Score(k, other, id)
    decreases |rankings|
  {
    SameMembers(rankings, other);
    if rankings != [] {
      hide Share, Score;
      var n := |rankings| - 1;
      var last := rankings[n];
      assert last in Elements(rankings) && last in Elements(other);
      var j :| 0 <= j < |other| && other[j] == last;
      Leaving(other, j);
      Leaving(rankings, n);
      assert rankings[..n] + rankings[n + 1..] == rankings[..n];
      ArrangementScore(k, rankings[..n], other[..j] + other[j + 1..], id);
      ScoreWithout(k, other, j, id);
      ScoreWithout(k, rankings, n, id);
    }
  }

  lemma Leaving(rankings: seq<Ranking>, j: nat)
    requires j < |rankings|
    ensures multiset(rankings[..j] + rankings[j + 1..]) == multiset(rankings) - multiset{rankings[j]}
  {
    assert rankings == rankings[..j] + [rankings[j]] + rankings[j + 1..];
  }

  lemma Arrangement(k: real, rankings: seq<Ranking>, other: seq<Ranking>)
    requires k > 0.0 && multiset(rankings) == multiset(other)
    ensures Hits(k, rankings) == Hits(k, other)
  {
    SameMembers(rankings, other);
    forall id ensures id in AllIds(rankings) <==> id in AllIds(other) {
      ListedIn(rankings, other, id);
      ListedIn(other, rankings, id);
    }
    forall id ensures Score(k, rankings, id) == Score(k, other, id) {
      ArrangementScore(k, rankings, other, id);
    }
    hide Score, AllIds;
    assert AllIds(rankings) == AllIds(other);
  }

  lemma ListedIn(rankings: seq<Ranking>, other: seq<Ranking>, id: Id)
    requires Elements(rankings) == Elements(other)
    ensures id in AllIds(rankings) ==> id in AllIds(other)
  {
    if id in AllIds(rankings) {
      var i, j :| 0 <= i < |rankings| && 0 <= j < |rankings[i]| && rankings[i][j].id == id;
      assert rankings[i] in Elements(other);
      var a :| 0 <= a < |other| && other[a] == rankings[i];
      assert other[a][j].id == id;
    }
  }

  // ---------- said of the rankings alone ----------

  /** What one ranking does to an id's sum: the reciprocal of the constant plus
      its first one-based rank, or nothing. */
  ghost predicate Adds(k: real, ranking: Ranking, id: Id, before: real, after: real)
    requires k > 0.0
  {
    || ((forall p | 0 <= p < |ranking| :: ranking[p].id != id) && after == before)
    || exists p | 0 <= p < |ranking| ::
         && ranking[p].id == id && (forall q | 0 <= q < p :: ranking[q].id != id)
         && after == before + 1.0 / (k + (p + 1) as real)
  }

  ghost predicate Earns(k: real, rankings: seq<Ranking>, id: Id, score: real)
    requires k > 0.0
  {
    exists parts: seq<real> ::
      && |parts| == |rankings| + 1 && parts[0] == 0.0 && parts[|rankings|] == score
      && forall i | 0 <= i < |rankings| :: Adds(k, rankings[i], id, parts[i], parts[i + 1])
  }

  ghost predicate Appears(rankings: seq<Ranking>, id: Id) {
    exists i, p :: 0 <= i < |rankings| && 0 <= p < |rankings[i]| && rankings[i][p].id == id
  }

  /** Every id that appears, once, with its sum, highest first and ties by id. */
  ghost predicate Fuses(k: real, rankings: seq<Ranking>, fused: seq<Hit>)
    requires k > 0.0
  {
    && (forall i, j | 0 <= i < j < |fused| ::
          fused[i].id != fused[j].id
          && (fused[i].score > fused[j].score || (fused[i].score == fused[j].score && fused[i].id < fused[j].id)))
    && (forall i | 0 <= i < |fused| :: Appears(rankings, fused[i].id) && Earns(k, rankings, fused[i].id, fused[i].score))
    && forall id | Appears(rankings, id) :: exists i | 0 <= i < |fused| :: fused[i].id == id
  }

  lemma ShareAdds(k: real, ranking: Ranking, id: Id, before: real)
    requires k > 0.0
    ensures Adds(k, ranking, id, before, before + Share(k, ranking, id))
  {
    if id in Ids(ranking) {
      var p := FirstRank(ranking, id);
      var rank := k + (p + 1) as real;
      assert rank == k + p as real + 1.0;
      assert Share(k, ranking, id) == 1.0 / rank;
      hide Share, FirstRank;
    }
  }

  lemma {:induction false} ScoreEarned(k: real, rankings: seq<Ranking>, id: Id) returns (parts: seq<real>)
    requires k > 0.0
    ensures |parts| == |rankings| + 1 && parts[0] == 0.0 && parts[|rankings|] == Score(k, rankings, id)
    ensures forall i | 0 <= i < |rankings| :: Adds(k, rankings[i], id, parts[i], parts[i + 1])
    decreases |rankings|
  {
    hide Adds, Share;
    if rankings == [] {
      parts := [0.0];
    } else {
      var front, last := rankings[..|rankings| - 1], rankings[|rankings| - 1];
      var before := ScoreEarned(k, front, id);
      ShareAdds(k, last, id, Score(k, front, id));
      parts := before + [Score(k, rankings, id)];
      forall i | 0 <= i < |rankings| ensures Adds(k, rankings[i], id, parts[i], parts[i + 1]) {
        if i < |front| {
          assert Adds(k, front[i], id, before[i], before[i + 1]);
        }
      }
    }
  }

  lemma AppearsIs(rankings: seq<Ranking>, id: Id)
    ensures Appears(rankings, id) <==> id in AllIds(rankings)
  {
  }

  /** What `Fuse` returns, read off the rankings. */
  lemma FusedMeans(k: real, rankings: seq<Ranking>, fused: seq<Hit>)
    requires k > 0.0 && Ascends(Ahead, fused) && Elements(fused) == Hits(k, rankings)
    ensures Fuses(k, rankings, fused)
  {
    hide Score, AllIds, Adds, Appears, Earns;
    forall i | 0 <= i < |fused|
      ensures Appears(rankings, fused[i].id) && Earns(k, rankings, fused[i].id, fused[i].score)
      ensures fused[i].score == Score(k, rankings, fused[i].id)
    {
      assert fused[i] in Elements(fused);
      AppearsIs(rankings, fused[i].id);
      EarnsScore(k, rankings, fused[i].id);
    }
    forall i, j | 0 <= i < j < |fused|
      ensures fused[i].id != fused[j].id
      ensures fused[i].score > fused[j].score || (fused[i].score == fused[j].score && fused[i].id < fused[j].id)
    {
      assert Ahead(fused[i], fused[j]);
    }
    forall id | Appears(rankings, id) ensures exists i | 0 <= i < |fused| :: fused[i].id == id {
      AppearsIs(rankings, id);
      assert Hit(id, Score(k, rankings, id)) in Elements(fused);
    }
  }

  lemma EarnsScore(k: real, rankings: seq<Ranking>, id: Id)
    requires k > 0.0
    ensures Earns(k, rankings, id, Score(k, rankings, id))
  {
    var parts := ScoreEarned(k, rankings, id);
    hide Score, Adds;
  }
}
