/** What a full-text query answers, said of the documents alone. */
module Bm25Answers {
  import opened Orders
  import opened Texts
  import opened Bm25

  /** Some token of the query occurs in the document. */
  predicate Matches(documents: Documents, tokens: seq<string>, id: Id) {
    id in documents && exists i | 0 <= i < |tokens| :: tokens[i] in documents[id].counts
  }

  /** The query's tokens, each once, in byte order. */
  ghost predicate QueryTerms(tokens: seq<string>, terms: seq<string>) {
    && (forall i, j | 0 <= i < j < |terms| :: TextLess(terms[i], terms[j]))
    && forall t :: t in terms <==> t in tokens
  }

  /** How many documents hold the term. */
  function Frequency(documents: Documents, term: string): nat {
    |set id | id in documents && term in documents[id].counts|
  }

  /** The running score of a document, term by term: each query term it holds adds
      its weight, given the number of documents, the corpus length, how many
      documents hold the term, its count here and this document's length. */
  ghost predicate Accumulates(s: Scoring, documents: Documents, terms: seq<string>, id: Id, parts: seq<Score>)
    requires id in documents
  {
    && |parts| == |terms| + 1 && parts[0] == s.zero
    && forall i | 0 <= i < |terms| ::
         parts[i + 1]
           == if terms[i] in documents[id].counts then
                s.add(parts[i], s.contribution(|documents|, Sum(Lengths(documents)), Frequency(documents, terms[i]),
                                               documents[id].counts[terms[i]], documents[id].length))
              else parts[i]
  }

  ghost predicate Earns(s: Scoring, documents: Documents, terms: seq<string>, id: Id, score: Score) {
    id in documents && exists parts :: Accumulates(s, documents, terms, id, parts) && parts[|terms|] == score
  }

  ghost predicate Listed(r: seq<Hit>, id: Id) {
    exists i | 0 <= i < |r| :: r[i].id == id
  }

  predicate Outranks(a: Hit, b: Hit) {
    a.score > b.score || (a.score == b.score && a.id < b.id)
  }

  /** The document's own score puts it behind the hit. */
  ghost predicate Trails(s: Scoring, documents: Documents, terms: seq<string>, id: Id, hit: Hit) {
    exists score :: Earns(s, documents, terms, id, score) && Outranks(hit, Hit(id, score))
  }

  /** The `k` best of the documents that match, best first; who matches and is
      left out is behind everyone listed. */
  ghost predicate Ranks(s: Scoring, documents: Documents, tokens: seq<string>, terms: seq<string>, k: nat, r: seq<Hit>) {
    var matching := set id | id in documents && Matches(documents, tokens, id);
    && |r| == (if k <= |matching| then k else |matching|)
    && (forall i, j | 0 <= i < j < |r| :: Outranks(r[i], r[j]) && r[i].id != r[j].id)
    && (forall i | 0 <= i < |r| :: Matches(documents, tokens, r[i].id) && Earns(s, documents, terms, r[i].id, r[i].score))
    && forall id, i | Matches(documents, tokens, id) && !Listed(r, id) && 0 <= i < |r| ::
         Trails(s, documents, terms, id, r[i])
  }

  /** The score of `DirectScore`, term by term. */
  lemma {:induction false} ScoreEarned(s: Scoring, documents: Documents, terms: seq<string>, id: Id) returns (parts: seq<Score>)
    requires id in documents
    ensures Accumulates(s, documents, terms, id, parts)
    ensures parts[|terms|] == DirectScore(s, documents, Sum(Lengths(documents)), terms, id)
    decreases |terms|
  {
    if terms == [] {
      parts := [s.zero];
    } else {
      var front, term := terms[..|terms| - 1], terms[|terms| - 1];
      var before := ScoreEarned(s, documents, front, id);
      FrequencyIs(documents, term);
      parts := before + [DirectScore(s, documents, Sum(Lengths(documents)), terms, id)];
    }
  }

  lemma FrequencyIs(documents: Documents, term: string)
    ensures |Posting(documents, term)| == Frequency(documents, term)
  {
    assert Posting(documents, term).Keys == set id | id in documents && term in documents[id].counts;
    assert |Posting(documents, term).Keys| == |Posting(documents, term)|;
  }

  lemma TermsAre(tokens: seq<string>)
    ensures QueryTerms(tokens, TermsInOrder(Elements(tokens)))
  {
    var terms := TermsInOrder(Elements(tokens));
    hide TextLess;
    forall t ensures t in terms <==> t in tokens {
      assert t in terms <==> t in Elements(terms);
      assert t in tokens <==> t in Elements(tokens);
    }
  }

  lemma MatchesIs(documents: Documents, tokens: seq<string>, terms: seq<string>, id: Id)
    requires forall t :: t in terms <==> t in tokens
    ensures Matches(documents, tokens, id) <==> id in documents && HoldsAny(documents, terms, id)
  {
    if Matches(documents, tokens, id) {
      var i :| 0 <= i < |tokens| && tokens[i] in documents[id].counts;
      assert tokens[i] in terms;
      var j :| 0 <= j < |terms| && terms[j] == tokens[i];
    }
    if id in documents && HoldsAny(documents, terms, id) {
      var i :| 0 <= i < |terms| && terms[i] in documents[id].counts;
      assert terms[i] in tokens;
      var j :| 0 <= j < |tokens| && tokens[j] == terms[i];
    }
  }

  /** A hit names a matching document with its own score. */
  lemma HitIs(s: Scoring, documents: Documents, tokens: seq<string>, terms: seq<string>, h: Hit)
    requires forall t :: t in terms <==> t in tokens
    ensures h in Hits(s, documents, Sum(Lengths(documents)), terms)
      <==> Matches(documents, tokens, h.id) && h.score == DirectScore(s, documents, Sum(Lengths(documents)), terms, h.id)
  {
    hide HoldsAny, DirectScore, Matches;
    var id: Id := h.id;
    MatchesIs(documents, tokens, terms, id);
    if Matches(documents, tokens, id) && h.score == DirectScore(s, documents, Sum(Lengths(documents)), terms, id) {
      assert Hit(id, DirectScore(s, documents, Sum(Lengths(documents)), terms, id)) == h;
    }
  }

  lemma EarnsIs(s: Scoring, documents: Documents, terms: seq<string>, id: Id)
    requires id in documents
    ensures Earns(s, documents, terms, id, DirectScore(s, documents, Sum(Lengths(documents)), terms, id))
  {
    var parts := ScoreEarned(s, documents, terms, id);
    hide Accumulates;
  }

  /** The answer of an index ranks its documents by what they hold. */
  lemma AnswerIsRanked(s: Scoring, documents: Documents, tokens: seq<string>, k: nat)
    ensures exists terms ::
      QueryTerms(tokens, terms) && Ranks(s, documents, tokens, terms, k, DirectAnswer(s, documents, tokens, k, Sum(Lengths(documents))))
  {
    hide *;
    var total, terms := Sum(Lengths(documents)), TermsInOrder(Elements(tokens));
    var r := DirectAnswer(s, documents, tokens, k, total);
    TermsAre(tokens);
    SameTerms(tokens, terms);
    AnswerRanks(s, documents, tokens, k, total);
    MatchingIs(documents, tokens, terms);
    forall i, j | 0 <= i < j < |r| ensures Outranks(r[i], r[j]) && r[i].id != r[j].id {
      HitIs(s, documents, tokens, terms, r[i]);
      HitIs(s, documents, tokens, terms, r[j]);
      InOrder(r, i, j);
    }
    forall i | 0 <= i < |r| ensures Matches(documents, tokens, r[i].id) && Earns(s, documents, terms, r[i].id, r[i].score) {
      HitIs(s, documents, tokens, terms, r[i]);
      MatchesIs(documents, tokens, terms, r[i].id);
      EarnsIs(s, documents, terms, r[i].id);
    }
    forall id, i | Matches(documents, tokens, id) && !Listed(r, id) && 0 <= i < |r|
      ensures Trails(s, documents, terms, id, r[i])
    {
      MatchesIs(documents, tokens, terms, id);
      EarnsIs(s, documents, terms, id);
      var h := Hit(id, DirectScore(s, documents, total, terms, id));
      HitIs(s, documents, tokens, terms, h);
      NotListed(r, h);
      Behind(r[i], h);
      TrailsIs(s, documents, terms, id, r[i], h.score);
    }
    RanksIs(s, documents, tokens, terms, k, r);
  }

  lemma SameTerms(tokens: seq<string>, terms: seq<string>)
    requires QueryTerms(tokens, terms)
    ensures forall t :: t in terms <==> t in tokens
  {
    hide TextLess;
  }

  lemma MatchingIs(documents: Documents, tokens: seq<string>, terms: seq<string>)
    requires forall t :: t in terms <==> t in tokens
    ensures Matching(documents, terms) == set id | id in documents && Matches(documents, tokens, id)
  {
    hide HoldsAny, Matches;
    forall id | id in documents ensures HoldsAny(documents, terms, id) <==> Matches(documents, tokens, id) {
      MatchesIs(documents, tokens, terms, id);
    }
  }

  lemma InOrder(r: seq<Hit>, i: nat, j: nat)
    requires Ascends(Ahead, r) && i < j < |r|
    ensures Outranks(r[i], r[j])
    ensures r[i].id == r[j].id ==> r[i].score != r[j].score
  {
    assert Ahead(r[i], r[j]);
  }

  lemma NotListed(r: seq<Hit>, h: Hit)
    requires !Listed(r, h.id)
    ensures h !in r
  {
  }

  lemma Behind(g: Hit, h: Hit)
    ensures Ahead(g, h) <==> Outranks(g, h)
  {
  }

  lemma RanksIs(s: Scoring, documents: Documents, tokens: seq<string>, terms: seq<string>, k: nat, r: seq<Hit>)
    requires var matching := set id | id in documents && Matches(documents, tokens, id);
      |r| == (if k <= |matching| then k else |matching|)
    requires forall i, j | 0 <= i < j < |r| :: Outranks(r[i], r[j]) && r[i].id != r[j].id
    requires forall i | 0 <= i < |r| :: Matches(documents, tokens, r[i].id) && Earns(s, documents, terms, r[i].id, r[i].score)
    requires forall id, i | Matches(documents, tokens, id) && !Listed(r, id) && 0 <= i < |r| ::
      Trails(s, documents, terms, id, r[i])
    ensures Ranks(s, documents, tokens, terms, k, r)
  {
    hide Matches, Earns, Outranks, Listed, Trails;
  }

  lemma TrailsIs(s: Scoring, documents: Documents, terms: seq<string>, id: Id, hit: Hit, score: Score)
    requires Earns(s, documents, terms, id, score) && Outranks(hit, Hit(id, score))
    ensures Trails(s, documents, terms, id, hit)
  {
    hide Earns, Outranks;
  }
}
