/** The BM25 index: documents with their term counts, postings and the corpus
    length kept beside them, and ranked queries over the postings. */
module Bm25 {
  import opened Options
  import opened Orders
  import opened Texts
  import Records

  type Id = int
  type Terms = map<string, nat>
  type Postings = map<string, map<Id, nat>>

  /** The largest usize. */
  const USIZE_MAX: nat := 0xffff_ffff_ffff_ffff

  datatype DocumentTerms = DocumentTerms(counts: Terms, length: nat)

  type Documents = map<Id, DocumentTerms>

  /** Scores by their place in the total order of f32; `contribution` is one
      term's weight in one document, given the number of documents, the corpus
      length, how many documents hold the term, its count in this one, and this
      one's length. */
  type Score = int

  datatype Scoring = Scoring(zero: Score, add: (Score, Score) -> Score, contribution: (nat, nat, nat, nat, nat) -> Score)

  datatype Hit = Hit(id: Id, score: Score)

  datatype Raw = Raw(config: Records.FtsConfig, documents: Documents, postings: Postings, total: nat)

  // ---------- sums ----------

  ghost function Sum<K(!new)>(m: map<K, nat>): nat
    decreases |m|
  {
    if m == map[] then 0
    else
      var k :| k in m;
      m[k] + Sum(m - {k})
  }

  lemma {:induction false} SumWithout<K(!new)>(m: map<K, nat>, k: K)
    requires k in m
    ensures Sum(m) == m[k] + Sum(m - {k})
    decreases |m|
  {
    var j :| j in m && Sum(m) == m[j] + Sum(m - {j});
    if j != k {
      SumWithout(m - {j}, k);
      SumWithout(m - {k}, j);
      assert m - {j} - {k} == m - {k} - {j};
    }
  }

  lemma SumWith<K(!new)>(m: map<K, nat>, k: K, v: nat)
    requires k !in m
    ensures Sum(m[k := v]) == Sum(m) + v
  {
    SumWithout(m[k := v], k);
    assert m[k := v] - {k} == m;
  }

  lemma SumChanged<K(!new)>(m: map<K, nat>, k: K, v: nat)
    requires k in m
    ensures Sum(m[k := v]) + m[k] == Sum(m) + v
  {
    SumWithout(m, k);
    SumWith(m - {k}, k, v);
    assert (m - {k})[k := v] == m[k := v];
  }

  lemma AnyKey<K, V>(m: map<K, V>) returns (k: K)
    requires m != map[]
    ensures k in m
  {
    assert m.Keys != {};
    k :| k in m.Keys;
  }

  // ---------- what the index should hold ----------

  function Lengths(documents: Documents): map<Id, nat> {
    map id | id in documents :: documents[id].length
  }

  /** A document's terms are non-empty, occur, and add up to its length. */
  ghost predicate DocumentOk(d: DocumentTerms) {
    (forall t | t in d.counts :: t != "" && d.counts[t] > 0) && Sum(d.counts) == d.length
  }

  predicate Has(documents: Documents, id: Id, term: string) {
    id in documents && term in documents[id].counts
  }

  /** The documents that hold a term, with its count in each. */
  function Posting(documents: Documents, term: string): map<Id, nat> {
    map id | id in documents && term in documents[id].counts :: documents[id].counts[term]
  }

  ghost predicate Occurs(documents: Documents, term: string) {
    exists id :: Has(documents, id, term)
  }

  /** The postings are the exact transpose of the documents: a term has a
      posting when some document holds it, and never an empty one. */
  ghost predicate Transposed(documents: Documents, postings: Postings) {
    forall term :: PostedRight(documents, postings, term)
  }

  ghost predicate PostedRight(documents: Documents, postings: Postings, term: string) {
    && (term in postings <==> Occurs(documents, term))
    && (term in postings ==> postings[term] == Posting(documents, term))
  }

  ghost predicate Agree(documents: Documents, postings: Postings, total: nat) {
    && (forall id | id in documents :: DocumentOk(documents[id]))
    && Transposed(documents, postings)
    && total == Sum(Lengths(documents))
  }

  /** One set of documents has one set of postings. */
  lemma OneTranspose(documents: Documents, p: Postings, q: Postings)
    requires Transposed(documents, p) && Transposed(documents, q)
    ensures p == q
  {
    hide Posting, Occurs;
    forall t ensures t in p <==> t in q {
      assert PostedRight(documents, p, t) && PostedRight(documents, q, t);
    }
    forall t | t in p ensures p[t] == q[t] {
      assert PostedRight(documents, p, t) && PostedRight(documents, q, t);
    }
    assert p.Keys == q.Keys;
  }

  // ---------- ranked queries ----------

  function TermsInOrder(terms: set<string>): (r: seq<string>)
    ensures Ascends(TextLess, r) && Elements(r) == terms
  {
    TextTotal();
    Ascending(TextLess, terms)
  }

  predicate IdLess(a: Id, b: Id) {
    a < b
  }

  function IdsInOrder(ids: set<Id>): (r: seq<Id>)
    ensures Ascends(IdLess, r) && Elements(r) == ids && |r| == |ids|
    ensures forall id | id in r :: id in ids
  {
    assert StrictTotal(IdLess);
    var r := Ascending(IdLess, ids);
    assert forall id | id in r :: id in Elements(r);
    r
  }

  /** Score descending, then id ascending. */
  predicate Ahead(a: Hit, b: Hit) {
    a.score > b.score || (a.score == b.score && a.id < b.id)
  }

  /** A document's score from its own counts, over the query's terms in order. */
  function DirectScore(s: Scoring, documents: Documents, total: nat, terms: seq<string>, id: Id): Score
    requires id in documents
  {
    if terms == [] then s.zero
    else
      var front, term := DirectScore(s, documents, total, terms[..|terms| - 1], id), terms[|terms| - 1];
      if term !in documents[id].counts then front
      else
        s.add(front, s.contribution(|documents|, total, |Posting(documents, term)|, documents[id].counts[term],
                                    documents[id].length))
  }

  /** The documents that hold at least one of the terms. */
  predicate HoldsAny(documents: Documents, terms: seq<string>, id: Id) {
    id in documents && exists i | 0 <= i < |terms| :: terms[i] in documents[id].counts
  }

  function Matching(documents: Documents, terms: seq<string>): set<Id> {
    set id | id in documents && HoldsAny(documents, terms, id)
  }

  function Hits(s: Scoring, documents: Documents, total: nat, terms: seq<string>): set<Hit> {
    set id | id in documents && HoldsAny(documents, terms, id) :: Hit(id, DirectScore(s, documents, total, terms, id))
  }

  lemma AheadTotal()
    ensures StrictTotal(Ahead)
  {
  }

  function Best(hits: set<Hit>, k: nat): (r: seq<Hit>)
  {
    AheadTotal();
    var ranked := Ascending(Ahead, hits);
    if |ranked| <= k then ranked else ranked[..k]
  }

  /** What a query answers: every document scored directly, best first. */
  function DirectAnswer(s: Scoring, documents: Documents, query: seq<string>, k: nat, total: nat): seq<Hit> {
    Best(Hits(s, documents, total, TermsInOrder(Elements(query))), k)
  }

  datatype Answer = Answered(hits: seq<Hit>) | Unsupported

  // ---------- the index ----------

  class Index {
    const config: Records.FtsConfig
    var documents: Documents
    var postings: Postings
    var total: nat

    /** An index of an unsupported pipeline stays empty. */
    ghost predicate Valid()
      reads this
    {
      Agree(documents, postings, total) && (documents != map[] ==> Records.SimplePipeline(config))
    }

    constructor (config: Records.FtsConfig)
      ensures Valid() && documents == map[] && this.config == config
    {
      this.config := config;
      documents, postings, total := map[], map[], 0;
      new;
      EmptyAgrees();
    }

    /** The number removed never exceeds the total: the saturating subtraction
        is exact. */
    method RemoveDocument(id: Id)
      requires Agree(documents, postings, total)
      modifies this`documents, this`postings, this`total
      ensures Agree(documents, postings, total) && documents == old(documents) - {id}
      ensures total == old(total) - if id in old(documents) then old(documents)[id].length else 0
    {
      hide *;
      if id !in documents {
        NothingRemoved(documents, id);
        return;
      }
      ghost var before := documents;
      var document := documents[id];
      AgreeParts(documents, postings, total);
      TotalWithout(before, id);
      documents := documents - {id};
      SubtractionExact(total, document.length);
      total := SaturatingSub(total, document.length);
      var terms := TermsInOrder(document.counts.Keys);
      RemovalStarts(before, postings, id, terms);
      for i := 0 to |terms|
        invariant Removing(before, postings, id, terms[..i])
        invariant documents == before - {id} && total == Sum(Lengths(before - {id}))
      {
        var term := terms[i];
        RemovalStep(before, postings, id, terms, i);
        if term in postings {
          var posting := postings[term] - {id};
          if posting == map[] {
            postings := postings - {term};
          } else {
            postings := postings[term := posting];
          }
        }
      }
      assert terms[..|terms|] == terms;
      RemovalEnds(before, postings, id, terms);
      AgreeWithout(before, postings, id, total);
    }

    method InsertDocument(id: Id, document: DocumentTerms)
      requires Agree(documents, postings, total) && id !in documents && DocumentOk(document)
      modifies this`documents, this`postings, this`total
      ensures Agree(documents, postings, total)
      ensures documents == old(documents)[id := document] && total == old(total) + document.length
    {
      hide *;
      ghost var before := documents;
      AgreeParts(documents, postings, total);
      TotalWith(before, id, document);
      total := total + document.length;
      var terms := TermsInOrder(document.counts.Keys);
      InsertionStarts(before, postings, id, document, terms);
      for i := 0 to |terms|
        invariant Inserting(before, postings, id, document, terms[..i])
        invariant documents == before && total == Sum(Lengths(before[id := document]))
      {
        var term := terms[i];
        InsertionStep(before, postings, id, document, terms, i);
        var posting := if term in postings then postings[term] else map[];
        postings := postings[term := posting[id := document.counts[term]]];
      }
      assert terms[..|terms|] == terms;
      InsertionEnds(before, postings, id, document, terms);
      documents := documents[id := document];
      AgreeWith(before, postings, id, document, total);
    }

    /** `tokens` is what the pipeline makes of the document's text. */
    method Insert(id: Id, tokens: seq<string>) returns (unsupported: bool)
      requires Valid() && forall t | t in tokens :: t != ""
      modifies this`documents, this`postings, this`total
      ensures Valid()
      ensures unsupported <==> !Records.SimplePipeline(config)
      ensures unsupported ==> documents == old(documents) && postings == old(postings) && total == old(total)
      ensures !unsupported ==> documents == old(documents)[id := CountTerms(tokens)]
    {
      if !Records.SimplePipeline(config) {
        return true;
      }
      var document := DocumentTermsOf(tokens);
      TermsCounted(tokens);
      hide DocumentOk, CountTerms;
      RemoveDocument(id);
      assert (old(documents) - {id})[id := document] == old(documents)[id := document];
      InsertDocument(id, document);
      unsupported := false;
    }

    method Remove(id: Id) returns (unsupported: bool)
      requires Valid()
      modifies this`documents, this`postings, this`total
      ensures Valid()
      ensures unsupported <==> !Records.SimplePipeline(config)
      ensures unsupported ==> documents == old(documents) && postings == old(postings) && total == old(total)
      ensures !unsupported ==> documents == old(documents) - {id}
    {
      if !Records.SimplePipeline(config) {
        return true;
      }
      RemoveDocument(id);
      unsupported := false;
    }

    /** Adds one term's contribution to every document of its posting. */
    method AddTerm(s: Scoring, terms: seq<string>, i: nat, before: map<Id, Score>) returns (scores: map<Id, Score>)
      requires i < |terms| && terms[i] in postings && postings[terms[i]] == Posting(documents, terms[i])
      requires Scored(s, documents, total, terms[..i], before)
      ensures Scored(s, documents, total, terms[..i + 1], scores)
    {
      hide *;
      var posting := postings[terms[i]];
      var ids := IdsInOrder(posting.Keys);
      scores := before;
      ScoringStarts(s, documents, total, terms, i, scores, ids);
      for j := 0 to |ids|
        invariant ScoringOn(s, documents, total, terms, i, before, scores, ids[..j])
      {
        var id := ids[j];
        ScoringStep(s, documents, total, terms, i, before, scores, ids, j);
        if id in documents {
          var document := documents[id];
          var contribution := s.contribution(|documents|, total, |posting|, posting[id], document.length);
          scores := scores[id := s.add(if id in scores then scores[id] else s.zero, contribution)];
        }
      }
      assert ids[..|ids|] == ids;
      ScoringEnds(s, documents, total, terms, i, before, scores, ids);
    }

    /** The postings alone rank exactly the documents that hold a query term, each
        with the score its own counts give it. */
    method Query(s: Scoring, tokens: seq<string>, k: nat) returns (answer: Answer)
      requires Valid()
      ensures answer == if !Records.SimplePipeline(config) then Unsupported
                        else Answered(DirectAnswer(s, documents, tokens, k, total))
    {
      if !Records.SimplePipeline(config) {
        return Unsupported;
      }
      AgreeParts(documents, postings, total);
      hide *;
      if k == 0 || documents == map[] {
        NothingAnswered(s, documents, tokens, k, total);
        return Answered([]);
      }
      var terms := TermsInOrder(Elements(tokens));
      var scores: map<Id, Score> := map[];
      ScoresStart(s, documents, total, terms);
      for i := 0 to |terms|
        invariant Scored(s, documents, total, terms[..i], scores)
      {
        PostingOf(documents, postings, terms[i]);
        NextTerm(s, documents, total, terms, i, scores);
        if terms[i] in postings {
          scores := AddTerm(s, terms, i, scores);
        }
      }
      assert terms[..|terms|] == terms;
      ScoresAreHits(s, documents, total, terms, scores);
      AnswerIs(s, documents, tokens, k, total);
      answer := Answered(Best(HitsOf(scores), k));
    }
  }

  // ---------- removing ----------

  function SaturatingSub(a: nat, b: nat): nat {
    if a >= b then a - b else 0
  }

  lemma SubtractionExact(a: nat, b: nat)
    ensures a >= b ==> SaturatingSub(a, b) == a - b
  {
  }

  lemma EmptyAgrees()
    ensures Agree(map[], map[], 0)
  {
    assert Lengths(map[]) == map[];
  }

  lemma AgreeParts(documents: Documents, postings: Postings, total: nat)
    requires Agree(documents, postings, total)
    ensures forall id | id in documents :: DocumentOk(documents[id])
    ensures Transposed(documents, postings) && total == Sum(Lengths(documents))
  {
    hide DocumentOk, Transposed, Lengths;
  }

  lemma NothingRemoved(documents: Documents, id: Id)
    requires id !in documents
    ensures documents - {id} == documents
  {
  }

  lemma TotalWithout(documents: Documents, id: Id)
    requires id in documents
    ensures Sum(Lengths(documents)) == documents[id].length + Sum(Lengths(documents - {id}))
  {
    SumWithout(Lengths(documents), id);
    assert Lengths(documents) - {id} == Lengths(documents - {id});
  }

  lemma TotalWith(documents: Documents, id: Id, document: DocumentTerms)
    requires id !in documents
    ensures Sum(Lengths(documents[id := document])) == Sum(Lengths(documents)) + document.length
  {
    SumWith(Lengths(documents), id, document.length);
    assert Lengths(documents)[id := document.length] == Lengths(documents[id := document]);
  }

  /** The terms already taken are posted without the document. */
  ghost predicate Removing(before: Documents, postings: Postings, id: Id, done: seq<string>) {
    forall term :: PostedRight(if term in done then before - {id} else before, postings, term)
  }

  lemma RemovalStarts(before: Documents, postings: Postings, id: Id, terms: seq<string>)
    requires Transposed(before, postings)
    ensures Removing(before, postings, id, terms[..0])
  {
    hide PostedRight;
  }

  function Dropped(postings: Postings, term: string, id: Id): Postings {
    if term !in postings then postings
    else if postings[term] - {id} == map[] then postings - {term}
    else postings[term := postings[term] - {id}]
  }

  lemma RemovalStep(before: Documents, postings: Postings, id: Id, terms: seq<string>, i: nat)
    requires id in before && i < |terms| && Elements(terms) == before[id].counts.Keys && Ascends(TextLess, terms)
    requires Removing(before, postings, id, terms[..i])
    ensures Removing(before, Dropped(postings, terms[i], id), id, terms[..i + 1])
    ensures terms[i] in postings
    ensures Dropped(postings, terms[i], id)
      == if postings[terms[i]] - {id} == map[] then postings - {terms[i]} else postings[terms[i] := postings[terms[i]] - {id}]
  {
    hide TextLess, Posting, Occurs;
    var term, after := terms[i], Dropped(postings, terms[i], id);
    assert terms[i] in Elements(terms);
    assert terms[i] !in terms[..i] by {
      TextIrreflexive(terms[i]);
    }
    assert PostedRight(before, postings, term);
    assert Has(before, id, term);
    PostingLess(before, id, term);
    var done, doneNow := terms[..i], terms[..i + 1];
    forall t ensures PostedRight(if t in doneNow then before - {id} else before, after, t) {
      assert PostedRight(if t in done then before - {id} else before, postings, t);
      assert t in doneNow <==> t in done || t == term;
    }
  }

  lemma PostingLess(documents: Documents, id: Id, term: string)
    requires Has(documents, id, term)
    ensures Occurs(documents, term)
    ensures Posting(documents - {id}, term) == Posting(documents, term) - {id}
    ensures Occurs(documents - {id}, term) <==> Posting(documents, term) - {id} != map[]
  {
    var less := Posting(documents, term) - {id};
    if Occurs(documents - {id}, term) {
      var j :| Has(documents - {id}, j, term);
      assert j in less;
    }
    if less != map[] {
      var j := AnyKey(less);
      assert Has(documents - {id}, j, term);
    }
  }

  lemma RemovalEnds(before: Documents, postings: Postings, id: Id, terms: seq<string>)
    requires id in before && Elements(terms) == before[id].counts.Keys
    requires Removing(before, postings, id, terms)
    ensures Transposed(before - {id}, postings)
  {
    hide Posting, Occurs;
    forall term ensures PostedRight(before - {id}, postings, term) {
      assert PostedRight(if term in terms then before - {id} else before, postings, term);
      if term !in terms {
        assert term !in Elements(terms);
        Untouched(before, id, term);
      }
    }
  }

  lemma Untouched(documents: Documents, id: Id, term: string)
    requires !Has(documents, id, term)
    ensures Posting(documents - {id}, term) == Posting(documents, term)
    ensures Occurs(documents - {id}, term) <==> Occurs(documents, term)
  {
    if Occurs(documents, term) {
      var j :| Has(documents, j, term);
      assert Has(documents - {id}, j, term);
    }
    if Occurs(documents - {id}, term) {
      var j :| Has(documents - {id}, j, term);
      assert Has(documents, j, term);
    }
  }

  lemma AgreeWithout(before: Documents, postings: Postings, id: Id, total: nat)
    requires forall j | j in before :: DocumentOk(before[j])
    requires Transposed(before - {id}, postings) && total == Sum(Lengths(before - {id}))
    ensures Agree(before - {id}, postings, total)
  {
    hide DocumentOk, Transposed, Lengths;
  }

  // ---------- inserting ----------

  /** The terms already taken are posted with the document. */
  ghost predicate Inserting(before: Documents, postings: Postings, id: Id, document: DocumentTerms, done: seq<string>) {
    forall term :: PostedRight(if term in done then before[id := document] else before, postings, term)
  }

  lemma InsertionStarts(before: Documents, postings: Postings, id: Id, document: DocumentTerms, terms: seq<string>)
    requires Transposed(before, postings)
    ensures Inserting(before, postings, id, document, terms[..0])
  {
    hide PostedRight;
  }

  lemma InsertionStep(before: Documents, postings: Postings, id: Id, document: DocumentTerms, terms: seq<string>, i: nat)
    requires id !in before && i < |terms| && Elements(terms) == document.counts.Keys && Ascends(TextLess, terms)
    requires Inserting(before, postings, id, document, terms[..i])
    ensures terms[i] in document.counts
    ensures var posting := if terms[i] in postings then postings[terms[i]] else map[];
      Inserting(before, postings[terms[i] := posting[id := document.counts[terms[i]]]], id, document, terms[..i + 1])
  {
    hide TextLess, Posting, Occurs;
    var term := terms[i];
    assert terms[i] in Elements(terms);
    var posting := if term in postings then postings[term] else map[];
    var after := postings[term := posting[id := document.counts[term]]];
    assert terms[i] !in terms[..i] by {
      TextIrreflexive(terms[i]);
    }
    assert PostedRight(before, postings, term);
    PostingMore(before, id, document, term);
    var done, doneNow := terms[..i], terms[..i + 1];
    forall t ensures PostedRight(if t in doneNow then before[id := document] else before, after, t) {
      assert PostedRight(if t in done then before[id := document] else before, postings, t);
      assert t in doneNow <==> t in done || t == term;
    }
  }

  lemma PostingMore(documents: Documents, id: Id, document: DocumentTerms, term: string)
    requires id !in documents && term in document.counts
    ensures var more := documents[id := document];
      Occurs(more, term) && Posting(more, term) == Posting(documents, term)[id := document.counts[term]]
    ensures !Occurs(documents, term) ==> Posting(documents, term) == map[]
  {
    var more := documents[id := document];
    assert Has(more, id, term);
    if Posting(documents, term) != map[] {
      var j := AnyKey(Posting(documents, term));
      assert Has(documents, j, term);
    }
  }

  lemma InsertionEnds(before: Documents, postings: Postings, id: Id, document: DocumentTerms, terms: seq<string>)
    requires id !in before && Elements(terms) == document.counts.Keys
    requires Inserting(before, postings, id, document, terms)
    ensures Transposed(before[id := document], postings)
  {
    hide Posting, Occurs;
    var more := before[id := document];
    forall term ensures PostedRight(more, postings, term) {
      assert PostedRight(if term in terms then more else before, postings, term);
      if term !in terms {
        assert term !in Elements(terms);
        Untouched(more, id, term);
        assert more - {id} == before;
      }
    }
  }

  lemma AgreeWith(before: Documents, postings: Postings, id: Id, document: DocumentTerms, total: nat)
    requires forall j | j in before :: DocumentOk(before[j])
    requires DocumentOk(document)
    requires Transposed(before[id := document], postings) && total == Sum(Lengths(before[id := document]))
    ensures Agree(before[id := document], postings, total)
  {
    hide DocumentOk, Transposed, Lengths;
  }

  // ---------- counting a document's terms ----------

  function CountTerms(tokens: seq<string>): DocumentTerms {
    DocumentTerms(map t | t in tokens :: multiset(tokens)[t], |tokens|)
  }

  lemma {:induction false} TermsCounted(tokens: seq<string>)
    requires forall t | t in tokens :: t != ""
    ensures DocumentOk(CountTerms(tokens))
  {
    if tokens == [] {
      assert CountTerms(tokens).counts == map[];
    } else {
      var front, last := tokens[..|tokens| - 1], tokens[|tokens| - 1];
      assert last in tokens && forall t | t in front :: t in tokens;
      TermsCounted(front);
      assert tokens == front + [last];
      hide DocumentOk, CountTerms;
      OneTokenMore(front, last);
    }
  }

  lemma OneTokenMore(front: seq<string>, last: string)
    requires DocumentOk(CountTerms(front)) && last != ""
    ensures DocumentOk(CountTerms(front + [last]))
  {
    CountedMore(front, last);
    var counts := CountTerms(front).counts;
    if last in counts {
      SumChanged(counts, last, counts[last] + 1);
    } else {
      SumWith(counts, last, 1);
    }
  }

  lemma CountedMore(front: seq<string>, last: string)
    ensures CountTerms(front + [last]).counts
      == CountTerms(front).counts[last := if last in front then multiset(front)[last] + 1 else 1]
  {
    assert multiset(front + [last]) == multiset(front) + multiset{last};
    assert last !in front ==> last !in multiset(front);
  }

  method DocumentTermsOf(tokens: seq<string>) returns (document: DocumentTerms)
    ensures document == CountTerms(tokens)
  {
    var counts: Terms := map[];
    var length := 0;
    for i := 0 to |tokens|
      invariant counts == CountTerms(tokens[..i]).counts && length == i
    {
      CountedMore(tokens[..i], tokens[i]);
      assert tokens[..i] + [tokens[i]] == tokens[..i + 1];
      counts := counts[tokens[i] := (if tokens[i] in counts then counts[tokens[i]] else 0) + 1];
      length := length + 1;
    }
    assert tokens[..|tokens|] == tokens;
    document := DocumentTerms(counts, length);
  }

  // ---------- scoring by postings ----------

  function HitsOf(scores: map<Id, Score>): set<Hit> {
    set id | id in scores :: Hit(id, scores[id])
  }

  /** The documents with one of `terms`, each with its direct score over them. */
  ghost predicate Scored(s: Scoring, documents: Documents, total: nat, terms: seq<string>, scores: map<Id, Score>) {
    && (forall id :: id in scores <==> HoldsAny(documents, terms, id))
    && forall id | id in scores :: id in documents && scores[id] == DirectScore(s, documents, total, terms, id)
  }

  lemma NothingAnswered(s: Scoring, documents: Documents, tokens: seq<string>, k: nat, total: nat)
    requires k == 0 || documents == map[]
    ensures DirectAnswer(s, documents, tokens, k, total) == []
  {
    hide TextLess, DirectScore;
  }

  lemma ScoresStart(s: Scoring, documents: Documents, total: nat, terms: seq<string>)
    ensures Scored(s, documents, total, terms[..0], map[])
  {
  }

  lemma PostingOf(documents: Documents, postings: Postings, term: string)
    requires Transposed(documents, postings)
    ensures term in postings ==> postings[term] == Posting(documents, term)
    ensures term !in postings ==> Posting(documents, term) == map[]
  {
    assert PostedRight(documents, postings, term);
    if Posting(documents, term) != map[] {
      var id := AnyKey(Posting(documents, term));
      assert Has(documents, id, term);
    }
  }

  lemma HoldsMore(documents: Documents, terms: seq<string>, i: nat, id: Id)
    requires i < |terms|
    ensures HoldsAny(documents, terms[..i + 1], id)
      <==> HoldsAny(documents, terms[..i], id) || id in Posting(documents, terms[i])
  {
    if HoldsAny(documents, terms[..i], id) {
      var j :| 0 <= j < i && terms[..i][j] in documents[id].counts;
      assert terms[..i + 1][j] == terms[j];
    }
    if id in Posting(documents, terms[i]) {
      assert terms[..i + 1][i] == terms[i];
    }
    if HoldsAny(documents, terms[..i + 1], id) {
      var j :| 0 <= j < i + 1 && terms[..i + 1][j] in documents[id].counts;
      assert j < i ==> terms[..i][j] == terms[j];
    }
  }

  lemma DirectMore(s: Scoring, documents: Documents, total: nat, terms: seq<string>, i: nat, id: Id)
    requires i < |terms| && id in documents
    ensures var front := DirectScore(s, documents, total, terms[..i], id);
      DirectScore(s, documents, total, terms[..i + 1], id)
        == (if id !in Posting(documents, terms[i]) then front
            else s.add(front, s.contribution(|documents|, total, |Posting(documents, terms[i])|,
                                             Posting(documents, terms[i])[id], documents[id].length)))
  {
    assert terms[..i + 1][..i] == terms[..i];
  }

  /** A term no document holds changes no score. */
  lemma NextTerm(s: Scoring, documents: Documents, total: nat, terms: seq<string>, i: nat, scores: map<Id, Score>)
    requires i < |terms| && Scored(s, documents, total, terms[..i], scores)
    ensures Posting(documents, terms[i]) == map[] ==> Scored(s, documents, total, terms[..i + 1], scores)
  {
    hide DirectScore, HoldsAny;
    if Posting(documents, terms[i]) == map[] {
      forall id ensures HoldsAny(documents, terms[..i + 1], id) <==> HoldsAny(documents, terms[..i], id) {
        HoldsMore(documents, terms, i, id);
      }
      forall id | id in scores
        ensures DirectScore(s, documents, total, terms[..i + 1], id) == DirectScore(s, documents, total, terms[..i], id)
      {
        DirectMore(s, documents, total, terms, i, id);
      }
    }
  }

  /** The documents already met carry the next term's contribution. */
  ghost predicate ScoringOn(s: Scoring, documents: Documents, total: nat, terms: seq<string>, i: nat,
                            before: map<Id, Score>, scores: map<Id, Score>, done: seq<Id>)
    requires i < |terms|
  {
    && (forall id :: id in scores <==> id in before || id in done)
    && (forall id | id in done :: id in documents && scores[id] == DirectScore(s, documents, total, terms[..i + 1], id))
    && forall id | id in before && id !in done :: scores[id] == before[id]
  }

  lemma ScoringStarts(s: Scoring, documents: Documents, total: nat, terms: seq<string>, i: nat,
                      scores: map<Id, Score>, ids: seq<Id>)
    requires i < |terms|
    ensures ScoringOn(s, documents, total, terms, i, scores, scores, ids[..0])
  {
  }

  lemma ScoringStep(s: Scoring, documents: Documents, total: nat, terms: seq<string>, i: nat,
                    before: map<Id, Score>, scores: map<Id, Score>, ids: seq<Id>, j: nat)
    requires i < |terms| && j < |ids| && Scored(s, documents, total, terms[..i], before)
    requires Ascends(IdLess, ids) && Elements(ids) == Posting(documents, terms[i]).Keys
    requires ScoringOn(s, documents, total, terms, i, before, scores, ids[..j])
    ensures var id, posting := ids[j], Posting(documents, terms[i]);
      && id in documents && id in posting
      && var sum := s.add(if id in scores then scores[id] else s.zero,
                          s.contribution(|documents|, total, |posting|, posting[id], documents[id].length));
         ScoringOn(s, documents, total, terms, i, before, scores[id := sum], ids[..j + 1])
  {
    var id := ids[j];
    assert id in Elements(ids);
    hide DirectScore, HoldsAny;
    assert id !in ids[..j];
    DirectMore(s, documents, total, terms, i, id);
    if id !in before {
      Unscored(s, documents, total, terms[..i], id);
    }
    assert ids[..j + 1] == ids[..j] + [id];
  }

  /** A document without any of the terms scores nothing over them. */
  lemma {:induction false} Unscored(s: Scoring, documents: Documents, total: nat, terms: seq<string>, id: Id)
    requires id in documents && !HoldsAny(documents, terms, id)
    ensures DirectScore(s, documents, total, terms, id) == s.zero
  {
    if terms != [] {
      var front := terms[..|terms| - 1];
      forall i | 0 <= i < |front| ensures front[i] !in documents[id].counts {
        assert front[i] == terms[i];
      }
      Unscored(s, documents, total, front, id);
      assert terms[|terms| - 1] !in documents[id].counts;
    }
  }

  lemma ScoringEnds(s: Scoring, documents: Documents, total: nat, terms: seq<string>, i: nat,
                    before: map<Id, Score>, scores: map<Id, Score>, ids: seq<Id>)
    requires i < |terms| && Scored(s, documents, total, terms[..i], before)
    requires Elements(ids) == Posting(documents, terms[i]).Keys
    requires ScoringOn(s, documents, total, terms, i, before, scores, ids)
    ensures Scored(s, documents, total, terms[..i + 1], scores)
  {
    hide DirectScore, HoldsAny;
    forall id ensures id in scores <==> HoldsAny(documents, terms[..i + 1], id) {
      HoldsMore(documents, terms, i, id);
      assert id in ids <==> id in Elements(ids);
    }
    forall id | id in scores ensures id in documents && scores[id] == DirectScore(s, documents, total, terms[..i + 1], id) {
      if id !in ids {
        assert id !in Elements(ids);
        DirectMore(s, documents, total, terms, i, id);
      }
    }
  }

  lemma ScoresAreHits(s: Scoring, documents: Documents, total: nat, terms: seq<string>, scores: map<Id, Score>)
    requires Scored(s, documents, total, terms, scores)
    ensures HitsOf(scores) == Hits(s, documents, total, terms)
  {
    hide DirectScore, HoldsAny;
  }

  lemma AnswerIs(s: Scoring, documents: Documents, tokens: seq<string>, k: nat, total: nat)
    ensures DirectAnswer(s, documents, tokens, k, total)
      == Best(Hits(s, documents, total, TermsInOrder(Elements(tokens))), k)
  {
    hide Best, Hits, TermsInOrder;
  }

  /** The `k` best matching documents, best first, each once; whoever is left
      out is behind everyone listed. */
  lemma AnswerRanks(s: Scoring, documents: Documents, tokens: seq<string>, k: nat, total: nat)
    ensures var terms := TermsInOrder(Elements(tokens));
      var r := DirectAnswer(s, documents, tokens, k, total);
      && |r| == (if k <= |Matching(documents, terms)| then k else |Matching(documents, terms)|)
      && Ascends(Ahead, r)
      && (forall h | h in r :: h in Hits(s, documents, total, terms))
      && forall h, g | h in Hits(s, documents, total, terms) && h !in r && g in r :: Ahead(g, h)
  {
    hide HoldsAny, DirectScore, TermsInOrder;
    AheadTotal();
    var terms := TermsInOrder(Elements(tokens));
    var hits := Hits(s, documents, total, terms);
    var ranked, r := Ascending(Ahead, hits), DirectAnswer(s, documents, tokens, k, total);
    HitsCounted(s, documents, total, terms);
    hide Ahead, Hits, Matching;
    forall h | h in r ensures h in hits {
      assert h in Elements(ranked);
    }
    forall h, g | h in hits && h !in r && g in r ensures Ahead(g, h) {
      assert h in Elements(ranked);
      var i :| 0 <= i < |ranked| && ranked[i] == h;
      var j :| 0 <= j < |r| && r[j] == g;
      assert j < |r| <= i;
    }
  }

  lemma HitsCounted(s: Scoring, documents: Documents, total: nat, terms: seq<string>)
    ensures |Hits(s, documents, total, terms)| == |Matching(documents, terms)|
  {
    hide HoldsAny, DirectScore;
    var ids := Matching(documents, terms);
    var scores := map id | id in ids && id in documents :: DirectScore(s, documents, total, terms, id);
    HitsOfCounted(scores);
    forall h: Hit ensures h in HitsOf(scores) <==> h in Hits(s, documents, total, terms) {
      HitIn(scores, h);
    }
    assert scores.Keys == ids;
    assert HitsOf(scores) == Hits(s, documents, total, terms);
  }

  lemma HitIn(scores: map<Id, Score>, h: Hit)
    ensures h in HitsOf(scores) <==> h.id in scores && h.score == scores[h.id]
  {
    var id: Id := h.id;
    if id in scores && h.score == scores[id] {
      assert Hit(id, scores[id]) in HitsOf(scores);
      assert h == Hit(id, scores[id]);
    }
  }

  lemma {:induction false} HitsOfCounted(scores: map<Id, Score>)
    ensures |HitsOf(scores)| == |scores.Keys|
    decreases |scores|
  {
    if scores != map[] {
      var id := AnyKey(scores);
      HitsOfCounted(scores - {id});
      forall h: Hit ensures h in HitsOf(scores) <==> h in HitsOf(scores - {id}) + {Hit(id, scores[id])} {
        HitIn(scores, h);
        HitIn(scores - {id}, h);
      }
      HitIn(scores - {id}, Hit(id, scores[id]));
      hide HitsOf;
      assert HitsOf(scores) == HitsOf(scores - {id}) + {Hit(id, scores[id])};
      assert (scores - {id}).Keys == scores.Keys - {id};
    }
  }

  // ---------- what a state is, and loading one ----------

  /** The postings and the corpus length are functions of the documents: after
      any history an index equals one built fresh from what survives. */
  lemma StateFromDocuments(documents: Documents, p: Postings, t: nat, q: Postings, u: nat)
    requires Agree(documents, p, t) && Agree(documents, q, u)
    ensures p == q && t == u
  {
    hide DocumentOk, Transposed, Lengths;
    OneTranspose(documents, p, q);
  }

  /** What a loaded index must be. */
  ghost predicate Loadable(raw: Raw) {
    && Agree(raw.documents, raw.postings, raw.total)
    && (raw.documents != map[] ==> Records.SimplePipeline(raw.config))
  }

  /** The raw counts fit their type. */
  ghost predicate Typed(raw: Raw) {
    && raw.total <= USIZE_MAX
    && forall id | id in raw.documents ::
         raw.documents[id].length <= USIZE_MAX
         && forall t | t in raw.documents[id].counts :: raw.documents[id].counts[t] <= USIZE_MAX
  }

  predicate SamePosting(actual: map<Id, nat>, expected: map<Id, nat>) {
    |actual| == |expected| && forall id | id in expected :: id in actual && actual[id] == expected[id]
  }

  predicate SamePostings(actual: Postings, expected: Postings) {
    && |actual| == |expected|
    && forall term | term in expected :: term in actual && SamePosting(actual[term], expected[term])
  }

  lemma SameKeys<K, V, W>(a: map<K, V>, b: map<K, W>)
    requires |a| == |b| && forall k | k in b :: k in a
    ensures a.Keys == b.Keys
  {
    assert b.Keys <= a.Keys && |a.Keys| == |b.Keys|;
    if a.Keys != b.Keys {
      SmallerSet(b.Keys, a.Keys);
    }
  }

  lemma SmallerSet<K>(a: set<K>, b: set<K>)
    requires a < b
    ensures |a| < |b|
  {
    assert b == a + (b - a);
    assert b - a != {};
  }

  /** Comparing sizes and the expected entries compares the maps. */
  lemma SamePostingsIs(actual: Postings, expected: Postings)
    ensures SamePostings(actual, expected) <==> actual == expected
  {
    if SamePostings(actual, expected) {
      SameKeys(actual, expected);
      forall term | term in expected ensures actual[term] == expected[term] {
        assert SamePosting(actual[term], expected[term]);
        SamePostingIs(actual[term], expected[term]);
      }
      assert actual == expected;
    }
  }

  lemma SamePostingIs(actual: map<Id, nat>, expected: map<Id, nat>)
    requires SamePosting(actual, expected)
    ensures actual == expected
  {
    forall id: Id ensures id in expected ==> id in actual {
    }
    assert expected.Keys <= actual.Keys;
    if actual.Keys != expected.Keys {
      SmallerSet(expected.Keys, actual.Keys);
    }
    forall id | id in expected ensures actual[id] == expected[id] {
    }
    assert actual == expected;
  }

  function Kept<K, V>(m: map<K, V>, keys: seq<K>): map<K, V> {
    map k | k in m && k in keys :: m[k]
  }

  lemma KeptMore<K(!new), V>(m: map<K, V>, keys: seq<K>, i: nat)
    requires i < |keys| && keys[i] in m
    ensures Kept(m, keys[..i + 1]) == Kept(m, keys[..i])[keys[i] := m[keys[i]]]
  {
    assert keys[..i + 1] == keys[..i] + [keys[i]];
  }

  lemma KeptAll<K, V>(m: map<K, V>, keys: seq<K>)
    requires Elements(keys) == m.Keys
    ensures Kept(m, keys) == m
  {
    forall k | k in m ensures k in keys {
      assert k in Elements(keys);
    }
  }

  /** A part never sums to more than the whole. */
  lemma {:induction false} SumPart<K(!new)>(m: map<K, nat>, part: map<K, nat>)
    requires forall k | k in part :: k in m && part[k] == m[k]
    ensures Sum(part) <= Sum(m)
    decreases |part|
  {
    if part != map[] {
      var k := AnyKey(part);
      SumWithout(part, k);
      SumWithout(m, k);
      SumPart(m - {k}, part - {k});
    }
  }

  /** One document's counts: none empty, none zero, adding up to its length. */
  method CheckDocument(d: DocumentTerms) returns (ok: bool)
    requires d.length <= USIZE_MAX && forall t | t in d.counts :: d.counts[t] <= USIZE_MAX
    ensures ok <==> DocumentOk(d)
  {
    hide *;
    var terms := TermsInOrder(d.counts.Keys);
    TermsListed(d.counts, terms);
    var length := 0;
    CountingStarts(d.counts, terms);
    for i := 0 to |terms|
      invariant length == Sum(Kept(d.counts, terms[..i])) <= USIZE_MAX
      invariant forall j | 0 <= j < i :: terms[j] in d.counts && terms[j] != "" && d.counts[terms[j]] > 0
    {
      var term := terms[i];
      var count := d.counts[term];
      if term == "" || count == 0 {
        BadTerm(d, term);
        return false;
      }
      CountsMore(d.counts, terms, i);
      if length + count > USIZE_MAX {
        TooLong(d, terms, i);
        return false;
      }
      length := length + count;
    }
    assert terms[..|terms|] == terms;
    CountedAll(d, terms);
    ok := length == d.length;
  }

  lemma TermsListed(counts: Terms, terms: seq<string>)
    requires Elements(terms) == counts.Keys
    ensures forall i | 0 <= i < |terms| :: terms[i] in counts
  {
    forall i | 0 <= i < |terms| ensures terms[i] in counts {
      assert terms[i] in Elements(terms);
    }
  }

  lemma CountingStarts(counts: Terms, terms: seq<string>)
    ensures Sum(Kept(counts, terms[..0])) == 0
  {
    assert Kept(counts, terms[..0]) == map[];
  }

  lemma BadTerm(d: DocumentTerms, term: string)
    requires term in d.counts && (term == "" || d.counts[term] == 0)
    ensures !DocumentOk(d)
  {
  }

  lemma TooLong(d: DocumentTerms, terms: seq<string>, i: nat)
    requires d.length <= USIZE_MAX && i < |terms| && Sum(Kept(d.counts, terms[..i + 1])) > USIZE_MAX
    ensures !DocumentOk(d)
  {
    assert forall t | t in Kept(d.counts, terms[..i + 1]) :: t in d.counts && Kept(d.counts, terms[..i + 1])[t] == d.counts[t];
    SumPart(d.counts, Kept(d.counts, terms[..i + 1]));
  }

  lemma CountedAll(d: DocumentTerms, terms: seq<string>)
    requires Elements(terms) == d.counts.Keys
    requires forall j | 0 <= j < |terms| :: terms[j] in d.counts && terms[j] != "" && d.counts[terms[j]] > 0
    ensures DocumentOk(d) <==> Sum(Kept(d.counts, terms)) == d.length
  {
    KeptAll(d.counts, terms);
    forall t | t in d.counts ensures t != "" && d.counts[t] > 0 {
      assert t in Elements(terms);
    }
  }

  lemma CountsMore(counts: Terms, terms: seq<string>, i: nat)
    requires i < |terms| && terms[i] in counts && Ascends(TextLess, terms)
    ensures Sum(Kept(counts, terms[..i + 1])) == Sum(Kept(counts, terms[..i])) + counts[terms[i]]
  {
    assert terms[i] !in terms[..i] by {
      TextIrreflexive(terms[i]);
    }
    hide TextLess;
    KeptMore(counts, terms, i);
    SumWith(Kept(counts, terms[..i]), terms[i], counts[terms[i]]);
  }

  lemma LengthsMore(documents: Documents, ids: seq<Id>, i: nat)
    requires i < |ids| && ids[i] in documents && Ascends(IdLess, ids)
    ensures var soFar, id := Kept(documents, ids[..i]), ids[i];
      && id !in soFar && Kept(documents, ids[..i + 1]) == soFar[id := documents[id]]
      && Sum(Lengths(Kept(documents, ids[..i + 1]))) == Sum(Lengths(soFar)) + documents[id].length
  {
    KeptMore(documents, ids, i);
    TotalWith(Kept(documents, ids[..i]), ids[i], documents[ids[i]]);
  }

  lemma LengthsPart(documents: Documents, ids: seq<Id>)
    ensures Sum(Lengths(Kept(documents, ids))) <= Sum(Lengths(documents))
  {
    SumPart(Lengths(documents), Lengths(Kept(documents, ids)));
  }

  /** The postings of one more document. */
  method Post(expected: Postings, id: Id, d: DocumentTerms, ghost soFar: Documents) returns (more: Postings)
    requires Transposed(soFar, expected) && id !in soFar
    ensures Transposed(soFar[id := d], more)
  {
    hide *;
    more := expected;
    var terms := TermsInOrder(d.counts.Keys);
    InsertionStarts(soFar, more, id, d, terms);
    for i := 0 to |terms|
      invariant Inserting(soFar, more, id, d, terms[..i])
    {
      InsertionStep(soFar, more, id, d, terms, i);
      var posting := if terms[i] in more then more[terms[i]] else map[];
      more := more[terms[i] := posting[id := d.counts[terms[i]]]];
    }
    assert terms[..|terms|] == terms;
    InsertionEnds(soFar, more, id, d, terms);
  }

  /** A snapshot is accepted exactly when its derived parts are what its
      documents make them. */
  method Load(raw: Raw) returns (accepted: bool)
    requires Typed(raw)
    ensures accepted <==> Loadable(raw)
  {
    var ids := IdsInOrder(raw.documents.Keys);
    hide IdsInOrder, Transposed, DocumentOk, Lengths, SamePostings;
    var total, expected: Postings := 0, map[];
    EmptyAgrees();
    assert Kept(raw.documents, ids[..0]) == map[];
    AgreeParts(map[], map[], 0);
    for i := 0 to |ids|
      invariant total == Sum(Lengths(Kept(raw.documents, ids[..i]))) <= USIZE_MAX
      invariant Transposed(Kept(raw.documents, ids[..i]), expected)
      invariant forall j | 0 <= j < i :: ids[j] in raw.documents && DocumentOk(raw.documents[ids[j]])
    {
      var id := ids[i];
      var document := raw.documents[id];
      var ok := CheckDocument(document);
      if !ok {
        return false;
      }
      LengthsMore(raw.documents, ids, i);
      expected := Post(expected, id, document, Kept(raw.documents, ids[..i]));
      if total + document.length > USIZE_MAX {
        LengthsPart(raw.documents, ids[..i + 1]);
        return false;
      }
      total := total + document.length;
    }
    assert ids[..|ids|] == ids;
    KeptAll(raw.documents, ids);
    EveryOk(raw.documents, ids);
    if total != raw.total {
      return false;
    }
    SamePostingsIs(raw.postings, expected);
    if !SamePostings(raw.postings, expected) {
      if Transposed(raw.documents, raw.postings) {
        OneTranspose(raw.documents, raw.postings, expected);
      }
      return false;
    }
    accepted := raw.documents == map[] || Records.SimplePipeline(raw.config);
  }

  lemma EveryOk(documents: Documents, ids: seq<Id>)
    requires Elements(ids) == documents.Keys
    requires forall j | 0 <= j < |ids| :: ids[j] in documents && DocumentOk(documents[ids[j]])
    ensures forall id | id in documents :: DocumentOk(documents[id])
  {
    hide DocumentOk;
    forall id | id in documents ensures DocumentOk(documents[id]) {
      assert id in Elements(ids);
    }
  }

  /** Every index the mutations reach loads again while its corpus length fits:
      no count or length can be larger. */
  lemma ReachedLoads(index: Index)
    requires index.Valid() && index.total <= USIZE_MAX
    ensures var raw := Raw(index.config, index.documents, index.postings, index.total); Typed(raw) && Loadable(raw)
  {
    hide Transposed;
    forall id | id in index.documents ensures index.documents[id].length <= USIZE_MAX {
      SumWithout(Lengths(index.documents), id);
    }
    forall id, t | id in index.documents && t in index.documents[id].counts
      ensures index.documents[id].counts[t] <= USIZE_MAX
    {
      assert DocumentOk(index.documents[id]);
      SumWithout(Lengths(index.documents), id);
      SumWithout(index.documents[id].counts, t);
    }
  }
}
