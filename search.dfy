/** The body of `search`: the vocabulary, the inverted index and the term
    positions are built once; then, for every query, the query vector, the
    candidate set (boolean AND over the posting lists), one document vector and
    score per candidate, and the candidates ranked by ascending score. The
    score itself (an angle computed in floating point) is a parameter. */
module Search {
  import opened Tokenizer
  import opened Index
  import opened Vectors
  import opened Ranking

  /** `set(range(1, n + 1))`: every document id. */
  function AllIds(n: nat): (ids: set<nat>)
    ensures forall d :: d in ids <==> 1 <= d <= n
    ensures |ids| == n
  {
    if n == 0 then {} else AllIds(n - 1) + {n}
  }

  /** The distinct ids in a posting list (`set(index[word])`). */
  function IdSet(ids: seq<nat>): set<nat> {
    set d | d in ids
  }

  /** Boolean AND: the ids of the documents whose tokens include every query
      token. */
  function MatchingDocs(docs: seq<seq<string>>, queryWords: seq<string>): set<nat> {
    set d | d in AllIds(|docs|) && forall w :: w in queryWords ==> w in docs[d - 1]
  }

  /** What the candidate filter computes from the index alone: nothing when
      some query token is not a key, otherwise the ids present in the posting
      list of every query token. */
  function Filtered(index: map<string, seq<nat>>, n: nat, queryWords: seq<string>): set<nat> {
    if exists w :: w in queryWords && w !in index then {}
    else set d | d in AllIds(n) && forall w :: w in queryWords ==> w in index && d in index[w]
  }

  /** Lines 46-52 of `search`: start from every id, intersect with the posting
      list of each query token in turn, and clear the set and stop at the first
      token that is not in the index. */
  method Candidates(queryWords: seq<string>, index: map<string, seq<nat>>, n: nat)
    returns (possibleMatches: set<nat>)
    ensures possibleMatches == Filtered(index, n, queryWords)
    ensures possibleMatches <= AllIds(n)
    ensures (exists w :: w in queryWords && w !in index) ==> possibleMatches == {}
    ensures queryWords == [] ==> possibleMatches == AllIds(n)
  {
    possibleMatches := AllIds(n);
    for j := 0 to |queryWords|
      invariant forall w :: w in queryWords[..j] ==> w in index
      invariant forall d :: d in possibleMatches <==>
                  1 <= d <= n && forall w :: w in queryWords[..j] ==> w in index && d in index[w]
    {
      var word := queryWords[j];
      assert queryWords[..j + 1] == queryWords[..j] + [word];
      if word in index {
        possibleMatches := possibleMatches * IdSet(index[word]);
      } else {
        possibleMatches := {};
        break;
      }
    }
    assert queryWords[..|queryWords|] == queryWords;
  }

  /** A document id is in the posting list of `w` exactly when `w` is one of
      that document's tokens. */
  lemma PostingsMembership(docs: seq<seq<string>>, w: string, d: nat)
    ensures d in Postings(docs, w) <==> 1 <= d <= |docs| && w in docs[d - 1]
  {
    PostingsCount(docs, w, d);
    assert d in Postings(docs, w) <==> d in multiset(Postings(docs, w));
    if 1 <= d <= |docs| {
      assert w in docs[d - 1] <==> w in multiset(docs[d - 1]);
    }
  }

  /** The two edge cases of boolean AND: a query without tokens matches every
      document, and a query with a token no document contains (always the case
      when the vocabulary is empty) matches none. */
  lemma MatchingEdgeCases(docs: seq<seq<string>>, queryWords: seq<string>)
    ensures queryWords == [] ==> MatchingDocs(docs, queryWords) == AllIds(|docs|)
    ensures (exists w :: w in queryWords && w !in Vocabulary(docs)) ==> MatchingDocs(docs, queryWords) == {}
  {
    if exists w :: w in queryWords && w !in Vocabulary(docs) {
      var w :| w in queryWords && w !in Vocabulary(docs);
      VocabularyMembership(docs, w);
      forall d | d in AllIds(|docs|)
        ensures d !in MatchingDocs(docs, queryWords)
      {
        assert w !in docs[d - 1];
      }
    }
  }

  /** Over the index of the documents, when every query token is a term,
      document `d` is in every query token's posting list exactly when it
      contains every query token. */
  lemma MatchingByPostings(docs: seq<seq<string>>, queryWords: seq<string>, d: nat)
    requires 1 <= d <= |docs|
    requires forall w :: w in queryWords ==> w in IndexOf(docs)
    ensures (forall w :: w in queryWords ==> d in IndexOf(docs)[w]) <==>
            (forall w :: w in queryWords ==> w in docs[d - 1])
  {
    forall w | w in queryWords
      ensures d in IndexOf(docs)[w] <==> w in docs[d - 1]
    {
      PostingsMembership(docs, w, d);
    }
  }

  /** Over the index of the documents, the candidate filter finds exactly the
      documents that contain every query token; the early exit on an unknown
      token agrees with this, since no document contains such a token. */
  lemma FilteredIsMatching(docs: seq<seq<string>>, queryWords: seq<string>)
    ensures Filtered(IndexOf(docs), |docs|, queryWords) == MatchingDocs(docs, queryWords)
  {
    var index := IndexOf(docs);
    if exists w :: w in queryWords && w !in index {
      var w :| w in queryWords && w !in index;
      assert w !in Vocabulary(docs);
      MatchingEdgeCases(docs, queryWords);
    } else {
      forall d | d in AllIds(|docs|)
        ensures d in Filtered(index, |docs|, queryWords) <==> d in MatchingDocs(docs, queryWords)
      {
        MatchingByPostings(docs, queryWords, d);
      }
    }
  }

  /** The score `search` gives document `d`: the score function applied to the
      query vector and the document's count vector. */
  function DocScore(documents: seq<string>, d: nat, queryVector: seq<int>, order: seq<string>,
                    score: (seq<int>, seq<int>) -> real): real
    requires 1 <= d <= |documents|
  {
    score(queryVector, CountVector(order, Split(documents[d - 1])))
  }

  /** `ranked` lists every candidate exactly once, paired with its score, in
      ascending order of score. */
  ghost predicate IsRanking(ranked: seq<Hit>, candidates: set<nat>, documents: seq<string>,
                            queryVector: seq<int>, order: seq<string>, score: (seq<int>, seq<int>) -> real)
  {
    && SortedByScore(ranked)
    && |ranked| == |candidates|
    && (forall i, j :: 0 <= i < j < |ranked| ==> ranked[i].docId != ranked[j].docId)
    && forall h :: h in ranked <==>
         h.docId in candidates && 1 <= h.docId <= |documents| &&
         h.score == DocScore(documents, h.docId, queryVector, order, score)
  }

  /** In a sequence of hits whose score is fixed by the document id, a hit
      that never repeats means a document id that never repeats. */
  lemma DistinctIds(s: seq<Hit>, documents: seq<string>, queryVector: seq<int>, order: seq<string>,
                    score: (seq<int>, seq<int>) -> real)
    requires forall h :: h in s ==>
               1 <= h.docId <= |documents| && h.score == DocScore(documents, h.docId, queryVector, order, score)
    requires forall h :: multiset(s)[h] <= 1
    ensures forall i, j :: 0 <= i < j < |s| ==> s[i].docId != s[j].docId
  {
    forall i, j | 0 <= i < j < |s|
      ensures s[i].docId != s[j].docId
    {
      assert s == s[..j] + [s[j]] + s[j + 1..];
      assert s[i] in s[..j];
      assert multiset(s)[s[j]] == multiset(s[..j])[s[j]] + 1 + multiset(s[j + 1..])[s[j]];
      assert s[i] != s[j];
      assert s[i] in s && s[j] in s;
    }
  }

  /** Lines 56-65 of `search`: for each candidate, in the set's iteration
      order, build the document vector and record its score. */
  method ScoreCandidates(documents: seq<string>, possibleMatches: set<nat>, queryVector: seq<int>,
                         wordToIndex: map<string, nat>, ghost order: seq<string>,
                         score: (seq<int>, seq<int>) -> real)
    returns (docSimilarities: seq<Hit>)
    requires IsPositionMap(wordToIndex, order) && |queryVector| == |order|
    requires possibleMatches <= AllIds(|documents|)
    ensures |docSimilarities| == |possibleMatches|
    ensures forall h :: multiset(docSimilarities)[h] <= 1
    ensures forall h :: h in docSimilarities <==>
              h.docId in possibleMatches && 1 <= h.docId <= |documents| &&
              h.score == DocScore(documents, h.docId, queryVector, order, score)
  {
    docSimilarities := [];
    var remaining := possibleMatches;
    while remaining != {}
      invariant remaining <= possibleMatches
      invariant |docSimilarities| + |remaining| == |possibleMatches|
      invariant forall h :: multiset(docSimilarities)[h] <= 1
      invariant forall h :: h in docSimilarities <==>
                  h.docId in possibleMatches && h.docId !in remaining && 1 <= h.docId <= |documents| &&
                  h.score == DocScore(documents, h.docId, queryVector, order, score)
      decreases |remaining|
    {
      var docId :| docId in remaining;
      var docText := documents[docId - 1];
      var docVector := DocumentVector(Split(docText), wordToIndex, |queryVector|, order);
      var similarity := score(queryVector, docVector);
      assert Hit(docId, similarity) !in docSimilarities;
      docSimilarities := docSimilarities + [Hit(docId, similarity)];
      remaining := remaining - {docId};
    }
  }

  /** One iteration of the query loop of `search` (lines 38-71, without the
      printing): the candidates of the query and their ranking. */
  method RunQuery(documents: seq<string>, index: map<string, seq<nat>>, wordToIndex: map<string, nat>,
                  vocabularySize: nat, ghost order: seq<string>, query: string,
                  score: (seq<int>, seq<int>) -> real)
    returns (possibleMatches: set<nat>, rankedResults: seq<Hit>)
    requires index == IndexOf(Tokenize(documents))
    requires IsPositionMap(wordToIndex, order) && vocabularySize == |order|
    ensures possibleMatches == MatchingDocs(Tokenize(documents), Split(query))
    ensures IsRanking(rankedResults, possibleMatches, documents, PresenceVector(order, Split(query)), order, score)
  {
    var queryWords := Split(query);
    var queryVector := QueryVector(queryWords, wordToIndex, vocabularySize, order);
    possibleMatches := Candidates(queryWords, index, |documents|);
    FilteredIsMatching(Tokenize(documents), queryWords);
    var docSimilarities := ScoreCandidates(documents, possibleMatches, queryVector, wordToIndex, order, score);
    rankedResults := SortByScore(docSimilarities);
    assert forall h :: h in rankedResults <==> h in docSimilarities by {
      forall h
        ensures h in rankedResults <==> h in docSimilarities
      {
        assert h in rankedResults <==> h in multiset(rankedResults);
        assert h in docSimilarities <==> h in multiset(docSimilarities);
      }
    }
    assert |rankedResults| == |multiset(rankedResults)| == |docSimilarities|;
    DistinctIds(rankedResults, documents, queryVector, order, score);
  }

  /** What `search` reports for one query: the vocabulary size, the candidate
      ids and the ranked (id, score) pairs. */
  datatype QueryResult = QueryResult(vocabularySize: nat, possibleMatches: set<nat>, rankedResults: seq<Hit>)

  /** `result` is what `search` reports for `query`: the vocabulary size, the
      documents containing every query token, and those documents ranked by
      the score of their count vector against the query's presence vector. */
  ghost predicate Answers(result: QueryResult, documents: seq<string>, query: string,
                          order: seq<string>, score: (seq<int>, seq<int>) -> real)
  {
    && result.vocabularySize == |order|
    && result.possibleMatches == MatchingDocs(Tokenize(documents), Split(query))
    && IsRanking(result.rankedResults, result.possibleMatches, documents,
                 PresenceVector(order, Split(query)), order, score)
  }

  /** `search(documents, user_queries)` with the printing replaced by the
      returned results; `order` is the enumeration of the vocabulary that the
      term positions were taken from. */
  method Search(documents: seq<string>, userQueries: seq<string>, score: (seq<int>, seq<int>) -> real)
    returns (results: seq<QueryResult>, ghost order: seq<string>)
    ensures Distinct(order) && |order| == |Vocabulary(Tokenize(documents))|
    ensures forall w :: w in order <==> w in Vocabulary(Tokenize(documents))
    ensures |results| == |userQueries|
    ensures forall i :: 0 <= i < |results| ==> Answers(results[i], documents, userQueries[i], order, score)
  {
    var wordList := BuildWordList(documents);
    var index := CreateIndex(documents);
    var wordToIndex;
    wordToIndex, order := TermPositions(wordList);
    PositionMapDistinct(wordToIndex, order);
    assert forall w :: w in order <==> w in wordToIndex;
    results := [];
    for i := 0 to |userQueries|
      invariant |results| == i
      invariant forall k :: 0 <= k < i ==> Answers(results[k], documents, userQueries[k], order, score)
    {
      var possibleMatches, rankedResults :=
        RunQuery(documents, index, wordToIndex, |wordList|, order, userQueries[i], score);
      var result := QueryResult(|wordList|, possibleMatches, rankedResults);
      assert Answers(result, documents, userQueries[i], order, score);
      ghost var prev := results;
      results := results + [result];
      assert forall k :: 0 <= k < i ==> results[k] == prev[k];
    }
  }

  /** Every token of a document is a vocabulary term, so the entries of its
      document vector add up to its number of tokens. */
  lemma DocumentVectorSum(documents: seq<string>, order: seq<string>, d: nat)
    requires Distinct(order) && forall w :: w in order <==> w in Vocabulary(Tokenize(documents))
    requires 1 <= d <= |documents|
    ensures Sum(CountVector(order, Split(documents[d - 1]))) == |Split(documents[d - 1])|
  {
    var docs := Tokenize(documents);
    var words := Split(documents[d - 1]);
    forall t | t in words
      ensures t in order
    {
      assert 0 <= d - 1 < |docs| && t in docs[d - 1];
      VocabularyMembership(docs, t);
    }
    CountVectorSum(order, words);
  }

  /** For a query with at least one token, every candidate shares a term with
      the query: the dot product and both squared magnitudes that the angle is
      computed from are positive, so the angle is defined. */
  lemma CandidateScoreDefined(documents: seq<string>, order: seq<string>, queryWords: seq<string>, d: nat)
    requires forall w :: w in order <==> w in Vocabulary(Tokenize(documents))
    requires d in MatchingDocs(Tokenize(documents), queryWords)
    requires queryWords != []
    ensures var qv, dv := PresenceVector(order, queryWords), CountVector(order, Split(documents[d - 1]));
            Dot(qv, dv) > 0 && NormSq(qv) > 0 && NormSq(dv) > 0
  {
    var docs := Tokenize(documents);
    var qv, dv := PresenceVector(order, queryWords), CountVector(order, Split(documents[d - 1]));
    var w := queryWords[0];
    assert w in queryWords;
    assert 0 <= d - 1 < |docs| && w in docs[d - 1];
    VocabularyMembership(docs, w);
    var k :| 0 <= k < |order| && order[k] == w;
    assert qv[k] == 1;
    assert w in multiset(Split(documents[d - 1]));
    assert dv[k] >= 1;
    assert NonNegative(qv) && NonNegative(dv);
    DotAtLeastTerm(qv, dv, k);
    NormSqZero(qv);
    NormSqZero(dv);
  }

  /** The query vector is the zero vector, whose magnitude is zero and whose
      angle with anything is undefined, exactly when no query token is a
      vocabulary term; in particular for a query of whitespace only. */
  lemma QueryVectorZero(order: seq<string>, query: string)
    ensures NormSq(PresenceVector(order, Split(query))) == 0 <==>
            forall w :: w in Split(query) ==> w !in order
    ensures (forall i :: 0 <= i < |query| ==> IsSpace(query[i])) ==>
            NormSq(PresenceVector(order, Split(query))) == 0
  {
    var qv := PresenceVector(order, Split(query));
    NormSqZero(qv);
    if exists w :: w in Split(query) && w in order {
      var w :| w in Split(query) && w in order;
      var k :| 0 <= k < |order| && order[k] == w;
      assert qv[k] == 1;
    }
  }
}
