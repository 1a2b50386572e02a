/** Term positions (`word_to_index`) and the two vectorizers of `search`: the
    query vector records presence (0/1) of each vocabulary term, a document
    vector records its occurrence count. Both have one entry per vocabulary
    term, at the term's position. Also the integer parts of the similarity
    score: the dot product and the squared magnitude. */
module Vectors {

  predicate Distinct(s: seq<string>) {
    forall i, j :: 0 <= i < j < |s| ==> s[i] != s[j]
  }

  /** `pos` (the `word_to_index` dictionary) and `order` (the enumeration it
      was built from) are inverse to each other: a bijection between the keys
      of `pos` and the positions 0 .. |order| - 1. */
  ghost predicate IsPositionMap(pos: map<string, nat>, order: seq<string>) {
    && (forall w :: w in pos ==> pos[w] < |order| && order[pos[w]] == w)
    && (forall k :: 0 <= k < |order| ==> order[k] in pos && pos[order[k]] == k)
  }

  lemma PositionMapDistinct(pos: map<string, nat>, order: seq<string>)
    requires IsPositionMap(pos, order)
    ensures Distinct(order)
  {
  }

  /** Numbering one more term, at the next free position, keeps the position
      map and its enumeration inverse to each other. */
  lemma ExtendPositionMap(pos: map<string, nat>, order: seq<string>, word: string,
                          pos': map<string, nat>, order': seq<string>)
    requires IsPositionMap(pos, order) && word !in pos
    requires pos' == pos[word := |order|] && order' == order + [word]
    ensures IsPositionMap(pos', order')
  {
  }

  /** `{word: idx for idx, word in enumerate(word_list)}`. The enumeration
      order of a set is not fixed, so each step takes any term not yet
      numbered; `order` records the order that was taken. */
  method TermPositions(wordList: set<string>) returns (wordToIndex: map<string, nat>, ghost order: seq<string>)
    ensures IsPositionMap(wordToIndex, order)
    ensures wordToIndex.Keys == wordList
    ensures |order| == |wordList|
  {
    wordToIndex := map[];
    order := [];
    var rest := wordList;
    var idx := 0;
    while rest != {}
      invariant idx == |order| && idx + |rest| == |wordList|
      invariant IsPositionMap(wordToIndex, order)
      invariant wordToIndex.Keys !! rest && wordToIndex.Keys + rest == wordList
      decreases |rest|
    {
      var word :| word in rest;
      ExtendPositionMap(wordToIndex, order, word, wordToIndex[word := idx], order + [word]);
      wordToIndex := wordToIndex[word := idx];
      order := order + [word];
      rest := rest - {word};
      idx := idx + 1;
    }
  }

  /** Presence vector of `words` over the positions of `order`. */
  function PresenceVector(order: seq<string>, words: seq<string>): seq<int> {
    seq(|order|, k requires 0 <= k < |order| => if order[k] in words then 1 else 0)
  }

  /** Count vector of `words` over the positions of `order`. */
  function CountVector(order: seq<string>, words: seq<string>): seq<int> {
    seq(|order|, k requires 0 <= k < |order| => multiset(words)[order[k]])
  }

  /** The query vector of `search`: zeros of the vocabulary's size, then a 1 at
      the position of each query token that is a vocabulary term; other query
      tokens are ignored. */
  method QueryVector(queryWords: seq<string>, wordToIndex: map<string, nat>, n: nat, ghost order: seq<string>)
    returns (queryVector: seq<int>)
    requires IsPositionMap(wordToIndex, order) && n == |order|
    ensures queryVector == PresenceVector(order, queryWords)
    ensures |queryVector| == n
    ensures forall k :: 0 <= k < n ==> queryVector[k] == 0 || queryVector[k] == 1
    ensures forall w :: w in wordToIndex ==> (queryVector[wordToIndex[w]] == 1 <==> w in queryWords)
  {
    var v := new int[n](_ => 0);
    for j := 0 to |queryWords|
      invariant forall k :: 0 <= k < n ==> v[k] == if order[k] in queryWords[..j] then 1 else 0
    {
      var word := queryWords[j];
      assert queryWords[..j + 1] == queryWords[..j] + [word];
      if word in wordToIndex {
        v[wordToIndex[word]] := 1;
      }
    }
    assert queryWords[..|queryWords|] == queryWords;
    queryVector := v[..];
  }

  /** The document vector of `search`: zeros of the vocabulary's size, then
      one increment at the position of each document token. */
  method DocumentVector(docWords: seq<string>, wordToIndex: map<string, nat>, n: nat, ghost order: seq<string>)
    returns (docVector: seq<int>)
    requires IsPositionMap(wordToIndex, order) && n == |order|
    ensures docVector == CountVector(order, docWords)
    ensures |docVector| == n
    ensures forall w :: w in wordToIndex ==> docVector[wordToIndex[w]] == multiset(docWords)[w]
  {
    var v := new int[n](_ => 0);
    for j := 0 to |docWords|
      invariant forall k :: 0 <= k < n ==> v[k] == multiset(docWords[..j])[order[k]]
    {
      var term := docWords[j];
      assert docWords[..j + 1] == docWords[..j] + [term];
      if term in wordToIndex {
        v[wordToIndex[term]] := v[wordToIndex[term]] + 1;
      }
    }
    assert docWords[..|docWords|] == docWords;
    docVector := v[..];
  }

  function Sum(s: seq<int>): int {
    if s == [] then 0 else s[0] + Sum(s[1..])
  }

  lemma {:induction false} SumUpdate(s: seq<int>, k: nat, v: int)
    requires k < |s|
    ensures Sum(s[k := v]) == Sum(s) - s[k] + v
  {
    if k > 0 {
      assert s[k := v][1..] == s[1..][k - 1 := v];
      SumUpdate(s[1..], k - 1, v);
    } else {
      assert s[k := v][1..] == s[1..];
    }
  }

  lemma {:induction false} SumZero(s: seq<int>)
    requires forall k :: 0 <= k < |s| ==> s[k] == 0
    ensures Sum(s) == 0
  {
    if s != [] {
      SumZero(s[1..]);
    }
  }

  /** When every token is a vocabulary term, the count vector's entries add up
      to the number of tokens. */
  lemma {:induction false} CountVectorSum(order: seq<string>, words: seq<string>)
    requires Distinct(order)
    requires forall t :: t in words ==> t in order
    ensures Sum(CountVector(order, words)) == |words|
  {
    if words == [] {
      SumZero(CountVector(order, words));
    } else {
      var ws, t := words[..|words| - 1], words[|words| - 1];
      assert words == ws + [t];
      assert multiset(words) == multiset(ws) + multiset{t};
      CountVectorSum(order, ws);
      assert t in words;
      var k :| 0 <= k < |order| && order[k] == t;
      var before := CountVector(order, ws);
      assert CountVector(order, words) == before[k := before[k] + 1];
      SumUpdate(before, k, before[k] + 1);
    }
  }

  /** `np.dot` on two integer vectors of equal length. */
  function Dot(a: seq<int>, b: seq<int>): int
    requires |a| == |b|
  {
    if a == [] then 0 else a[0] * b[0] + Dot(a[1..], b[1..])
  }

  /** The squared Euclidean norm, `np.linalg.norm(a) ** 2`. */
  function NormSq(a: seq<int>): int {
    Dot(a, a)
  }

  predicate NonNegative(a: seq<int>) {
    forall k :: 0 <= k < |a| ==> a[k] >= 0
  }

  /** With non-negative entries, no single product exceeds the dot product. */
  lemma {:induction false} DotAtLeastTerm(a: seq<int>, b: seq<int>, k: nat)
    requires |a| == |b| && k < |a| && NonNegative(a) && NonNegative(b)
    ensures Dot(a, b) >= a[k] * b[k] >= 0
  {
    assert a[0] * b[0] >= 0;
    if k > 0 {
      DotAtLeastTerm(a[1..], b[1..], k - 1);
    } else if |a| > 1 {
      DotAtLeastTerm(a[1..], b[1..], 0);
    }
  }

  /** A vector has zero magnitude exactly when all its entries are zero. */
  lemma {:induction false} NormSqZero(a: seq<int>)
    ensures NormSq(a) >= 0
    ensures NormSq(a) == 0 <==> forall k :: 0 <= k < |a| ==> a[k] == 0
  {
    if a != [] {
      NormSqZero(a[1..]);
      assert a[0] * a[0] >= 0;
      assert a[0] * a[0] == 0 <==> a[0] == 0;
      if forall k :: 0 <= k < |a[1..]| ==> a[1..][k] == 0 {
        assert forall k :: 1 <= k < |a| ==> a[k] == a[1..][k - 1];
      }
    }
  }
}
