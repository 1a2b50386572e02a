/** The vocabulary builder (`build_word_list`) and the inverted index
    (`create_index`): both walk the documents in order, tokenize each with
    `str.split()` and accumulate, the first into a set of terms, the second
    into a dictionary from term to a list of 1-based document ids. */
module Index {
  import opened Tokenizer

  /** Each document as `str.split()` tokenizes it. */
  function Tokenize(documents: seq<string>): seq<seq<string>> {
    seq(|documents|, i requires 0 <= i < |documents| => Split(documents[i]))
  }

  /** The distinct elements of a token sequence (`set(words)`). */
  function Terms(words: seq<string>): set<string> {
    set w | w in words
  }

  /** The vocabulary of the first |docs| documents: every token of every one. */
  function Vocabulary(docs: seq<seq<string>>): set<string> {
    if docs == [] then {}
    else Vocabulary(docs[..|docs| - 1]) + Terms(docs[|docs| - 1])
  }

  /** `k` copies of the id `x`. */
  function Repeat(x: nat, k: nat): seq<nat> {
    if k == 0 then [] else Repeat(x, k - 1) + [x]
  }

  /** Posting list of `w`: document by document, the id of each document
      once per occurrence of `w` among its tokens. */
  function Postings(docs: seq<seq<string>>, w: string): seq<nat> {
    if docs == [] then []
    else Postings(docs[..|docs| - 1], w) + Repeat(|docs|, multiset(docs[|docs| - 1])[w])
  }

  /** The inverted index of the documents: one posting list per vocabulary term. */
  function IndexOf(docs: seq<seq<string>>): map<string, seq<nat>> {
    map w | w in Vocabulary(docs) :: Postings(docs, w)
  }

  predicate NonDecreasing(s: seq<nat>) {
    forall i, j :: 0 <= i < j < |s| ==> s[i] <= s[j]
  }

  /** A term is in the vocabulary exactly when it is a token of some document. */
  lemma {:induction false} VocabularyMembership(docs: seq<seq<string>>, w: string)
    ensures w in Vocabulary(docs) <==> exists j :: 0 <= j < |docs| && w in docs[j]
  {
    if docs != [] {
      var m := |docs| - 1;
      var init := docs[..m];
      VocabularyMembership(init, w);
      if w in Vocabulary(docs) {
        if w in Vocabulary(init) {
          var j :| 0 <= j < |init| && w in init[j];
          assert init[j] == docs[j];
        } else {
          assert w in docs[m];
        }
      }
      if exists j :: 0 <= j < |docs| && w in docs[j] {
        var j :| 0 <= j < |docs| && w in docs[j];
        if j < m {
          assert init[j] == docs[j];
        }
      }
    }
  }

  lemma {:induction false} RepeatCount(x: nat, k: nat, d: nat)
    ensures |Repeat(x, k)| == k
    ensures multiset(Repeat(x, k))[d] == if d == x then k else 0
  {
    if k > 0 {
      RepeatCount(x, k - 1, d);
    }
  }

  lemma {:induction false} RepeatElements(x: nat, k: nat)
    ensures forall y :: y in Repeat(x, k) ==> y == x
  {
    if k > 0 {
      RepeatElements(x, k - 1);
    }
  }

  /** A posting list is non-empty exactly for the vocabulary terms. */
  lemma {:induction false} PostingsNonEmpty(docs: seq<seq<string>>, w: string)
    ensures Postings(docs, w) != [] <==> w in Vocabulary(docs)
  {
    if docs != [] {
      var m := |docs| - 1;
      PostingsNonEmpty(docs[..m], w);
      var c := multiset(docs[m])[w];
      RepeatCount(|docs|, c, |docs|);
      assert w in Terms(docs[m]) <==> c > 0;
    }
  }

  /** Document `d` occurs in the posting list of `w` once per occurrence of `w`
      among the tokens of document `d`, and ids outside 1..|docs| never occur. */
  lemma {:induction false} PostingsCount(docs: seq<seq<string>>, w: string, d: nat)
    ensures multiset(Postings(docs, w))[d] ==
              if 1 <= d <= |docs| then multiset(docs[d - 1])[w] else 0
  {
    if docs != [] {
      var m := |docs| - 1;
      var init := docs[..m];
      var c := multiset(docs[m])[w];
      var p: seq<nat> := Postings(init, w);
      var r: seq<nat> := Repeat(|docs|, c);
      assert multiset(Postings(docs, w))[d] == multiset(p)[d] + multiset(r)[d] by {
        assert Postings(docs, w) == p + r;
        assert multiset(p + r) == multiset(p) + multiset(r);
      }
      PostingsCount(init, w, d);
      RepeatCount(|docs|, c, d);
      if d == |docs| {
        assert multiset(p)[d] == 0 && multiset(r)[d] == c;
      } else if 1 <= d <= m {
        assert init[d - 1] == docs[d - 1];
        assert multiset(p)[d] == multiset(docs[d - 1])[w] && multiset(r)[d] == 0;
      } else {
        assert multiset(p)[d] == 0 && multiset(r)[d] == 0;
      }
    }
  }

  /** Every posting is a valid 1-based document id. */
  lemma {:induction false} PostingsBounds(docs: seq<seq<string>>, w: string)
    ensures forall x :: x in Postings(docs, w) ==> 1 <= x <= |docs|
  {
    if docs != [] {
      var m := |docs| - 1;
      PostingsBounds(docs[..m], w);
      RepeatElements(|docs|, multiset(docs[m])[w]);
    }
  }

  /** Posting lists list the ids in document order. */
  lemma {:induction false} PostingsSorted(docs: seq<seq<string>>, w: string)
    ensures NonDecreasing(Postings(docs, w))
  {
    if docs != [] {
      var m := |docs| - 1;
      PostingsSorted(docs[..m], w);
      PostingsBounds(docs[..m], w);
      var p := Postings(docs[..m], w);
      var r := Repeat(|docs|, multiset(docs[m])[w]);
      RepeatElements(|docs|, multiset(docs[m])[w]);
      forall i, j | 0 <= i < j < |p + r|
        ensures (p + r)[i] <= (p + r)[j]
      {
        if j < |p| {
        } else if i < |p| {
          assert p[i] in p && (p + r)[j] == r[j - |p|] && r[j - |p|] in r;
        } else {
          assert (p + r)[i] == r[i - |p|] && r[i - |p|] in r;
          assert (p + r)[j] == r[j - |p|] && r[j - |p|] in r;
        }
      }
    }
  }

  /** `build_word_list`: the union of the token sets of all documents. */
  method BuildWordList(documents: seq<string>) returns (allWords: set<string>)
    ensures allWords == Vocabulary(Tokenize(documents))
    ensures forall w :: w in allWords <==>
              exists j :: 0 <= j < |documents| && w in Split(documents[j])
    ensures documents == [] ==> allWords == {}
  {
    ghost var docs := Tokenize(documents);
    allWords := {};
    for i := 0 to |documents|
      invariant allWords == Vocabulary(docs[..i])
    {
      var wordsInDoc := Split(documents[i]);
      allWords := allWords + Terms(wordsInDoc);
      assert docs[..i + 1][..i] == docs[..i];
    }
    assert docs[..|documents|] == docs;
    forall w
      ensures w in allWords <==> exists j :: 0 <= j < |documents| && w in Split(documents[j])
    {
      VocabularyMembership(docs, w);
      if w in allWords {
        var j :| 0 <= j < |docs| && w in docs[j];
        assert w in Split(documents[j]);
      }
      if exists j :: 0 <= j < |documents| && w in Split(documents[j]) {
        var j :| 0 <= j < |documents| && w in Split(documents[j]);
        assert w in docs[j];
      }
    }
  }

  /** What `create_index` holds after the documents `prefix` and the tokens
      `seen` of the next document (whose id is |prefix| + 1) are processed. */
  ghost predicate PartialIndex(index: map<string, seq<nat>>, prefix: seq<seq<string>>, seen: seq<string>) {
    && (forall w :: w in index <==> w in Vocabulary(prefix) || w in seen)
    && (forall w :: w in index ==> index[w] == Postings(prefix, w) + Repeat(|prefix| + 1, multiset(seen)[w]))
  }

  /** One step of the inner loop of `create_index` keeps `PartialIndex`. */
  lemma AppendKeepsPartialIndex(index: map<string, seq<nat>>, mid: map<string, seq<nat>>,
                                index': map<string, seq<nat>>,
                                prefix: seq<seq<string>>, seen: seq<string>, word: string, seen': seq<string>)
    requires PartialIndex(index, prefix, seen)
    requires mid == if word in index then index else index[word := []]
    requires index' == mid[word := mid[word] + [|prefix| + 1]]
    requires seen' == seen + [word]
    ensures PartialIndex(index', prefix, seen')
  {
    assert multiset(seen') == multiset(seen) + multiset{word};
    forall w
      ensures w in index' <==> w in Vocabulary(prefix) || w in seen'
    {
      assert w in seen' <==> w in seen || w == word;
    }
    forall w | w in index'
      ensures index'[w] == Postings(prefix, w) + Repeat(|prefix| + 1, multiset(seen')[w])
    {
      if w != word {
        assert multiset(seen')[w] == multiset(seen)[w];
      } else if word in index {
        assert multiset(seen')[w] == multiset(seen)[w] + 1;
      } else {
        PostingsNonEmpty(prefix, word);
        assert multiset(seen)[w] == 0;
      }
    }
  }

  /** Before the tokens of document `i` are processed, the index of the
      documents before it is a partial index with nothing seen. */
  lemma StartDocument(index: map<string, seq<nat>>, docs: seq<seq<string>>, i: nat)
    requires i < |docs| && index == IndexOf(docs[..i])
    ensures PartialIndex(index, docs[..i], [])
  {
  }

  /** Finishing document `i` turns the partial index into the index of the
      first i + 1 documents. */
  lemma FinishDocument(index: map<string, seq<nat>>, docs: seq<seq<string>>, i: nat)
    requires i < |docs| && PartialIndex(index, docs[..i], docs[i])
    ensures index == IndexOf(docs[..i + 1])
  {
    assert docs[..i + 1][..i] == docs[..i];
    assert index.Keys == Vocabulary(docs[..i + 1]);
  }

  lemma TokenizeCount(documents: seq<string>, w: string, d: nat)
    requires 1 <= d <= |documents|
    ensures multiset(Tokenize(documents)[d - 1])[w] == multiset(Split(documents[d - 1]))[w]
  {
  }

  /** The properties of an inverted index built from raw documents: its keys
      are the vocabulary, each posting list counts, for every document, the
      occurrences of its term there, lists ids in document order and holds only
      valid ids. */
  lemma IndexProperties(documents: seq<string>, index: map<string, seq<nat>>)
    requires index == IndexOf(Tokenize(documents))
    ensures index.Keys == Vocabulary(Tokenize(documents))
    ensures forall w, d :: w in index && 1 <= d <= |documents| ==>
              multiset(index[w])[d] == multiset(Split(documents[d - 1]))[w]
    ensures forall w :: w in index ==>
              NonDecreasing(index[w]) && forall x :: x in index[w] ==> 1 <= x <= |documents|
  {
    var docs := Tokenize(documents);
    forall w, d | w in index && 1 <= d <= |documents|
      ensures multiset(index[w])[d] == multiset(Split(documents[d - 1]))[w]
    {
      PostingsCount(docs, w, d);
      TokenizeCount(documents, w, d);
    }
    forall w | w in index
      ensures NonDecreasing(index[w]) && forall x :: x in index[w] ==> 1 <= x <= |documents|
    {
      PostingsSorted(docs, w);
      PostingsBounds(docs, w);
    }
  }

  /** The inner loop of `create_index` for the document after `prefix`, whose
      id is `docId`: each of its tokens appends the id to that token's list,
      creating the list first when the token is new. */
  method AddDocument(index: map<string, seq<nat>>, ghost prefix: seq<seq<string>>, docId: nat,
                     wordsInDoc: seq<string>)
    returns (index': map<string, seq<nat>>)
    requires PartialIndex(index, prefix, []) && docId == |prefix| + 1
    ensures PartialIndex(index', prefix, wordsInDoc)
  {
    index' := index;
    for j := 0 to |wordsInDoc|
      invariant PartialIndex(index', prefix, wordsInDoc[..j])
    {
      var word := wordsInDoc[j];
      assert wordsInDoc[..j + 1] == wordsInDoc[..j] + [word];
      ghost var before := index';
      if word !in index' {
        index' := index'[word := []];
      }
      ghost var mid := index';
      index' := index'[word := index'[word] + [docId]];
      AppendKeepsPartialIndex(before, mid, index', prefix, wordsInDoc[..j], word, wordsInDoc[..j + 1]);
    }
    assert wordsInDoc[..|wordsInDoc|] == wordsInDoc;
  }

  /** `create_index`: for each document (id = position + 1) and each of its
      tokens, appends the id to that token's list, creating the list first. */
  method CreateIndex(documents: seq<string>) returns (index: map<string, seq<nat>>)
    ensures index == IndexOf(Tokenize(documents))
  {
    ghost var docs := Tokenize(documents);
    index := map[];
    for i := 0 to |documents|
      invariant index == IndexOf(docs[..i])
    {
      var wordsInDoc := Split(documents[i]);
      assert wordsInDoc == docs[i];
      StartDocument(index, docs, i);
      index := AddDocument(index, docs[..i], i + 1, wordsInDoc);
      FinishDocument(index, docs, i);
    }
    assert docs[..|documents|] == docs;
  }
}
