# DocSearch in Dafny

A model of DocSearch, a small in-memory search engine. It answers boolean-AND queries and ranks the results with a vector space model. For each query it works in these steps:

1. Split every document with Python's `str.split()`.
2. Collect the vocabulary (`build_word_list`).
3. Build an inverted index from each term to a posting list of 1-based document ids (`create_index`).
4. Give each vocabulary term a position.
5. Build a 0/1 presence vector for the query.
6. Keep as candidates the documents whose tokens include every query token.
7. Build an occurrence-count vector for each candidate and score it against the query vector.
8. Sort the (id, score) pairs by ascending score.

The model has five modules:

- `Tokenizer` (`tokenizer.dfy`): `str.split()` with no separator, as a pure function.
- `Index` (`index.dfy`): `build_word_list` and `create_index`. They are written as methods with loops, proved against the specification functions `Vocabulary`, `Postings` and `IndexOf`.
- `Vectors` (`vectors.dfy`): the term positions (`word_to_index`) and the two vectorizers. The vectorizers fill an array element by element, as the source does with `np.zeros`. The module also holds the integer dot product and squared norm that feed the score.
- `Ranking` (`ranking.dfy`): `sorted(..., key=score)`, as a function proved to return a sorted permutation.
- `Search` (`search.dfy`): the candidate filter, the scoring loop, one query, and the whole `search` run. `search` prints its results; here it returns them as one `QueryResult` per query.

A few things are modelled in a particular way:

- **Set iteration order.** The source iterates over Python sets when it enumerates the vocabulary and when it walks the candidates. That order is not fixed, so the methods pick any remaining element (`:|`). `TermPositions` also returns the order it used as a ghost sequence `order`. `word_to_index` and `order` are inverse to each other.
- **The score.** The angle is computed in floating point with numpy and `math.acos`. It is modelled as a parameter `score: (seq<int>, seq<int>) -> real`, applied to the query vector and the document vector.
- **Vectors.** The source's vectors are float arrays. Every value they hold is a small whole number, so the model uses `int`.

## Model

| member | source | states |
|---|---|---|
| Tokenizer.Split | DocSearch.py:7 | every token is non-empty and has no whitespace character (the `str.isspace()` set); there are no tokens exactly when the string is all whitespace |
| Tokenizer.SplitJoin | DocSearch.py:7 | splitting tokens that were joined with single spaces gives back exactly those tokens |
| Tokenizer.SplitKeepsNonSpace | DocSearch.py:7 | the tokens, concatenated, are the non-whitespace characters of the input in their original order |
| Index.BuildWordList | DocSearch.py:4-9 | the result is the vocabulary: a term is in it exactly when some document's split contains it; no documents give the empty set |
| Index.VocabularyMembership | DocSearch.py:4-9 | a term is in the vocabulary exactly when it is a token of some document |
| Index.CreateIndex | DocSearch.py:11-19 | the dictionary built in place is the inverted index `IndexOf` of the tokenized documents (properties in `Index.IndexProperties`) |
| Index.AddDocument | DocSearch.py:14-18 | after all tokens of the next document are processed, each term's list is its postings over the earlier documents plus the new id once per occurrence of the term in this document, and the keys are the earlier vocabulary plus this document's tokens |
| Index.AppendKeepsPartialIndex | DocSearch.py:15-18 | creating a missing list and appending the current id keeps the index equal to the postings of the documents so far plus one id per token seen in the current document |
| Index.FinishDocument | DocSearch.py:13-18 | once all tokens of document i+1 are processed, the index is the inverted index of the first i+1 documents |
| Index.IndexProperties | DocSearch.py:11-19 | the keys are the vocabulary; in index[w], id d occurs exactly as often as w occurs in document d's tokens; every posting list is non-decreasing with ids in [1, len(documents)] |
| Index.PostingsCount | DocSearch.py:13-18 | the number of copies of d in a posting list is the count of the term in document d, and 0 for ids outside 1..n |
| Index.PostingsNonEmpty | DocSearch.py:16-18 | a posting list is non-empty exactly when its term is in the vocabulary |
| Index.PostingsBounds | DocSearch.py:13-18 | every posting is a valid document id, 1..n |
| Index.PostingsSorted | DocSearch.py:13-18 | every posting list is non-decreasing, because ids are appended in document order |
| Vectors.TermPositions | DocSearch.py:35 | word_to_index is a bijection from the vocabulary onto 0..len(word_list)-1, with `order` as its inverse |
| Vectors.QueryVector | DocSearch.py:39-44 | length len(word_list), entries 0 or 1, and the entry at w's position is 1 exactly when w is a query token; non-vocabulary tokens are ignored |
| Vectors.DocumentVector | DocSearch.py:59-62 | length len(word_list), and the entry at t's position is the number of occurrences of t among the document's tokens |
| Vectors.CountVectorSum | DocSearch.py:59-62 | when every token is a vocabulary term, the count vector's entries add up to the number of tokens |
| Vectors.DotAtLeastTerm | DocSearch.py:22 | with non-negative vectors, the dot product is at least any single product of entries, and non-negative |
| Vectors.NormSqZero | DocSearch.py:23-24 | the squared magnitude is non-negative and zero exactly when every entry is zero |
| Ranking.PrependSmallest | DocSearch.py:67 | an entry scoring strictly below everything in a sorted permutation can go in front and keep it sorted |
| Ranking.InsertByScore | DocSearch.py:67 | inserting into a sorted sequence gives a sorted sequence with exactly one more element, the inserted one |
| Ranking.SortByScore | DocSearch.py:67 | the result is ordered non-decreasing by score and is a permutation (same multiset) of the input |
| Search.AllIds | DocSearch.py:46 | `set(range(1, n + 1))`: exactly the ids 1..n, n of them |
| Search.Candidates | DocSearch.py:46-52 | the result is the index-level filter: a subset of 1..n; empty when some query token is not a key; all ids when the query has no tokens |
| Search.PostingsMembership | DocSearch.py:49 | an id is in a term's posting list exactly when it is a valid id and its document contains the term |
| Search.MatchingEdgeCases | DocSearch.py:46-52 | a query without tokens matches every document; a query with a token outside the vocabulary matches none |
| Search.MatchingByPostings | DocSearch.py:47-49 | when every query token is a key, a document is in every query token's posting list exactly when it contains every query token |
| Search.FilteredIsMatching | DocSearch.py:46-52 | over the index of the documents, the filter finds exactly the documents whose tokens include every query token |
| Search.DistinctIds | DocSearch.py:56-67 | when a hit's score is fixed by its id, a hit list without repeated hits has no repeated id |
| Search.ScoreCandidates | DocSearch.py:56-65 | one hit per candidate, none repeated, each pairing the candidate id with the score of its count vector against the query vector |
| Search.RunQuery | DocSearch.py:39-67 | the candidates are exactly the documents containing every query token; the ranked list has each candidate once with its score, sorted by ascending score |
| Search.Search | DocSearch.py:29-71 | one result per query, each with the vocabulary size, the candidate set and its ranking as above; `order` enumerates the vocabulary without repetition |
| Search.DocumentVectorSum | DocSearch.py:59-62 | every document token is a vocabulary term, so a document vector's entries add up to the document's token count |
| Search.CandidateScoreDefined | DocSearch.py:21-27 | for a query with at least one token, each candidate's dot product with the query and both squared magnitudes are positive, so the angle is defined |
| Search.QueryVectorZero | DocSearch.py:39-44 | the query vector has zero magnitude exactly when no query token is a vocabulary term, in particular for whitespace-only queries |

## Left out

- Reading `docs.txt` and `queries.txt` and starting the program (DocSearch.py:73-79) are I/O. `Search.Search` takes the lines as parameters.
- Console output (DocSearch.py:33, 38, 54, 69-71) is left out. `Search.Search` returns, per query, the values printed: the vocabulary size, the candidate ids and the ranked (id, score) pairs. Formatting to two decimals is left out.
- `calculate_angle_similarity` (DocSearch.py:21-27) is a parameter.
  - It works in floating point and calls numpy and `math.acos`.
  - Only its integer inputs are modelled: `Vectors.Dot` and `Vectors.NormSq`.
  - What the source does on a zero-magnitude vector is not modelled: a `nan` from `0/0`, which then goes through `acos`. `Search.QueryVectorZero` says exactly when that happens.
  - A rounding error that pushes the cosine just past 1 makes `math.acos` raise an exception. This is not modelled.
- The source really does return every document as a candidate for a query with no tokens, and then scores a zero query vector (`Search.MatchingEdgeCases`, `Search.QueryVectorZero`). The model follows this. It does not replace the `nan` score with a sentinel or an error.
- Set iteration order is left open.
  - Both the vocabulary enumeration and the candidate enumeration are arbitrary choices.
  - So the ranking's order among equal scores is not stated. Only sortedness and the exact set of (id, score) pairs are. `Ranking.SortByScore` is stable, but nothing relies on that.
- Search.ScoreCandidates: the `doc_similarities` dictionary is modelled as the list of its items in insertion order. Its keys are the distinct candidate ids, so each id appears once.
- Vectors.QueryVector, Vectors.DocumentVector: numpy float arrays are modelled as `int` sequences. Every value they hold (0, 1 or an occurrence count) is a whole number that a float represents exactly.
