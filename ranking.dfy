/** The ranking step of `search`:
    `sorted(doc_similarities.items(), key=lambda item: item[1])`, which orders
    the (document id, score) pairs by ascending score. */
module Ranking {

  /** One entry of `doc_similarities.items()`: a document id and its score. */
  datatype Hit = Hit(docId: nat, score: real)

  predicate SortedByScore(s: seq<Hit>) {
    forall i, j :: 0 <= i < j < |s| ==> s[i].score <= s[j].score
  }

  /** Putting in front an entry that scores no more than anything in a sorted
      sequence keeps it sorted. */
  lemma PrependSmallest(first: Hit, tail: seq<Hit>, h: Hit, rest: seq<Hit>)
    requires SortedByScore([first] + tail) && first.score < h.score
    requires SortedByScore(rest) && multiset(rest) == multiset(tail) + multiset{h}
    ensures SortedByScore([first] + rest)
  {
    forall x | x in rest
      ensures first.score <= x.score
    {
      assert x in multiset(rest);
      if x != h {
        assert x in multiset(tail);
        var k :| 0 <= k < |tail| && tail[k] == x;
        assert ([first] + tail)[0] == first && ([first] + tail)[k + 1] == x;
      }
    }
    var r := [first] + rest;
    forall i, j | 0 <= i < j < |r|
      ensures r[i].score <= r[j].score
    {
      assert r[j] == rest[j - 1] && rest[j - 1] in rest;
      if i > 0 {
        assert r[i] == rest[i - 1];
      }
    }
  }

  /** Inserts `h` before the first entry whose score is not smaller, so that
      entries with equal scores keep their relative order. */
  function InsertByScore(h: Hit, s: seq<Hit>): (r: seq<Hit>)
    requires SortedByScore(s)
    ensures SortedByScore(r)
    ensures multiset(r) == multiset(s) + multiset{h}
  {
    if s == [] || h.score <= s[0].score then
      [h] + s
    else
      var rest := InsertByScore(h, s[1..]);
      assert s == [s[0]] + s[1..];
      PrependSmallest(s[0], s[1..], h, rest);
      [s[0]] + rest
  }

  /** `sorted(items, key=score)`: a permutation of the items in ascending
      order of score. */
  function SortByScore(items: seq<Hit>): (r: seq<Hit>)
    ensures SortedByScore(r)
    ensures multiset(r) == multiset(items)
  {
    if items == [] then []
    else
      assert items == [items[0]] + items[1..];
      InsertByScore(items[0], SortByScore(items[1..]))
  }
}
