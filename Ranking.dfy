/** Ranking of query results: the stable sort by descending score that the
    query executor applies to its combined postings. */
module Ranking {
  import opened PostingLists

  /** Scores never increase along the list. */
  predicate NonIncreasingScores(ps: seq<Posting>) {
    forall i, j :: 0 <= i < j < |ps| ==> ps[i].score >= ps[j].score
  }

  /** The postings of `ps` whose score is `s`, in their order in `ps`. */
  function WithScore(ps: seq<Posting>, s: int): seq<Posting> {
    if ps == [] then []
    else if ps[0].score == s then [ps[0]] + WithScore(ps[1..], s)
    else WithScore(ps[1..], s)
  }

  /** Puts `p`, which came before every posting of `sorted` in the input,
      in front of the first posting whose score is not above its own. */
  function InsertByScore(p: Posting, sorted: seq<Posting>): seq<Posting> {
    if sorted == [] || sorted[0].score <= p.score then [p] + sorted
    else [sorted[0]] + InsertByScore(p, sorted[1..])
  }

  /** Sort by descending score, keeping postings with equal scores in their
      input order. */
  function SortByScore(ps: seq<Posting>): seq<Posting> {
    if ps == [] then [] else InsertByScore(ps[0], SortByScore(ps[1..]))
  }

  lemma {:induction false} InsertByScoreSpec(p: Posting, sorted: seq<Posting>)
    requires NonIncreasingScores(sorted)
    ensures NonIncreasingScores(InsertByScore(p, sorted))
    ensures multiset(InsertByScore(p, sorted)) == multiset{p} + multiset(sorted)
    ensures forall s ::
              WithScore(InsertByScore(p, sorted), s) == (if p.score == s then [p] else []) + WithScore(sorted, s)
  {
    InsertByScoreContents(p, sorted);
    InsertByScoreOrdered(p, sorted);
  }

  /** Inserting adds `p` to the postings and to the group of its score, in
      front of that group. */
  lemma {:induction false} InsertByScoreContents(p: Posting, sorted: seq<Posting>)
    requires NonIncreasingScores(sorted)
    ensures multiset(InsertByScore(p, sorted)) == multiset{p} + multiset(sorted)
    ensures forall s ::
              WithScore(InsertByScore(p, sorted), s) == (if p.score == s then [p] else []) + WithScore(sorted, s)
  {
    if !(sorted == [] || sorted[0].score <= p.score) {
      var r := InsertByScore(p, sorted);
      InsertByScoreContents(p, sorted[1..]);
      assert r[1..] == InsertByScore(p, sorted[1..]);
      assert sorted == [sorted[0]] + sorted[1..];
    }
  }

  /** Inserting keeps the scores non-increasing. */
  lemma {:induction false} InsertByScoreOrdered(p: Posting, sorted: seq<Posting>)
    requires NonIncreasingScores(sorted)
    ensures NonIncreasingScores(InsertByScore(p, sorted))
  {
    var r := InsertByScore(p, sorted);
    if !(sorted == [] || sorted[0].score <= p.score) {
      var rest := InsertByScore(p, sorted[1..]);
      InsertByScoreOrdered(p, sorted[1..]);
      InsertByScoreContents(p, sorted[1..]);
      assert r == [sorted[0]] + rest;
      forall j | 0 < j < |r| ensures r[0].score >= r[j].score {
        assert r[j] in multiset(rest);
        if r[j] != p {
          assert r[j] in multiset(sorted[1..]);
          var k :| 0 <= k < |sorted[1..]| && sorted[1..][k] == r[j];
          assert sorted[k + 1] == r[j];
        }
      }
      forall i, j | 0 < i < j < |r| ensures r[i].score >= r[j].score {
        assert r[i] == rest[i - 1] && r[j] == rest[j - 1];
      }
    }
  }

  /** The sort is a permutation of its input, by non-increasing score, and
      stable: the postings of each score appear in their input order. */
  lemma {:induction false} SortByScoreSpec(ps: seq<Posting>)
    ensures NonIncreasingScores(SortByScore(ps))
    ensures multiset(SortByScore(ps)) == multiset(ps)
    ensures forall s :: WithScore(SortByScore(ps), s) == WithScore(ps, s)
  {
    if ps != [] {
      SortByScoreSpec(ps[1..]);
      InsertByScoreSpec(ps[0], SortByScore(ps[1..]));
      assert ps == [ps[0]] + ps[1..];
    }
  }

  /** The sorted order is the only one with those properties: a list that
      keeps every score's postings in input order and never increases in
      score is the sort. */
  lemma {:induction false} SortByScoreUnique(ps: seq<Posting>, r: seq<Posting>)
    requires NonIncreasingScores(r)
    requires forall s :: WithScore(r, s) == WithScore(ps, s)
    ensures r == SortByScore(ps)
    decreases |r|
  {
    SortByScoreSpec(ps);
    var q := SortByScore(ps);
    SameScoreGroupsSame(r, q);
  }

  /** Two score-ordered lists with the same postings per score are equal. */
  lemma {:induction false} SameScoreGroupsSame(r: seq<Posting>, q: seq<Posting>)
    requires NonIncreasingScores(r) && NonIncreasingScores(q)
    requires forall s :: WithScore(r, s) == WithScore(q, s)
    ensures r == q
    decreases |r| + |q|
  {
    SameGroupsBothEmpty(r, q);
    if r != [] {
      // The head of each list has the top score of the other.
      TopScore(r, q[0].score);
      TopScore(q, r[0].score);
      var s := r[0].score;
      assert q[0].score == s;
      assert WithScore(r, s)[0] == r[0] && WithScore(q, s)[0] == q[0];
      assert r[0] == q[0];
      forall t ensures WithScore(r[1..], t) == WithScore(q[1..], t) {
        if t == s {
          assert WithScore(r, t) == [r[0]] + WithScore(r[1..], t);
          assert WithScore(q, t) == [q[0]] + WithScore(q[1..], t);
          assert WithScore(r[1..], t) == WithScore(r, t)[1..];
          assert WithScore(q[1..], t) == WithScore(q, t)[1..];
        } else {
          assert WithScore(r, t) == WithScore(r[1..], t);
          assert WithScore(q, t) == WithScore(q[1..], t);
        }
      }
      SameScoreGroupsSame(r[1..], q[1..]);
      assert r == [r[0]] + r[1..] && q == [q[0]] + q[1..];
    }
  }

  lemma SameGroupsBothEmpty(r: seq<Posting>, q: seq<Posting>)
    requires forall s :: WithScore(r, s) == WithScore(q, s)
    ensures r == [] <==> q == []
  {
    if r != [] {
      assert WithScore(q, r[0].score) != [];
    }
    if q != [] {
      assert WithScore(r, q[0].score) != [];
    }
  }

  /** In a score-ordered list, a score with postings is at most the head's. */
  lemma {:induction false} TopScore(ps: seq<Posting>, s: int)
    requires NonIncreasingScores(ps) && ps != []
    requires WithScore(ps, s) != []
    ensures s <= ps[0].score
  {
    if ps[0].score != s {
      var k := WithScoreMember(ps, s);
      assert ps[0].score >= ps[k].score;
    }
  }

  /** A score with postings occurs at some position. */
  lemma {:induction false} WithScoreMember(ps: seq<Posting>, s: int) returns (k: nat)
    requires WithScore(ps, s) != []
    ensures k < |ps| && ps[k].score == s
  {
    if ps[0].score == s {
      k := 0;
    } else {
      var k' := WithScoreMember(ps[1..], s);
      k := k' + 1;
    }
  }
}
