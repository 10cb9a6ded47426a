/** Postings lists: the values the inverted index stores per term and the
    postings algebra combines. */
module PostingLists {

  /** A posting: a document id with the term's score in that document. In the
      term-frequency index modelled here the score is an occurrence count. */
  datatype Posting = Posting(doc: nat, score: int)

  /** Ascending by document id with no id repeated: the order every postings
      list of the index keeps and the merge-joins rely on. */
  predicate StrictlyAscending(ps: seq<Posting>) {
    forall i, j :: 0 <= i < j < |ps| ==> ps[i].doc < ps[j].doc
  }

  /** The document ids a postings list mentions. */
  function Ids(ps: seq<Posting>): set<nat> {
    if ps == [] then {} else {ps[0].doc} + Ids(ps[1..])
  }

  /** The score a postings list gives document `d`; 0 when `d` has no posting. */
  function ScoreAt(ps: seq<Posting>, d: nat): int {
    if ps == [] then 0
    else if ps[0].doc == d then ps[0].score
    else ScoreAt(ps[1..], d)
  }

  function Last<T>(s: seq<T>): T
    requires s != []
  {
    s[|s| - 1]
  }

  /** Every id of a list lies in the bounds that all its postings respect. */
  lemma {:induction false} IdsWithin(ps: seq<Posting>, lo: int, hi: int)
    requires forall i :: 0 <= i < |ps| ==> lo <= ps[i].doc <= hi
    ensures forall x :: x in Ids(ps) ==> lo <= x <= hi
  {
    if ps != [] {
      IdsWithin(ps[1..], lo, hi);
    }
  }

  /** The ids of a list are exactly the ids at its positions. */
  lemma {:induction false} IdsAreElements(ps: seq<Posting>)
    ensures forall i :: 0 <= i < |ps| ==> ps[i].doc in Ids(ps)
    ensures forall x :: x in Ids(ps) ==> exists i :: 0 <= i < |ps| && ps[i].doc == x
  {
    if ps != [] {
      IdsAreElements(ps[1..]);
      forall i | 0 < i < |ps| ensures ps[i].doc in Ids(ps) {
        assert ps[i].doc == ps[1..][i - 1].doc;
      }
      forall x | x in Ids(ps[1..]) ensures exists i :: 0 <= i < |ps| && ps[i].doc == x {
        var k :| 0 <= k < |ps[1..]| && ps[1..][k].doc == x;
        assert ps[k + 1].doc == x;
      }
    }
  }

  lemma IdsEmpty(ps: seq<Posting>)
    ensures Ids(ps) == {} <==> ps == []
  {
    if ps != [] {
      assert ps[0].doc in Ids(ps);
    }
  }

  /** In a strictly ascending list the head is below every other id and the
      last posting above every other id. */
  lemma SortedIds(ps: seq<Posting>)
    requires StrictlyAscending(ps) && ps != []
    ensures ps[0].doc !in Ids(ps[1..])
    ensures forall x :: x in Ids(ps[1..]) ==> ps[0].doc < x
    ensures forall x :: x in Ids(ps) ==> ps[0].doc <= x <= Last(ps).doc
  {
    IdsWithin(ps[1..], ps[0].doc + 1, Last(ps).doc);
  }

  /** A document without a posting scores 0. */
  lemma {:induction false} ScoreAbsent(ps: seq<Posting>, d: nat)
    requires d !in Ids(ps)
    ensures ScoreAt(ps, d) == 0
  {
    if ps != [] {
      ScoreAbsent(ps[1..], d);
    }
  }

  lemma {:induction false} IdsAppend(ps: seq<Posting>, p: Posting)
    ensures Ids(ps + [p]) == Ids(ps) + {p.doc}
  {
    if ps != [] {
      assert (ps + [p])[1..] == ps[1..] + [p];
      IdsAppend(ps[1..], p);
    }
  }

  /** In a strictly ascending list each posting's score is the score the
      list gives its document. */
  lemma {:induction false} ScoreAtElement(ps: seq<Posting>, i: nat)
    requires StrictlyAscending(ps) && i < |ps|
    ensures ScoreAt(ps, ps[i].doc) == ps[i].score
  {
    if i > 0 {
      assert ps[1..][i - 1] == ps[i];
      ScoreAtElement(ps[1..], i - 1);
    }
  }

  /** Appending a posting above every id of a sorted list keeps it sorted. */
  lemma AscendingSnoc(ps: seq<Posting>, p: Posting)
    requires StrictlyAscending(ps)
    requires forall x :: x in Ids(ps) ==> x < p.doc
    ensures StrictlyAscending(ps + [p])
  {
    IdsAreElements(ps);
    forall i, j | 0 <= i < j < |ps + [p]| ensures (ps + [p])[i].doc < (ps + [p])[j].doc {
      if j == |ps| {
        assert ps[i].doc in Ids(ps);
      }
    }
  }

  /** Appending a posting for a new document leaves the other scores alone. */
  lemma {:induction false} ScoreAtAppend(ps: seq<Posting>, p: Posting, d: nat)
    requires p.doc !in Ids(ps)
    ensures ScoreAt(ps + [p], d) == if d == p.doc then p.score else ScoreAt(ps, d)
  {
    if ps == [] {
    } else {
      assert (ps + [p])[1..] == ps[1..] + [p];
      ScoreAtAppend(ps[1..], p, d);
    }
  }
}
