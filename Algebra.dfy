/** The postings algebra: the merge-join intersection (AND) and merge (OR) of
    two id-sorted postings lists, as reference functions that follow the
    joins step by step, and what they compute for sorted, duplicate-free
    inputs. */
module Algebra {
  import opened PostingLists

  /** Walk both lists in id order; on equal ids emit the id with the summed
      score and advance both sides; otherwise advance the side with the
      smaller id. Stops as soon as either side runs out. */
  function Intersection(a: seq<Posting>, b: seq<Posting>): seq<Posting>
    decreases |a| + |b|
  {
    if a == [] || b == [] then []
    else if a[0].doc == b[0].doc then [Posting(a[0].doc, a[0].score + b[0].score)] + Intersection(a[1..], b[1..])
    else if a[0].doc < b[0].doc then Intersection(a[1..], b)
    else Intersection(a, b[1..])
  }

  /** The merge as the code runs it: on equal ids emit the summed score and
      advance both sides; otherwise emit the smaller id's own posting and
      advance that side, and when that exhausts it, append the rest of the
      other side and stop. When an equal step exhausts a side, the join ends
      without copying the other side's rest; when a side starts empty, the
      join never runs. */
  function MergePostings(a: seq<Posting>, b: seq<Posting>): seq<Posting>
    decreases |a| + |b|
  {
    if a == [] || b == [] then []
    else if a[0].doc == b[0].doc then [Posting(a[0].doc, a[0].score + b[0].score)] + MergePostings(a[1..], b[1..])
    else if a[0].doc < b[0].doc then [a[0]] + (if |a| == 1 then b else MergePostings(a[1..], b))
    else [b[0]] + (if |b| == 1 then a else MergePostings(a, b[1..]))
  }

  /** The merge loop's steps, read at positions `i` of `a` and `j` of `b`:
      what the merge of the remaining suffixes emits first and what it
      continues with. */
  lemma MergeAtBoth(a: seq<Posting>, b: seq<Posting>, i: nat, j: nat)
    requires i < |a| && j < |b| && a[i].doc == b[j].doc
    ensures MergePostings(a[i..], b[j..])
            == [Posting(a[i].doc, a[i].score + b[j].score)] + MergePostings(a[i + 1..], b[j + 1..])
  {
    assert a[i..][1..] == a[i + 1..] && b[j..][1..] == b[j + 1..];
  }

  lemma MergeAtOne(a: seq<Posting>, b: seq<Posting>, i: nat, j: nat)
    requires i + 1 < |a| && j < |b| && a[i].doc < b[j].doc
    ensures MergePostings(a[i..], b[j..]) == [a[i]] + MergePostings(a[i + 1..], b[j..])
  {
    assert a[i..][1..] == a[i + 1..];
  }

  lemma MergeAtOneLast(a: seq<Posting>, b: seq<Posting>, i: nat, j: nat)
    requires i + 1 == |a| && j < |b| && a[i].doc < b[j].doc
    ensures MergePostings(a[i..], b[j..]) == [a[i]] + b[j..]
  {
  }

  lemma MergeAtTwo(a: seq<Posting>, b: seq<Posting>, i: nat, j: nat)
    requires i < |a| && j + 1 < |b| && a[i].doc > b[j].doc
    ensures MergePostings(a[i..], b[j..]) == [b[j]] + MergePostings(a[i..], b[j + 1..])
  {
    assert b[j..][1..] == b[j + 1..];
  }

  lemma MergeAtTwoLast(a: seq<Posting>, b: seq<Posting>, i: nat, j: nat)
    requires i < |a| && j + 1 == |b| && a[i].doc > b[j].doc
    ensures MergePostings(a[i..], b[j..]) == [b[j]] + a[i..]
  {
  }

  /** Moving the head of the rest onto the emitted part. */
  lemma EmitHead<T>(c: seq<T>, x: T, rest: seq<T>)
    ensures c + ([x] + rest) == (c + [x]) + rest
  {
  }

  /** The merge loop's invariant: `c` has been emitted after reading `i`
      postings of `a` and `j` of `b`, and the merge of what is left completes
      it to the merge of the whole lists. */
  predicate MergeProgress(a: seq<Posting>, b: seq<Posting>, i: nat, j: nat, c: seq<Posting>) {
    i <= |a| && j <= |b| && c + MergePostings(a[i..], b[j..]) == MergePostings(a, b)
  }

  /** Nothing read, nothing emitted. */
  lemma MergeProgressStart(a: seq<Posting>, b: seq<Posting>)
    ensures MergeProgress(a, b, 0, 0, [])
  {
    assert a[0..] == a && b[0..] == b;
  }

  /** Equal ids: emitting the summed posting and advancing both sides keeps
      the invariant. */
  lemma MergeProgressBoth(a: seq<Posting>, b: seq<Posting>, i: nat, j: nat, c: seq<Posting>, p: Posting)
    requires MergeProgress(a, b, i, j, c)
    requires i < |a| && j < |b| && a[i].doc == b[j].doc
    requires p == Posting(a[i].doc, a[i].score + b[j].score)
    ensures MergeProgress(a, b, i + 1, j + 1, c + [p])
  {
    MergeAtBoth(a, b, i, j);
    EmitHead(c, p, MergePostings(a[i + 1..], b[j + 1..]));
  }

  /** A smaller id in `a`: emitting its posting and advancing `a` keeps the
      invariant, or, when that was the last posting of `a`, appending the
      rest of `b` completes the merge. */
  lemma MergeProgressOne(a: seq<Posting>, b: seq<Posting>, i: nat, j: nat, c: seq<Posting>, p: Posting)
    requires MergeProgress(a, b, i, j, c)
    requires i < |a| && j < |b| && a[i].doc < b[j].doc
    requires p == Posting(a[i].doc, a[i].score)
    ensures i + 1 < |a| ==> MergeProgress(a, b, i + 1, j, c + [p])
    ensures i + 1 == |a| ==> c + [p] + b[j..] == MergePostings(a, b)
  {
    if i + 1 < |a| {
      MergeAtOne(a, b, i, j);
      EmitHead(c, p, MergePostings(a[i + 1..], b[j..]));
    } else {
      MergeAtOneLast(a, b, i, j);
      EmitHead(c, p, b[j..]);
    }
  }

  /** A smaller id in `b`, symmetrically. */
  lemma MergeProgressTwo(a: seq<Posting>, b: seq<Posting>, i: nat, j: nat, c: seq<Posting>, p: Posting)
    requires MergeProgress(a, b, i, j, c)
    requires i < |a| && j < |b| && a[i].doc > b[j].doc
    requires p == Posting(b[j].doc, b[j].score)
    ensures j + 1 < |b| ==> MergeProgress(a, b, i, j + 1, c + [p])
    ensures j + 1 == |b| ==> c + [p] + a[i..] == MergePostings(a, b)
  {
    if j + 1 < |b| {
      MergeAtTwo(a, b, i, j);
      EmitHead(c, p, MergePostings(a[i..], b[j + 1..]));
    } else {
      MergeAtTwoLast(a, b, i, j);
      EmitHead(c, p, a[i..]);
    }
  }

  /** Once a side is used up, the emitted list is the whole merge exactly
      when the invariant holds. */
  lemma MergeProgressDone(a: seq<Posting>, b: seq<Posting>, i: nat, j: nat, c: seq<Posting>)
    requires i <= |a| && j <= |b| && (i == |a| || j == |b|)
    ensures MergeProgress(a, b, i, j, c) <==> c == MergePostings(a, b)
  {
    MergeWithEmpty(a[i..]);
    MergeWithEmpty(b[j..]);
  }

  /** For sorted inputs the intersection is sorted, holds exactly the ids
      found in both lists, scores each with the sum of its two scores, and is
      no longer than either input. */
  lemma {:induction false} IntersectionSpec(a: seq<Posting>, b: seq<Posting>)
    requires StrictlyAscending(a) && StrictlyAscending(b)
    ensures StrictlyAscending(Intersection(a, b))
    ensures forall x :: x in Ids(Intersection(a, b)) <==> x in Ids(a) && x in Ids(b)
    ensures forall x :: x in Ids(Intersection(a, b)) ==>
      ScoreAt(Intersection(a, b), x) == ScoreAt(a, x) + ScoreAt(b, x)
    ensures |Intersection(a, b)| <= |a| && |Intersection(a, b)| <= |b|
    decreases |a| + |b|
  {
    var r := Intersection(a, b);
    if a != [] && b != [] {
      SortedIds(a);
      SortedIds(b);
      if a[0].doc == b[0].doc {
        var rest := Intersection(a[1..], b[1..]);
        IntersectionSpec(a[1..], b[1..]);
        AscendingCons(Posting(a[0].doc, a[0].score + b[0].score), rest);
      } else if a[0].doc < b[0].doc {
        IntersectionSpec(a[1..], b);
      } else {
        IntersectionSpec(a, b[1..]);
      }
    }
  }

  /** Prefixing a posting below every id of a sorted list keeps it sorted. */
  lemma AscendingCons(p: Posting, ps: seq<Posting>)
    requires StrictlyAscending(ps)
    requires forall x :: x in Ids(ps) ==> p.doc < x
    ensures StrictlyAscending([p] + ps)
  {
    IdsAreElements(ps);
    forall i, j | 0 <= i < j < |[p] + ps| ensures ([p] + ps)[i].doc < ([p] + ps)[j].doc {
      if i == 0 {
        assert ([p] + ps)[j] == ps[j - 1];
      }
    }
  }

  /** Intersection does not depend on the order of its operands. */
  lemma {:induction false} IntersectionCommutes(a: seq<Posting>, b: seq<Posting>)
    ensures Intersection(a, b) == Intersection(b, a)
    decreases |a| + |b|
  {
    if a != [] && b != [] {
      if a[0].doc == b[0].doc {
        IntersectionCommutes(a[1..], b[1..]);
      } else if a[0].doc < b[0].doc {
        IntersectionCommutes(a[1..], b);
      } else {
        IntersectionCommutes(a, b[1..]);
      }
    }
  }

  /** The id where the merge stops when it stops early: the smaller of the two
      last ids. */
  function Cut(a: seq<Posting>, b: seq<Posting>): nat
    requires a != [] && b != []
  {
    if Last(a).doc <= Last(b).doc then Last(a).doc else Last(b).doc
  }

  /** Whether `x` survives the merge as written: both inputs are non-empty,
      `x` is an id of either input, and, when the cut id is shared by both
      inputs (so an equal step exhausts a side there), `x` is not above it. */
  predicate Kept(a: seq<Posting>, b: seq<Posting>, x: nat) {
    && a != [] && b != []
    && (x in Ids(a) || x in Ids(b))
    && (Cut(a, b) in Ids(a) && Cut(a, b) in Ids(b) ==> x <= Cut(a, b))
  }

  /** For sorted inputs the merge is sorted; it holds exactly the ids `Kept`
      describes; and every id it holds carries the sum of the scores the two
      inputs give it, so an id of one side only keeps its own score. */
  lemma {:induction false} MergeSpec(a: seq<Posting>, b: seq<Posting>)
    requires StrictlyAscending(a) && StrictlyAscending(b)
    ensures StrictlyAscending(MergePostings(a, b))
    ensures forall x :: x in Ids(MergePostings(a, b)) <==> Kept(a, b, x)
    ensures forall x :: x in Ids(MergePostings(a, b)) ==>
      ScoreAt(MergePostings(a, b), x) == ScoreAt(a, x) + ScoreAt(b, x)
    decreases |a| + |b|
  {
    if a != [] && b != [] {
      SortedIds(a);
      SortedIds(b);
      if a[0].doc == b[0].doc {
        MergeEqualStep(a, b);
      } else if a[0].doc < b[0].doc {
        MergeSmallerStep(a, b);
      } else {
        MergeSmallerStep(b, a);
        MergeCommutes(a, b);
        forall x ensures Kept(a, b, x) == Kept(b, a, x) {
          KeptSymmetric(a, b, x);
        }
      }
    }
  }

  lemma KeptSymmetric(a: seq<Posting>, b: seq<Posting>, x: nat)
    ensures Kept(a, b, x) == Kept(b, a, x)
  {
    if a != [] && b != [] {
      assert Cut(a, b) == Cut(b, a);
    }
  }

  /** The step of `MergeSpec` where both heads carry the same id. */
  lemma {:induction false} MergeEqualStep(a: seq<Posting>, b: seq<Posting>)
    requires StrictlyAscending(a) && StrictlyAscending(b)
    requires a != [] && b != [] && a[0].doc == b[0].doc
    ensures StrictlyAscending(MergePostings(a, b))
    ensures forall x :: x in Ids(MergePostings(a, b)) <==> Kept(a, b, x)
    ensures forall x :: x in Ids(MergePostings(a, b)) ==>
      ScoreAt(MergePostings(a, b), x) == ScoreAt(a, x) + ScoreAt(b, x)
    decreases |a| + |b|, 0
  {
    MergeSpec(a[1..], b[1..]);
    MergeEqualSorted(a, b);
    MergeEqualIds(a, b);
    MergeEqualScores(a, b);
  }

  /** The order of the merge when both heads carry the same id. */
  lemma MergeEqualSorted(a: seq<Posting>, b: seq<Posting>)
    requires StrictlyAscending(a) && StrictlyAscending(b)
    requires a != [] && b != [] && a[0].doc == b[0].doc
    requires StrictlyAscending(MergePostings(a[1..], b[1..]))
    requires forall x :: x in Ids(MergePostings(a[1..], b[1..])) ==> x in Ids(a[1..]) || x in Ids(b[1..])
    ensures StrictlyAscending(MergePostings(a, b))
  {
    SortedIds(a);
    SortedIds(b);
    var head := Posting(a[0].doc, a[0].score + b[0].score);
    var rest := MergePostings(a[1..], b[1..]);
    assert MergePostings(a, b) == [head] + rest;
    AscendingCons(head, rest);
  }

  /** The ids of the merge when both heads carry the same id. */
  lemma MergeEqualIds(a: seq<Posting>, b: seq<Posting>)
    requires StrictlyAscending(a) && StrictlyAscending(b)
    requires a != [] && b != [] && a[0].doc == b[0].doc
    requires forall x :: x in Ids(MergePostings(a[1..], b[1..])) <==> Kept(a[1..], b[1..], x)
    ensures forall x :: x in Ids(MergePostings(a, b)) <==> Kept(a, b, x)
  {
    if a[1..] == [] || b[1..] == [] {
      MergeEqualExhausts(a, b);
    } else {
      MergeEqualGoesOn(a, b);
    }
  }

  /** An equal step that exhausts a side: the head id is the cut and the
      only id left. */
  lemma MergeEqualExhausts(a: seq<Posting>, b: seq<Posting>)
    requires StrictlyAscending(a) && StrictlyAscending(b)
    requires a != [] && b != [] && a[0].doc == b[0].doc
    requires a[1..] == [] || b[1..] == []
    ensures forall x :: x in Ids(MergePostings(a, b)) <==> Kept(a, b, x)
  {
    SortedIds(a);
    SortedIds(b);
    var h := a[0].doc;
    var m := MergePostings(a, b);
    MergeWithEmpty(if a[1..] == [] then b[1..] else a[1..]);
    assert m == [Posting(h, a[0].score + b[0].score)] + MergePostings(a[1..], b[1..]);
    assert Ids(m) == {h};
    var c := Cut(a, b);
    assert c == h;
    assert c in Ids(a) && c in Ids(b);
    forall x ensures (x in Ids(m)) == Kept(a, b, x) {
      if x != h {
        assert x in Ids(a) || x in Ids(b) ==> x > c;
      }
    }
  }

  /** An equal step after which both sides go on: the cut is unchanged and
      the head id joins the ids of the rest. */
  lemma MergeEqualGoesOn(a: seq<Posting>, b: seq<Posting>)
    requires StrictlyAscending(a) && StrictlyAscending(b)
    requires |a| > 1 && |b| > 1 && a[0].doc == b[0].doc
    requires forall x :: x in Ids(MergePostings(a[1..], b[1..])) <==> Kept(a[1..], b[1..], x)
    ensures forall x :: x in Ids(MergePostings(a, b)) <==> Kept(a, b, x)
  {
    var h := a[0].doc;
    var rest := MergePostings(a[1..], b[1..]);
    var m := MergePostings(a, b);
    assert m == [Posting(h, a[0].score + b[0].score)] + rest;
    Cons(Posting(h, a[0].score + b[0].score), rest);
    assert Last(a[1..]) == Last(a) && Last(b[1..]) == Last(b);
    assert h < Last(a).doc && h < Last(b).doc;
    var c := Cut(a, b);
    assert Cut(a[1..], b[1..]) == c;
    assert (c in Ids(a)) == (c in Ids(a[1..]));
    assert (c in Ids(b)) == (c in Ids(b[1..]));
    forall x ensures (x in Ids(m)) == Kept(a, b, x) {
      if x == h {
        assert x in Ids(a) && x <= c;
      } else {
        assert (x in Ids(m)) == (x in Ids(rest));
      }
    }
  }

  /** The scores of the merge when both heads carry the same id. */
  lemma MergeEqualScores(a: seq<Posting>, b: seq<Posting>)
    requires a != [] && b != [] && a[0].doc == b[0].doc
    requires forall x :: x in Ids(MergePostings(a[1..], b[1..])) ==>
      ScoreAt(MergePostings(a[1..], b[1..]), x) == ScoreAt(a[1..], x) + ScoreAt(b[1..], x)
    ensures forall x :: x in Ids(MergePostings(a, b)) ==>
      ScoreAt(MergePostings(a, b), x) == ScoreAt(a, x) + ScoreAt(b, x)
  {
    var h := a[0].doc;
    var head := Posting(h, a[0].score + b[0].score);
    var rest := MergePostings(a[1..], b[1..]);
    var m := MergePostings(a, b);
    assert m == [head] + rest;
    Cons(head, rest);
    forall x | x in Ids(m) ensures ScoreAt(m, x) == ScoreAt(a, x) + ScoreAt(b, x) {
      if x != h {
        assert x in Ids(rest);
        assert ScoreAt(m, x) == ScoreAt(rest, x);
      }
    }
  }

  /** The step of `MergeSpec` where `a` has the smaller head id. */
  lemma {:induction false} MergeSmallerStep(a: seq<Posting>, b: seq<Posting>)
    requires StrictlyAscending(a) && StrictlyAscending(b)
    requires a != [] && b != [] && a[0].doc < b[0].doc
    ensures StrictlyAscending(MergePostings(a, b))
    ensures forall x :: x in Ids(MergePostings(a, b)) <==> Kept(a, b, x)
    ensures forall x :: x in Ids(MergePostings(a, b)) ==>
      ScoreAt(MergePostings(a, b), x) == ScoreAt(a, x) + ScoreAt(b, x)
    decreases |a| + |b|, 0
  {
    if |a| == 1 {
      MergeExhaustsStep(a, b);
    } else {
      MergeSpec(a[1..], b);
      MergeSmallerSorted(a, b);
      MergeSmallerIds(a, b);
      MergeSmallerScores(a, b);
    }
  }

  /** The order of the merge when `a` has the smaller head and goes on. */
  lemma MergeSmallerSorted(a: seq<Posting>, b: seq<Posting>)
    requires StrictlyAscending(a) && StrictlyAscending(b)
    requires |a| > 1 && b != [] && a[0].doc < b[0].doc
    requires StrictlyAscending(MergePostings(a[1..], b))
    requires forall x :: x in Ids(MergePostings(a[1..], b)) ==> x in Ids(a[1..]) || x in Ids(b)
    ensures StrictlyAscending(MergePostings(a, b))
  {
    SortedIds(a);
    SortedIds(b);
    var rest := MergePostings(a[1..], b);
    assert MergePostings(a, b) == [a[0]] + rest;
    AscendingCons(a[0], rest);
  }

  /** The ids of the merge when `a` has the smaller head and goes on. */
  lemma MergeSmallerIds(a: seq<Posting>, b: seq<Posting>)
    requires StrictlyAscending(a) && StrictlyAscending(b)
    requires |a| > 1 && b != [] && a[0].doc < b[0].doc
    requires forall x :: x in Ids(MergePostings(a[1..], b)) <==> Kept(a[1..], b, x)
    ensures forall x :: x in Ids(MergePostings(a, b)) <==> Kept(a, b, x)
  {
    var h := a[0].doc;
    var rest := MergePostings(a[1..], b);
    var m := MergePostings(a, b);
    assert m == [a[0]] + rest;
    Cons(a[0], rest);
    Cons(a[0], a[1..]);
    assert a == [a[0]] + a[1..];
    assert Last(a[1..]) == Last(a);
    assert h < Last(a).doc;
    assert b[0].doc <= Last(b).doc;
    var c := Cut(a, b);
    assert Cut(a[1..], b) == c;
    assert h < c;
    assert (c in Ids(a)) == (c in Ids(a[1..]));
    forall x ensures (x in Ids(m)) == Kept(a, b, x) {
      if x == h {
        assert x in Ids(a) && x <= c;
      } else {
        assert (x in Ids(a)) == (x in Ids(a[1..]));
        assert (x in Ids(m)) == (x in Ids(rest));
      }
    }
  }

  /** The scores of the merge when `a` has the smaller head and goes on. */
  lemma MergeSmallerScores(a: seq<Posting>, b: seq<Posting>)
    requires StrictlyAscending(a) && StrictlyAscending(b)
    requires |a| > 1 && b != [] && a[0].doc < b[0].doc
    requires forall x :: x in Ids(MergePostings(a[1..], b)) ==>
      ScoreAt(MergePostings(a[1..], b), x) == ScoreAt(a[1..], x) + ScoreAt(b, x)
    ensures forall x :: x in Ids(MergePostings(a, b)) ==>
      ScoreAt(MergePostings(a, b), x) == ScoreAt(a, x) + ScoreAt(b, x)
  {
    SortedIds(b);
    var h := a[0].doc;
    assert h !in Ids(b);
    ScoreAbsent(b, h);
    var rest := MergePostings(a[1..], b);
    assert MergePostings(a, b) == [a[0]] + rest;
    Cons(a[0], rest);
    Cons(a[0], a[1..]);
    assert a == [a[0]] + a[1..];
  }

  /** The ids and scores of a list with a posting put in front. */
  lemma Cons(p: Posting, ps: seq<Posting>)
    ensures Ids([p] + ps) == {p.doc} + Ids(ps)
    ensures forall x :: ScoreAt([p] + ps, x) == if x == p.doc then p.score else ScoreAt(ps, x)
  {
    assert ([p] + ps)[1..] == ps;
  }

  /** The step of `MergeSpec` where `a` has a single posting, below `b`'s
      head: the merge appends all of `b`. */
  lemma MergeExhaustsStep(a: seq<Posting>, b: seq<Posting>)
    requires StrictlyAscending(b)
    requires |a| == 1 && b != [] && a[0].doc < b[0].doc
    ensures MergePostings(a, b) == a + b
    ensures StrictlyAscending(MergePostings(a, b))
    ensures forall x :: x in Ids(MergePostings(a, b)) <==> Kept(a, b, x)
    ensures forall x :: x in Ids(MergePostings(a, b)) ==>
      ScoreAt(MergePostings(a, b), x) == ScoreAt(a, x) + ScoreAt(b, x)
  {
    SortedIds(b);
    var h := a[0].doc;
    assert a == [a[0]];
    assert h !in Ids(b);
    ScoreAbsent(b, h);
    assert Cut(a, b) == h;
    AscendingCons(a[0], b);
    assert Ids(a) == {h};
    forall x | x in Ids(b) ensures ScoreAt(a, x) == 0 {
      assert a[1..] == [];
    }
  }

  /** Merge does not depend on the order of its operands. */
  lemma {:induction false} MergeCommutes(a: seq<Posting>, b: seq<Posting>)
    ensures MergePostings(a, b) == MergePostings(b, a)
    decreases |a| + |b|
  {
    if a != [] && b != [] {
      if a[0].doc == b[0].doc {
        MergeCommutes(a[1..], b[1..]);
      } else if a[0].doc < b[0].doc {
        if |a| > 1 {
          MergeCommutes(a[1..], b);
        }
      } else {
        if |b| > 1 {
          MergeCommutes(a, b[1..]);
        }
      }
    }
  }

  /** Unless both inputs are non-empty and the smaller last id is one they
      share at a point where the other side goes on, the merge is the full
      union of the two id sets. */
  lemma MergeUnion(a: seq<Posting>, b: seq<Posting>)
    requires StrictlyAscending(a) && StrictlyAscending(b)
    requires a != [] && b != []
    requires Last(a).doc == Last(b).doc || !(Cut(a, b) in Ids(a) && Cut(a, b) in Ids(b))
    ensures Ids(MergePostings(a, b)) == Ids(a) + Ids(b)
  {
    MergeSpec(a, b);
    SortedIds(a);
    SortedIds(b);
  }

  /** The dropped tail: an equal step that exhausts one side ends the merge. */
  lemma MergeDropsTail()
    ensures MergePostings([Posting(1, 1)], [Posting(1, 1), Posting(2, 1)]) == [Posting(1, 2)]
  {
  }

  /** Folding the merge over three lists can lose part of a score: the
      second list's posting for 5 is dropped by the first merge, so the
      result scores 5 with the third list's count alone, 1 instead of 2. */
  lemma MergeFoldDropsScore()
    ensures MergePostings(MergePostings([Posting(1, 1)], [Posting(1, 1), Posting(5, 1)]), [Posting(5, 1)])
         == [Posting(1, 2), Posting(5, 1)]
  {
    assert MergePostings([Posting(1, 1)], [Posting(1, 1), Posting(5, 1)]) == [Posting(1, 2)];
  }

  /** An empty operand empties the merge, even though the other side has
      postings. */
  lemma MergeWithEmpty(b: seq<Posting>)
    ensures MergePostings([], b) == [] && MergePostings(b, []) == []
  {
  }
}
