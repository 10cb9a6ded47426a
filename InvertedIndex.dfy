/** The inverted index: the term-frequency index builder, the term lookup,
    the two postings joins and the query executor of class `InvertedIndex`. */
module Index {
  import opened PostingLists
  import opened Build
  import opened Text
  import opened Algebra
  import opened Ranking

  /** A join operand: a term to look up or an already computed list. */
  datatype Operand = Term(name: string) | Postings(list: seq<Posting>)

  /** Building fails when the document-length table ends up empty: the
      average length divides by its size. */
  datatype BuildOutcome = Built | EmptyCorpusError

  datatype Option<T> = None | Some(value: T)

  class InvertedIndex {
    var invertedList: InvertedList
    var documentLengths: map<nat, nat>

    ghost predicate Valid()
      reads this
    {
      NonEmptyLists(invertedList)
    }

    constructor ()
      ensures Valid()
      ensures invertedList == map[] && documentLengths == map[]
    {
      invertedList := map[];
      documentLengths := map[];
    }

    /** Index `documents` with ids 1, 2, ... in input order: record each
        document's number of tokens and count each token into the term's
        postings list. Fails when the length table is left empty, since the
        average length divides by its size. */
    method PopulateInvertedList(documents: seq<string>) returns (outcome: BuildOutcome)
      requires Valid()
      modifies this
      ensures Valid()
      ensures invertedList == AddDocuments(old(invertedList), TokenLists(documents))
      ensures documentLengths == old(documentLengths) + Lengths(TokenLists(documents))
      ensures outcome == EmptyCorpusError <==> documentLengths == map[]
    {
      var documentId := 0;
      for i := 0 to |documents|
        invariant documentId == i
        invariant NonEmptyLists(invertedList)
        invariant invertedList == AddDocuments(old(invertedList), TokenLists(documents[..i]))
        invariant documentLengths == old(documentLengths) + Lengths(TokenLists(documents[..i]))
      {
        documentId := documentId + 1;
        var words := Tokenize(documents[i]);
        documentLengths := documentLengths[documentId := |words|];
        DocumentStep(old(invertedList), documents, i);
        UnionUpdate(old(documentLengths), Lengths(TokenLists(documents[..i])), documentId, |words|);
        ghost var before, lengths := invertedList, documentLengths;
        for j := 0 to |words|
          invariant NonEmptyLists(invertedList)
          invariant invertedList == AddWords(before, words[..j], documentId)
          invariant documentLengths == lengths
        {
          CountOccurrence(words[j], documentId);
          AddWordsStep(before, words, j, documentId);
        }
        assert words[..|words|] == words;
      }
      assert documents[..|documents|] == documents;
      outcome := if |documentLengths| == 0 then EmptyCorpusError else Built;
    }

    /** Count one occurrence of `word` in document `documentId`: bump the
        count of the word's last posting when it is for this document,
        otherwise append a posting with count 1, creating the list for a word
        not seen before. */
    method CountOccurrence(word: string, documentId: nat)
      requires Valid()
      modifies this
      ensures Valid()
      ensures invertedList == AddWord(old(invertedList), word, documentId)
      ensures documentLengths == old(documentLengths)
    {
      if word in invertedList {
        var postings := invertedList[word];
        var last := postings[|postings| - 1];
        if last.doc == documentId {
          invertedList := invertedList[word := postings[..|postings| - 1] + [Posting(last.doc, last.score + 1)]];
        } else {
          invertedList := invertedList[word := postings + [Posting(documentId, 1)]];
        }
      } else {
        invertedList := invertedList[word := [Posting(documentId, 1)]];
      }
    }

    /** A list operand is used as it is; a term is looked up lower-cased,
        and an unknown term gives the empty list rather than an error. */
    function FetchPostings(operand: Operand): seq<Posting>
      reads this
    {
      match operand
      case Postings(list) => list
      case Term(name) => if Lower(name) in invertedList then invertedList[Lower(name)] else []
    }

    /** On an index built from the token lists `corpus`, looking up a term, in any case,
        gives the reference postings of the lower-cased term: a list sorted
        by id with a posting for exactly the documents where the term
        occurs, scored with its number of occurrences there. */
    lemma FetchTermFrequencies(corpus: seq<seq<string>>, name: string)
      requires invertedList == IndexOf(corpus)
      ensures FetchPostings(Term(name)) == PostingsOf(corpus, Lower(name))
      ensures StrictlyAscending(FetchPostings(Term(name)))
      ensures forall x :: x in Ids(FetchPostings(Term(name))) ==> 1 <= x <= |corpus|
      ensures forall d: nat :: 1 <= d <= |corpus| ==>
        (d in Ids(FetchPostings(Term(name))) <==> TermCount(corpus, d, Lower(name)) > 0)
      ensures forall d: nat :: 1 <= d <= |corpus| ==>
        ScoreAt(FetchPostings(Term(name)), d) == TermCount(corpus, d, Lower(name))
    {
      PostingsOfNonEmpty(corpus, Lower(name));
      PostingsOfIds(corpus, Lower(name));
      PostingsOfScores(corpus, Lower(name));
    }

    /** The AND join of two operands. */
    method Intersect(termOne: Operand, termTwo: Operand) returns (combination: seq<Posting>)
      ensures combination == Intersection(FetchPostings(termOne), FetchPostings(termTwo))
    {
      combination := [];
      var postingsOne := FetchPostings(termOne);
      var postingsTwo := FetchPostings(termTwo);
      var indexOne, indexTwo := 0, 0;
      assert postingsOne[0..] == postingsOne && postingsTwo[0..] == postingsTwo;
      while indexOne < |postingsOne| && indexTwo < |postingsTwo|
        invariant 0 <= indexOne <= |postingsOne| && 0 <= indexTwo <= |postingsTwo|
        invariant combination + Intersection(postingsOne[indexOne..], postingsTwo[indexTwo..])
                  == Intersection(postingsOne, postingsTwo)
        decreases |postingsOne| - indexOne + |postingsTwo| - indexTwo
      {
        var scoreOne := postingsOne[indexOne].score;
        var scoreTwo := postingsTwo[indexTwo].score;
        ghost var restOne, restTwo := postingsOne[indexOne..], postingsTwo[indexTwo..];
        ghost var done := combination;
        assert restOne[1..] == postingsOne[indexOne + 1..];
        assert restTwo[1..] == postingsTwo[indexTwo + 1..];
        if postingsOne[indexOne].doc == postingsTwo[indexTwo].doc {
          var p := Posting(postingsOne[indexOne].doc, scoreOne + scoreTwo);
          ghost var rest := Intersection(restOne[1..], restTwo[1..]);
          assert Intersection(restOne, restTwo) == [p] + rest;
          combination := combination + [p];
          indexOne := indexOne + 1;
          indexTwo := indexTwo + 1;
          assert combination + rest == done + ([p] + rest);
        } else if postingsOne[indexOne].doc < postingsTwo[indexTwo].doc {
          indexOne := indexOne + 1;
        } else {
          indexTwo := indexTwo + 1;
        }
      }
      assert postingsOne[indexOne..] == [] || postingsTwo[indexTwo..] == [];
    }

    /** The OR join of two operands, as the code runs it. */
    method Merge(termOne: Operand, termTwo: Operand) returns (combination: seq<Posting>)
      ensures combination == MergePostings(FetchPostings(termOne), FetchPostings(termTwo))
    {
      combination := [];
      var postingsOne := FetchPostings(termOne);
      var postingsTwo := FetchPostings(termTwo);
      var indexOne, indexTwo := 0, 0;
      MergeProgressStart(postingsOne, postingsTwo);
      while indexOne < |postingsOne| && indexTwo < |postingsTwo|
        invariant MergeProgress(postingsOne, postingsTwo, indexOne, indexTwo, combination)
        decreases |postingsOne| - indexOne + |postingsTwo| - indexTwo
      {
        var scoreOne := postingsOne[indexOne].score;
        var scoreTwo := postingsTwo[indexTwo].score;
        if postingsOne[indexOne].doc == postingsTwo[indexTwo].doc {
          var posting := Posting(postingsOne[indexOne].doc, scoreOne + scoreTwo);
          MergeProgressBoth(postingsOne, postingsTwo, indexOne, indexTwo, combination, posting);
          combination := combination + [posting];
          indexOne := indexOne + 1;
          indexTwo := indexTwo + 1;
        } else if postingsOne[indexOne].doc < postingsTwo[indexTwo].doc {
          var posting := Posting(postingsOne[indexOne].doc, scoreOne);
          MergeProgressOne(postingsOne, postingsTwo, indexOne, indexTwo, combination, posting);
          combination := combination + [posting];
          indexOne := indexOne + 1;
          if !(indexOne < |postingsOne|) {
            combination := AppendCopies(combination, postingsTwo[indexTwo..]);
            MergeProgressDone(postingsOne, postingsTwo, indexOne, indexTwo, combination);
          }
        } else {
          var posting := Posting(postingsTwo[indexTwo].doc, scoreTwo);
          MergeProgressTwo(postingsOne, postingsTwo, indexOne, indexTwo, combination, posting);
          combination := combination + [posting];
          indexTwo := indexTwo + 1;
          if !(indexTwo < |postingsTwo|) {
            combination := AppendCopies(combination, postingsOne[indexOne..]);
            MergeProgressDone(postingsOne, postingsTwo, indexOne, indexTwo, combination);
          }
        }
      }
      MergeProgressDone(postingsOne, postingsTwo, indexOne, indexTwo, combination);
    }

    /** One step of the query fold: the join the query asks for. */
    function Combine(one: Operand, two: Operand, isIntersect: bool): seq<Posting>
      reads this
    {
      if isIntersect then Intersection(FetchPostings(one), FetchPostings(two))
      else MergePostings(FetchPostings(one), FetchPostings(two))
    }

    /** The query's terms folded left with the join: the first two terms are
        joined, then each further term joins the list so far. */
    function Reduce(terms: seq<string>, isIntersect: bool): seq<Posting>
      requires |terms| >= 2
      reads this
      decreases |terms|
    {
      if |terms| == 2 then Combine(Term(terms[0]), Term(terms[1]), isIntersect)
      else Combine(Postings(Reduce(terms[..|terms| - 1], isIntersect)), Term(Last(terms)), isIntersect)
    }

    /** The combined, not yet sorted, results of a query: nothing for no
        terms, the stored list of a single term looked up as written, the fold
        for several terms. */
    function QueryResults(query: string, isIntersect: bool): seq<Posting>
      reads this
    {
      var terms := Split(query);
      if |terms| == 0 then []
      else if |terms| == 1 then (if terms[0] in invertedList then invertedList[terms[0]] else [])
      else Reduce(terms, isIntersect)
    }

    /** The query's results ordered by non-increasing score: a permutation of
        the combined results in which postings of equal score keep their
        combined order. */
    function ApplyQuery(query: string, isIntersect: bool): (sortedResults: seq<Posting>)
      reads this
      ensures NonIncreasingScores(sortedResults)
      ensures multiset(sortedResults) == multiset(QueryResults(query, isIntersect))
      ensures forall s :: WithScore(sortedResults, s) == WithScore(QueryResults(query, isIntersect), s)
    {
      SortByScoreSpec(QueryResults(query, isIntersect));
      SortByScore(QueryResults(query, isIntersect))
    }

    /** The first `x` results when `x` is a non-zero count, following Python
        slicing for a negative `x`; all results when `x` is absent or 0. */
    function FetchTopXResults(results: seq<Posting>, x: Option<int>): (top: seq<Posting>)
      ensures top <= results
      ensures x.None? || x == Some(0) ==> top == results
      ensures x.Some? && x.value > 0 ==> |top| == if x.value < |results| then x.value else |results|
      ensures x.Some? && x.value < 0 ==> |top| == if -x.value < |results| then |results| + x.value else 0
    {
      if x.None? || x.value == 0 then results
      else if x.value > 0 then results[..if x.value < |results| then x.value else |results|]
      else results[..if -x.value < |results| then |results| + x.value else 0]
    }

    /** An empty or all-whitespace query has no results. */
    lemma BlankQuery(query: string, isIntersect: bool)
      requires forall i :: 0 <= i < |query| ==> IsSpace(query[i])
      ensures ApplyQuery(query, isIntersect) == []
    {
      SplitSpec(query);
    }

    /** On an index built from documents, a single-term query is looked up
        as written: a term with an upper-case letter finds nothing, even
        where the lower-cased term occurs. */
    lemma SingleTermIsCaseSensitive(documents: seq<string>, query: string, isIntersect: bool)
      requires invertedList == IndexOf(TokenLists(documents))
      requires |Split(query)| == 1
      requires exists i :: 0 <= i < |Split(query)[0]| && 'A' <= Split(query)[0][i] <= 'Z'
      ensures ApplyQuery(query, isIntersect) == []
    {
      var t := Split(query)[0];
      VocabularyIsLowerCase(documents);
      var i :| 0 <= i < |t| && 'A' <= t[i] <= 'Z';
      assert !IsLowerLetter(t[i]);
      assert t !in invertedList;
    }

    /** Sum, over `terms`, of the scores their looked-up lists give `x`. */
    function TermScores(terms: seq<string>, x: nat): int
      reads this
      decreases |terms|
    {
      if terms == [] then 0 else TermScores(terms[..|terms| - 1], x) + ScoreAt(FetchPostings(Term(Last(terms))), x)
    }

    /** Whether the looked-up list of every term of `terms` holds id `x`. */
    predicate InEvery(terms: seq<string>, x: nat)
      reads this
      decreases |terms|
    {
      terms == [] || (InEvery(terms[..|terms| - 1], x) && x in Ids(FetchPostings(Term(Last(terms)))))
    }

    lemma {:induction false} InEverySpec(terms: seq<string>, x: nat)
      ensures InEvery(terms, x) <==> forall k :: 0 <= k < |terms| ==> x in Ids(FetchPostings(Term(terms[k])))
      decreases |terms|
    {
      if terms != [] {
        var init := terms[..|terms| - 1];
        InEverySpec(init, x);
        assert forall k :: 0 <= k < |init| ==> init[k] == terms[k];
        if forall k :: 0 <= k < |terms| ==> x in Ids(FetchPostings(Term(terms[k]))) {
          assert x in Ids(FetchPostings(Term(terms[|terms| - 1])));
        }
      }
    }

    /** With sorted term lists, the AND fold is sorted, holds exactly the
        ids every term's list holds, and scores each with the sum of the
        terms' scores. */
    lemma {:induction false} ReduceIntersection(terms: seq<string>)
      requires |terms| >= 2
      requires forall k :: 0 <= k < |terms| ==> StrictlyAscending(FetchPostings(Term(terms[k])))
      ensures StrictlyAscending(Reduce(terms, true))
      ensures forall x :: x in Ids(Reduce(terms, true)) <==> InEvery(terms, x)
      ensures forall x :: x in Ids(Reduce(terms, true)) ==> ScoreAt(Reduce(terms, true), x) == TermScores(terms, x)
      decreases |terms|
    {
      var init := terms[..|terms| - 1];
      var last := FetchPostings(Term(Last(terms)));
      if |terms| == 2 {
        var first := FetchPostings(Term(terms[0]));
        IntersectionSpec(first, last);
        assert init == [terms[0]] && init[..0] == [] && Last(init) == terms[0];
        assert Reduce(terms, true) == Intersection(first, last);
        forall x ensures InEvery(terms, x) == (x in Ids(first) && x in Ids(last))
          && TermScores(terms, x) == ScoreAt(first, x) + ScoreAt(last, x) {
          assert InEvery(init, x) == (x in Ids(first));
          assert TermScores(init, x) == ScoreAt(first, x);
        }
      } else {
        ReduceIntersection(init);
        IntersectionSpec(Reduce(init, true), last);
        assert Reduce(terms, true) == Intersection(Reduce(init, true), last);
      }
    }

    /** With sorted term lists, the OR fold is sorted and every id it holds is
        an id of some term's list. */
    lemma {:induction false} ReduceMerge(terms: seq<string>)
      requires |terms| >= 2
      requires forall k :: 0 <= k < |terms| ==> StrictlyAscending(FetchPostings(Term(terms[k])))
      ensures StrictlyAscending(Reduce(terms, false))
      ensures forall x :: x in Ids(Reduce(terms, false)) ==>
        exists k :: 0 <= k < |terms| && x in Ids(FetchPostings(Term(terms[k])))
      decreases |terms|
    {
      var init := terms[..|terms| - 1];
      var last := FetchPostings(Term(Last(terms)));
      if |terms| == 2 {
        MergeSpec(FetchPostings(Term(terms[0])), last);
      } else {
        ReduceMerge(init);
        var acc := Reduce(init, false);
        MergeSpec(acc, last);
        forall x | x in Ids(Reduce(terms, false)) ensures exists k :: 0 <= k < |terms| && x in Ids(FetchPostings(Term(terms[k]))) {
          if x in Ids(acc) {
            var k :| 0 <= k < |init| && x in Ids(FetchPostings(Term(init[k])));
            assert init[k] == terms[k];
          } else {
            assert x in Ids(FetchPostings(Term(terms[|terms| - 1])));
          }
        }
      }
    }

    /** On a built index, every term's list holds id `x` exactly when `x`
        is a document that contains every lower-cased term. */
    lemma InEveryBuilt(corpus: seq<seq<string>>, terms: seq<string>, x: nat)
      requires invertedList == IndexOf(corpus)
      requires terms != []
      ensures InEvery(terms, x) <==>
        1 <= x <= |corpus| && forall k :: 0 <= k < |terms| ==> TermCount(corpus, x, Lower(terms[k])) > 0
    {
      InEverySpec(terms, x);
      FetchTermFrequencies(corpus, terms[0]);
      forall k | 0 <= k < |terms| ensures (x in Ids(FetchPostings(Term(terms[k])))) ==
        (1 <= x <= |corpus| && TermCount(corpus, x, Lower(terms[k])) > 0) {
        FetchTermFrequencies(corpus, terms[k]);
      }
    }

    /** On a built index, the terms' scores for a document add up its
        occurrences of the lower-cased terms. */
    lemma {:induction false} TermScoresBuilt(corpus: seq<seq<string>>, terms: seq<string>, x: nat)
      requires invertedList == IndexOf(corpus)
      requires 1 <= x <= |corpus|
      ensures TermScores(terms, x) == QueryTermCount(corpus, x, terms)
      decreases |terms|
    {
      if terms != [] {
        TermScoresBuilt(corpus, terms[..|terms| - 1], x);
        FetchTermFrequencies(corpus, Last(terms));
      }
    }

    /** On a built index the AND fold of several terms is the reference
        postings of their conjunction: sorted, holding exactly the documents
        that contain every lower-cased term, each scored with the terms'
        total number of occurrences. */
    lemma ReduceIntersectionBuilt(corpus: seq<seq<string>>, terms: seq<string>)
      requires invertedList == IndexOf(corpus)
      requires |terms| >= 2
      ensures StrictlyAscending(Reduce(terms, true))
      ensures forall d: nat :: d in Ids(Reduce(terms, true)) <==>
        1 <= d <= |corpus| && forall k :: 0 <= k < |terms| ==> TermCount(corpus, d, Lower(terms[k])) > 0
      ensures forall d: nat :: d in Ids(Reduce(terms, true)) ==>
        1 <= d <= |corpus| && ScoreAt(Reduce(terms, true), d) == QueryTermCount(corpus, d, terms)
    {
      forall k | 0 <= k < |terms| ensures StrictlyAscending(FetchPostings(Term(terms[k]))) {
        FetchTermFrequencies(corpus, terms[k]);
      }
      ReduceIntersection(terms);
      forall d: nat ensures d in Ids(Reduce(terms, true)) <==>
        1 <= d <= |corpus| && forall k :: 0 <= k < |terms| ==> TermCount(corpus, d, Lower(terms[k])) > 0
      {
        InEveryBuilt(corpus, terms, d);
      }
      forall d: nat | d in Ids(Reduce(terms, true))
        ensures 1 <= d <= |corpus| && ScoreAt(Reduce(terms, true), d) == QueryTermCount(corpus, d, terms)
      {
        TermScoresBuilt(corpus, terms, d);
      }
    }

    /** On an index built from the token lists `corpus`, an AND query of
        several terms finds exactly the documents that contain every term
        (lower-cased), and scores each with the total number of occurrences
        of the query's terms in it. */
    lemma AndQueryFindsDocuments(corpus: seq<seq<string>>, query: string)
      requires invertedList == IndexOf(corpus)
      requires |Split(query)| >= 2
      ensures forall d: nat :: d in Ids(ApplyQuery(query, true)) <==>
        1 <= d <= |corpus| && forall k :: 0 <= k < |Split(query)| ==> TermCount(corpus, d, Lower(Split(query)[k])) > 0
      ensures forall p :: p in ApplyQuery(query, true) ==>
        1 <= p.doc <= |corpus| && p.score == QueryTermCount(corpus, p.doc, Split(query))
    {
      var terms := Split(query);
      var r := Reduce(terms, true);
      ReduceIntersectionBuilt(corpus, terms);
      var sorted := ApplyQuery(query, true);
      assert multiset(sorted) == multiset(r);
      SameElementsSameIds(sorted, r);
      forall p | p in sorted
        ensures 1 <= p.doc <= |corpus| && p.score == QueryTermCount(corpus, p.doc, terms)
      {
        assert p in multiset(r);
        ElementScore(r, p);
      }
    }

    /** An OR fold with a term whose list is empty gives nothing at all: the
        merge of anything with an empty list is empty. */
    lemma {:induction false} ReduceMergeEmpty(terms: seq<string>, k: nat)
      requires |terms| >= 2 && k < |terms|
      requires FetchPostings(Term(terms[k])) == []
      ensures Reduce(terms, false) == []
      decreases |terms|
    {
      var init := terms[..|terms| - 1];
      var last := FetchPostings(Term(Last(terms)));
      if |terms| == 2 {
        MergeWithEmpty(if k == 0 then last else FetchPostings(Term(terms[0])));
      } else if k == |terms| - 1 {
        MergeWithEmpty(Reduce(init, false));
      } else {
        assert init[k] == terms[k];
        ReduceMergeEmpty(init, k);
        MergeWithEmpty(last);
      }
    }

    /** An OR query of several terms of which one is not in the index finds
        nothing, although the other terms may occur. */
    lemma OrQueryWithUnknownTerm(query: string, k: nat)
      requires |Split(query)| >= 2 && k < |Split(query)|
      requires Lower(Split(query)[k]) !in invertedList
      ensures ApplyQuery(query, false) == []
    {
      ReduceMergeEmpty(Split(query), k);
    }

    /** On a built index, the OR fold of two terms merges the reference
        postings of the lower-cased terms. */
    lemma OrFoldOfTwoTerms(corpus: seq<seq<string>>, terms: seq<string>)
      requires invertedList == IndexOf(corpus)
      requires |terms| == 2
      ensures Reduce(terms, false) == MergePostings(PostingsOf(corpus, Lower(terms[0])), PostingsOf(corpus, Lower(terms[1])))
    {
      FetchTermFrequencies(corpus, terms[0]);
      FetchTermFrequencies(corpus, terms[1]);
    }

    /** On an index built from the token lists `corpus`, an OR query of two
        terms returns the documents `Kept` by the merge of the two terms'
        reference postings: each contains one of the lower-cased terms, and
        each is scored with the total occurrences of both terms in it. */
    lemma {:induction false} OrQueryOfTwoTerms(corpus: seq<seq<string>>, query: string)
      requires invertedList == IndexOf(corpus)
      requires |Split(query)| == 2
      ensures forall d: nat :: d in Ids(ApplyQuery(query, false)) <==>
        Kept(PostingsOf(corpus, Lower(Split(query)[0])), PostingsOf(corpus, Lower(Split(query)[1])), d)
      ensures forall p :: p in ApplyQuery(query, false) ==>
        && 1 <= p.doc <= |corpus|
        && (TermCount(corpus, p.doc, Lower(Split(query)[0])) > 0 || TermCount(corpus, p.doc, Lower(Split(query)[1])) > 0)
        && p.score == QueryTermCount(corpus, p.doc, Split(query))
    {
      var terms := Split(query);
      var r := Reduce(terms, false);
      OrFoldOfTwoTerms(corpus, terms);
      MergeOfTermPostings(corpus, Lower(terms[0]), Lower(terms[1]));
      var sorted := ApplyQuery(query, false);
      SameElementsSameIds(sorted, r);
      forall p | p in sorted
        ensures && 1 <= p.doc <= |corpus|
                && (TermCount(corpus, p.doc, Lower(terms[0])) > 0 || TermCount(corpus, p.doc, Lower(terms[1])) > 0)
                && p.score == QueryTermCount(corpus, p.doc, terms)
      {
        assert p in multiset(r);
        ElementScore(r, p);
        QueryTermCountOfTwo(corpus, p.doc, terms);
      }
    }
  }

  /** The merge of two terms' reference postings is sorted; it holds exactly
      the ids `Kept` describes, each a document containing one of the terms
      and scored with the occurrences of both. */
  lemma MergeOfTermPostings(corpus: seq<seq<string>>, u: string, v: string)
    ensures StrictlyAscending(MergePostings(PostingsOf(corpus, u), PostingsOf(corpus, v)))
    ensures forall d: nat :: d in Ids(MergePostings(PostingsOf(corpus, u), PostingsOf(corpus, v))) <==>
      Kept(PostingsOf(corpus, u), PostingsOf(corpus, v), d)
    ensures forall d: nat :: d in Ids(MergePostings(PostingsOf(corpus, u), PostingsOf(corpus, v))) ==>
      && 1 <= d <= |corpus|
      && (TermCount(corpus, d, u) > 0 || TermCount(corpus, d, v) > 0)
      && ScoreAt(MergePostings(PostingsOf(corpus, u), PostingsOf(corpus, v)), d)
         == TermCount(corpus, d, u) + TermCount(corpus, d, v)
  {
    var one, two := PostingsOf(corpus, u), PostingsOf(corpus, v);
    PostingsOfIds(corpus, u);
    PostingsOfIds(corpus, v);
    PostingsOfScores(corpus, u);
    PostingsOfScores(corpus, v);
    MergeSpec(one, two);
  }

  /** The query count of two terms is the sum of their counts. */
  lemma QueryTermCountOfTwo(corpus: seq<seq<string>>, d: nat, terms: seq<string>)
    requires 1 <= d <= |corpus| && |terms| == 2
    ensures QueryTermCount(corpus, d, terms) == TermCount(corpus, d, Lower(terms[0])) + TermCount(corpus, d, Lower(terms[1]))
  {
    assert terms[..1][..0] == [];
    assert QueryTermCount(corpus, d, terms[..1]) == TermCount(corpus, d, Lower(terms[0]));
  }

  /** Total occurrences in document `d` of the lower-cased `terms`, a term
      counted as often as the query repeats it. */
  function QueryTermCount(corpus: seq<seq<string>>, d: nat, terms: seq<string>): nat
    requires 1 <= d <= |corpus|
    decreases |terms|
  {
    if terms == [] then 0 else QueryTermCount(corpus, d, terms[..|terms| - 1]) + TermCount(corpus, d, Lower(Last(terms)))
  }

  /** A posting of a strictly ascending list carries the score the list
      gives its document. */
  lemma ElementScore(ps: seq<Posting>, p: Posting)
    requires StrictlyAscending(ps) && p in ps
    ensures p.doc in Ids(ps) && ScoreAt(ps, p.doc) == p.score
  {
    var i :| 0 <= i < |ps| && ps[i] == p;
    IdsAreElements(ps);
    ScoreAtElement(ps, i);
  }

  /** Lists with the same postings mention the same ids. */
  lemma SameElementsSameIds(a: seq<Posting>, b: seq<Posting>)
    requires multiset(a) == multiset(b)
    ensures Ids(a) == Ids(b)
  {
    IdsAreElements(a);
    IdsAreElements(b);
    forall x | x in Ids(a) ensures x in Ids(b) {
      var i :| 0 <= i < |a| && a[i].doc == x;
      assert a[i] in multiset(b);
      var j :| 0 <= j < |b| && b[j] == a[i];
    }
    forall x | x in Ids(b) ensures x in Ids(a) {
      var j :| 0 <= j < |b| && b[j].doc == x;
      assert b[j] in multiset(a);
      var i :| 0 <= i < |a| && a[i] == b[j];
    }
  }

  /** Constructing an index and populating it with `documents` yields the
      reference index and one length per document; it fails exactly for an
      empty corpus. */
  method BuildIndex(documents: seq<string>) returns (index: InvertedIndex, outcome: BuildOutcome)
    ensures fresh(index) && index.Valid()
    ensures index.invertedList == IndexOf(TokenLists(documents))
    ensures index.documentLengths == Lengths(TokenLists(documents))
    ensures outcome == EmptyCorpusError <==> documents == []
  {
    index := new InvertedIndex();
    outcome := index.PopulateInvertedList(documents);
    BuildMatchesIndex(TokenLists(documents));
    LengthsSpec(TokenLists(documents));
    assert documents != [] ==> 1 in index.documentLengths;
  }

  /** Appends a copy of every posting of `tail`, one at a time. */
  method AppendCopies(combination: seq<Posting>, tail: seq<Posting>) returns (r: seq<Posting>)
    ensures r == combination + tail
  {
    r := combination;
    for k := 0 to |tail|
      invariant r == combination + tail[..k]
    {
      r := r + [Posting(tail[k].doc, tail[k].score)];
      assert tail[..k + 1] == tail[..k] + [tail[k]];
    }
    assert tail[..|tail|] == tail;
  }
}
