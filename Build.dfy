/** The index builder of the term-frequency index: the per-token update of
    the builder loop as functions over the documents' token lists, and the
    reference index, one table of token counts per document, that the
    builder is proved to compute. */
module Build {
  import opened PostingLists
  import opened Text

  /** Term to postings list. */
  type InvertedList = map<string, seq<Posting>>

  /** Every stored postings list has a last posting to look at. */
  predicate NonEmptyLists(m: InvertedList) {
    forall t :: t in m ==> m[t] != []
  }

  /** The token list of every document, in order. */
  function TokenLists(documents: seq<string>): (corpus: seq<seq<string>>)
    ensures |corpus| == |documents|
    ensures forall i :: 0 <= i < |documents| ==> corpus[i] == Tokenize(documents[i])
    decreases |documents|
  {
    if documents == [] then [] else TokenLists(documents[..|documents| - 1]) + [Tokenize(Last(documents))]
  }

  // ---------------------------------------------------------------------------
  // The builder, one token at a time, as the nested loops run it.

  /** Record one occurrence of `word` in document `id`: bump the count of the
      word's last posting when that posting is for `id`, otherwise append a
      posting with count 1, creating the list for a word not seen before. */
  function AddWord(m: InvertedList, word: string, id: nat): (r: InvertedList)
    requires NonEmptyLists(m)
    ensures NonEmptyLists(r)
    ensures r.Keys == m.Keys + {word}
    ensures forall t :: t in m && t != word ==> r[t] == m[t]
  {
    if word in m then
      var postings := m[word];
      var last := Last(postings);
      if last.doc == id then m[word := postings[..|postings| - 1] + [Posting(last.doc, last.score + 1)]]
      else m[word := postings + [Posting(id, 1)]]
    else m[word := [Posting(id, 1)]]
  }

  /** Record the tokens `words` of document `id`, left to right. */
  function AddWords(m: InvertedList, words: seq<string>, id: nat): (r: InvertedList)
    requires NonEmptyLists(m)
    ensures NonEmptyLists(r)
    ensures r.Keys == m.Keys + set w | w in words
    decreases |words|
  {
    if words == [] then m
    else AddWord(AddWords(m, words[..|words| - 1], id), Last(words), id)
  }

  /** Record the token lists of a corpus with ids 1, 2, ... in order. */
  function AddDocuments(m: InvertedList, corpus: seq<seq<string>>): (r: InvertedList)
    requires NonEmptyLists(m)
    ensures NonEmptyLists(r)
    decreases |corpus|
  {
    if corpus == [] then m
    else AddWords(AddDocuments(m, corpus[..|corpus| - 1]), Last(corpus), |corpus|)
  }

  /** The inner builder loop's step: one more token of the document. */
  lemma AddWordsStep(m: InvertedList, words: seq<string>, j: nat, id: nat)
    requires NonEmptyLists(m)
    requires j < |words|
    ensures AddWords(m, words[..j + 1], id) == AddWord(AddWords(m, words[..j], id), words[j], id)
  {
    assert words[..j + 1][..j] == words[..j];
  }

  /** Document id to number of tokens, with ids 1, 2, ... in order. */
  function Lengths(corpus: seq<seq<string>>): map<nat, nat>
    decreases |corpus|
  {
    if corpus == [] then map[] else Lengths(corpus[..|corpus| - 1])[|corpus| := |Last(corpus)|]
  }

  /** The outer builder loop's step: one more document, with the next id. */
  lemma DocumentStep(m: InvertedList, documents: seq<string>, i: nat)
    requires NonEmptyLists(m)
    requires i < |documents|
    ensures AddDocuments(m, TokenLists(documents[..i + 1]))
            == AddWords(AddDocuments(m, TokenLists(documents[..i])), Tokenize(documents[i]), i + 1)
    ensures Lengths(TokenLists(documents[..i + 1]))
            == Lengths(TokenLists(documents[..i]))[i + 1 := |Tokenize(documents[i])|]
  {
    var corpus := TokenLists(documents[..i + 1]);
    assert documents[..i + 1][..i] == documents[..i];
    assert corpus == TokenLists(documents[..i]) + [Tokenize(documents[i])];
    assert corpus[..i] == TokenLists(documents[..i]);
  }

  /** Updating the right operand of a map union updates the union. */
  lemma UnionUpdate<K, V>(a: map<K, V>, b: map<K, V>, k: K, v: V)
    ensures (a + b)[k := v] == a + b[k := v]
  {
  }

  /** Every document has a length, even one without tokens, and its length
      is its number of tokens. */
  lemma {:induction false} LengthsSpec(corpus: seq<seq<string>>)
    ensures forall d: nat :: d in Lengths(corpus) <==> 1 <= d <= |corpus|
    ensures forall d: nat :: 1 <= d <= |corpus| ==> Lengths(corpus)[d] == |corpus[d - 1]|
    decreases |corpus|
  {
    if corpus != [] {
      var init := corpus[..|corpus| - 1];
      LengthsSpec(init);
    }
  }

  // ---------------------------------------------------------------------------
  // The reference index: one posting per (term, document) pair with a
  // non-zero count, read off each document's own token counts.

  /** Number of occurrences of `term` among the tokens of document `d`. */
  function TermCount(corpus: seq<seq<string>>, d: nat, term: string): nat
    requires 1 <= d <= |corpus|
  {
    multiset(corpus[d - 1])[term]
  }

  /** The postings of `term`: document by document, a posting with the
      term's count for every document that contains it. */
  function PostingsOf(corpus: seq<seq<string>>, term: string): seq<Posting>
    decreases |corpus|
  {
    if corpus == [] then []
    else
      var c := TermCount(corpus, |corpus|, term);
      PostingsOf(corpus[..|corpus| - 1], term) + (if c > 0 then [Posting(|corpus|, c)] else [])
  }

  /** The terms of all documents. */
  function Vocabulary(corpus: seq<seq<string>>): set<string>
    decreases |corpus|
  {
    if corpus == [] then {} else Vocabulary(corpus[..|corpus| - 1]) + set w | w in Last(corpus)
  }

  function IndexOf(corpus: seq<seq<string>>): InvertedList {
    map t | t in Vocabulary(corpus) :: PostingsOf(corpus, t)
  }

  /** The counts of a document are unchanged by documents added after it. */
  lemma TermCountInit(corpus: seq<seq<string>>, term: string)
    requires corpus != []
    ensures forall d: nat :: 1 <= d < |corpus| ==>
      TermCount(corpus[..|corpus| - 1], d, term) == TermCount(corpus, d, term)
  {
  }

  /** The postings list of a term is strictly ascending by document id and
      has a posting for a document exactly when the term occurs there. */
  lemma PostingsOfIds(corpus: seq<seq<string>>, term: string)
    ensures StrictlyAscending(PostingsOf(corpus, term))
    ensures forall x :: x in Ids(PostingsOf(corpus, term)) ==> 1 <= x <= |corpus|
    ensures forall d: nat :: 1 <= d <= |corpus| ==>
      (d in Ids(PostingsOf(corpus, term)) <==> TermCount(corpus, d, term) > 0)
  {
    PostingsOfSorted(corpus, term);
    PostingsOfMembers(corpus, term);
  }

  lemma {:induction false} PostingsOfSorted(corpus: seq<seq<string>>, term: string)
    ensures StrictlyAscending(PostingsOf(corpus, term))
    ensures forall x :: x in Ids(PostingsOf(corpus, term)) ==> 1 <= x <= |corpus|
    decreases |corpus|
  {
    if corpus != [] {
      var n := |corpus|;
      var ps := PostingsOf(corpus[..n - 1], term);
      PostingsOfSorted(corpus[..n - 1], term);
      if TermCount(corpus, n, term) > 0 {
        var p := Posting(n, TermCount(corpus, n, term));
        assert PostingsOf(corpus, term) == ps + [p];
        IdsAppend(ps, p);
        AscendingSnoc(ps, p);
      } else {
        assert PostingsOf(corpus, term) == ps;
      }
    }
  }

  lemma {:induction false} PostingsOfMembers(corpus: seq<seq<string>>, term: string)
    ensures forall d: nat :: 1 <= d <= |corpus| ==>
      (d in Ids(PostingsOf(corpus, term)) <==> TermCount(corpus, d, term) > 0)
    decreases |corpus|
  {
    if corpus != [] {
      var n := |corpus|;
      var ps := PostingsOf(corpus[..n - 1], term);
      PostingsOfSorted(corpus[..n - 1], term);
      PostingsOfMembers(corpus[..n - 1], term);
      TermCountInit(corpus, term);
      if TermCount(corpus, n, term) > 0 {
        var p := Posting(n, TermCount(corpus, n, term));
        assert PostingsOf(corpus, term) == ps + [p];
        IdsAppend(ps, p);
      } else {
        assert PostingsOf(corpus, term) == ps;
      }
    }
  }

  /** Each posting scores its document with the term's count there. */
  lemma {:induction false} PostingsOfScores(corpus: seq<seq<string>>, term: string)
    ensures forall d: nat :: 1 <= d <= |corpus| ==> ScoreAt(PostingsOf(corpus, term), d) == TermCount(corpus, d, term)
    decreases |corpus|
  {
    if corpus != [] {
      var n := |corpus|;
      var ps := PostingsOf(corpus[..n - 1], term);
      var c := TermCount(corpus, n, term);
      PostingsOfScores(corpus[..n - 1], term);
      PostingsOfIds(corpus[..n - 1], term);
      TermCountInit(corpus, term);
      if c > 0 {
        var p := Posting(n, c);
        assert PostingsOf(corpus, term) == ps + [p];
        forall d: nat | 1 <= d <= n ensures ScoreAt(ps + [p], d) == TermCount(corpus, d, term) {
          ScoreAtAppend(ps, p, d);
        }
      } else {
        assert PostingsOf(corpus, term) == ps;
        ScoreAbsent(ps, n);
      }
    }
  }

  /** A term has postings exactly when it is a token of some document. */
  lemma {:induction false} PostingsOfNonEmpty(corpus: seq<seq<string>>, term: string)
    ensures PostingsOf(corpus, term) != [] <==> term in Vocabulary(corpus)
    decreases |corpus|
  {
    if corpus != [] {
      PostingsOfNonEmpty(corpus[..|corpus| - 1], term);
      assert (TermCount(corpus, |corpus|, term) > 0) == (term in Last(corpus));
    }
  }

  /** What the builder produces, term by term: each postings list is
      non-empty and strictly ascending by document id, has exactly one
      posting per document that contains the term, and that posting counts
      the term's occurrences in the document; a term outside the index
      occurs in no document. */
  lemma IndexSpec(corpus: seq<seq<string>>)
    ensures forall t :: t in IndexOf(corpus) ==> IndexOf(corpus)[t] != [] && StrictlyAscending(IndexOf(corpus)[t])
    ensures forall t, d: nat :: t in IndexOf(corpus) && 1 <= d <= |corpus| ==>
      (d in Ids(IndexOf(corpus)[t]) <==> TermCount(corpus, d, t) > 0)
    ensures forall t, x :: t in IndexOf(corpus) && x in Ids(IndexOf(corpus)[t]) ==> 1 <= x <= |corpus|
    ensures forall t, d: nat :: t in IndexOf(corpus) && 1 <= d <= |corpus| ==>
      ScoreAt(IndexOf(corpus)[t], d) == TermCount(corpus, d, t)
    ensures forall t, d: nat :: t !in IndexOf(corpus) && 1 <= d <= |corpus| ==> TermCount(corpus, d, t) == 0
  {
    forall t | t in IndexOf(corpus)
      ensures IndexOf(corpus)[t] != [] && StrictlyAscending(IndexOf(corpus)[t])
      ensures forall d: nat :: 1 <= d <= |corpus| ==> (d in Ids(IndexOf(corpus)[t]) <==> TermCount(corpus, d, t) > 0)
      ensures forall x :: x in Ids(IndexOf(corpus)[t]) ==> 1 <= x <= |corpus|
      ensures forall d: nat :: 1 <= d <= |corpus| ==> ScoreAt(IndexOf(corpus)[t], d) == TermCount(corpus, d, t)
    {
      PostingsOfIds(corpus, t);
      PostingsOfScores(corpus, t);
      PostingsOfNonEmpty(corpus, t);
    }
    forall t, d: nat | t !in IndexOf(corpus) && 1 <= d <= |corpus| ensures TermCount(corpus, d, t) == 0 {
      PostingsOfIds(corpus, t);
      PostingsOfNonEmpty(corpus, t);
      IdsEmpty(PostingsOf(corpus, t));
    }
  }

  // ---------------------------------------------------------------------------
  // The builder computes the reference index.

  /** The list of `t` after recording the tokens `words` of a new document
      `id` into lists that hold only earlier documents: the old list, then
      one posting for the new document counting the token's occurrences. */
  function Extended(m: InvertedList, words: seq<string>, id: nat, t: string): seq<Posting> {
    (if t in m then m[t] else []) + (if t in words then [Posting(id, multiset(words)[t])] else [])
  }

  lemma {:induction false} AddWordsExtends(m: InvertedList, words: seq<string>, id: nat)
    requires NonEmptyLists(m)
    requires forall t :: t in m ==> Last(m[t]).doc < id
    ensures forall t :: t in AddWords(m, words, id) ==> AddWords(m, words, id)[t] == Extended(m, words, id, t)
    decreases |words|
  {
    if words != [] {
      var init := words[..|words| - 1];
      var w := Last(words);
      assert words == init + [w];
      AddWordsExtends(m, init, id);
      AddWordExtends(m, init, w, id);
    }
  }

  /** One step of `AddWordsExtends`: recording `w` after `init`. */
  lemma AddWordExtends(m: InvertedList, init: seq<string>, w: string, id: nat)
    requires NonEmptyLists(m)
    requires forall t :: t in m ==> Last(m[t]).doc < id
    requires forall t :: t in AddWords(m, init, id) ==> AddWords(m, init, id)[t] == Extended(m, init, id, t)
    ensures forall t :: t in AddWord(AddWords(m, init, id), w, id) ==>
      AddWord(AddWords(m, init, id), w, id)[t] == Extended(m, init + [w], id, t)
  {
    var e := AddWords(m, init, id);
    var r := AddWord(e, w, id);
    forall t | t in r ensures r[t] == Extended(m, init + [w], id, t) {
      if t == w {
        AddWordExtendsAt(m, e, init, w, id);
      } else {
        ExtendedOther(m, init, w, id, t);
      }
    }
  }

  /** The list of the recorded word itself after one step. */
  lemma AddWordExtendsAt(m: InvertedList, e: InvertedList, init: seq<string>, w: string, id: nat)
    requires NonEmptyLists(e)
    requires w in m ==> m[w] != [] && Last(m[w]).doc < id
    requires w in e <==> w in m || w in init
    requires w in e ==> e[w] == Extended(m, init, id, w)
    ensures AddWord(e, w, id)[w] == Extended(m, init + [w], id, w)
  {
    assert multiset(init + [w])[w] == multiset(init)[w] + 1;
    if w in init {
      var ps := e[w];
      var earlier := if w in m then m[w] else [];
      assert ps == earlier + [Posting(id, multiset(init)[w])];
      assert ps[..|ps| - 1] == earlier;
    }
  }

  /** Recording `w` leaves the expected list of every other term alone. */
  lemma ExtendedOther(m: InvertedList, init: seq<string>, w: string, id: nat, t: string)
    requires t != w
    ensures Extended(m, init + [w], id, t) == Extended(m, init, id, t)
  {
    assert multiset(init + [w]) == multiset(init) + multiset{w};
    assert t in init + [w] <==> t in init;
  }

  /** Run over a corpus from empty lists, the builder produces exactly the
      reference index. */
  lemma {:induction false} BuildMatchesIndex(corpus: seq<seq<string>>)
    ensures AddDocuments(map[], corpus) == IndexOf(corpus)
    decreases |corpus|
  {
    if corpus != [] {
      var n := |corpus|;
      var init := corpus[..n - 1];
      var words := Last(corpus);
      BuildMatchesIndex(init);
      var m := IndexOf(init);
      forall t | t in m ensures Last(m[t]).doc < n {
        PostingsOfIds(init, t);
        IdsAreElements(m[t]);
      }
      AddWordsExtends(m, words, n);
      var r := AddWords(m, words, n);
      var goal := IndexOf(corpus);
      assert r.Keys == goal.Keys;
      forall t | t in r ensures r[t] == goal[t] {
        PostingsOfNonEmpty(init, t);
        assert (t in words) == (TermCount(corpus, n, t) > 0);
      }
    }
  }

  // ---------------------------------------------------------------------------
  // Document lengths agree with the postings.

  /** Sum over `terms` of the counts `ms` gives them. */
  function CountsSum(ms: multiset<string>, terms: seq<string>): int {
    if terms == [] then 0 else ms[terms[0]] + CountsSum(ms, terms[1..])
  }

  lemma {:induction false} CountsSumAgree(ms: multiset<string>, ms': multiset<string>, terms: seq<string>)
    requires forall k :: 0 <= k < |terms| ==> ms[terms[k]] == ms'[terms[k]]
    ensures CountsSum(ms, terms) == CountsSum(ms', terms)
  {
    if terms != [] {
      CountsSumAgree(ms, ms', terms[1..]);
    }
  }

  /** Summing the multiplicities over distinct terms that cover a multiset
      gives its size. */
  lemma {:induction false} CountsSumIsSize(ms: multiset<string>, terms: seq<string>)
    requires forall i, j :: 0 <= i < j < |terms| ==> terms[i] != terms[j]
    requires forall x :: x in ms ==> x in terms
    ensures CountsSum(ms, terms) == |ms|
  {
    if terms == [] {
      assert forall x :: ms[x] == 0;
      assert ms == multiset{};
    } else {
      var t := terms[0];
      var rest := ms[t := 0];
      forall x | x in rest ensures x in terms[1..] {
        assert x != t && x in terms;
      }
      CountsSumIsSize(rest, terms[1..]);
      CountsSumAgree(ms, rest, terms[1..]);
    }
  }

  /** Frequency of `term` in document `d`, read from the lists. */
  function TermFrequency(m: InvertedList, term: string, d: nat): int {
    if term in m then ScoreAt(m[term], d) else 0
  }

  function ColumnSum(m: InvertedList, terms: seq<string>, d: nat): int {
    if terms == [] then 0 else TermFrequency(m, terms[0], d) + ColumnSum(m, terms[1..], d)
  }

  lemma {:induction false} ColumnSumIsCountsSum(m: InvertedList, terms: seq<string>, d: nat, ms: multiset<string>)
    requires forall k :: 0 <= k < |terms| ==> TermFrequency(m, terms[k], d) == ms[terms[k]]
    ensures ColumnSum(m, terms, d) == CountsSum(ms, terms)
  {
    if terms != [] {
      ColumnSumIsCountsSum(m, terms[1..], d, ms);
    }
  }

  /** The frequencies a document has across all terms of the index, each
      term counted once, add up to its recorded length. */
  lemma DocumentLengthIsColumnSum(corpus: seq<seq<string>>, terms: seq<string>, d: nat)
    requires 1 <= d <= |corpus|
    requires forall i, j :: 0 <= i < j < |terms| ==> terms[i] != terms[j]
    requires forall t :: t in IndexOf(corpus) ==> t in terms
    ensures d in Lengths(corpus) && ColumnSum(IndexOf(corpus), terms, d) == Lengths(corpus)[d]
  {
    var ms := multiset(corpus[d - 1]);
    IndexSpec(corpus);
    LengthsSpec(corpus);
    forall k | 0 <= k < |terms| ensures TermFrequency(IndexOf(corpus), terms[k], d) == ms[terms[k]] {
      assert TermCount(corpus, d, terms[k]) == ms[terms[k]];
    }
    ColumnSumIsCountsSum(IndexOf(corpus), terms, d, ms);
    forall x | x in ms ensures x in terms {
      assert TermCount(corpus, d, x) > 0;
    }
    CountsSumIsSize(ms, terms);
  }

  /** A non-empty word of lower-case ASCII letters. */
  predicate LowerWord(t: string) {
    t != [] && forall i :: 0 <= i < |t| ==> IsLowerLetter(t[i])
  }

  /** Every term the builder indexes from documents is a non-empty word of
      lower-case letters. */
  lemma {:induction false} VocabularyIsLowerCase(documents: seq<string>)
    ensures forall t :: t in Vocabulary(TokenLists(documents)) ==> LowerWord(t)
    decreases |documents|
  {
    if documents != [] {
      var init := documents[..|documents| - 1];
      VocabularyIsLowerCase(init);
      assert TokenLists(documents)[..|documents| - 1] == TokenLists(init);
      TokenizeSpec(Last(documents));
    }
  }
}
