# Inverted index: term-frequency builder, postings joins and query executor

This project models the class `InvertedIndex` of the `ir` search engine in
Dafny and proves properties of the model. The class:

- builds an inverted index from a sequence of document strings;
- answers multi-term queries by joining postings lists;
- ranks the results by score.

Only the term-frequency index is modelled: `populate_inverted_list` with
BM25 scoring switched off. In that mode every score is an integer count,
so the `round(…, 3)` calls in the joins are the identity.

The project is made of six modules.

- `PostingLists` (PostingLists.dfy) holds a posting `(doc, score)`, the set
  of ids a list mentions (`Ids`), and the score a list gives a document
  (`ScoreAt`, 0 when absent). It also has lemmas about strictly ascending
  lists.
- `Text` (Text.dfy) holds two functions, both built on one maximal-run
  splitter `Runs`:
  - the tokenizer, `re.findall('[A-Za-z]+', document.lower())`, is
    `Tokenize`;
  - the query splitter, `str.split()` on Python's whitespace characters,
    is `Split`.
- `Build` (Build.dfy) has two parts:
  - the builder as pure folds (`AddWord`, `AddWords`, `AddDocuments`, and
    `Lengths` for the length table);
  - an independent reference index defined document by document from term
    counts (`TermCount`, `PostingsOf`, `IndexOf`), with the theorem that the
    builder produces it.
- `Algebra` (Algebra.dfy) has two parts:
  - the two merge-joins as recursive reference functions: `Intersection`
    for `intersect` and `MergePostings` for `merge` exactly as written;
  - what they compute for sorted inputs.
- `Ranking` (Ranking.dfy) holds the stable sort by descending score that
  `sorted(…, key=…, reverse=True)` performs, and its characterisation.
- `Index` (InvertedIndex.dfy) holds the class.
  - `PopulateInvertedList`, `CountOccurrence`, `Intersect` and `Merge` are
    imperative methods over the fields `invertedList` and
    `documentLengths`. Each is proved against the reference functions
    above.
  - `FetchPostings`, `ApplyQuery` and `FetchTopXResults` are functions,
    with lemmas about the query results on a built index.

Two behaviours of the code are at odds with its own documentation or with
the rest of the class. The model follows the code as written.

- `merge` is not a full union, although its docstring
  (ir/inverted_index.py:99-101) says it merges two postings lists. Two
  cases lose postings:
  - when an equal-id step exhausts one side, the loop ends and the rest of
    the other side is dropped;
  - when either operand is empty, the loop never runs and the result is
    `[]`.

  So an OR query with a term missing from the index returns nothing.
  `Algebra.MergeSpec` states exactly which ids survive. `Algebra.MergeUnion`
  gives the condition under which the result is the full union.
- A single-term query looks its term up as written
  (ir/inverted_index.py:144), without the lower-casing that
  `fetch_postings` (ir/inverted_index.py:136) applies to every term of a
  multi-term query, while every stored term is lower case. So a single term containing an
  upper-case letter finds nothing, though the same term inside a
  multi-term query would be found.

## Model

| member | source | states |
|---|---|---|
| Index.InvertedIndex.constructor | ir/inverted_index.py:8-11 | A new index has an empty inverted list and an empty length table. |
| Index.InvertedIndex.PopulateInvertedList | ir/inverted_index.py:18-35 | From any valid state, the new inverted list is the old one extended by counting every token of every document, with ids 1, 2, … in input order. The length table gains one entry per document, holding its token count. The outcome is the empty-corpus error exactly when the length table is left empty, the case where the average-length division fails. |
| Index.InvertedIndex.CountOccurrence | ir/inverted_index.py:24-33 | Counting one occurrence of a word is one step of the builder's fold, and the length table does not change. The step bumps the count of the word's last posting when it is for the current document. Otherwise it appends a posting with count 1, creating the list for a new word. |
| Build.AddWord | ir/inverted_index.py:25-33 | A count step adds the word as a key, keeps every stored list non-empty, and leaves every other word's list unchanged. |
| Index.BuildIndex | ir/inverted_index.py:18-35 | Populating a fresh index gives exactly the reference index of the documents and one length per document. It fails exactly when there are no documents. |
| Build.BuildMatchesIndex | ir/inverted_index.py:19-33 | Run from an empty map, the builder's fold produces exactly the reference index: for each term found, one posting per document that contains it, scored with its number of occurrences there. |
| Build.IndexSpec | ir/inverted_index.py:19-33 | In the built index, every list is non-empty and strictly ascending by document id, and every id lies in 1..n. A list has a posting for a document exactly when the term occurs there, and scores it with the occurrence count. A term absent from the index occurs in no document. |
| Build.PostingsOfIds | ir/inverted_index.py:24-33 | A term's reference postings are strictly ascending and within 1..n, and hold document d exactly when the term occurs in d. |
| Build.AddWords | ir/inverted_index.py:24-33 | Recording a document's tokens keeps every list non-empty and adds exactly the tokens as keys. `Build.AddWordsExtends` gives each term's new list. |
| Build.AddWordsExtends | ir/inverted_index.py:24-33 | Recording a new document's tokens into lists of earlier documents appends to each token's list one posting for the document, with the token's count. Every other list is unchanged. |
| Build.AddDocuments | ir/inverted_index.py:19-33 | Recording a corpus keeps every list non-empty. From empty lists it yields the reference index (`Build.BuildMatchesIndex`). |
| Build.Lengths | ir/inverted_index.py:19-23 | No contract of its own: the length table built document by document, characterised by `Build.LengthsSpec`. |
| Build.LengthsSpec | ir/inverted_index.py:19-23 | The length table has exactly the keys 1..n, including documents with no letters, and maps document d to the number of tokens of the d-th document. |
| Build.DocumentLengthIsColumnSum | ir/inverted_index.py:23-33 | For every document, its counts across all indexed terms add up to its entry in the length table. |
| Build.VocabularyIsLowerCase | ir/inverted_index.py:22 | Every indexed term is a non-empty word of lower-case ASCII letters. |
| Text.Tokenize | ir/inverted_index.py:22 | No contract of its own: the maximal runs of letters of the lower-cased document, characterised by `Text.TokenizeSpec`. |
| Text.TokenizeSpec | ir/inverted_index.py:22 | Tokens are non-empty words of lower-case letters. The k-th token is the slice of the lower-cased document at the k-th run start, a maximal run of letters: the characters just before and just after it are not letters, and later tokens start after earlier ones end. Concatenated, the tokens are the document's letters, lower-cased and in order, one token per run of letters. |
| Text.RunsAreMaximal | ir/inverted_index.py:22 | For any character class, the k-th run is the slice of the text at the k-th run start. It is non-empty and starts with a kept character, the characters on either side of it are not kept, and runs do not overlap and come in text order. |
| Text.Lower | ir/inverted_index.py:22 | Lower-casing keeps the length and turns each upper-case ASCII letter into the letter 32 code points above it. Every other character, lower-case letters included, is unchanged, so letters stay letters and end up lower case. |
| Index.InvertedIndex.FetchPostings | ir/inverted_index.py:132-137 | No contract of its own: a list operand is used as it is, and a term is looked up lower-cased with the empty list as default. `Index.InvertedIndex.FetchTermFrequencies` characterises the lookup on a built index. |
| Index.InvertedIndex.FetchTermFrequencies | ir/inverted_index.py:132-137 | On a built index, looking up a term in any case gives the reference postings of the lower-cased term. The list is sorted, its ids are within 1..n and are exactly the documents containing the term, and its scores are the occurrence counts. |
| Index.InvertedIndex.Intersect | ir/inverted_index.py:72-96 | The two-cursor loop returns exactly the reference intersection of the two looked-up operands. |
| Algebra.Intersection | ir/inverted_index.py:72-96 | No contract of its own: the reference definition of the AND join, which `Index.InvertedIndex.Intersect` is proved to compute and `Algebra.IntersectionSpec` characterises. |
| Algebra.IntersectionSpec | ir/inverted_index.py:72-96 | For strictly ascending inputs, the intersection is strictly ascending and holds exactly the ids found in both inputs. Each id carries the sum of its two scores. The result is no longer than either input, so it is empty when either input is. |
| Algebra.IntersectionCommutes | ir/inverted_index.py:72-96 | The intersection does not depend on the order of its operands. |
| Index.InvertedIndex.Merge | ir/inverted_index.py:98-130 | The two-cursor loop, including its tail copies, returns exactly the reference merge, as written, of the two looked-up operands. |
| Index.AppendCopies | ir/inverted_index.py:121-122 | Copying the remaining postings one at a time appends them unchanged. |
| Algebra.MergePostings | ir/inverted_index.py:98-130 | No contract of its own: the reference definition of the OR join as written, which `Index.InvertedIndex.Merge` is proved to compute and `Algebra.MergeSpec` characterises. |
| Algebra.MergeProgressBoth | ir/inverted_index.py:113-116 | On equal ids, emitting the summed posting and advancing both sides keeps the merge loop's invariant. |
| Algebra.MergeProgressOne | ir/inverted_index.py:117-122 | When the first side has the smaller id, its posting is emitted and the loop goes on. If that exhausts the first side, appending the rest of the second side unchanged completes the merge. |
| Algebra.MergeProgressTwo | ir/inverted_index.py:123-128 | The same for a smaller id on the second side. |
| Algebra.MergeProgressDone | ir/inverted_index.py:109 | Once either side is used up, the emitted list is the whole merge exactly when the loop invariant holds. |
| Algebra.MergeSpec | ir/inverted_index.py:98-130 | For strictly ascending inputs, the merge is strictly ascending. It holds exactly the ids that are in either input, provided both inputs are non-empty and, when the smaller of the two last ids is shared by both, the id is not above it. Each id carries the sum of the scores the inputs give it, so an id of one side keeps its own score. |
| Algebra.MergeUnion | ir/inverted_index.py:98-130 | For non-empty sorted inputs, the merge holds the full union of ids whenever both lists end on the same id, or the smaller of the two last ids is not shared. |
| Algebra.MergeDropsTail | ir/inverted_index.py:113-116 | An equal-id step that exhausts one side ends the join: [(1,1)] merged with [(1,1),(2,1)] is [(1,2)]. |
| Algebra.MergeFoldDropsScore | ir/inverted_index.py:149-150 | Folding the merge over [(1,1)], [(1,1),(5,1)] and [(5,1)] gives [(1,2),(5,1)]: document 5 is scored 1, not the 2 it has across the lists. |
| Algebra.MergeWithEmpty | ir/inverted_index.py:109 | Merging with an empty list on either side gives the empty list. |
| Algebra.MergeCommutes | ir/inverted_index.py:98-130 | The merge, as written, does not depend on the order of its operands. |
| Index.InvertedIndex.ApplyQuery | ir/inverted_index.py:139-152 | The results are the combined results reordered: a permutation with non-increasing scores, in which the postings of each score keep their combined order (a stable sort). |
| Ranking.SortByScore | ir/inverted_index.py:145 | No contract of its own: the stable descending sort of `sorted(…, key=…, reverse=True)`, characterised by `Ranking.SortByScoreSpec` and `Ranking.SortByScoreUnique`. |
| Ranking.SortByScoreSpec | ir/inverted_index.py:145 | The sort is a permutation of its input with non-increasing scores, and keeps the input order within every score. |
| Ranking.SortByScoreUnique | ir/inverted_index.py:151 | Any list with those properties is the sort, so the stable order is fully determined. |
| Text.Split | ir/inverted_index.py:140 | No contract of its own: the maximal runs of non-whitespace of the query, characterised by `Text.SplitSpec`. |
| Text.SplitSpec | ir/inverted_index.py:140 | A query splits into no terms exactly when it is all whitespace. Every term is non-empty and holds no whitespace. The k-th term is the slice of the query at the k-th run start, with whitespace or the query's end on both sides, in query order. Concatenated, the terms are the query's non-whitespace characters, one term per run. |
| Index.InvertedIndex.BlankQuery | ir/inverted_index.py:140-142 | An empty or all-whitespace query has no results. |
| Index.InvertedIndex.SingleTermIsCaseSensitive | ir/inverted_index.py:143-145 | On an index built from documents, a single-term query with an upper-case letter finds nothing, because the lookup is not lower-cased. |
| Index.InvertedIndex.Combine | ir/inverted_index.py:147-150 | No contract of its own: one step of the fold, `intersect` or `merge` of two operands. The lemmas about `Reduce` characterise it. |
| Index.InvertedIndex.Reduce | ir/inverted_index.py:147-150 | No contract of its own: `reduce` as a left fold of `Combine` over at least two terms. Characterised by `Index.InvertedIndex.ReduceIntersection` and `Index.InvertedIndex.ReduceMerge`. |
| Index.InvertedIndex.QueryResults | ir/inverted_index.py:140-150 | No contract of its own: the results before sorting, with no terms giving nothing, one term looked up as written, and several folded. Characterised by the query lemmas below. |
| Index.InvertedIndex.ReduceIntersection | ir/inverted_index.py:147-148 | With sorted term lists, the left fold of `intersect` is sorted. It holds exactly the ids that every term's list holds, each scored with the sum of the terms' scores. |
| Index.InvertedIndex.ReduceIntersectionBuilt | ir/inverted_index.py:147-148 | On a built index, the AND fold holds exactly the documents containing every lower-cased term, each scored with the terms' total occurrences. |
| Index.InvertedIndex.AndQueryFindsDocuments | ir/inverted_index.py:139-152 | On a built index, an AND query of several terms returns exactly the documents that contain every lower-cased query term. Each is scored with the total occurrences of the query's terms there. |
| Index.InvertedIndex.ReduceMerge | ir/inverted_index.py:149-150 | With sorted term lists, the left fold of `merge` is sorted, and every id it holds comes from some term's list. |
| Index.InvertedIndex.ReduceMergeEmpty | ir/inverted_index.py:149-150 | If any term's list is empty, the OR fold is empty. |
| Index.InvertedIndex.OrFoldOfTwoTerms | ir/inverted_index.py:149-150 | On a built index, the OR fold of two terms merges the reference postings of the lower-cased terms. |
| Index.MergeOfTermPostings | ir/inverted_index.py:98-130 | The merge of two terms' reference postings is sorted and holds exactly the ids `Kept` describes. Each is a document containing one of the terms, scored with the occurrences of both. |
| Index.InvertedIndex.OrQueryOfTwoTerms | ir/inverted_index.py:139-152 | On a built index, an OR query of two terms returns exactly the documents `Kept` by the merge of the two terms' postings. Each contains one of the lower-cased terms and is scored with the total occurrences of both. |
| Index.InvertedIndex.OrQueryWithUnknownTerm | ir/inverted_index.py:139-152 | An OR query of several terms, one of which is not in the index, returns nothing. |
| Index.InvertedIndex.FetchTopXResults | ir/inverted_index.py:154-159 | The result is always a prefix of the input. With no count or a count of 0 it is the whole input. A positive count x gives min(x, length) results. A negative count gives the Python slice `[:x]`, dropping the last -x results. |

## Left out

- BM25 scoring is not part of this model: `calculate_bm25` and the `bm25`/`position` branch of `populate_inverted_list` (ir/inverted_index.py:37-70) use floating point, `log` and `isnan`. Scores stay integer term frequencies.
- The value of `average_document_length` is not modelled. It is a float rounded to 5 places. Only its failure on an empty length table is modelled, as the `EmptyCorpusError` outcome.
- `round(…, 3)` in the joins is not modelled; on integer scores it is the identity.
- `fetch_documents` (file reading) and `run_search_engine` with the `__main__` block (console input and output) are I/O. The model starts from a sequence of document strings and a query string.
- Python's `str.lower` and the `re` letter class are modelled for ASCII only. A character outside ASCII is never a letter and is left unchanged by lower-casing. Python's `str.split` whitespace set is modelled in full.
- Python lists of `[id, score]` pairs are modelled as sequences of values. The core never mutates a list it has handed out, so aliasing between stored and returned lists is not observable and is not modelled.
- Index.InvertedIndex.PopulateInvertedList: the state after populating twice is stated exactly as the code produces it, with ids that restart at 1. Its link to the reference index is proved for a fresh instance only, in `Index.BuildIndex`.
- Index.InvertedIndex.ReduceMerge: states sortedness and that every id comes from some term. It states neither the exact id set nor the scores of an OR fold over three or more terms. The scores are not the terms' total occurrences in general. An earlier merge can drop a posting whose document a later term brings back. For the documents "x y", "", "", "", "y z" and the query "x y z", document 5 holds two occurrences but is scored 1 (`Algebra.MergeFoldDropsScore`). The two-term case is exact: `Algebra.MergeSpec` and `Index.InvertedIndex.OrQueryOfTwoTerms`.
