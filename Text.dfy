/** Text handling of the index: lower-casing, the letter-run tokenizer of
    the builder and the whitespace split of the query executor. Both are
    "maximal runs of characters of one class", defined once as `Runs`. */
module Text {

  predicate IsAsciiLetter(c: char) {
    'A' <= c <= 'Z' || 'a' <= c <= 'z'
  }

  predicate IsLowerLetter(c: char) {
    'a' <= c <= 'z'
  }

  /** The characters Python's `str.split()` with no argument splits on. */
  predicate IsSpace(c: char) {
    var n := c as int;
    9 <= n <= 13 || 28 <= n <= 32 || n == 0x85 || n == 0xA0 || n == 0x1680
    || 0x2000 <= n <= 0x200A || n == 0x2028 || n == 0x2029 || n == 0x202F
    || n == 0x205F || n == 0x3000
  }

  predicate IsWordChar(c: char) {
    !IsSpace(c)
  }

  function LowerChar(c: char): char {
    if 'A' <= c <= 'Z' then (c as int + 32) as char else c
  }

  /** Lower-casing as far as ASCII goes: an upper-case letter becomes the
      lower-case letter 32 code points above it, every other character is
      left alone; so every letter stays a letter and is lower case
      afterwards. */
  function Lower(s: string): (r: string)
    ensures |r| == |s|
    ensures forall i :: 0 <= i < |s| && 'A' <= s[i] <= 'Z' ==> r[i] as int == s[i] as int + 32
    ensures forall i :: 0 <= i < |s| && !('A' <= s[i] <= 'Z') ==> r[i] == s[i]
    ensures forall i :: 0 <= i < |s| ==> IsAsciiLetter(r[i]) == IsAsciiLetter(s[i])
    ensures forall i :: 0 <= i < |s| && IsAsciiLetter(r[i]) ==> IsLowerLetter(r[i])
  {
    if s == [] then [] else [LowerChar(s[0])] + Lower(s[1..])
  }

  /** Length of the longest prefix of `s` made of kept characters. */
  function RunLength(s: string, keep: char -> bool): (n: nat)
    ensures n <= |s|
    ensures forall i :: 0 <= i < n ==> keep(s[i])
    ensures n == |s| || !keep(s[n])
    ensures s != [] && keep(s[0]) ==> n >= 1
  {
    if s == [] || !keep(s[0]) then 0 else 1 + RunLength(s[1..], keep)
  }

  /** The positions of `s` where a run of kept characters begins, left to
      right. */
  function RunStartPositions(s: string, keep: char -> bool): seq<nat>
    decreases |s|
  {
    if s == [] then []
    else if !keep(s[0]) then Shift(RunStartPositions(s[1..], keep), 1)
    else [0] + Shift(RunStartPositions(s[RunLength(s, keep)..], keep), RunLength(s, keep))
  }

  /** Every position moved `d` places to the right. */
  function Shift(positions: seq<nat>, d: nat): (shifted: seq<nat>)
    ensures |shifted| == |positions|
    ensures forall i :: 0 <= i < |positions| ==> shifted[i] == positions[i] + d
  {
    seq(|positions|, i requires 0 <= i < |positions| => positions[i] + d)
  }

  /** `run` is the maximal run of kept characters of `s` at position `lo`:
      the non-empty slice of `s` from `lo`, starting with a kept character,
      with neither the character before it nor the one after it kept. */
  predicate MaximalRunAt(s: string, keep: char -> bool, lo: nat, run: string) {
    && run != []
    && lo + |run| <= |s|
    && run == s[lo..lo + |run|]
    && keep(s[lo])
    && (lo == 0 || !keep(s[lo - 1]))
    && (lo + |run| == |s| || !keep(s[lo + |run|]))
  }

  /** `runs` are the maximal runs of `s` at `starts`, in increasing position
      and without overlap. */
  predicate RunsAt(s: string, keep: char -> bool, runs: seq<string>, starts: seq<nat>) {
    && |starts| == |runs|
    && (forall k :: 0 <= k < |runs| ==> MaximalRunAt(s, keep, starts[k], runs[k]))
    && (forall k, l :: 0 <= k < l < |runs| ==> starts[k] + |runs[k]| < starts[l])
  }

  /** The maximal runs of kept characters of `s`, left to right. */
  function Runs(s: string, keep: char -> bool): seq<string>
    decreases |s|
  {
    if s == [] then []
    else if !keep(s[0]) then Runs(s[1..], keep)
    else
      var n := RunLength(s, keep);
      [s[..n]] + Runs(s[n..], keep)
  }

  /** The kept characters of `s`, in order. */
  function Filter(s: string, keep: char -> bool): string {
    if s == [] then []
    else if keep(s[0]) then [s[0]] + Filter(s[1..], keep)
    else Filter(s[1..], keep)
  }

  function Concat(ss: seq<string>): string {
    if ss == [] then [] else ss[0] + Concat(ss[1..])
  }

  /** Number of positions of `s` where a run of kept characters starts,
      counted one character at a time; `prev` says whether the character
      before `s` was kept. */
  function RunStarts(s: string, keep: char -> bool, prev: bool): nat {
    if s == [] then 0
    else (if keep(s[0]) && !prev then 1 else 0) + RunStarts(s[1..], keep, keep(s[0]))
  }

  /** Every run is non-empty and made only of kept characters. */
  lemma {:induction false} RunsAreKept(s: string, keep: char -> bool)
    ensures forall k :: 0 <= k < |Runs(s, keep)| ==> Runs(s, keep)[k] != []
    ensures forall k, i :: 0 <= k < |Runs(s, keep)| && 0 <= i < |Runs(s, keep)[k]| ==> keep(Runs(s, keep)[k][i])
  {
    if s != [] {
      if !keep(s[0]) {
        RunsAreKept(s[1..], keep);
      } else {
        var n := RunLength(s, keep);
        RunsAreKept(s[n..], keep);
      }
    }
  }

  lemma {:induction false} FilterKeptPrefix(s: string, keep: char -> bool, m: nat)
    requires m <= |s|
    requires forall i :: 0 <= i < m ==> keep(s[i])
    ensures Filter(s, keep) == s[..m] + Filter(s[m..], keep)
  {
    if m > 0 {
      FilterKeptPrefix(s[1..], keep, m - 1);
      assert s[1..][m - 1..] == s[m..];
      assert s[..m] == [s[0]] + s[1..][..m - 1];
    }
  }

  /** Glued back together, the runs give exactly the kept characters: nothing
      kept is lost, nothing dropped is let in, and the order is unchanged. */
  lemma {:induction false} RunsConcat(s: string, keep: char -> bool)
    ensures Concat(Runs(s, keep)) == Filter(s, keep)
    decreases |s|
  {
    if s != [] {
      if !keep(s[0]) {
        RunsConcat(s[1..], keep);
      } else {
        var n := RunLength(s, keep);
        RunsConcat(s[n..], keep);
        FilterKeptPrefix(s, keep, n);
      }
    }
  }

  lemma {:induction false} RunStartsInsideRun(t: string, keep: char -> bool, m: nat)
    requires m <= |t|
    requires forall i :: 0 <= i < m ==> keep(t[i])
    requires m == |t| || !keep(t[m])
    ensures RunStarts(t, keep, true) == RunStarts(t[m..], keep, false)
  {
    if m > 0 {
      RunStartsInsideRun(t[1..], keep, m - 1);
      assert t[1..][m - 1..] == t[m..];
    }
  }

  /** There are as many runs as positions where a run starts: the runs are
      maximal, no run is split in two and no two runs are glued. */
  lemma {:induction false} RunsCount(s: string, keep: char -> bool)
    ensures |Runs(s, keep)| == RunStarts(s, keep, false)
    decreases |s|
  {
    if s != [] {
      if !keep(s[0]) {
        RunsCount(s[1..], keep);
      } else {
        var n := RunLength(s, keep);
        RunsCount(s[n..], keep);
        RunStartsInsideRun(s[1..], keep, n - 1);
        assert s[1..][n - 1..] == s[n..];
      }
    }
  }

  /** The runs of `s` are its maximal runs of kept characters, left to right:
      the k-th run is the slice of `s` at the k-th run start. */
  lemma RunsAreMaximal(s: string, keep: char -> bool)
    ensures RunsAt(s, keep, Runs(s, keep), RunStartPositions(s, keep))
  {
    var runs, starts := Runs(s, keep), RunStartPositions(s, keep);
    RunStartsCount(s, keep);
    forall k | 0 <= k < |runs| ensures MaximalRunAt(s, keep, starts[k], runs[k]) {
      RunAtStart(s, keep, k);
    }
    forall k, l | 0 <= k < l < |runs| ensures starts[k] + |runs[k]| < starts[l] {
      RunsInOrder(s, keep, k, l);
    }
  }

  /** There is one run start per run. */
  lemma {:induction false} RunStartsCount(s: string, keep: char -> bool)
    ensures |RunStartPositions(s, keep)| == |Runs(s, keep)|
    decreases |s|
  {
    if s != [] {
      if !keep(s[0]) {
        RunStartsCount(s[1..], keep);
      } else {
        RunStartsCount(s[RunLength(s, keep)..], keep);
      }
    }
  }

  /** A maximal run of the suffix `s[d..]` at `lo` is a maximal run of `s`
      at `lo + d`, provided the character before the suffix is not kept or
      the suffix does not start with a kept character. */
  lemma {:induction false} MaximalRunShift(s: string, keep: char -> bool, d: nat, lo: nat, run: string, shifted: nat, run': string)
    requires 0 < d <= |s|
    requires !keep(s[d - 1]) || (d < |s| && !keep(s[d]))
    requires MaximalRunAt(s[d..], keep, lo, run)
    requires shifted == lo + d && run' == run
    ensures MaximalRunAt(s, keep, shifted, run')
  {
    var t := s[d..];
    var hi := lo + |run|;
    assert t[lo..hi] == s[lo + d..hi + d];
    assert t[lo] == s[lo + d];
    if lo > 0 {
      assert t[lo - 1] == s[lo + d - 1];
    }
    if hi < |t| {
      assert t[hi] == s[hi + d];
    }
  }

  /** The k-th run is the maximal run at the k-th run start. */
  lemma {:induction false} RunAtStart(s: string, keep: char -> bool, k: nat)
    requires k < |Runs(s, keep)|
    ensures k < |RunStartPositions(s, keep)|
    ensures MaximalRunAt(s, keep, RunStartPositions(s, keep)[k], Runs(s, keep)[k])
    decreases |s|, 1
  {
    RunStartsCount(s, keep);
    if !keep(s[0]) {
      RunAtStartPastUnkept(s, keep, k);
    } else if k == 0 {
      var n := RunLength(s, keep);
      assert MaximalRunAt(s, keep, 0, s[..n]);
    } else {
      RunAtStartPastRun(s, keep, k);
    }
  }

  /** `RunAtStart` when `s` starts with a character that is not kept. */
  lemma {:induction false} RunAtStartPastUnkept(s: string, keep: char -> bool, k: nat)
    requires s != [] && !keep(s[0])
    requires k < |Runs(s, keep)|
    ensures k < |RunStartPositions(s, keep)|
    ensures MaximalRunAt(s, keep, RunStartPositions(s, keep)[k], Runs(s, keep)[k])
    decreases |s|, 0
  {
    var t := s[1..];
    assert Runs(s, keep) == Runs(t, keep);
    assert RunStartPositions(s, keep) == Shift(RunStartPositions(t, keep), 1);
    RunAtStart(t, keep, k);
    MaximalRunShift(s, keep, 1, RunStartPositions(t, keep)[k], Runs(t, keep)[k],
                    RunStartPositions(s, keep)[k], Runs(s, keep)[k]);
  }

  /** `RunAtStart` for a run after the first when `s` starts with a run. */
  lemma {:induction false} RunAtStartPastRun(s: string, keep: char -> bool, k: nat)
    requires s != [] && keep(s[0])
    requires 0 < k < |Runs(s, keep)|
    ensures k < |RunStartPositions(s, keep)|
    ensures MaximalRunAt(s, keep, RunStartPositions(s, keep)[k], Runs(s, keep)[k])
    decreases |s|, 0
  {
    var n := RunLength(s, keep);
    PastFirstRun(s, keep, k);
    RunAtStart(s[n..], keep, k - 1);
    RunShiftPastFirst(s, keep, k);
  }

  /** A maximal run of the rest past the first run is a maximal run of `s`. */
  lemma {:induction false} RunShiftPastFirst(s: string, keep: char -> bool, k: nat)
    requires s != [] && keep(s[0])
    requires 0 < k < |Runs(s, keep)|
    requires k - 1 < |RunStartPositions(s[RunLength(s, keep)..], keep)|
    requires k - 1 < |Runs(s[RunLength(s, keep)..], keep)|
    requires MaximalRunAt(s[RunLength(s, keep)..], keep, RunStartPositions(s[RunLength(s, keep)..], keep)[k - 1],
                          Runs(s[RunLength(s, keep)..], keep)[k - 1])
    ensures k < |RunStartPositions(s, keep)|
    ensures MaximalRunAt(s, keep, RunStartPositions(s, keep)[k], Runs(s, keep)[k])
  {
    var n := RunLength(s, keep);
    PastFirstRun(s, keep, k);
    MaximalRunShift(s, keep, n, RunStartPositions(s[n..], keep)[k - 1], Runs(s[n..], keep)[k - 1],
                    RunStartPositions(s, keep)[k], Runs(s, keep)[k]);
  }

  /** Past the first run of `s`, the k-th run and its start are the
      (k-1)-th of the rest, the start moved by the first run's length. */
  lemma {:induction false} PastFirstRun(s: string, keep: char -> bool, k: nat)
    requires s != [] && keep(s[0])
    requires 0 < k < |Runs(s, keep)|
    ensures RunLength(s, keep) < |s| && !keep(s[RunLength(s, keep)])
    ensures k - 1 < |Runs(s[RunLength(s, keep)..], keep)|
    ensures k < |RunStartPositions(s, keep)| && k - 1 < |RunStartPositions(s[RunLength(s, keep)..], keep)|
    ensures Runs(s, keep)[k] == Runs(s[RunLength(s, keep)..], keep)[k - 1]
    ensures RunStartPositions(s, keep)[k] == RunStartPositions(s[RunLength(s, keep)..], keep)[k - 1] + RunLength(s, keep)
  {
    var n := RunLength(s, keep);
    var t := s[n..];
    RunStartsCount(s, keep);
    RunStartsCount(t, keep);
    assert Runs(s, keep) == [s[..n]] + Runs(t, keep);
    assert RunStartPositions(s, keep) == [0] + Shift(RunStartPositions(t, keep), n);
  }

  /** Runs found later start after the end of runs found earlier. */
  lemma {:induction false} RunsInOrder(s: string, keep: char -> bool, k: nat, l: nat)
    requires k < l < |Runs(s, keep)|
    ensures l < |RunStartPositions(s, keep)|
    ensures RunStartPositions(s, keep)[k] + |Runs(s, keep)[k]| < RunStartPositions(s, keep)[l]
    decreases |s|
  {
    RunStartsCount(s, keep);
    if !keep(s[0]) {
      var t := s[1..];
      assert Runs(s, keep) == Runs(t, keep);
      assert RunStartPositions(s, keep) == Shift(RunStartPositions(t, keep), 1);
      RunsInOrder(t, keep, k, l);
    } else {
      var n := RunLength(s, keep);
      var t := s[n..];
      PastFirstRun(s, keep, l);
      if k == 0 {
        assert Runs(s, keep)[0] == s[..n] && RunStartPositions(s, keep)[0] == 0;
        RunAtStart(t, keep, l - 1);
        assert t[0] == s[n];
      } else {
        PastFirstRun(s, keep, k);
        RunsInOrder(t, keep, k - 1, l - 1);
      }
    }
  }

  /** There are no runs exactly when no character is kept. */
  lemma {:induction false} RunsEmpty(s: string, keep: char -> bool)
    ensures Runs(s, keep) == [] <==> forall i :: 0 <= i < |s| ==> !keep(s[i])
    decreases |s|
  {
    if s != [] && !keep(s[0]) {
      RunsEmpty(s[1..], keep);
      assert forall i :: 0 < i < |s| ==> s[i] == s[1..][i - 1];
    }
  }

  /** The tokenizer of the index builder: the maximal runs of ASCII letters of
      the lower-cased document. */
  function Tokenize(document: string): seq<string> {
    Runs(Lower(document), IsAsciiLetter)
  }

  lemma {:induction false} RunStartsLower(s: string, prev: bool)
    ensures RunStarts(Lower(s), IsAsciiLetter, prev) == RunStarts(s, IsAsciiLetter, prev)
  {
    if s != [] {
      RunStartsLower(s[1..], IsAsciiLetter(s[0]));
    }
  }

  /** Every character of every token is a lower-case letter, since each
      token is a slice of letters of the lower-cased document. */
  lemma TokensAreLowerCase(document: string)
    ensures forall k, i :: 0 <= k < |Tokenize(document)| && 0 <= i < |Tokenize(document)[k]| ==>
      IsLowerLetter(Tokenize(document)[k][i])
  {
    forall k, i | 0 <= k < |Tokenize(document)| && 0 <= i < |Tokenize(document)[k]|
      ensures IsLowerLetter(Tokenize(document)[k][i])
    {
      TokenCharIsLower(document, k, i);
    }
  }

  lemma {:induction false} TokenCharIsLower(document: string, k: nat, i: nat)
    requires k < |Tokenize(document)| && i < |Tokenize(document)[k]|
    ensures IsLowerLetter(Tokenize(document)[k][i])
  {
    var low := Lower(document);
    RunsAreKept(low, IsAsciiLetter);
    RunAtStart(low, IsAsciiLetter, k);
    var j := RunStartPositions(low, IsAsciiLetter)[k] + i;
    assert Tokenize(document)[k][i] == low[j];
    assert IsAsciiLetter(low[j]);
  }

  /** Every token is a non-empty word of lower-case letters; the tokens are
      the maximal runs of letters of the lower-cased document, in order;
      they spell out its letters; and there is one token per run of letters
      in the document. */
  lemma TokenizeSpec(document: string)
    ensures forall k :: 0 <= k < |Tokenize(document)| ==> Tokenize(document)[k] != []
    ensures forall k, i :: 0 <= k < |Tokenize(document)| && 0 <= i < |Tokenize(document)[k]| ==>
      IsLowerLetter(Tokenize(document)[k][i])
    ensures RunsAt(Lower(document), IsAsciiLetter, Tokenize(document),
                   RunStartPositions(Lower(document), IsAsciiLetter))
    ensures Concat(Tokenize(document)) == Filter(Lower(document), IsAsciiLetter)
    ensures |Tokenize(document)| == RunStarts(document, IsAsciiLetter, false)
  {
    var low := Lower(document);
    RunsAreKept(low, IsAsciiLetter);
    RunsAreMaximal(low, IsAsciiLetter);
    TokensAreLowerCase(document);
    RunsConcat(low, IsAsciiLetter);
    RunsCount(low, IsAsciiLetter);
    RunStartsLower(document, false);
  }

  /** The query split of the executor: the maximal runs of non-whitespace. */
  function Split(query: string): seq<string> {
    Runs(query, IsWordChar)
  }

  /** A query splits into no terms exactly when it is empty or all
      whitespace; otherwise the terms are its maximal runs of non-whitespace,
      in order: non-empty, without whitespace, together spelling out every
      non-whitespace character, one term per run. */
  lemma SplitSpec(query: string)
    ensures Split(query) == [] <==> forall i :: 0 <= i < |query| ==> IsSpace(query[i])
    ensures forall k, i :: 0 <= k < |Split(query)| && 0 <= i < |Split(query)[k]| ==> !IsSpace(Split(query)[k][i])
    ensures forall k :: 0 <= k < |Split(query)| ==> Split(query)[k] != []
    ensures RunsAt(query, IsWordChar, Split(query), RunStartPositions(query, IsWordChar))
    ensures Concat(Split(query)) == Filter(query, IsWordChar)
    ensures |Split(query)| == RunStarts(query, IsWordChar, false)
  {
    RunsEmpty(query, IsWordChar);
    RunsAreKept(query, IsWordChar);
    RunsAreMaximal(query, IsWordChar);
    RunsConcat(query, IsWordChar);
    RunsCount(query, IsWordChar);
  }
}
