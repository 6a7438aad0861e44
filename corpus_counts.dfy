/** What `generate_statistics` counts over a whole corpus: one sentence per
    `S` line, one error per counted `A` line, and each sentence at most once
    as an error sentence (scripts/analyzer.py:94-114, 221). */
module CorpusCounts {
  import opened Fold
  import opened Dict
  import opened Tally
  import opened TallyInvariants

  /** The number of `S` lines. */
  function SentenceLines(lines: seq<string>): nat {
    if lines == [] then 0
    else SentenceLines(lines[..|lines| - 1]) + (if IsSentenceLine(lines[|lines| - 1]) then 1 else 0)
  }

  /** The number of counted `A` lines. */
  function CountedEdits(lines: seq<string>): nat {
    if lines == [] then 0
    else CountedEdits(lines[..|lines| - 1]) + (if IsCountedEdit(lines[|lines| - 1]) then 1 else 0)
  }

  /** Every item that satisfies `later` comes after some item that
      satisfies `earlier`. */
  ghost predicate Follows<T>(xs: seq<T>, later: T -> bool, earlier: T -> bool) {
    forall j :: 0 <= j < |xs| && later(xs[j]) ==> exists i :: 0 <= i < j && earlier(xs[i])
  }

  /** Every counted edit comes after some `S` line. */
  ghost predicate EditsFollowSentences(lines: seq<string>) {
    Follows(lines, IsCountedEdit, IsSentenceLine)
  }

  /** The summary before the first line. */
  const Start: Summary := Summary(0, 0, false, 0.0)

  /** A bound that holds whatever the order of the lines: the error
      sentences exceed the sentences by at most one (edits before the first
      `S` line), and not at all while the current sentence has no error. */
  ghost predicate ErrorSentenceBound(a: Summary) {
    a.errorSentences + (if a.inErrorSentence then 0 else 1) <= a.sentences + 1
  }

  /** The bound once every counted edit follows an `S` line. */
  ghost predicate ErrorSentenceBoundAfterSentence(a: Summary) {
    && (a.sentences == 0 ==> a.errorSentences == 0 && !a.inErrorSentence)
    && (a.sentences > 0 ==> a.errorSentences + (if a.inErrorSentence then 0 else 1) <= a.sentences)
  }

  lemma {:induction false} SentenceLinesPositive(lines: seq<string>, i: int)
    requires 0 <= i < |lines| && IsSentenceLine(lines[i])
    ensures SentenceLines(lines) > 0
    decreases |lines|
  {
    if i < |lines| - 1 {
      assert lines[..|lines| - 1][i] == lines[i];
      SentenceLinesPositive(lines[..|lines| - 1], i);
    }
  }

  /** The summary of a list of lines counts its `S` lines and its counted
      edits. */
  lemma {:induction false} SummaryCounts(lines: seq<string>)
    ensures var a := FoldLeft(SummaryStep, Start, lines);
      a.sentences == SentenceLines(lines) && a.edits == CountedEdits(lines) as real
  {
    if lines != [] {
      SummaryCounts(lines[..|lines| - 1]);
    }
  }

  /** Whatever the order of the lines, the summary keeps the weak bound. */
  lemma {:induction false} SummaryBound(lines: seq<string>)
    ensures ErrorSentenceBound(FoldLeft(SummaryStep, Start, lines))
  {
    if lines != [] {
      SummaryBound(lines[..|lines| - 1]);
    }
  }

  /** The condition holds of every prefix, and the last item, when it
      satisfies `later`, has an item satisfying `earlier` before it. */
  lemma {:induction false} FollowsPrefix<T>(xs: seq<T>, prefix: seq<T>, later: T -> bool, earlier: T -> bool)
    requires xs != [] && prefix == xs[..|xs| - 1] && Follows(xs, later, earlier)
    ensures Follows(prefix, later, earlier)
    ensures later(xs[|xs| - 1]) ==> exists i :: 0 <= i < |prefix| && earlier(prefix[i])
  {
    forall j | 0 <= j < |prefix| && later(prefix[j])
      ensures exists i :: 0 <= i < j && earlier(prefix[i])
    {
      assert xs[j] == prefix[j];
      var i :| 0 <= i < j && earlier(xs[i]);
      assert prefix[i] == xs[i];
    }
    if later(xs[|xs| - 1]) {
      var i :| 0 <= i < |xs| - 1 && earlier(xs[i]);
      assert prefix[i] == xs[i];
    }
  }

  /** When every counted edit follows an `S` line, the summary keeps the
      strong bound. */
  lemma {:induction false} SummaryBoundAfterSentence(lines: seq<string>)
    requires EditsFollowSentences(lines)
    ensures ErrorSentenceBoundAfterSentence(FoldLeft(SummaryStep, Start, lines))
  {
    if lines != [] {
      var prefix := lines[..|lines| - 1];
      var last := lines[|lines| - 1];
      FollowsPrefix(lines, prefix, IsCountedEdit, IsSentenceLine);
      SummaryBoundAfterSentence(prefix);
      SummaryCounts(prefix);
      if IsCountedEdit(last) && !IsSentenceLine(last) {
        var i :| 0 <= i < |prefix| && IsSentenceLine(prefix[i]);
        SentenceLinesPositive(prefix, i);
      }
    }
  }

  /** The corpus-level promises of the counting loop: the invariants hold at
      the end, `sentenceCount` is the number of `S` lines, the error counts
      add up to the number of counted edits, and `errorSentenceCount` is at
      most `sentenceCount` when every counted edit follows an `S` line (one
      more otherwise). */
  lemma CorpusCountsLines(files: seq<(string, seq<string>)>)
    requires Corpus(files).Ok?
    ensures var t := Corpus(files).value;
      && Conserved(t)
      && t.sentenceCount == SentenceLines(AllLines(files))
      && Sum(t.punctErrorCounts) == CountedEdits(AllLines(files)) as real
      && t.errorSentenceCount <= t.sentenceCount + 1
      && (EditsFollowSentences(AllLines(files)) ==> t.errorSentenceCount <= t.sentenceCount)
  {
    InitConserved();
    FilesKeep(Init(), files);
    SummaryCounts(AllLines(files));
    SummaryBound(AllLines(files));
    if EditsFollowSentences(AllLines(files)) {
      SummaryBoundAfterSentence(AllLines(files));
    }
  }
}
