/** `generate_statistics` (scripts/analyzer.py:24-405) from end to end: the
    counting loop over the annotated files of a corpus, then the derivation
    of the percentage tables. The files are given with their language level
    (the name of the directory they are read from) and their lines. */
module Analyzer {
  import opened Wrappers
  import opened Dict
  import opened Tally
  import opened TallyInvariants
  import opened CorpusCounts
  import opened Derivation
  import opened DerivationFacts
  import Counting
  import DerivationLoops

  /** The statistics of a corpus, or the exception that aborts them. */
  function GenerateStatistics(files: seq<(string, seq<string>)>): Result<Statistics> {
    var t :- Corpus(files);
    Derive(t)
  }

  /** The two phases as the loops they are. */
  method RunGenerateStatistics(files: seq<(string, seq<string>)>) returns (r: Result<Statistics>)
    ensures r == GenerateStatistics(files)
  {
    var t :- Counting.CountCorpus(files);
    r := DerivationLoops.DeriveStatistics(t);
  }

  lemma {:induction false} PercentAtMostHundred(p: real, part: real, whole: real)
    requires IsPercent(p, part, whole) && whole > 0.0 && part <= whole
    ensures p <= 100.0
  {
  }

  /** Once the counting loop has read the corpus, the statistics are
      computed exactly when the corpus has an `S` line and a counted edit.
      Then the error-type shares add up to one hundred, so do the end and
      middle percentages of every fix, and the error-sentence rate is at
      most one hundred when every counted edit follows an `S` line. */
  lemma {:induction false} GenerateStatisticsOk(files: seq<(string, seq<string>)>)
    requires Corpus(files).Ok?
    ensures GenerateStatistics(files).Ok? <==>
      SentenceLines(AllLines(files)) > 0 && CountedEdits(AllLines(files)) > 0
    ensures GenerateStatistics(files).Ok? ==>
      var st := GenerateStatistics(files).value;
      && st.missingErrors + st.unnecessaryErrors + st.replacementErrors == 100.0
      && (forall f :: f in Keys(st.totalFixPercentages) ==>
            Get0(st.endFixPercentages, f) + Get0(st.middleFixPercentages, f) == 100.0)
      && (EditsFollowSentences(AllLines(files)) ==> st.totalPunctErrors <= 100.0)
  {
    CorpusCountsLines(files);
    var t := Corpus(files).value;
    DeriveOk(t);
    if Derive(t).Ok? && EditsFollowSentences(AllLines(files)) {
      PercentAtMostHundred(Derive(t).value.totalPunctErrors, t.errorSentenceCount as real, t.sentenceCount as real);
    }
  }
}
