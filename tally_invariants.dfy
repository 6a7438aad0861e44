/** What the counting loop of `generate_statistics` keeps true of its
    counters (scripts/analyzer.py:77-218), and hence what the derivation of
    the percentages may rely on: the middle and end counts of a wrong
    character add up to its total, the per-character totals add up to the
    error counts, every key of a correction mapping has a positive count
    to divide by, and every combination key splits back into its words. */
module TallyInvariants {
  import opened Wrappers
  import opened PyStr
  import opened Dict
  import opened Fold
  import opened Tally

  // ---------------------------------------------------------------- the invariants

  /** Every word of the active sentence is a whitespace-free token. */
  ghost predicate Tokens(ws: seq<string>) {
    forall i :: 0 <= i < |ws| ==> IsToken(ws[i])
  }

  /** Every outer key of a mapping has a positive count in `counts`. */
  ghost predicate CountedKeys(mapping: Dict<string, Dict<string, real>>, counts: Dict<string, real>) {
    forall k :: k in Keys(mapping) ==> Get0(counts, k) > 0.0
  }

  /** Every key splits at `" + "` into exactly `n` parts. */
  ghost predicate SplitsInto(d: Dict<string, real>, n: nat) {
    forall k :: k in Keys(d) ==> |Split(k, " + ")| == n
  }

  /** For every character, its middle and end counts add up to its total. */
  ghost predicate MiddlePlusEnd(t: Tally) {
    forall c :: Get0(t.middleReplacement, c) + Get0(t.endReplacement, c) == Get0(t.replacement, c)
  }

  /** The invariants that do not mention the error counters. */
  ghost predicate Shape(t: Tally) {
    && Keys(t.punctErrorCounts) == PunctKeys
    && Positive(t.missing) && Positive(t.unnecessary)
    && Positive(t.replacement) && Positive(t.middleReplacement) && Positive(t.endReplacement)
    && MiddlePlusEnd(t)
    && Positive2(t.replacementMapping) && Positive2(t.middleMapping) && Positive2(t.endMapping)
    && CountedKeys(t.replacementMapping, t.replacement)
    && CountedKeys(t.middleMapping, t.middleReplacement)
    && CountedKeys(t.endMapping, t.endReplacement)
    && Tokens(t.active)
    && SplitsInto(t.unnecessaryNext, 2) && SplitsInto(t.precedingUnnecessaryNext, 3)
  }

  /** The per-character counters agree with the error counters. */
  ghost predicate Counted(t: Tally) {
    && Sum(t.replacement) == Get0(t.punctErrorCounts, "R:PUNCT")
    && Sum(t.unnecessary) == Get0(t.punctErrorCounts, "U:PUNCT")
    && Get0(t.punctErrorCounts, "M:PUNCT") >= 0.0
    && (t.missing != [] ==> Get0(t.punctErrorCounts, "M:PUNCT") > 0.0)
  }

  ghost predicate Conserved(t: Tally) {
    Shape(t) && Counted(t)
  }

  /** The counters that an edit's typed counts leave alone. */
  ghost predicate SameBook(t: Tally, t': Tally) {
    && t'.sentenceCount == t.sentenceCount && t'.sentencesByLevel == t.sentencesByLevel
    && t'.punctErrorCounts == t.punctErrorCounts && t'.punctErrorsByLevel == t.punctErrorsByLevel
    && t'.errorSentenceCount == t.errorSentenceCount && t'.errorSentencesByLevel == t.errorSentencesByLevel
    && t'.isErrorSentence == t.isErrorSentence && t'.active == t.active
  }

  lemma {:induction false} ZerosGet0(keys: seq<string>, k: string)
    ensures Get0(Zeros(keys), k) == 0.0
  {
    if keys != [] {
      ZerosGet0(keys[1..], k);
      assert Zeros(keys)[1..] == Zeros(keys[1..]);
    }
  }

  lemma InitConserved()
    ensures Conserved(Init())
  {
    ZerosGet0(PunctKeys, "R:PUNCT");
    ZerosGet0(PunctKeys, "U:PUNCT");
    ZerosGet0(PunctKeys, "M:PUNCT");
  }

  // ---------------------------------------------------------------- R:PUNCT

  /** The wrong character is anchored: it has a positive total and a
      positive count at its position, so mapping it keeps `CountedKeys`. */
  ghost predicate Anchored(t: Tally, c: string, atEnd: bool) {
    && Get0(t.replacement, c) > 0.0
    && (atEnd ==> Get0(t.endReplacement, c) > 0.0)
    && (!atEnd ==> Get0(t.middleReplacement, c) > 0.0)
  }

  /** Counts that do not decrease keep every mapping key counted. */
  lemma {:induction false} CountedKeysGrow(mapping: Dict<string, Dict<string, real>>, counts: Dict<string, real>,
                                           counts': Dict<string, real>)
    requires CountedKeys(mapping, counts)
    requires forall k :: Get0(counts', k) >= Get0(counts, k)
    ensures CountedKeys(mapping, counts')
  {
  }

  /** Adding 1 to a positive counter keeps it positive, does not lower any
      count, and makes the count of `c` positive. */
  lemma {:induction false} AddOne(d: Dict<string, real>, c: string)
    requires Positive(d)
    ensures Positive(Add(d, c, 1.0)) && Get0(Add(d, c, 1.0), c) > 0.0
    ensures forall k :: Get0(Add(d, c, 1.0), k) == Get0(d, k) + (if k == c then 1.0 else 0.0)
  {
    PositiveAdd(d, c, 1.0);
    PositiveGet(d, c);
    forall k
      ensures Get0(Add(d, c, 1.0), k) == Get0(d, k) + (if k == c then 1.0 else 0.0)
    {
      AddGet0(d, c, 1.0, k);
    }
  }

  /** Counting the wrong character adds 1 to its total and to its position,
      and keeps the invariants. */
  lemma {:induction false} RecordReplacementKeeps(t: Tally, c: string, atEnd: bool)
    requires Shape(t)
    ensures var t' := RecordReplacement(t, c, atEnd);
      && Shape(t') && SameBook(t, t') && Anchored(t', c, atEnd)
      && Sum(t'.replacement) == Sum(t.replacement) + 1.0
      && t'.unnecessary == t.unnecessary && t'.missing == t.missing
  {
    var t' := RecordReplacement(t, c, atEnd);
    SumAdd(t.replacement, c, 1.0);
    AddOne(t.replacement, c);
    CountedKeysGrow(t.replacementMapping, t.replacement, t'.replacement);
    if atEnd {
      AddOne(t.endReplacement, c);
      CountedKeysGrow(t.endMapping, t.endReplacement, t'.endReplacement);
    } else {
      AddOne(t.middleReplacement, c);
      CountedKeysGrow(t.middleMapping, t.middleReplacement, t'.middleReplacement);
    }
    assert MiddlePlusEnd(t');
  }

  /** One correction alternative keeps the invariants and changes only the
      three mappings. */
  lemma {:induction false} MapOptionKeeps(t: Tally, c: string, atEnd: bool, option: string, w: real)
    requires Shape(t) && Anchored(t, c, atEnd) && w > 0.0
    requires MapOption(t, c, atEnd, option, w).Ok?
    ensures var t' := MapOption(t, c, atEnd, option, w).value;
      && Shape(t') && Anchored(t', c, atEnd)
      && t' == t.(replacementMapping := t'.replacementMapping, middleMapping := t'.middleMapping,
                  endMapping := t'.endMapping)
  {
    var k := option[..1];
    Positive2Add2(t.replacementMapping, c, k, w);
    if atEnd {
      Positive2Add2(t.endMapping, c, k, w);
    } else {
      Positive2Add2(t.middleMapping, c, k, w);
    }
  }

  /** The loop over the correction alternatives keeps the invariants and
      changes only the three mappings. */
  lemma {:induction false} MapOptionsKeeps(t: Tally, c: string, atEnd: bool, options: seq<string>, w: real)
    requires Shape(t) && Anchored(t, c, atEnd) && w > 0.0
    ensures var r := MapOptions(t, c, atEnd, options, w);
      r.Ok? ==>
        && Shape(r.value) && Anchored(r.value, c, atEnd)
        && r.value == t.(replacementMapping := r.value.replacementMapping,
                         middleMapping := r.value.middleMapping, endMapping := r.value.endMapping)
  {
    if options != [] {
      var prefix := options[..|options| - 1];
      MapOptionsKeeps(t, c, atEnd, prefix, w);
      var r := MapOptions(t, c, atEnd, prefix, w);
      if r.Ok? {
        assert MapOptions(t, c, atEnd, options, w) == MapOption(r.value, c, atEnd, options[|options| - 1], w);
        if MapOption(r.value, c, atEnd, options[|options| - 1], w).Ok? {
          MapOptionKeeps(r.value, c, atEnd, options[|options| - 1], w);
        }
      }
    }
  }

  /** An `R:PUNCT` edit adds 1 to the replacement total and keeps the
      invariants. */
  lemma {:induction false} ReplacementKeeps(t: Tally, parameters: seq<string>, correction: seq<string>)
    requires Shape(t) && |correction| >= 1
    requires ReplacementStep(t, parameters, correction).Ok?
    ensures var t' := ReplacementStep(t, parameters, correction).value;
      && Shape(t') && SameBook(t, t')
      && Sum(t'.replacement) == Sum(t.replacement) + 1.0
      && t'.unnecessary == t.unnecessary && t'.missing == t.missing
  {
    var ctx := ReplacementContext(t, parameters).value;
    var t1 := RecordReplacement(t, ctx.0, ctx.1);
    RecordReplacementKeeps(t, ctx.0, ctx.1);
    MapOptionsKeeps(t1, ctx.0, ctx.1, correction, Weight(|correction|));
  }

  // ---------------------------------------------------------------- M:PUNCT

  /** The loop over the missing marks changes only the missing counts and
      the combinations, keeps the missing counts positive, and leaves a
      missing count behind when there is a mark. */
  lemma {:induction false} CountMarksKeeps(t: Tally, next: Option<string>, marks: seq<string>, w: real)
    requires Positive(t.missing) && w > 0.0
    ensures var t' := CountMarks(t, next, marks, w);
      && Positive(t'.missing) && (marks != [] ==> t'.missing != [])
      && t' == t.(missing := t'.missing, combinationsMissing := t'.combinationsMissing)
  {
    if marks != [] {
      var t1 := CountMarks(t, next, marks[..|marks| - 1], w);
      CountMarksKeeps(t, next, marks[..|marks| - 1], w);
      var m := marks[|marks| - 1];
      PositiveAdd(t1.missing, m, w);
      assert m in Keys(Add(t1.missing, m, w));
    }
  }

  /** An `M:PUNCT` edit keeps the invariants and leaves a missing count. */
  lemma {:induction false} MissingKeeps(t: Tally, parameters: seq<string>, correction: seq<string>)
    requires Shape(t) && |correction| >= 1
    requires MissingStep(t, parameters, correction).Ok?
    ensures var t' := MissingStep(t, parameters, correction).value;
      && Shape(t') && SameBook(t, t') && t'.missing != []
      && t'.replacement == t.replacement && t'.unnecessary == t.unnecessary
  {
    var next := MissingContext(t, parameters).value;
    var cm := if next.Some? then Touch(t.combinationsMissing, next.value) else t.combinationsMissing;
    CountMarksKeeps(t.(combinationsMissing := cm), next, correction, Weight(|correction|));
  }

  // ---------------------------------------------------------------- U:PUNCT

  /** The words a `U:PUNCT` edit reads are tokens of the active sentence. */
  lemma {:induction false} UnnecessaryContextTokens(t: Tally, parameters: seq<string>)
    requires Tokens(t.active) && UnnecessaryContext(t, parameters).Ok?
    ensures var ctx := UnnecessaryContext(t, parameters).value;
      IsToken(ctx.0) && IsToken(ctx.1) && (ctx.2.Some? ==> IsToken(ctx.2.value))
  {
    var i := EditIndex(parameters).value;
    var n := |t.active|;
    assert forall k :: PyIndex(t.active, k).Ok? ==> IsToken(PyIndex(t.active, k).value) by {
      forall k | PyIndex(t.active, k).Ok?
        ensures IsToken(PyIndex(t.active, k).value)
      {
        if k < 0 {
          assert PyIndex(t.active, k).value == t.active[n + k];
        }
      }
    }
  }

  /** Adding 1 under a key that splits into `n` parts keeps `SplitsInto`. */
  lemma {:induction false} SplitsIntoAdd(d: Dict<string, real>, n: nat, key: string)
    requires SplitsInto(d, n) && |Split(key, " + ")| == n
    ensures SplitsInto(Add(d, key, 1.0), n)
  {
  }

  /** Counting the extra character adds 1 to the unnecessary total and keeps
      the invariants. */
  lemma {:induction false} RecordUnnecessaryKeeps(t: Tally, c: string, preceding: string, next: Option<string>)
    requires Shape(t) && IsToken(c) && IsToken(preceding) && (next.Some? ==> IsToken(next.value))
    ensures var t' := RecordUnnecessary(t, c, preceding, next);
      && Shape(t') && SameBook(t, t')
      && Sum(t'.unnecessary) == Sum(t.unnecessary) + 1.0
      && t'.replacement == t.replacement && t'.missing == t.missing
  {
    SumAdd(t.unnecessary, c, 1.0);
    PositiveAdd(t.unnecessary, c, 1.0);
    if Truthy(next) {
      SplitJoinedPair(c, next.value);
      SplitsIntoAdd(t.unnecessaryNext, 2, Join2(c, next.value));
      SplitJoinedTriple(preceding, c, next.value);
      SplitsIntoAdd(t.precedingUnnecessaryNext, 3, Join3(preceding, c, next.value));
    }
  }

  /** A `U:PUNCT` edit adds 1 to the unnecessary total and keeps the
      invariants. */
  lemma {:induction false} UnnecessaryKeeps(t: Tally, parameters: seq<string>)
    requires Shape(t) && UnnecessaryStep(t, parameters).Ok?
    ensures var t' := UnnecessaryStep(t, parameters).value;
      && Shape(t') && SameBook(t, t')
      && Sum(t'.unnecessary) == Sum(t.unnecessary) + 1.0
      && t'.replacement == t.replacement && t'.missing == t.missing
  {
    var ctx := UnnecessaryContext(t, parameters).value;
    UnnecessaryContextTokens(t, parameters);
    RecordUnnecessaryKeeps(t, ctx.0, ctx.1, ctx.2);
  }

  // ---------------------------------------------------------------- edits

  /** The typed counts of an edit keep the invariants: an `R:PUNCT` edit
      adds 1 to the replacement total, a `U:PUNCT` edit 1 to the unnecessary
      total, an `M:PUNCT` edit leaves a missing count, and nothing else
      changes these. */
  lemma {:induction false} TypedKeeps(t: Tally, errorType: string, parameters: seq<string>, correction: seq<string>)
    requires Shape(t) && |correction| >= 1
    requires TypedStep(t, errorType, parameters, correction).Ok?
    ensures var t' := TypedStep(t, errorType, parameters, correction).value;
      && Shape(t') && SameBook(t, t')
      && Sum(t'.replacement) == Sum(t.replacement) + (if errorType == "R:PUNCT" then 1.0 else 0.0)
      && Sum(t'.unnecessary) == Sum(t.unnecessary) + (if errorType == "U:PUNCT" then 1.0 else 0.0)
      && (if errorType == "M:PUNCT" then t'.missing != [] else t'.missing == t.missing)
  {
    if errorType == "R:PUNCT" {
      ReplacementKeeps(t, parameters, correction);
    } else if errorType == "M:PUNCT" {
      MissingKeeps(t, parameters, correction);
    } else if errorType == "U:PUNCT" {
      UnnecessaryKeeps(t, parameters);
    }
  }

  /** The error counters: 1 more edit of the given type, and nothing else. */
  lemma {:induction false} CountErrorEffect(t: Tally, level: string, errorType: string)
    requires CountError(t, level, errorType).Ok?
    ensures var t' := CountError(t, level, errorType).value;
      && Keys(t'.punctErrorCounts) == Keys(t.punctErrorCounts)
      && Sum(t'.punctErrorCounts) == Sum(t.punctErrorCounts) + 1.0
      && (forall k :: Get0(t'.punctErrorCounts, k) == Get0(t.punctErrorCounts, k) + (if k == errorType then 1.0 else 0.0))
      && t' == t.(punctErrorCounts := t'.punctErrorCounts, punctErrorsByLevel := t'.punctErrorsByLevel)
  {
    SumAdd(t.punctErrorCounts, errorType, 1.0);
    forall k
      ensures Get0(Add(t.punctErrorCounts, errorType, 1.0), k)
        == Get0(t.punctErrorCounts, k) + (if k == errorType then 1.0 else 0.0)
    {
      AddGet0(t.punctErrorCounts, errorType, 1.0, k);
    }
  }

  /** The counters the corpus-level properties speak of. */
  datatype Summary = Summary(sentences: nat, errorSentences: nat, inErrorSentence: bool, edits: real)

  function Summarize(t: Tally): Summary {
    Summary(t.sentenceCount, t.errorSentenceCount, t.isErrorSentence, Sum(t.punctErrorCounts))
  }

  /** A counted edit: 1 more edit, and 1 more error sentence unless the
      sentence already has one. */
  function EditSummary(a: Summary): Summary {
    a.(errorSentences := if a.inErrorSentence then a.errorSentences else a.errorSentences + 1,
       inErrorSentence := true, edits := a.edits + 1.0)
  }

  /** Before its typed counts, a counted edit marks the sentence and adds 1
      to the error counter of its type. */
  lemma {:induction false} EditCounters(t: Tally, level: string, errorType: string)
    requires MarkErrorSentence(t, level).Ok?
    requires CountError(MarkErrorSentence(t, level).value, level, errorType).Ok?
    ensures var t2 := CountError(MarkErrorSentence(t, level).value, level, errorType).value;
      && Summarize(t2) == EditSummary(Summarize(t))
      && (forall k :: Get0(t2.punctErrorCounts, k) == Get0(t.punctErrorCounts, k) + (if k == errorType then 1.0 else 0.0))
  {
    var t1 := MarkErrorSentence(t, level).value;
    MarkEffect(t, level);
    CountErrorEffect(t1, level, errorType);
    var t2 := CountError(t1, level, errorType).value;
    assert Summarize(t1) == Summarize(t).(errorSentences := t1.errorSentenceCount, inErrorSentence := true);
    assert Summarize(t2) == Summarize(t1).(edits := Summarize(t1).edits + 1.0);
  }

  /** ... and leaves everything the shape invariants read as it was. */
  lemma {:induction false} EditCountersShape(t: Tally, level: string, errorType: string)
    requires MarkErrorSentence(t, level).Ok?
    requires CountError(MarkErrorSentence(t, level).value, level, errorType).Ok?
    ensures ShapeFields(t, CountError(MarkErrorSentence(t, level).value, level, errorType).value)
  {
    var t1 := MarkErrorSentence(t, level).value;
    MarkEffect(t, level);
    CountErrorEffect(t1, level, errorType);
  }

  /** Marking the sentence: one more error sentence unless it already was
      one, and nothing else but the per-level count. */
  lemma {:induction false} MarkEffect(t: Tally, level: string)
    requires MarkErrorSentence(t, level).Ok?
    ensures var t1 := MarkErrorSentence(t, level).value;
      t1 == t.(errorSentenceCount := if t.isErrorSentence then t.errorSentenceCount else t.errorSentenceCount + 1,
               isErrorSentence := true, errorSentencesByLevel := t1.errorSentencesByLevel)
  {
  }

  /** `t'` agrees with `t` on everything `Shape` reads. */
  ghost predicate ShapeFields(t: Tally, t': Tally) {
    && Keys(t'.punctErrorCounts) == Keys(t.punctErrorCounts)
    && t'.missing == t.missing && t'.unnecessary == t.unnecessary
    && t'.replacement == t.replacement && t'.middleReplacement == t.middleReplacement
    && t'.endReplacement == t.endReplacement
    && t'.replacementMapping == t.replacementMapping && t'.middleMapping == t.middleMapping
    && t'.endMapping == t.endMapping && t'.active == t.active
    && t'.unnecessaryNext == t.unnecessaryNext && t'.precedingUnnecessaryNext == t.precedingUnnecessaryNext
  }

  lemma ShapeKept(t: Tally, t': Tally)
    requires Shape(t) && ShapeFields(t, t')
    ensures Shape(t')
  {
  }

  /** The typed counts of an edit restore `Counted` after its error counter
      moved. */
  lemma {:induction false} CountedAgain(t: Tally, t2: Tally, t': Tally, errorType: string)
    requires Counted(t)
    requires t2.replacement == t.replacement && t2.unnecessary == t.unnecessary && t2.missing == t.missing
    requires forall k :: Get0(t2.punctErrorCounts, k) == Get0(t.punctErrorCounts, k) + (if k == errorType then 1.0 else 0.0)
    requires Get0(t.punctErrorCounts, "M:PUNCT") >= 0.0
    requires t'.punctErrorCounts == t2.punctErrorCounts
    requires Sum(t'.replacement) == Sum(t2.replacement) + (if errorType == "R:PUNCT" then 1.0 else 0.0)
    requires Sum(t'.unnecessary) == Sum(t2.unnecessary) + (if errorType == "U:PUNCT" then 1.0 else 0.0)
    requires if errorType == "M:PUNCT" then t'.missing != [] else t'.missing == t2.missing
    ensures Counted(t')
  {
    assert Get0(t'.punctErrorCounts, "R:PUNCT") == Get0(t.punctErrorCounts, "R:PUNCT") + (if errorType == "R:PUNCT" then 1.0 else 0.0);
    assert Get0(t'.punctErrorCounts, "U:PUNCT") == Get0(t.punctErrorCounts, "U:PUNCT") + (if errorType == "U:PUNCT" then 1.0 else 0.0);
    assert Get0(t'.punctErrorCounts, "M:PUNCT") == Get0(t.punctErrorCounts, "M:PUNCT") + (if errorType == "M:PUNCT" then 1.0 else 0.0);
  }

  /** A counted edit keeps the invariants and counts as one edit, and as
      one error sentence when the sentence had none. */
  lemma {:induction false} EditKeeps(t: Tally, level: string, parts: seq<string>, parameters: seq<string>, errorType: string)
    requires Conserved(t)
    requires EditStep(t, level, parts, parameters, errorType).Ok?
    ensures var t' := EditStep(t, level, parts, parameters, errorType).value;
      Conserved(t') && Summarize(t') == EditSummary(Summarize(t))
  {
    var t2 := CountError(MarkErrorSentence(t, level).value, level, errorType).value;
    var correction := Split(PyIndex(parts, 2).value, "||");
    assert EditStep(t, level, parts, parameters, errorType) == TypedStep(t2, errorType, parameters, correction);
    EditCounters(t, level, errorType);
    EditCountersShape(t, level, errorType);
    ShapeKept(t, t2);
    TypedKeeps(t2, errorType, parameters, correction);
    var t' := TypedStep(t2, errorType, parameters, correction).value;
    CountedAgain(t, t2, t', errorType);
  }

  // ---------------------------------------------------------------- lines

  /** The tokens of the first field of a non-blank line. */
  function LineParameters(line: string): seq<string> {
    SplitWhitespace(Fields(line)[0])
  }

  /** An `S` line. */
  predicate IsSentenceLine(raw: string) {
    var line := Strip(raw);
    line != [] && LineParameters(line) != [] && LineParameters(line)[0] == "S"
  }

  /** The fields of an `A` line that is counted: annotator `"0"` and a
      punctuation type. */
  predicate CountedFields(parts: seq<string>) {
    |parts| >= 2 && parts[|parts| - 1] == "0" && parts[1] in PunctKeys
  }

  /** An `A` line that is counted. */
  predicate IsCountedEdit(raw: string) {
    var line := Strip(raw);
    && line != [] && LineParameters(line) != [] && LineParameters(line)[0] == "A"
    && CountedFields(Fields(line))
  }

  /** What one line does to the summary: an `S` line is one more sentence,
      without an error so far; a counted edit is one more edit; any other
      line changes nothing. */
  function SummaryStep(a: Summary, raw: string): Summary {
    if IsSentenceLine(raw) then a.(sentences := a.sentences + 1, inErrorSentence := false)
    else if IsCountedEdit(raw) then EditSummary(a)
    else a
  }

  /** An `S` line keeps the invariants: its tokens become the active
      sentence. */
  lemma {:induction false} SentenceKeeps(t: Tally, level: string, parameters: seq<string>)
    requires Conserved(t) && Tokens(parameters) && SentenceStep(t, level, parameters).Ok?
    ensures var t' := SentenceStep(t, level, parameters).value;
      Conserved(t') && Summarize(t') == Summarize(t).(sentences := t.sentenceCount + 1, inErrorSentence := false)
  {
  }

  /** An `A` line keeps the invariants; it counts as an edit when its fields
      say so, and changes nothing otherwise. */
  lemma {:induction false} AnnotationKeeps(t: Tally, level: string, parts: seq<string>, parameters: seq<string>)
    requires Conserved(t) && |parts| >= 1 && AnnotationStep(t, level, parts, parameters).Ok?
    ensures var t' := AnnotationStep(t, level, parts, parameters).value;
      && Conserved(t')
      && Summarize(t') == (if CountedFields(parts) then EditSummary(Summarize(t)) else Summarize(t))
      && (!CountedFields(parts) ==> t' == t)
  {
    if parts[|parts| - 1] == "0" {
      var errorType := PyIndex(parts, 1).value;
      if errorType in Keys(t.punctErrorCounts) {
        EditKeeps(t, level, parts, parameters, errorType);
      }
    }
  }

  /** The ensures of `LineKeeps`, for one line. */
  ghost predicate LineKept(t: Tally, raw: string, t': Tally) {
    && Conserved(t') && Summarize(t') == SummaryStep(Summarize(t), raw)
    && (!IsSentenceLine(raw) && !IsCountedEdit(raw) ==> t' == t)
  }

  lemma {:induction false} SentenceLineKeeps(t: Tally, level: string, raw: string)
    requires Conserved(t) && LineStep(t, level, raw).Ok? && IsSentenceLine(raw)
    ensures LineKept(t, raw, LineStep(t, level, raw).value)
  {
    var parameters := LineParameters(Strip(raw));
    assert LineStep(t, level, raw) == SentenceStep(t, level, parameters);
    SentenceKeeps(t, level, parameters);
  }

  lemma {:induction false} AnnotationLineKeeps(t: Tally, level: string, raw: string)
    requires Conserved(t) && LineStep(t, level, raw).Ok?
    requires var line := Strip(raw); line != [] && LineParameters(line) != [] && LineParameters(line)[0] == "A"
    ensures LineKept(t, raw, LineStep(t, level, raw).value)
  {
    var line := Strip(raw);
    var parts := Fields(line);
    var parameters := LineParameters(line);
    assert !IsSentenceLine(raw);
    assert IsCountedEdit(raw) == CountedFields(parts);
    assert LineStep(t, level, raw) == AnnotationStep(t, level, parts, parameters);
    AnnotationKeeps(t, level, parts, parameters);
  }

  /** One line keeps the invariants and moves the summary as `SummaryStep`
      says; a line that is neither an `S` line nor a counted edit changes
      nothing at all. */
  lemma {:induction false} LineKeeps(t: Tally, level: string, raw: string)
    requires Conserved(t) && LineStep(t, level, raw).Ok?
    ensures var t' := LineStep(t, level, raw).value;
      && Conserved(t') && Summarize(t') == SummaryStep(Summarize(t), raw)
      && (!IsSentenceLine(raw) && !IsCountedEdit(raw) ==> t' == t)
  {
    var line := Strip(raw);
    if IsSentenceLine(raw) {
      SentenceLineKeeps(t, level, raw);
    } else if line != [] && LineParameters(line)[0] == "A" {
      AnnotationLineKeeps(t, level, raw);
    } else {
      assert LineStep(t, level, raw) == Ok(t);
      assert !IsCountedEdit(raw);
    }
  }

  // ---------------------------------------------------------------- files and corpus

  /** What one file does to the summary: its lines, in order. */
  function FileSummary(a: Summary, file: (string, seq<string>)): Summary {
    FoldLeft(SummaryStep, a, file.1)
  }

  /** The lines of all files, one file after the other. */
  function AllLines(files: seq<(string, seq<string>)>): seq<string> {
    if files == [] then [] else AllLines(files[..|files| - 1]) + files[|files| - 1].1
  }

  /** One file keeps the invariants and moves the summary line by line. */
  lemma {:induction false} FileKeeps(t: Tally, file: (string, seq<string>))
    requires Conserved(t) && FileStep(t, file).Ok?
    ensures Conserved(FileStep(t, file).value)
    ensures Summarize(FileStep(t, file).value) == FileSummary(Summarize(t), file)
  {
    var start := t.(active := []);
    forall s: Tally, raw: string | Conserved(s) && LineStepper(file.0)(s, raw).Ok?
      ensures Conserved(LineStepper(file.0)(s, raw).value)
      ensures Summarize(LineStepper(file.0)(s, raw).value) == SummaryStep(Summarize(s), raw)
    {
      LineKeeps(s, file.0, raw);
    }
    FoldSimulates(LineStepper(file.0), s => Conserved(s), Summarize, SummaryStep, start, file.1);
  }

  /** The corpus keeps the invariants, and its summary is that of all its
      lines in order. */
  lemma {:induction false} FilesKeep(t: Tally, files: seq<(string, seq<string>)>)
    requires Conserved(t) && Files(t, files).Ok?
    ensures Conserved(Files(t, files).value)
    ensures Summarize(Files(t, files).value) == FoldLeft(SummaryStep, Summarize(t), AllLines(files))
  {
    forall s: Tally, file: (string, seq<string>) | Conserved(s) && FileStep(s, file).Ok?
      ensures Conserved(FileStep(s, file).value)
      ensures Summarize(FileStep(s, file).value) == FileSummary(Summarize(s), file)
    {
      FileKeeps(s, file);
    }
    FoldSimulates(FileStep, s => Conserved(s), Summarize, FileSummary, t, files);
    FileSummaryLines(Summarize(t), files);
  }

  /** Summarizing file by file is summarizing all lines in order. */
  lemma {:induction false} FileSummaryLines(a: Summary, files: seq<(string, seq<string>)>)
    ensures FoldLeft(FileSummary, a, files) == FoldLeft(SummaryStep, a, AllLines(files))
  {
    if files != [] {
      var prefix := files[..|files| - 1];
      FileSummaryLines(a, prefix);
      FoldLeftConcat(SummaryStep, a, AllLines(prefix), files[|files| - 1].1);
    }
  }
}
