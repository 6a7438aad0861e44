/** The counting loop of `generate_statistics` in scripts/analyzer.py, as
    functions: what one M2 line, one annotated file and the whole corpus do
    to the counters. An `S` line carries the tokens of a sentence (the tag
    `S` itself at index 0, so token `i` is at index `i + 1`); an `A` line
    carries one edit, `A <start> <end>|||<type>|||<correction>|||...|||<annotator>`.
    Only edits of annotator `0` whose type is a key of the error counter
    (`M:PUNCT`, `U:PUNCT`, `R:PUNCT`) are counted. A Python exception aborts
    the whole run and is the `Err` outcome here. */
module Tally {
  import opened Wrappers
  import opened PyStr
  import opened Dict
  import opened Fold

  /** The language levels: the names of the corpus directories. */
  const Levels: seq<string> := ["A2", "B1", "B2", "C1"]

  /** The error types that are counted. */
  const PunctKeys: seq<string> := ["M:PUNCT", "U:PUNCT", "R:PUNCT"]

  function Zeros(keys: seq<string>): (d: Dict<string, real>)
    ensures Keys(d) == keys
    ensures forall i :: 0 <= i < |d| ==> d[i].1 == 0.0
    ensures Sum(d) == 0.0
  {
    if keys == [] then []
    else
      var rest := Zeros(keys[1..]);
      assert ([(keys[0], 0.0)] + rest)[1..] == rest;
      [(keys[0], 0.0)] + rest
  }

  /** The local variables of `generate_statistics` that the loop changes. */
  datatype Tally = Tally(
    sentenceCount: nat,
    sentencesByLevel: Dict<string, real>,
    punctErrorCounts: Dict<string, real>,
    punctErrorsByLevel: Dict<string, real>,
    errorSentenceCount: nat,
    errorSentencesByLevel: Dict<string, real>,
    isErrorSentence: bool,
    active: seq<string>,
    missing: Dict<string, real>,
    replacement: Dict<string, real>,
    middleReplacement: Dict<string, real>,
    endReplacement: Dict<string, real>,
    unnecessary: Dict<string, real>,
    replacementMapping: Dict<string, Dict<string, real>>,
    middleMapping: Dict<string, Dict<string, real>>,
    endMapping: Dict<string, Dict<string, real>>,
    unnecessaryNext: Dict<string, real>,
    precedingUnnecessaryNext: Dict<string, real>,
    combinationsMissing: Dict<string, Dict<string, real>>)

  /** The counters before the first file. */
  function Init(): (t: Tally)
    ensures Keys(t.punctErrorCounts) == PunctKeys && Sum(t.punctErrorCounts) == 0.0
    ensures t.sentenceCount == 0 && t.errorSentenceCount == 0 && !t.isErrorSentence
  {
    var z := Zeros(PunctKeys);
    Tally(0, Zeros(Levels), z, Zeros(Levels), 0, Zeros(Levels), false, [],
          [], [], [], [], [], [], [], [], [], [], [])
  }

  /** `d[k] += 1` on a dict whose keys were fixed in advance: KeyError for
      any other key. */
  function Bump(d: Dict<string, real>, k: string): (r: Result<Dict<string, real>>)
    ensures r.Ok? <==> k in Keys(d)
  {
    if k in Keys(d) then Ok(Add(d, k, 1.0)) else Err(KeyError)
  }

  /** The weight of one correction alternative: 1 when it is the only one,
      0.5 when there are several, whatever their number. */
  function Weight(alternatives: nat): real {
    if alternatives == 1 then 1.0 else if alternatives > 1 then 0.5 else 0.0
  }

  /** Python truthiness of an optional word. */
  predicate Truthy(w: Option<string>) {
    w.Some? && w.value != []
  }

  /** `nextWord = activeSentence[i + k]` taken only when `i < len(activeSentence) - 2`. */
  function ContextWord(active: seq<string>, i: int, k: int): Result<Option<string>> {
    if i < |active| - 2 then
      var w :- PyIndex(active, i + k);
      Ok(Some(w))
    else Ok(None)
  }

  /** The start index of an edit: `int(parameters[1])`. */
  function EditIndex(parameters: seq<string>): Result<int> {
    var field :- PyIndex(parameters, 1);
    ParseInt(field)
  }

  // ---------------------------------------------------------------- S lines

  /** An `S` line: a new active sentence. */
  function SentenceStep(t: Tally, level: string, parameters: seq<string>): Result<Tally> {
    var byLevel :- Bump(t.sentencesByLevel, level);
    Ok(t.(isErrorSentence := false, sentenceCount := t.sentenceCount + 1,
          sentencesByLevel := byLevel, active := parameters))
  }

  // ---------------------------------------------------------------- R:PUNCT

  /** The mapping update of one correction alternative, keyed by its first
      character; IndexError for an empty alternative. */
  function MapOption(t: Tally, c: string, atEnd: bool, option: string, w: real): Result<Tally> {
    if option == [] then Err(IndexError)
    else
      var k := option[..1];
      Ok(t.(replacementMapping := Add2(t.replacementMapping, c, k, w),
            middleMapping := if atEnd then t.middleMapping else Add2(t.middleMapping, c, k, w),
            endMapping := if atEnd then Add2(t.endMapping, c, k, w) else t.endMapping))
  }

  /** The body of the loop over the correction alternatives. */
  function OptionMapper(c: string, atEnd: bool, w: real): (Tally, string) -> Result<Tally> {
    (t, option) => MapOption(t, c, atEnd, option, w)
  }

  /** The loop over the correction alternatives of a replacement. */
  function MapOptions(t: Tally, c: string, atEnd: bool, options: seq<string>, w: real): Result<Tally> {
    FoldResult(OptionMapper(c, atEnd, w), t, options)
  }

  /** What an `R:PUNCT` edit reads: the wrong character is token `i`, and
      the position is the end exactly when token `i` is the last token. */
  function ReplacementContext(t: Tally, parameters: seq<string>): Result<(string, bool)> {
    var i :- EditIndex(parameters);
    var c :- PyIndex(t.active, i + 1);
    Ok((c, i == |t.active| - 2))
  }

  /** The counts of the wrong character. */
  function RecordReplacement(t: Tally, c: string, atEnd: bool): Tally {
    t.(replacement := Add(t.replacement, c, 1.0),
       middleReplacement := if atEnd then t.middleReplacement else Add(t.middleReplacement, c, 1.0),
       endReplacement := if atEnd then Add(t.endReplacement, c, 1.0) else t.endReplacement)
  }

  /** An `R:PUNCT` edit. */
  function ReplacementStep(t: Tally, parameters: seq<string>, correction: seq<string>): Result<Tally> {
    var ctx :- ReplacementContext(t, parameters);
    MapOptions(RecordReplacement(t, ctx.0, ctx.1), ctx.0, ctx.1, correction, Weight(|correction|))
  }

  // ---------------------------------------------------------------- M:PUNCT

  /** The loop over the missing marks of one edit: each mark is counted with
      the alternatives' weight, and with 1 next to the following word. */
  function CountMarks(t: Tally, next: Option<string>, marks: seq<string>, w: real): Tally {
    if marks == [] then t
    else
      var t1 := CountMarks(t, next, marks[..|marks| - 1], w);
      var m := marks[|marks| - 1];
      t1.(missing := Add(t1.missing, m, w),
          combinationsMissing := if Truthy(next) then Add2(t1.combinationsMissing, next.value, m, 1.0)
                                 else t1.combinationsMissing)
  }

  /** What an `M:PUNCT` edit reads: the word after the gap is token `i`,
      unless `i` is the last token. */
  function MissingContext(t: Tally, parameters: seq<string>): Result<Option<string>> {
    var i :- EditIndex(parameters);
    ContextWord(t.active, i, 1)
  }

  /** The counts of the missing marks. */
  function RecordMissing(t: Tally, next: Option<string>, correction: seq<string>): Tally {
    var cm := if next.Some? then Touch(t.combinationsMissing, next.value) else t.combinationsMissing;
    CountMarks(t.(combinationsMissing := cm), next, correction, Weight(|correction|))
  }

  /** An `M:PUNCT` edit. */
  function MissingStep(t: Tally, parameters: seq<string>, correction: seq<string>): Result<Tally> {
    var next :- MissingContext(t, parameters);
    Ok(RecordMissing(t, next, correction))
  }

  // ---------------------------------------------------------------- U:PUNCT

  /** The key `f"{a} + {b}"`. */
  function Join2(a: string, b: string): string {
    a + " + " + b
  }

  /** The key `f"{a} + {b} + {c}"`. */
  function Join3(a: string, b: string, c: string): string {
    a + " + " + b + " + " + c
  }

  /** What a `U:PUNCT` edit reads: the extra character is token `i`, the
      word before it is `activeSentence[i]` and the word after it is token
      `i + 1`, unless `i` is the last token. */
  function UnnecessaryContext(t: Tally, parameters: seq<string>): Result<(string, string, Option<string>)> {
    var i :- EditIndex(parameters);
    var c :- PyIndex(t.active, i + 1);
    var preceding :- PyIndex(t.active, i);
    var next :- ContextWord(t.active, i, 2);
    Ok((c, preceding, next))
  }

  /** The counts of the extra character and of its combinations. */
  function RecordUnnecessary(t: Tally, c: string, preceding: string, next: Option<string>): Tally {
    t.(unnecessary := Add(t.unnecessary, c, 1.0),
       unnecessaryNext := if Truthy(next) then Add(t.unnecessaryNext, Join2(c, next.value), 1.0)
                          else t.unnecessaryNext,
       precedingUnnecessaryNext := if Truthy(next) then Add(t.precedingUnnecessaryNext, Join3(preceding, c, next.value), 1.0)
                                   else t.precedingUnnecessaryNext)
  }

  /** A `U:PUNCT` edit. */
  function UnnecessaryStep(t: Tally, parameters: seq<string>): Result<Tally> {
    var ctx :- UnnecessaryContext(t, parameters);
    Ok(RecordUnnecessary(t, ctx.0, ctx.1, ctx.2))
  }

  // ---------------------------------------------------------------- A lines

  /** The first counted edit of a sentence marks it as an error sentence. */
  function MarkErrorSentence(t: Tally, level: string): Result<Tally> {
    if t.isErrorSentence then Ok(t)
    else
      var byLevel :- Bump(t.errorSentencesByLevel, level);
      Ok(t.(errorSentenceCount := t.errorSentenceCount + 1, errorSentencesByLevel := byLevel,
            isErrorSentence := true))
  }

  /** The error counters, overall and by level. */
  function CountError(t: Tally, level: string, errorType: string): Result<Tally> {
    var counts :- Bump(t.punctErrorCounts, errorType);
    var byLevel :- Bump(t.punctErrorsByLevel, level);
    Ok(t.(punctErrorCounts := counts, punctErrorsByLevel := byLevel))
  }

  /** The counts specific to the type of an edit. */
  function TypedStep(t: Tally, errorType: string, parameters: seq<string>, correction: seq<string>): Result<Tally> {
    if errorType == "R:PUNCT" then ReplacementStep(t, parameters, correction)
    else if errorType == "M:PUNCT" then MissingStep(t, parameters, correction)
    else if errorType == "U:PUNCT" then UnnecessaryStep(t, parameters)
    else Ok(t)
  }

  /** A counted edit: the correction alternatives are the third field split
      at `||`. */
  function EditStep(t: Tally, level: string, parts: seq<string>, parameters: seq<string>, errorType: string): Result<Tally> {
    var t1 :- MarkErrorSentence(t, level);
    var field :- PyIndex(parts, 2);
    var t2 :- CountError(t1, level, errorType);
    TypedStep(t2, errorType, parameters, Split(field, "||"))
  }

  /** An `A` line: counted when its last field is `"0"` and its type is a
      key of the error counter. */
  function AnnotationStep(t: Tally, level: string, parts: seq<string>, parameters: seq<string>): Result<Tally> {
    var last :- PyIndex(parts, -1);
    if last != "0" then Ok(t)
    else
      var errorType :- PyIndex(parts, 1);
      if errorType in Keys(t.punctErrorCounts) then EditStep(t, level, parts, parameters, errorType)
      else Ok(t)
  }

  /** The fields of a stripped non-empty line. */
  function Fields(line: string): (parts: seq<string>)
    ensures |parts| >= 1
  {
    Split(line, "|||")
  }

  /** One line of an annotated file. Blank lines are skipped; a line whose
      first field has no token raises IndexError. */
  function LineStep(t: Tally, level: string, raw: string): Result<Tally> {
    var line := Strip(raw);
    if line == [] then Ok(t)
    else
      var parts := Fields(line);
      var parameters := SplitWhitespace(parts[0]);
      if parameters == [] then Err(IndexError)
      else if parameters[0] == "S" then SentenceStep(t, level, parameters)
      else if parameters[0] == "A" then AnnotationStep(t, level, parts, parameters)
      else Ok(t)
  }

  /** The body of the loop over the lines of a file of the given level. */
  function LineStepper(level: string): (Tally, string) -> Result<Tally> {
    (t, raw) => LineStep(t, level, raw)
  }

  /** The lines of one file, in order. */
  function FileLines(t: Tally, level: string, lines: seq<string>): Result<Tally> {
    FoldResult(LineStepper(level), t, lines)
  }

  /** One file: the active sentence starts empty, the error-sentence flag
      carries over from the previous file. */
  function FileStep(t: Tally, file: (string, seq<string>)): Result<Tally> {
    FileLines(t.(active := []), file.0, file.1)
  }

  /** The files, in order; each is its level (the name of its directory)
      with its lines. */
  function Files(t: Tally, files: seq<(string, seq<string>)>): Result<Tally> {
    FoldResult(FileStep, t, files)
  }

  /** The counters after the whole corpus. */
  function Corpus(files: seq<(string, seq<string>)>): Result<Tally> {
    Files(Init(), files)
  }
}
