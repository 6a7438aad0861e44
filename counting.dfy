/** The counting loop of `generate_statistics` (scripts/analyzer.py:77-218)
    as the loops it is: over the files, over the lines of a file, and over
    the correction alternatives of an edit. Every method is proved to compute
    the corresponding function of module `Tally`; an exception of the source
    ends the run with the corresponding `Err`. */
module Counting {
  import opened Wrappers
  import opened PyStr
  import opened Dict
  import opened Fold
  import opened Tally

  // ---------------------------------------------------------------- edits

  /** The loop over the correction alternatives of a replacement. */
  method MapAlternatives(t0: Tally, c: string, atEnd: bool, correction: seq<string>, w: real) returns (r: Result<Tally>)
    ensures r == MapOptions(t0, c, atEnd, correction, w)
  {
    var t := t0;
    for k := 0 to |correction|
      invariant MapOptions(t0, c, atEnd, correction[..k], w) == Ok(t)
    {
      FoldNext(OptionMapper(c, atEnd, w), t0, correction, k);
      var option := correction[k];
      if option == [] {
        FoldFails(OptionMapper(c, atEnd, w), t0, correction, k + 1);
        return Err(IndexError);
      }
      var key := option[..1];
      t := t.(replacementMapping := Add2(t.replacementMapping, c, key, w));
      if atEnd {
        t := t.(endMapping := Add2(t.endMapping, c, key, w));
      } else {
        t := t.(middleMapping := Add2(t.middleMapping, c, key, w));
      }
    }
    assert correction[..|correction|] == correction;
    return Ok(t);
  }

  /** An `R:PUNCT` edit: the counts of the wrong character, then the loop
      over the correction alternatives. */
  method CountReplacement(t0: Tally, parameters: seq<string>, correction: seq<string>) returns (r: Result<Tally>)
    ensures r == ReplacementStep(t0, parameters, correction)
  {
    var ctx :- ReplacementContext(t0, parameters);
    var (c, atEnd) := ctx;
    var t := t0.(replacement := Add(t0.replacement, c, 1.0));
    if atEnd {
      t := t.(endReplacement := Add(t.endReplacement, c, 1.0));
    } else {
      t := t.(middleReplacement := Add(t.middleReplacement, c, 1.0));
    }
    r := MapAlternatives(t, c, atEnd, correction, Weight(|correction|));
  }

  /** The loop over the missing marks of one edit. */
  method CountMarksLoop(t0: Tally, next: Option<string>, marks: seq<string>, w: real) returns (t: Tally)
    ensures t == CountMarks(t0, next, marks, w)
  {
    t := t0;
    for k := 0 to |marks|
      invariant t == CountMarks(t0, next, marks[..k], w)
    {
      assert marks[..k + 1][..k] == marks[..k];
      var mark := marks[k];
      t := t.(missing := Add(t.missing, mark, w));
      if Truthy(next) {
        t := t.(combinationsMissing := Add2(t.combinationsMissing, next.value, mark, 1.0));
      }
    }
    assert marks[..|marks|] == marks;
  }

  /** An `M:PUNCT` edit: the following word, then the loop over the missing
      marks. */
  method CountMissing(t0: Tally, parameters: seq<string>, correction: seq<string>) returns (r: Result<Tally>)
    ensures r == MissingStep(t0, parameters, correction)
  {
    var next :- MissingContext(t0, parameters);
    var t := t0;
    if next.Some? {
      t := t.(combinationsMissing := Touch(t.combinationsMissing, next.value));
    }
    t := CountMarksLoop(t, next, correction, Weight(|correction|));
    return Ok(t);
  }

  /** A `U:PUNCT` edit: the extra character and its neighbouring words. */
  method CountUnnecessary(t0: Tally, parameters: seq<string>) returns (r: Result<Tally>)
    ensures r == UnnecessaryStep(t0, parameters)
  {
    var ctx :- UnnecessaryContext(t0, parameters);
    var (c, preceding, next) := ctx;
    var t := t0.(unnecessary := Add(t0.unnecessary, c, 1.0));
    if Truthy(next) {
      t := t.(unnecessaryNext := Add(t.unnecessaryNext, Join2(c, next.value), 1.0),
              precedingUnnecessaryNext := Add(t.precedingUnnecessaryNext, Join3(preceding, c, next.value), 1.0));
    }
    return Ok(t);
  }

  /** A counted edit: the error-sentence flag, the error counters, then the
      counts of its type. */
  method CountEdit(t0: Tally, level: string, parts: seq<string>, parameters: seq<string>, errorType: string)
    returns (r: Result<Tally>)
    ensures r == EditStep(t0, level, parts, parameters, errorType)
  {
    var t :- MarkErrorSentence(t0, level);
    var field :- PyIndex(parts, 2);
    var correction := Split(field, "||");
    t :- CountError(t, level, errorType);
    if errorType == "R:PUNCT" {
      r := CountReplacement(t, parameters, correction);
    } else if errorType == "M:PUNCT" {
      r := CountMissing(t, parameters, correction);
    } else if errorType == "U:PUNCT" {
      r := CountUnnecessary(t, parameters);
    } else {
      r := Ok(t);
    }
  }

  /** One line of an annotated file. */
  method CountLine(t: Tally, level: string, raw: string) returns (r: Result<Tally>)
    ensures r == LineStep(t, level, raw)
  {
    var line := Strip(raw);
    if line == [] {
      return Ok(t);
    }
    var parts := Fields(line);
    var parameters := SplitWhitespace(parts[0]);
    if parameters == [] {
      return Err(IndexError);
    }
    if parameters[0] == "S" {
      var byLevel :- Bump(t.sentencesByLevel, level);
      return Ok(t.(isErrorSentence := false, sentenceCount := t.sentenceCount + 1,
                   sentencesByLevel := byLevel, active := parameters));
    }
    if parameters[0] == "A" {
      var last :- PyIndex(parts, -1);
      if last == "0" {
        var errorType :- PyIndex(parts, 1);
        if errorType in Keys(t.punctErrorCounts) {
          r := CountEdit(t, level, parts, parameters, errorType);
          return;
        }
      }
    }
    return Ok(t);
  }

  /** The loop over the lines of one file. */
  method CountFile(t0: Tally, level: string, lines: seq<string>) returns (r: Result<Tally>)
    ensures r == FileLines(t0, level, lines)
  {
    var t := t0;
    for j := 0 to |lines|
      invariant FileLines(t0, level, lines[..j]) == Ok(t)
    {
      FoldNext(LineStepper(level), t0, lines, j);
      var next := CountLine(t, level, lines[j]);
      if next.Err? {
        FoldFails(LineStepper(level), t0, lines, j + 1);
        return next;
      }
      t := next.value;
    }
    assert lines[..|lines|] == lines;
    return Ok(t);
  }

  /** `generate_statistics`' loop over the files; each file starts with no
      active sentence. */
  method CountCorpus(files: seq<(string, seq<string>)>) returns (r: Result<Tally>)
    ensures r == Corpus(files)
  {
    var t := Init();
    for f := 0 to |files|
      invariant Files(Init(), files[..f]) == Ok(t)
    {
      FoldNext(FileStep, Init(), files, f);
      var (level, lines) := files[f];
      var next := CountFile(t.(active := []), level, lines);
      if next.Err? {
        FoldFails(FileStep, Init(), files, f + 1);
        return next;
      }
      t := next.value;
    }
    assert files[..|files|] == files;
    return Ok(t);
  }
}
