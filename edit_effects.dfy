/** What one counted edit does to the counters of `generate_statistics`
    (scripts/analyzer.py:94-218): which word of the most recent `S` line it
    reads, which keys gain how much, and that every other counter is left
    as it was. */
module EditEffects {
  import opened Wrappers
  import opened PyStr
  import opened Dict
  import opened Fold
  import opened Tally
  import opened TallyInvariants

  /** `w` for every correction alternative whose first character is `j`. */
  function FirstCharWeight(options: seq<string>, j: string, w: real): real {
    if options == [] then 0.0
    else
      var o := options[|options| - 1];
      FirstCharWeight(options[..|options| - 1], j, w) + (if o != [] && o[..1] == j then w else 0.0)
  }

  /** `w` for every occurrence of `x` in `xs`. */
  function Occurrences(xs: seq<string>, x: string, w: real): real {
    if xs == [] then 0.0
    else Occurrences(xs[..|xs| - 1], x, w) + (if xs[|xs| - 1] == x then w else 0.0)
  }

  predicate NonEmptyOptions(options: seq<string>) {
    forall i :: 0 <= i < |options| ==> options[i] != []
  }

  // ---------------------------------------------------------------- R:PUNCT

  /** The loop over the alternatives raises exactly when one of them is
      empty (`option[0]` of an empty string). */
  lemma {:induction false} MapOptionsOk(t: Tally, c: string, atEnd: bool, options: seq<string>, w: real)
    ensures MapOptions(t, c, atEnd, options, w).Ok? <==> NonEmptyOptions(options)
  {
    if options != [] {
      var prefix := options[..|options| - 1];
      MapOptionsOk(t, c, atEnd, prefix, w);
      assert NonEmptyOptions(options) <==> NonEmptyOptions(prefix) && options[|options| - 1] != [] by {
        if NonEmptyOptions(prefix) && options[|options| - 1] != [] {
          forall i | 0 <= i < |options| ensures options[i] != [] {
            if i < |options| - 1 { assert options[i] == prefix[i]; }
          }
        }
      }
    }
  }

  /** Every alternative adds the weight `w` to the mapping of the wrong
      character `c` under its first character; the middle or the end
      mapping gains the same, according to the position; nothing else
      changes. */
  lemma {:induction false} MapOptionsEffect(t: Tally, c: string, atEnd: bool, options: seq<string>, w: real,
                                            k: string, j: string)
    requires MapOptions(t, c, atEnd, options, w).Ok?
    ensures var r := MapOptions(t, c, atEnd, options, w).value;
      && Get2(r.replacementMapping, k, j)
         == Get2(t.replacementMapping, k, j) + (if k == c then FirstCharWeight(options, j, w) else 0.0)
      && Get2(r.endMapping, k, j)
         == Get2(t.endMapping, k, j) + (if k == c && atEnd then FirstCharWeight(options, j, w) else 0.0)
      && Get2(r.middleMapping, k, j)
         == Get2(t.middleMapping, k, j) + (if k == c && !atEnd then FirstCharWeight(options, j, w) else 0.0)
      && r == t.(replacementMapping := r.replacementMapping, middleMapping := r.middleMapping,
                 endMapping := r.endMapping)
  {
    if options != [] {
      var prefix := options[..|options| - 1];
      var o := options[|options| - 1];
      var r1 := MapOptions(t, c, atEnd, prefix, w);
      assert r1.Ok?;
      MapOptionsEffect(t, c, atEnd, prefix, w, k, j);
      var s := r1.value;
      assert MapOptions(t, c, atEnd, options, w) == MapOption(s, c, atEnd, o, w);
      assert o != [];
      Add2Get2(s.replacementMapping, c, o[..1], w, k, j);
      Add2Get2(s.endMapping, c, o[..1], w, k, j);
      Add2Get2(s.middleMapping, c, o[..1], w, k, j);
    }
  }

  /** An `R:PUNCT` edit with start index `i` raises exactly when `i` is not
      an integer, token `i` does not exist, or an alternative is empty. */
  lemma ReplacementOk(t: Tally, parameters: seq<string>, correction: seq<string>)
    ensures ReplacementStep(t, parameters, correction).Ok?
        <==> && EditIndex(parameters).Ok?
             && -|t.active| <= EditIndex(parameters).value + 1 < |t.active|
             && NonEmptyOptions(correction)
  {
    var ctx := ReplacementContext(t, parameters);
    if ctx.Ok? {
      MapOptionsOk(RecordReplacement(t, ctx.value.0, ctx.value.1), ctx.value.0, ctx.value.1,
                   correction, Weight(|correction|));
    }
  }

  /** What an `R:PUNCT` edit reads after the lines `lines` of its file: the
      wrong character is token `i` of the file's most recent `S` line (index
      `i + 1`, after the `S` tag), and the position is the end exactly when
      that token is the line's last. */
  lemma ReplacementContextIs(t: Tally, level: string, lines: seq<string>, parameters: seq<string>)
    requires FileStep(t, (level, lines)).Ok?
    requires ReplacementContext(FileStep(t, (level, lines)).value, parameters).Ok?
    ensures EditIndex(parameters).Ok?
    ensures var s := LastSentence(lines, []);
      var i := EditIndex(parameters).value;
      var ctx := ReplacementContext(FileStep(t, (level, lines)).value, parameters).value;
      && PyIndex(s, i + 1) == Ok(ctx.0)
      && (ctx.1 <==> i == |s| - 2)
  {
    FileLinesActive(t.(active := []), level, lines);
  }

  /** The wrong character's count rises by one, and so does its end count
      at the end and its middle count elsewhere; nothing else changes. */
  lemma RecordReplacementEffect(t: Tally, c: string, atEnd: bool, k: string)
    ensures var r := RecordReplacement(t, c, atEnd);
      && Get0(r.replacement, k) == Get0(t.replacement, k) + (if k == c then 1.0 else 0.0)
      && Get0(r.endReplacement, k) == Get0(t.endReplacement, k) + (if k == c && atEnd then 1.0 else 0.0)
      && Get0(r.middleReplacement, k) == Get0(t.middleReplacement, k) + (if k == c && !atEnd then 1.0 else 0.0)
      && r == t.(replacement := r.replacement, middleReplacement := r.middleReplacement,
                 endReplacement := r.endReplacement)
  {
    AddGet0(t.replacement, c, 1.0, k);
    AddGet0(t.endReplacement, c, 1.0, k);
    AddGet0(t.middleReplacement, c, 1.0, k);
  }

  // ---------------------------------------------------------------- M:PUNCT

  /** Every missing mark gains the weight `w`, keyed by the whole mark; next
      to a non-empty following word it gains 1 whatever the number of
      alternatives; nothing else changes. */
  lemma {:induction false} CountMarksEffect(t: Tally, next: Option<string>, marks: seq<string>, w: real,
                                            word: string, k: string)
    ensures var r := CountMarks(t, next, marks, w);
      && Get0(r.missing, k) == Get0(t.missing, k) + Occurrences(marks, k, w)
      && Get2(r.combinationsMissing, word, k)
         == Get2(t.combinationsMissing, word, k) + (if Truthy(next) && word == next.value then Occurrences(marks, k, 1.0) else 0.0)
      && (!Truthy(next) ==> r.combinationsMissing == t.combinationsMissing)
      && r == t.(missing := r.missing, combinationsMissing := r.combinationsMissing)
  {
    if marks != [] {
      var prefix := marks[..|marks| - 1];
      var m := marks[|marks| - 1];
      CountMarksEffect(t, next, prefix, w, word, k);
      var t1 := CountMarks(t, next, prefix, w);
      AddGet0(t1.missing, m, w, k);
      if Truthy(next) {
        Add2Get2(t1.combinationsMissing, next.value, m, 1.0, word, k);
      }
    }
  }

  /** An `M:PUNCT` edit raises exactly when its start index `i` is not an
      integer, or when the following token is read and does not exist. */
  lemma MissingOk(t: Tally, parameters: seq<string>, correction: seq<string>)
    ensures MissingStep(t, parameters, correction).Ok?
        <==> && EditIndex(parameters).Ok?
             && (EditIndex(parameters).value < |t.active| - 2 ==> -|t.active| <= EditIndex(parameters).value + 1)
  {
  }

  /** What an `M:PUNCT` edit reads after the lines `lines` of its file: the
      following word is token `i` of the file's most recent `S` line, read
      only when `i` is before that line's last token index. */
  lemma MissingContextIs(t: Tally, level: string, lines: seq<string>, parameters: seq<string>)
    requires FileStep(t, (level, lines)).Ok?
    requires MissingContext(FileStep(t, (level, lines)).value, parameters).Ok?
    ensures EditIndex(parameters).Ok?
    ensures var s := LastSentence(lines, []);
      var i := EditIndex(parameters).value;
      var next := MissingContext(FileStep(t, (level, lines)).value, parameters).value;
      && (i < |s| - 2 ==> PyIndex(s, i + 1).Ok? && next == Some(PyIndex(s, i + 1).value))
      && (i >= |s| - 2 ==> next == None)
  {
    FileLinesActive(t.(active := []), level, lines);
  }

  /** Each mark of the correction gains the alternatives' weight; a
      non-empty following word gains each mark once; nothing else changes. */
  lemma RecordMissingEffect(t: Tally, next: Option<string>, correction: seq<string>, word: string, k: string)
    ensures var r := RecordMissing(t, next, correction);
      && Get0(r.missing, k) == Get0(t.missing, k) + Occurrences(correction, k, Weight(|correction|))
      && Get2(r.combinationsMissing, word, k)
         == Get2(t.combinationsMissing, word, k)
            + (if Truthy(next) && word == next.value then Occurrences(correction, k, 1.0) else 0.0)
      && (next.None? ==> r.combinationsMissing == t.combinationsMissing)
      && r == t.(missing := r.missing, combinationsMissing := r.combinationsMissing)
  {
    var cm := if next.Some? then Touch(t.combinationsMissing, next.value) else t.combinationsMissing;
    if next.Some? {
      TouchInner(t.combinationsMissing, next.value, word);
    }
    CountMarksEffect(t.(combinationsMissing := cm), next, correction, Weight(|correction|), word, k);
  }

  // ---------------------------------------------------------------- U:PUNCT

  /** A `U:PUNCT` edit raises exactly when its start index `i` is not an
      integer, token `i` or the word before it does not exist, or the
      following token is read and does not exist. */
  lemma UnnecessaryOk(t: Tally, parameters: seq<string>)
    ensures UnnecessaryStep(t, parameters).Ok?
        <==> && EditIndex(parameters).Ok?
             && -|t.active| <= EditIndex(parameters).value < |t.active| - 1
             && (EditIndex(parameters).value < |t.active| - 2 ==> -|t.active| <= EditIndex(parameters).value + 2)
  {
  }

  /** What a `U:PUNCT` edit reads after the lines `lines` of its file, all
      from the file's most recent `S` line: the extra character is its token
      `i`, the word before it is at index `i` (the `S` tag when `i` is 0),
      and the following word is token `i + 1`, read only when `i` is before
      the line's last token index. */
  lemma UnnecessaryContextIs(t: Tally, level: string, lines: seq<string>, parameters: seq<string>)
    requires FileStep(t, (level, lines)).Ok?
    requires UnnecessaryContext(FileStep(t, (level, lines)).value, parameters).Ok?
    ensures EditIndex(parameters).Ok?
    ensures var s := LastSentence(lines, []);
      var i := EditIndex(parameters).value;
      var ctx := UnnecessaryContext(FileStep(t, (level, lines)).value, parameters).value;
      && PyIndex(s, i + 1) == Ok(ctx.0)
      && PyIndex(s, i) == Ok(ctx.1)
      && (i < |s| - 2 ==> PyIndex(s, i + 2).Ok? && ctx.2 == Some(PyIndex(s, i + 2).value))
      && (i >= |s| - 2 ==> ctx.2 == None)
  {
    FileLinesActive(t.(active := []), level, lines);
    UnnecessaryReads(FileStep(t, (level, lines)).value, LastSentence(lines, []), parameters);
  }

  /** The tokens a `U:PUNCT` edit reads from an active sentence `s`. */
  lemma UnnecessaryReads(t: Tally, s: seq<string>, parameters: seq<string>)
    requires t.active == s && UnnecessaryContext(t, parameters).Ok?
    ensures EditIndex(parameters).Ok?
    ensures var i := EditIndex(parameters).value;
      var ctx := UnnecessaryContext(t, parameters).value;
      && PyIndex(s, i + 1) == Ok(ctx.0)
      && PyIndex(s, i) == Ok(ctx.1)
      && (i < |s| - 2 ==> PyIndex(s, i + 2).Ok? && ctx.2 == Some(PyIndex(s, i + 2).value))
      && (i >= |s| - 2 ==> ctx.2 == None)
  {
  }

  /** The extra character gains one; the combination counters gain one
      under their keys when the following word exists and is not empty,
      and are unchanged otherwise; nothing else changes. */
  lemma RecordUnnecessaryEffect(t: Tally, c: string, preceding: string, next: Option<string>, k: string)
    ensures var r := RecordUnnecessary(t, c, preceding, next);
      && Get0(r.unnecessary, k) == Get0(t.unnecessary, k) + (if k == c then 1.0 else 0.0)
      && Get0(r.unnecessaryNext, k)
         == Get0(t.unnecessaryNext, k) + (if Truthy(next) && k == Join2(c, next.value) then 1.0 else 0.0)
      && Get0(r.precedingUnnecessaryNext, k)
         == Get0(t.precedingUnnecessaryNext, k) + (if Truthy(next) && k == Join3(preceding, c, next.value) then 1.0 else 0.0)
      && (!Truthy(next) ==> r.unnecessaryNext == t.unnecessaryNext && r.precedingUnnecessaryNext == t.precedingUnnecessaryNext)
      && r == t.(unnecessary := r.unnecessary, unnecessaryNext := r.unnecessaryNext,
                 precedingUnnecessaryNext := r.precedingUnnecessaryNext)
  {
    AddGet0(t.unnecessary, c, 1.0, k);
    if Truthy(next) {
      AddGet0(t.unnecessaryNext, Join2(c, next.value), 1.0, k);
      AddGet0(t.precedingUnnecessaryNext, Join3(preceding, c, next.value), 1.0, k);
    }
  }
  // ---------------------------------------------------------------- the active sentence

  /** The tokens of the last `S` line of `lines`, or `before` when there is
      none. */
  function LastSentence(lines: seq<string>, before: seq<string>): seq<string> {
    if lines == [] then before
    else if IsSentenceLine(lines[|lines| - 1]) then LineParameters(Strip(lines[|lines| - 1]))
    else LastSentence(lines[..|lines| - 1], before)
  }

  /** Without an `S` line, `LastSentence` is what came before. */
  lemma {:induction false} LastSentenceNone(lines: seq<string>, before: seq<string>)
    requires forall k :: 0 <= k < |lines| ==> !IsSentenceLine(lines[k])
    ensures LastSentence(lines, before) == before
  {
    if lines != [] {
      var prefix := lines[..|lines| - 1];
      assert !IsSentenceLine(lines[|lines| - 1]);
      assert forall k :: 0 <= k < |prefix| ==> prefix[k] == lines[k];
      LastSentenceNone(prefix, before);
    }
  }

  /** `LastSentence` is the most recent `S` line: the tokens of the `S` line
      at `j` when no later line is one. */
  lemma {:induction false} LastSentenceIsLatest(lines: seq<string>, before: seq<string>, j: int)
    requires 0 <= j < |lines| && IsSentenceLine(lines[j])
    requires forall k :: j < k < |lines| ==> !IsSentenceLine(lines[k])
    ensures LastSentence(lines, before) == LineParameters(Strip(lines[j]))
  {
    if j < |lines| - 1 {
      var prefix := lines[..|lines| - 1];
      assert !IsSentenceLine(lines[|lines| - 1]);
      assert prefix[j] == lines[j];
      assert forall k :: j < k < |prefix| ==> prefix[k] == lines[k];
      LastSentenceIsLatest(prefix, before, j);
    }
  }

  /** The typed counts of an edit leave the active sentence as it was. */
  lemma TypedStepKeepsActive(t: Tally, errorType: string, parameters: seq<string>, correction: seq<string>)
    requires TypedStep(t, errorType, parameters, correction).Ok?
    ensures TypedStep(t, errorType, parameters, correction).value.active == t.active
  {
    if errorType == "R:PUNCT" {
      var ctx := ReplacementContext(t, parameters).value;
      MapOptionsEffect(RecordReplacement(t, ctx.0, ctx.1), ctx.0, ctx.1, correction, Weight(|correction|), "", "");
    } else if errorType == "M:PUNCT" {
      var next := MissingContext(t, parameters).value;
      RecordMissingEffect(t, next, correction, "", "");
    }
  }

  /** A counted edit leaves the active sentence as it was. */
  lemma EditKeepsActive(t: Tally, level: string, parts: seq<string>, parameters: seq<string>, errorType: string)
    requires EditStep(t, level, parts, parameters, errorType).Ok?
    ensures EditStep(t, level, parts, parameters, errorType).value.active == t.active
  {
    var t1 := MarkErrorSentence(t, level).value;
    var t2 := CountError(t1, level, errorType).value;
    TypedStepKeepsActive(t2, errorType, parameters, Split(PyIndex(parts, 2).value, "||"));
  }

  /** An `A` line leaves the active sentence as it was. */
  lemma AnnotationKeepsActive(t: Tally, level: string, parts: seq<string>, parameters: seq<string>)
    requires AnnotationStep(t, level, parts, parameters).Ok?
    ensures AnnotationStep(t, level, parts, parameters).value.active == t.active
  {
    if PyIndex(parts, -1).value == "0" {
      var errorType := PyIndex(parts, 1).value;
      if errorType in Keys(t.punctErrorCounts) {
        EditKeepsActive(t, level, parts, parameters, errorType);
      }
    }
  }

  /** An `S` line makes its tokens the active sentence; no other line
      changes it. */
  lemma LineSetsActive(t: Tally, level: string, raw: string)
    requires LineStep(t, level, raw).Ok?
    ensures LineStep(t, level, raw).value.active
         == if IsSentenceLine(raw) then LineParameters(Strip(raw)) else t.active
  {
    var line := Strip(raw);
    if line != [] {
      var parts := Fields(line);
      var parameters := LineParameters(line);
      if parameters[0] == "A" {
        assert !IsSentenceLine(raw);
        assert LineStep(t, level, raw) == AnnotationStep(t, level, parts, parameters);
        AnnotationKeepsActive(t, level, parts, parameters);
      }
    }
  }

  /** After the lines of a file the active sentence is the file's most
      recent `S` line, or what it was before when the lines have none. */
  lemma {:induction false} FileLinesActive(t: Tally, level: string, lines: seq<string>)
    requires FileLines(t, level, lines).Ok?
    ensures FileLines(t, level, lines).value.active == LastSentence(lines, t.active)
  {
    if lines != [] {
      var prefix := lines[..|lines| - 1];
      var before := FileLines(t, level, prefix);
      assert before.Ok?;
      FileLinesActive(t, level, prefix);
      LineSetsActive(before.value, level, lines[|lines| - 1]);
    }
  }
}
