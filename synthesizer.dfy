/** The decision glue of the synthesis driver (scripts/synthesizer.py): the
    candidates for an unnecessary character, the word chosen for it, the
    per-sentence dispatch with its two silent skips, the continuation flag
    that lower-cases the sentence after a replaced end mark or a colon, and
    the 8:1:1 partition of the written lines. The random draws are
    parameters; the NLTK tokenisation of the input text and of the written
    sentences is outside the model. */
module Synthesizer {
  import opened Wrappers
  import opened PyStr
  import opened Dict
  import opened Fold
  import opened ErrorGenerator
  import opened Derivation

  // ---------------------------------------------------------------- candidates

  /** The words of `str.split()`. */
  ghost predicate Tokens(words: seq<string>) {
    forall i :: 0 <= i < |words| ==> IsToken(words[i])
  }

  /** `nextWord` can follow an unnecessary character: it is among the words,
      its first occurrence is not the first word, and the word before that
      occurrence does not end in ASCII punctuation. */
  predicate IsCandidate(words: seq<string>, w: string)
    requires Tokens(words)
  {
    match IndexOf(words, w)
    case None => false
    case Some(i) => i >= 1 && !IsAsciiPunct(words[i - 1][|words[i - 1]| - 1])
  }

  /** The candidate words, in the order of the combination table. */
  function CandidateWords(combos: Dict<string, string>, words: seq<string>): seq<string>
    requires Tokens(words)
  {
    if combos == [] then []
    else
      var e := combos[|combos| - 1];
      CandidateWords(combos[..|combos| - 1], words) + (if IsCandidate(words, e.0) then [e.0] else [])
  }

  /** The characters paired with the candidate words. */
  function CandidateChars(combos: Dict<string, string>, words: seq<string>): seq<string>
    requires Tokens(words)
  {
    if combos == [] then []
    else
      var e := combos[|combos| - 1];
      CandidateChars(combos[..|combos| - 1], words) + (if IsCandidate(words, e.0) then [e.1] else [])
  }

  /** The loop over the combination table (scripts/synthesizer.py:145-157). */
  method DetectUnnecessaryCandidates(combos: Dict<string, string>, sentence: string)
    returns (words: seq<string>, possible: bool, wordOptions: seq<string>, punctOptions: seq<string>)
    ensures words == SplitWhitespace(sentence) && Tokens(words)
    ensures wordOptions == CandidateWords(combos, words)
    ensures punctOptions == CandidateChars(combos, words)
    ensures possible <==> wordOptions != []
  {
    words := SplitWhitespace(sentence);
    possible := false;
    wordOptions := [];
    punctOptions := [];
    for j := 0 to |combos|
      invariant wordOptions == CandidateWords(combos[..j], words)
      invariant punctOptions == CandidateChars(combos[..j], words)
      invariant possible <==> wordOptions != []
    {
      assert combos[..j + 1][..j] == combos[..j];
      var nextWord := combos[j].0;
      if nextWord in words {
        var preceding := IndexOf(words, nextWord).value - 1;
        if preceding >= 0 && !IsAsciiPunct(words[preceding][|words[preceding]| - 1]) {
          possible := true;
          wordOptions := wordOptions + [nextWord];
          punctOptions := punctOptions + [combos[j].1];
        }
      }
    }
    assert combos[..|combos|] == combos;
  }

  /** The two lists stay aligned: the `k`-th character is the table's
      character for the `k`-th word, and the words are exactly the table's
      keys that are candidates. */
  lemma {:induction false} CandidatesAligned(combos: Dict<string, string>, words: seq<string>)
    requires Tokens(words)
    ensures |CandidateWords(combos, words)| == |CandidateChars(combos, words)|
    ensures forall k :: 0 <= k < |CandidateWords(combos, words)| ==>
      (CandidateWords(combos, words)[k], CandidateChars(combos, words)[k]) in combos
    ensures forall w :: w in CandidateWords(combos, words) <==> w in Keys(combos) && IsCandidate(words, w)
  {
    if combos != [] {
      var prefix := combos[..|combos| - 1];
      CandidatesAligned(prefix, words);
      assert forall e :: e in prefix ==> e in combos;
      assert Keys(combos) == Keys(prefix) + [combos[|combos| - 1].0];
    }
  }

  /** With distinct keys, `u_punctuation_options[k] == u_combinations[u_words_options[k]]`. */
  lemma CandidateCharIsLookup(combos: Dict<string, string>, words: seq<string>, k: int)
    requires Tokens(words) && DistinctKeys(combos)
    requires 0 <= k < |CandidateWords(combos, words)|
    ensures k < |CandidateChars(combos, words)|
    ensures Get(combos, CandidateWords(combos, words)[k]) == Some(CandidateChars(combos, words)[k])
  {
    CandidatesAligned(combos, words);
    var e := (CandidateWords(combos, words)[k], CandidateChars(combos, words)[k]);
    var i :| 0 <= i < |combos| && combos[i] == e;
    GetEntry(combos, i);
  }

  /** For a candidate word, `generate_u_error` neither raises nor takes its
      unchanged branch: it inserts the character after the word before the
      candidate's first occurrence. */
  lemma CandidateInserts(sentence: string, words: seq<string>, w: string, character: string)
    requires Tokens(words) && IsCandidate(words, w)
    ensures var i := IndexOf(words, w).value;
      && 0 < i < |words| && w != words[0]
      && GenerateUError(sentence, words, character, w) == Ok(InsertAfterFirst(sentence, words[i - 1], character))
  {
    var i := IndexOf(words, w).value;
    assert words[0] != w;
    UErrorInserts(sentence, words, character, w);
  }

  // ---------------------------------------------------------------- word lookup

  /** `u_words_options[u_punctuation_options.index(character)]`. */
  function WordFor(wordOptions: seq<string>, punctOptions: seq<string>, character: string): Result<string> {
    match IndexOf(punctOptions, character)
    case None => Err(ValueError)
    case Some(i) => PyIndex(wordOptions, i)
  }

  /** On aligned lists, a character among the candidates gives the first
      candidate word whose paired character it is. */
  lemma WordForFirst(wordOptions: seq<string>, punctOptions: seq<string>, character: string)
    requires |wordOptions| == |punctOptions| && character in punctOptions
    ensures WordFor(wordOptions, punctOptions, character).Ok?
    ensures exists i :: && 0 <= i < |wordOptions| && punctOptions[i] == character
                        && WordFor(wordOptions, punctOptions, character).value == wordOptions[i]
                        && forall j :: 0 <= j < i ==> punctOptions[j] != character
  {
    var i := IndexOf(punctOptions, character).value;
    assert WordFor(wordOptions, punctOptions, character).value == wordOptions[i];
  }

  // ---------------------------------------------------------------- one sentence

  /** The flag set after a replacement (scripts/synthesizer.py:190): by
      Python's precedence it is `(end and ",") or ":"`, so a colon sets it
      in the middle of the sentence too. */
  function ContinuesNext(position: Position, wrong: string): bool {
    (position == End && wrong == ",") || wrong == ":"
  }

  /** `sentence[0].lower() + sentence[1:]`; IndexError on an empty sentence. */
  function LowerFirst(s: string): (r: Result<string>)
    ensures r.Ok? <==> s != []
    ensures r.Ok? ==> |r.value| == |s| && r.value[0] == LowerChar(s[0]) && r.value[1..] == s[1..]
  {
    if s == [] then Err(IndexError) else Ok([LowerChar(s[0])] + s[1..])
  }

  /** The random draws of one sentence, each in `[0, 1)`. */
  datatype Draws = Draws(flip: real, kind: real, pick: real, wrong: real, correction: real, position: real)

  /** What one sentence produces: nothing, or the pair of lines written to
      the correct and the incorrect file. */
  datatype Outcome = Skipped | Written(correct: string, incorrect: string)

  /** `u_error_is_possible` for a sentence. */
  predicate UPossible(st: Statistics, sentence: string) {
    CandidateWords(st.unnecessaryCombinations, SplitWhitespace(sentence)) != []
  }

  /** The unnecessary-character case: the character is drawn among the
      candidates' characters, its word looked up, and the character
      inserted. */
  function WriteUnnecessary(st: Statistics, sentence: string, d: Draws): (r: Result<(Outcome, bool)>)
    ensures r.Ok? ==> r.value.0.Written? && r.value.0.correct == sentence && !r.value.1
  {
    var words := SplitWhitespace(sentence);
    var wordOptions := CandidateWords(st.unnecessaryCombinations, words);
    var punctOptions := CandidateChars(st.unnecessaryCombinations, words);
    var c :- DetermineUnnecessaryCharacter(st.unnecessaryPunctuation, punctOptions, d.pick);
    var word :- WordFor(wordOptions, punctOptions, c);
    var e :- GenerateUError(sentence, words, c, word);
    Ok((Written(sentence, e), false))
  }

  /** The missing-character case: skipped when no character is found. */
  function WriteMissing(st: Statistics, sentence: string, d: Draws): (r: Result<(Outcome, bool)>)
    ensures r.Ok? ==> !r.value.1 && (r.value.0.Written? ==> r.value.0.correct == sentence)
  {
    var pair :- MissingChoice(Punctuations(sentence), st.missingPunctuation, sentence, st.missingCombinations, d.pick);
    if pair.0.None? then Ok((Skipped, false))
    else Ok((Written(sentence, MError(sentence, pair.0.value, pair.1)), false))
  }

  /** The replacement case, which sets the flag for the next sentence. */
  function WriteReplacement(st: Statistics, sentence: string, last: char, d: Draws): (r: Result<(Outcome, bool)>)
    ensures r.Ok? ==> r.value.0.Written? && r.value.0.correct == sentence
  {
    var choice :- DetermineReplacementCharacter(st.replacementPunctuation, Punctuations(sentence), st.fixesTotalPunctuation,
                                                st.fixesMiddlePunctuation, st.fixesEndPunctuation,
                                                d.wrong, d.correction, d.position);
    Ok((Written(sentence, GenerateRError(sentence, [last], choice.0, choice.1, choice.2)),
        ContinuesNext(choice.2, choice.1)))
  }

  /** The body of the loop over the sentences, after the flag has been
      applied: the outcome, and whether the next sentence continues this
      one. */
  function SynthesizeSentence(st: Statistics, sentence: string, d: Draws): Result<(Outcome, bool)> {
    var last :- PyIndex(sentence, -1);
    var decision :- DeterminePunctError(st.totalPunctErrors, d.flip);
    if decision == No then Ok((Skipped, false))
    else
      var kind :- DetermineErrorType(st.unnecessaryErrors, st.missingErrors, st.replacementErrors,
                                     UPossible(st, sentence), d.kind);
      match kind
      case Unnecessary => WriteUnnecessary(st, sentence, d)
      case Missing => WriteMissing(st, sentence, d)
      case Replacement => WriteReplacement(st, sentence, last, d)
  }

  /** A sentence is skipped exactly when the coin comes up "no" or the
      missing-character pick finds no character; a written pair keeps the
      sentence as its correct side. */
  lemma SkippedExactly(st: Statistics, sentence: string, d: Draws)
    requires SynthesizeSentence(st, sentence, d).Ok?
    ensures sentence != [] && Tokens(SplitWhitespace(sentence))
    ensures var r := SynthesizeSentence(st, sentence, d).value;
      var kind := DetermineErrorType(st.unnecessaryErrors, st.missingErrors, st.replacementErrors,
                                     UPossible(st, sentence), d.kind);
      && (r.0.Skipped? <==>
            || d.flip * 100.0 >= st.totalPunctErrors
            || (kind == Ok(Missing)
                && MissingChoice(Punctuations(sentence), st.missingPunctuation, sentence,
                                 st.missingCombinations, d.pick).value.0.None?))
      && (r.0.Written? ==> r.0.correct == sentence)
  {
    var r := SynthesizeSentence(st, sentence, d).value;
    if d.flip * 100.0 < st.totalPunctErrors {
      var kind := DetermineErrorType(st.unnecessaryErrors, st.missingErrors, st.replacementErrors,
                                     UPossible(st, sentence), d.kind);
      assert kind.Ok?;
      if kind.value == Missing {
        var pair := MissingChoice(Punctuations(sentence), st.missingPunctuation, sentence, st.missingCombinations, d.pick);
        assert pair.Ok?;
      }
    }
  }

  /** The flag is set only by a written replacement whose wrong character
      continues the sentence, and then always. */
  lemma FlagExactly(st: Statistics, sentence: string, d: Draws)
    requires SynthesizeSentence(st, sentence, d).Ok?
    ensures sentence != [] && Tokens(SplitWhitespace(sentence))
    ensures var r := SynthesizeSentence(st, sentence, d).value;
      var kind := DetermineErrorType(st.unnecessaryErrors, st.missingErrors, st.replacementErrors,
                                     UPossible(st, sentence), d.kind);
      var choice := DetermineReplacementCharacter(st.replacementPunctuation, Punctuations(sentence),
                                                  st.fixesTotalPunctuation, st.fixesMiddlePunctuation,
                                                  st.fixesEndPunctuation, d.wrong, d.correction, d.position);
      r.1 <==> && d.flip * 100.0 < st.totalPunctErrors && kind == Ok(Replacement)
               && choice.Ok? && ContinuesNext(choice.value.2, choice.value.1)
  {
    SkippedExactly(st, sentence, d);
    var r := SynthesizeSentence(st, sentence, d).value;
    if d.flip * 100.0 < st.totalPunctErrors {
      var kind := DetermineErrorType(st.unnecessaryErrors, st.missingErrors, st.replacementErrors,
                                     UPossible(st, sentence), d.kind);
      assert kind.Ok?;
      match kind.value
      case Replacement =>
        assert SynthesizeSentence(st, sentence, d) == WriteReplacement(st, sentence, sentence[|sentence| - 1], d);
      case Unnecessary =>
        assert SynthesizeSentence(st, sentence, d) == WriteUnnecessary(st, sentence, d);
      case Missing =>
        assert SynthesizeSentence(st, sentence, d) == WriteMissing(st, sentence, d);
    } else {
      assert !r.1;
    }
  }


  /** In the unnecessary case the written error is always the insertion
      after the word before the chosen candidate: the lookup of the word
      never fails and `generate_u_error` never takes its unchanged branch. */
  lemma UnnecessaryInserts(st: Statistics, sentence: string, d: Draws)
    requires WriteUnnecessary(st, sentence, d).Ok?
    ensures Tokens(SplitWhitespace(sentence))
    ensures var words := SplitWhitespace(sentence);
      var wordOptions := CandidateWords(st.unnecessaryCombinations, words);
      var punctOptions := CandidateChars(st.unnecessaryCombinations, words);
      var c := DetermineUnnecessaryCharacter(st.unnecessaryPunctuation, punctOptions, d.pick).value;
      var w := WordFor(wordOptions, punctOptions, c).value;
      && w in wordOptions && IsCandidate(words, w)
      && WriteUnnecessary(st, sentence, d).value
         == (Written(sentence, InsertAfterFirst(sentence, words[IndexOf(words, w).value - 1], c)), false)
  {
    var words := SplitWhitespace(sentence);
    var wordOptions := CandidateWords(st.unnecessaryCombinations, words);
    var punctOptions := CandidateChars(st.unnecessaryCombinations, words);
    var c := DetermineUnnecessaryCharacter(st.unnecessaryPunctuation, punctOptions, d.pick).value;
    CandidatesAligned(st.unnecessaryCombinations, words);
    WordForFirst(wordOptions, punctOptions, c);
    var w := WordFor(wordOptions, punctOptions, c).value;
    assert w in wordOptions;
    CandidateInserts(sentence, words, w, c);
    assert WriteUnnecessary(st, sentence, d).value == (Written(sentence, GenerateUError(sentence, words, c, w).value), false);
  }

  /** The body of the loop mirrored step by step. */
  method ProcessSentence(st: Statistics, sentence: string, d: Draws) returns (r: Result<(Outcome, bool)>)
    ensures r == SynthesizeSentence(st, sentence, d)
  {
    var puncts := CollectPunctuations(sentence);
    if sentence == [] {
      return Err(IndexError);
    }
    var last := sentence[|sentence| - 1];
    var words, possible, wordOptions, punctOptions := DetectUnnecessaryCandidates(st.unnecessaryCombinations, sentence);
    var decision := DeterminePunctError(st.totalPunctErrors, d.flip).value;
    if decision == No {
      return Ok((Skipped, false));
    }
    var kind :- DetermineErrorType(st.unnecessaryErrors, st.missingErrors, st.replacementErrors, possible, d.kind);
    match kind {
      case Unnecessary =>
        var c :- DetermineUnnecessaryCharacter(st.unnecessaryPunctuation, punctOptions, d.pick);
        var word :- WordFor(wordOptions, punctOptions, c);
        var e :- GenerateUError(sentence, words, c, word);
        r := Ok((Written(sentence, e), false));
      case Missing =>
        var pair :- DetermineMissingCharacter(puncts, st.missingPunctuation, sentence, st.missingCombinations, d.pick);
        if pair.0.None? {
          return Ok((Skipped, false));
        }
        var e := GenerateMError(sentence, pair.0.value, pair.1);
        r := Ok((Written(sentence, e), false));
      case Replacement =>
        var choice :- DetermineReplacementCharacter(st.replacementPunctuation, puncts, st.fixesTotalPunctuation,
                                                    st.fixesMiddlePunctuation, st.fixesEndPunctuation,
                                                    d.wrong, d.correction, d.position);
        var e := GenerateRError(sentence, [last], choice.0, choice.1, choice.2);
        r := Ok((Written(sentence, e), ContinuesNext(choice.2, choice.1)));
    }
  }

  // ---------------------------------------------------------------- the loop

  /** One sentence of the loop: the pending flag lower-cases its first
      character and is cleared, then the sentence is processed. */
  function SynthesisStep(st: Statistics, s: (seq<Outcome>, bool), item: (string, Draws)): Result<(seq<Outcome>, bool)> {
    var sentence :- if s.1 then LowerFirst(item.0) else Ok(item.0);
    var res :- SynthesizeSentence(st, sentence, item.1);
    Ok((s.0 + [res.0], res.1))
  }

  function SynthesisStepper(st: Statistics): ((seq<Outcome>, bool), (string, Draws)) -> Result<(seq<Outcome>, bool)> {
    (s, item) => SynthesisStep(st, s, item)
  }

  /** The loop over the sentences with their draws: the outcomes in order,
      and the flag after the last sentence. */
  function Synthesis(st: Statistics, items: seq<(string, Draws)>): Result<(seq<Outcome>, bool)> {
    FoldResult(SynthesisStepper(st), ([], false), items)
  }

  /** The loop of `main` over the sentences (scripts/synthesizer.py:136-195). */
  method RunSynthesis(st: Statistics, items: seq<(string, Draws)>) returns (r: Result<(seq<Outcome>, bool)>)
    ensures r == Synthesis(st, items)
  {
    var outcomes: seq<Outcome> := [];
    var connect := false;
    for i := 0 to |items|
      invariant Synthesis(st, items[..i]) == Ok((outcomes, connect))
    {
      FoldNext(SynthesisStepper(st), ([], false), items, i);
      var sentence := items[i].0;
      if connect {
        if sentence == [] {
          FoldFails(SynthesisStepper(st), ([], false), items, i + 1);
          return Err(IndexError);
        }
        sentence := [LowerChar(sentence[0])] + sentence[1..];
        connect := false;
      }
      var res := ProcessSentence(st, sentence, items[i].1);
      if res.Err? {
        FoldFails(SynthesisStepper(st), ([], false), items, i + 1);
        return Err(res.error);
      }
      outcomes := outcomes + [res.value.0];
      connect := res.value.1;
    }
    assert items[..|items|] == items;
    r := Ok((outcomes, connect));
  }

  /** The outcomes of the first `n` sentences are the first `n` outcomes:
      one outcome per sentence, in order. */
  lemma {:induction false} OutcomesExtend(st: Statistics, items: seq<(string, Draws)>, n: nat)
    requires Synthesis(st, items).Ok? && n <= |items|
    ensures Synthesis(st, items[..n]).Ok?
    ensures |Synthesis(st, items).value.0| == |items|
    ensures Synthesis(st, items[..n]).value.0 == Synthesis(st, items).value.0[..n]
  {
    SynthesisAppends(st);
    FoldLogs(SynthesisStepper(st), ([], false), items, n);
  }

  /** Each sentence adds exactly one outcome. */
  lemma SynthesisAppends(st: Statistics)
    ensures AppendsOne(SynthesisStepper(st))
  {
    forall t: (seq<Outcome>, bool), x: (string, Draws) | SynthesisStepper(st)(t, x).Ok?
      ensures |SynthesisStepper(st)(t, x).value.0| == |t.0| + 1
      ensures SynthesisStepper(st)(t, x).value.0[..|t.0|] == t.0
    {
      assert SynthesisStepper(st)(t, x) == SynthesisStep(st, t, x);
    }
  }

  /** The `i`-th outcome is the outcome of the `i`-th sentence, lower-cased
      at its first character exactly when the sentence before it set the
      flag; the flag reaches no further than that next sentence. */
  lemma SynthesisOutcomes(st: Statistics, items: seq<(string, Draws)>, i: int)
    requires Synthesis(st, items).Ok? && 0 <= i < |items|
    ensures |Synthesis(st, items).value.0| == |items|
    ensures Synthesis(st, items[..i]).Ok? && Synthesis(st, items[..i + 1]).Ok?
    ensures var flag := Synthesis(st, items[..i]).value.1;
      && (flag ==> items[i].0 != [])
      && SynthesizeSentence(st, if flag then LowerFirst(items[i].0).value else items[i].0, items[i].1)
         == Ok((Synthesis(st, items).value.0[i], Synthesis(st, items[..i + 1]).value.1))
  {
    OutcomesExtend(st, items, i);
    OutcomesExtend(st, items, i + 1);
    FoldNext(SynthesisStepper(st), ([], false), items, i);
    var before := Synthesis(st, items[..i]).value;
    var after := Synthesis(st, items[..i + 1]).value;
    assert Synthesis(st, items[..i + 1]) == SynthesisStep(st, before, items[i]);
    assert after.0[i] == Synthesis(st, items).value.0[i];
  }

  // ---------------------------------------------------------------- split_set

  /** `math.floor(n * 0.8)`: the double nearest 0.8 lies just above it, so
      the product never falls below the next integer down. */
  function TrainSize(n: nat): nat {
    n * 8 / 10
  }

  /** `math.floor(n * 0.1)`, for the same reason. */
  function TestSize(n: nat): nat {
    n / 10
  }

  lemma SizesFit(n: nat)
    ensures TrainSize(n) + TestSize(n) <= n
  {
    assert TrainSize(n) * 10 <= n * 8;
    assert TestSize(n) * 10 <= n;
  }

  /** `split_set`: the first lines go to the training file, the next tenth to
      the test file and the rest to the validation file, in order. */
  method SplitSet(sentences: seq<string>) returns (train: seq<string>, test: seq<string>, valid: seq<string>)
    ensures var a := TrainSize(|sentences|);
      var b := a + TestSize(|sentences|);
      && a <= b <= |sentences|
      && train == sentences[..a] && test == sentences[a..b] && valid == sentences[b..]
    ensures train + test + valid == sentences
  {
    var n := |sentences|;
    var maxTrain := TrainSize(n);
    var maxTest := TestSize(n) + maxTrain;
    SizesFit(n);
    train, test, valid := [], [], [];
    for i := 0 to n
      invariant train == sentences[..if i < maxTrain then i else maxTrain]
      invariant test == sentences[if i < maxTrain then i else maxTrain..if i < maxTest then i else maxTest]
      invariant valid == sentences[if i < maxTest then i else maxTest..i]
    {
      if i < maxTrain {
        train := train + [sentences[i]];
      } else if i < maxTest {
        test := test + [sentences[i]];
      } else {
        valid := valid + [sentences[i]];
      }
    }
    assert sentences[..maxTrain] + sentences[maxTrain..maxTest] == sentences[..maxTest];
    assert sentences[..maxTest] + sentences[maxTest..] == sentences;
  }
}
