/** The decisions and text edits of the error generator: which punctuation
    to corrupt, how, and the edit itself. Every random pick is
    `random.choices` over the value `random()` returns, passed in as a draw. */
module ErrorGenerator {
  import opened Wrappers
  import opened PyStr
  import opened Dict
  import opened Sampling

  /** The outcome of the error/no-error coin flip (`"yes"` / `"no"`). */
  datatype Decision = Yes | No

  /** The three error types `"u"`, `"m"` and `"r"`. */
  datatype ErrorKind = Unnecessary | Missing | Replacement

  /** Where a replacement error goes: `"end"` or `"middle"`. */
  datatype Position = End | Middle

  // ---------------------------------------------------------------- collect_punctuations

  /** The ASCII punctuation characters of `s`, in order and with repeats,
      each as a one-character string. */
  function Punctuations(s: string): seq<string> {
    if s == [] then []
    else Punctuations(s[..|s| - 1]) + (if IsAsciiPunct(s[|s| - 1]) then [[s[|s| - 1]]] else [])
  }

  /** `collect_punctuations`: one pass over the sentence, appending each
      punctuation character. */
  method CollectPunctuations(sentence: string) returns (r: seq<string>)
    ensures r == Punctuations(sentence)
  {
    r := [];
    for i := 0 to |sentence|
      invariant r == Punctuations(sentence[..i])
    {
      assert sentence[..i + 1][..i] == sentence[..i];
      if IsAsciiPunct(sentence[i]) {
        r := r + [[sentence[i]]];
      }
    }
    assert sentence[..|sentence|] == sentence;
  }

  /** Collecting distributes over concatenation: the order of the sentence
      is kept. */
  lemma {:induction false} PunctuationsAppend(a: string, b: string)
    ensures Punctuations(a + b) == Punctuations(a) + Punctuations(b)
    decreases |b|
  {
    if b != [] {
      var b' := b[..|b| - 1];
      assert (a + b)[..|a + b| - 1] == a + b';
      PunctuationsAppend(a, b');
    } else {
      assert a + b == a;
    }
  }

  /** The collected items are exactly the one-character strings made of an
      ASCII punctuation character of the sentence; other marks are dropped. */
  lemma {:induction false} PunctuationsMembers(s: string, x: string)
    ensures x in Punctuations(s) <==> |x| == 1 && x[0] in s && IsAsciiPunct(x[0])
  {
    if s != [] {
      var s' := s[..|s| - 1];
      var c := s[|s| - 1];
      PunctuationsMembers(s', x);
      assert s == s' + [c];
      assert Punctuations(s) == Punctuations(s') + (if IsAsciiPunct(c) then [[c]] else []);
      if |x| == 1 {
        assert x == [x[0]];
        assert x[0] in s <==> x[0] in s' || x[0] == c;
      }
    }
  }

  // ---------------------------------------------------------------- coin and error type

  /** `determine_punct_error(percentage)`: weights `percentage` and
      `100 - percentage` always total 100, so the flip never raises, and it
      comes up "yes" exactly when the draw scaled to 100 falls below the
      percentage. */
  function DeterminePunctError(percentage: real, draw: real): (r: Result<Decision>)
    ensures r == Ok(if draw * 100.0 < percentage then Yes else No)
  {
    var weights := [percentage, 100.0 - percentage];
    assert Total(weights) == 100.0 by {
      assert Prefix(weights, 2) == Prefix(weights, 1) + weights[1];
      assert Prefix(weights, 1) == Prefix(weights, 0) + weights[0];
    }
    assert Accumulate(weights)[0] == percentage by {
      assert Prefix(weights, 1) == Prefix(weights, 0) + weights[0];
    }
    Choose([Yes, No], weights, draw)
  }

  /** `determine_error_type(u, m, r, u_error_is_possible)`. */
  function DetermineErrorType(u: real, m: real, r: real, uPossible: bool, draw: real): (res: Result<ErrorKind>)
    ensures res.Ok? <==> (if uPossible then u else 0.0) + m + r > 0.0
    ensures !uPossible && draw >= 0.0 && res.Ok? ==> res.value != Unnecessary
  {
    var weights := [if uPossible then u else 0.0, m, r];
    assert Total(weights) == weights[0] + m + r by {
      assert Prefix(weights, 3) == Prefix(weights, 2) + r;
      assert Prefix(weights, 2) == Prefix(weights, 1) + m;
      assert Prefix(weights, 1) == Prefix(weights, 0) + weights[0];
    }
    var res := Choose([Unnecessary, Missing, Replacement], weights, draw);
    assert !uPossible && draw >= 0.0 && res.Ok? ==> res.value != Unnecessary by {
      assert draw >= 0.0 && Total(weights) > 0.0 ==> draw * Total(weights) >= 0.0;
      if !uPossible && draw >= 0.0 && res.Ok? && ChoiceIndex(weights, draw) == 0 {
        FirstPickedOnlyBelowItsWeight(weights, draw * Total(weights));
        assert false;
      }
    }
    res
  }

  // ---------------------------------------------------------------- unnecessary character

  /** `determine_unnecessary_character`: a key of the unnecessary-punctuation
      table that is among the sentence's candidate characters. IndexError when
      there is none, ValueError when their weights do not add up to a
      positive total. */
  function DetermineUnnecessaryCharacter(unnecessary: Dict<string, real>, options: seq<string>, draw: real): (r: Result<string>)
    ensures r.Ok? ==> r.value in Keys(unnecessary) && r.value in options
    ensures r == Err(IndexError) <==> forall i :: 0 <= i < |unnecessary| ==> unnecessary[i].0 !in options
  {
    var candidates := Restrict(unnecessary, options);
    var r := ChooseKey(candidates, draw);
    assert r.Ok? ==> r.value in Keys(unnecessary) by {
      if r.Ok? {
        var e := candidates[ChoiceIndex(Values(candidates), draw)];
        var i :| 0 <= i < |unnecessary| && unnecessary[i] == e;
        assert Keys(unnecessary)[i] == r.value;
      }
    }
    assert candidates == [] <==> forall i :: 0 <= i < |unnecessary| ==> unnecessary[i].0 !in options by {
      if candidates != [] {
        var e := candidates[0];
        var i :| 0 <= i < |unnecessary| && unnecessary[i] == e;
      }
    }
    r
  }

  /** When every table weight is positive and some key is a candidate, the
      pick succeeds. */
  lemma {:induction false} UnnecessaryPickSucceeds(unnecessary: Dict<string, real>, options: seq<string>, draw: real, i: nat)
    requires Positive(unnecessary) && i < |unnecessary| && unnecessary[i].0 in options
    ensures DetermineUnnecessaryCharacter(unnecessary, options, draw).Ok?
  {
    var candidates := Restrict(unnecessary, options);
    var j :| 0 <= j < |candidates| && candidates[j] == unnecessary[i];
    assert Values(candidates)[j] > 0.0;
    assert NonNegative(Values(candidates)) by {
      forall k | 0 <= k < |candidates|
        ensures Values(candidates)[k] >= 0.0
      {
        assert candidates[k] in unnecessary;
      }
    }
    TotalPositive(Values(candidates), j);
  }

  // ---------------------------------------------------------------- missing character

  /** `s.strip().split()[0] if s.strip() else ""`: the first word of a segment. */
  function FirstWord(part: string): (w: string)
    ensures w == [] || IsToken(w)
  {
    var t := Strip(part);
    if t != [] then SplitWhitespace(t)[0] else ""
  }

  /** The pairs contributed by one punctuation: the word of every segment
      after the first, when it has one. `word` says how a segment yields its
      word; the scripts take its first token. */
  function SegmentPairsBy(punct: string, parts: seq<string>, word: string -> string): seq<(string, string)> {
    if |parts| <= 1 then []
    else
      var w := word(parts[|parts| - 1]);
      SegmentPairsBy(punct, parts[..|parts| - 1], word) + (if w != [] then [(punct, w)] else [])
  }

  /** The pairs contributed by one punctuation: the first word of every
      segment after the first, when there is one. */
  function SegmentPairs(punct: string, parts: seq<string>): seq<(string, string)> {
    SegmentPairsBy(punct, parts, FirstWord)
  }

  predicate NoEmpty(xs: seq<string>) {
    forall i :: 0 <= i < |xs| ==> xs[i] != []
  }

  /** The `(punct, word)` pairs of the sentence, punctuation by punctuation
      (repeats included). */
  function PunctWordPairs(puncts: seq<string>, sentence: string): seq<(string, string)>
    requires NoEmpty(puncts)
  {
    if puncts == [] then []
    else
      var p := puncts[|puncts| - 1];
      PunctWordPairs(puncts[..|puncts| - 1], sentence) + SegmentPairs(p, Split(sentence, p))
  }

  /** Every pair holds one of the given punctuation marks and a whole token. */
  ghost predicate PairsOf(r: seq<(string, string)>, puncts: seq<string>) {
    forall i :: 0 <= i < |r| ==> r[i].0 in puncts && IsToken(r[i].1)
  }

  lemma {:induction false} SegmentPairsByShape(punct: string, parts: seq<string>, word: string -> string)
    requires forall part :: word(part) == [] || IsToken(word(part))
    ensures PairsOf(SegmentPairsBy(punct, parts, word), [punct])
  {
    if |parts| > 1 {
      SegmentPairsByShape(punct, parts[..|parts| - 1], word);
    }
  }

  /** Every pair of one punctuation holds that punctuation and a whole token. */
  lemma SegmentPairsShape(punct: string, parts: seq<string>)
    ensures PairsOf(SegmentPairs(punct, parts), [punct])
  {
    forall part
      ensures FirstWord(part) == [] || IsToken(FirstWord(part))
    {
    }
    SegmentPairsByShape(punct, parts, FirstWord);
  }

  /** Every pair of the sentence holds one of its punctuation marks and a
      whole token. */
  lemma {:induction false} PunctWordPairsShape(puncts: seq<string>, sentence: string)
    requires NoEmpty(puncts)
    ensures PairsOf(PunctWordPairs(puncts, sentence), puncts)
  {
    if puncts != [] {
      var p := puncts[|puncts| - 1];
      var prefix := puncts[..|puncts| - 1];
      PunctWordPairsShape(prefix, sentence);
      SegmentPairsShape(p, Split(sentence, p));
      var left: seq<(string, string)> := PunctWordPairs(prefix, sentence);
      var right: seq<(string, string)> := SegmentPairs(p, Split(sentence, p));
      forall i | 0 <= i < |left| + |right|
        ensures (left + right)[i].0 in puncts && IsToken((left + right)[i].1)
      {
        if i < |left| {
          assert (left + right)[i] == left[i];
          assert left[i].0 in prefix;
        } else {
          assert (left + right)[i] == right[i - |left|];
          assert right[i - |left|].0 in [p];
        }
      }
    }
  }

  /** Folds the known combinations over one pair: every triple that matches
      the pair stores its weight under `(word, punct)`, later ones overwriting. */
  function MatchCombinations(top: Dict<(string, string), real>, pair: (string, string), combos: seq<(string, string, real)>): Dict<(string, string), real> {
    if combos == [] then top
    else
      var d := MatchCombinations(top, pair, combos[..|combos| - 1]);
      var c := combos[|combos| - 1];
      if pair.1 == c.1 && pair.0 == c.0 then Put(d, (pair.1, pair.0), c.2) else d
  }

  /** `top_combination_weights` after the nested loops. */
  function TopWeights(pairs: seq<(string, string)>, combos: seq<(string, string, real)>): Dict<(string, string), real> {
    if pairs == [] then []
    else MatchCombinations(TopWeights(pairs[..|pairs| - 1], combos), pairs[|pairs| - 1], combos)
  }

  /** `max` over a non-empty list of weights: the first position holding
      the largest weight. */
  function ArgMaxFirst(vs: seq<real>): (r: nat)
    requires vs != []
    ensures r < |vs|
    ensures forall j :: 0 <= j < |vs| ==> vs[j] <= vs[r]
    ensures forall j :: 0 <= j < r ==> vs[j] < vs[r]
  {
    if |vs| == 1 then 0
    else
      var b := ArgMaxFirst(vs[..|vs| - 1]);
      if vs[|vs| - 1] > vs[b] then |vs| - 1 else b
  }

  /** `max(top, key=top.get)`: the position of the first entry with the
      largest weight. */
  function BestIndex<K>(top: Dict<K, real>): (i: nat)
    requires top != []
    ensures i < |top|
    ensures forall j :: 0 <= j < |top| ==> top[j].1 <= top[i].1
    ensures forall j :: 0 <= j < i ==> top[j].1 < top[i].1
  {
    var vs := Values(top);
    var i := ArgMaxFirst(vs);
    assert forall j :: 0 <= j < |top| ==> vs[j] == top[j].1;
    i
  }

  /** What `determine_missing_character` returns: the best known
      (punct, word) combination of the sentence, else a weighted pick among
      the sentence's punctuation with no word, else `(None, "")`.
      ValueError when a punctuation is the empty string (`str.split("")`). */
  function MissingChoice(puncts: seq<string>, missing: Dict<string, real>, sentence: string,
                         combos: seq<(string, string, real)>, draw: real): Result<(Option<string>, string)>
  {
    if !NoEmpty(puncts) then Err(ValueError)
    else
      var top := TopWeights(PunctWordPairs(puncts, sentence), combos);
      if top != [] then
        var best := top[BestIndex(top)].0;
        Ok((Some(best.1), best.0))
      else
        var options := Restrict(missing, puncts);
        if options == [] then Ok((None, ""))
        else
          var c :- ChooseKey(options, draw);
          Ok((Some(c), ""))
  }

  lemma {:induction false} SegmentPairsByStep(punct: string, parts: seq<string>, i: nat, word: string -> string)
    requires 1 <= i < |parts|
    ensures SegmentPairsBy(punct, parts[..i + 1], word)
         == SegmentPairsBy(punct, parts[..i], word)
          + (if word(parts[i]) != [] then [(punct, word(parts[i]))] else [])
  {
    var q := parts[..i + 1];
    assert q[..|q| - 1] == parts[..i];
    assert q[|q| - 1] == parts[i];
  }

  /** The inner loop of the pair extraction: one punctuation's segments. */
  method CollectSegmentPairs(punct: string, sentence: string) returns (pairs: seq<(string, string)>)
    requires punct != []
    ensures pairs == SegmentPairs(punct, Split(sentence, punct))
  {
    var parts := Split(sentence, punct);
    pairs := [];
    for i := 1 to |parts|
      invariant pairs == SegmentPairs(punct, parts[..i])
    {
      SegmentPairsByStep(punct, parts, i, FirstWord);
      var word := FirstWord(parts[i]);
      if word != [] {
        pairs := pairs + [(punct, word)];
      }
    }
    assert parts[..|parts|] == parts;
  }

  lemma {:induction false} PunctWordPairsStep(puncts: seq<string>, sentence: string, k: nat)
    requires k < |puncts| && NoEmpty(puncts[..k]) && puncts[k] != []
    ensures NoEmpty(puncts[..k + 1])
    ensures PunctWordPairs(puncts[..k + 1], sentence)
         == PunctWordPairs(puncts[..k], sentence) + SegmentPairs(puncts[k], Split(sentence, puncts[k]))
  {
    var q := puncts[..k + 1];
    assert q[..|q| - 1] == puncts[..k];
    assert q[|q| - 1] == puncts[k];
    forall i | 0 <= i < |q|
      ensures q[i] != []
    {
      if i < k {
        assert q[i] == puncts[..k][i];
      }
    }
  }

  /** The first loop of `determine_missing_character`: the pairs of the
      sentence; `str.split("")` raises ValueError. */
  method CollectPairs(puncts: seq<string>, sentence: string) returns (r: Result<seq<(string, string)>>)
    ensures NoEmpty(puncts) ==> r == Ok(PunctWordPairs(puncts, sentence))
    ensures !NoEmpty(puncts) ==> r == Err(ValueError)
  {
    var pairs: seq<(string, string)> := [];
    for k := 0 to |puncts|
      invariant NoEmpty(puncts[..k])
      invariant pairs == PunctWordPairs(puncts[..k], sentence)
    {
      if puncts[k] == [] {
        NoEmptyAt(puncts, k);
        return Err(ValueError);
      }
      pairs := AppendSegmentPairs(puncts, sentence, k, pairs);
    }
    assert puncts[..|puncts|] == puncts;
    return Ok(pairs);
  }

  /** An empty punctuation anywhere makes the list fail `NoEmpty`. */
  lemma NoEmptyAt(puncts: seq<string>, k: nat)
    requires k < |puncts| && puncts[k] == []
    ensures !NoEmpty(puncts)
  {
  }

  /** One pass of the first loop of `determine_missing_character`. */
  method AppendSegmentPairs(puncts: seq<string>, sentence: string, k: nat, pairs: seq<(string, string)>)
    returns (pairs': seq<(string, string)>)
    requires k < |puncts| && NoEmpty(puncts[..k]) && puncts[k] != []
    requires pairs == PunctWordPairs(puncts[..k], sentence)
    ensures NoEmpty(puncts[..k + 1])
    ensures pairs' == PunctWordPairs(puncts[..k + 1], sentence)
  {
    PunctWordPairsStep(puncts, sentence, k);
    var more := CollectSegmentPairs(puncts[k], sentence);
    pairs' := pairs + more;
  }

  /** The second loop of `determine_missing_character`: the weights of the
      pairs that are known combinations. */
  method MatchTopCombinations(pairs: seq<(string, string)>, combos: seq<(string, string, real)>)
    returns (top: Dict<(string, string), real>)
    ensures top == TopWeights(pairs, combos)
  {
    top := [];
    for a := 0 to |pairs|
      invariant top == TopWeights(pairs[..a], combos)
    {
      assert pairs[..a + 1][..a] == pairs[..a];
      var pair := pairs[a];
      for b := 0 to |combos|
        invariant top == MatchCombinations(TopWeights(pairs[..a], combos), pair, combos[..b])
      {
        assert combos[..b + 1][..b] == combos[..b];
        var (combPunct, combWord, combWeight) := combos[b];
        if pair.1 == combWord && pair.0 == combPunct {
          top := Put(top, (pair.1, pair.0), combWeight);
        }
      }
      assert combos[..|combos|] == combos;
    }
    assert pairs[..|pairs|] == pairs;
  }

  /** `determine_missing_character`: the two loops, then the pick. */
  method DetermineMissingCharacter(puncts: seq<string>, missing: Dict<string, real>, sentence: string,
                                   combos: seq<(string, string, real)>, draw: real)
    returns (r: Result<(Option<string>, string)>)
    ensures r == MissingChoice(puncts, missing, sentence, combos, draw)
  {
    var pairs :- CollectPairs(puncts, sentence);
    var top := MatchTopCombinations(pairs, combos);
    if top != [] {
      var best := top[BestIndex(top)].0;
      return Ok((Some(best.1), best.0));
    }
    var options := Restrict(missing, puncts);
    if options == [] {
      return Ok((None, ""));
    }
    var c :- ChooseKey(options, draw);
    return Ok((Some(c), ""));
  }

  /** Every matched entry comes from a pair of the sentence and a triple of
      the combinations carrying exactly that weight. */
  lemma {:induction false} MatchCombinationsSource(top: Dict<(string, string), real>, pair: (string, string),
                                                   combos: seq<(string, string, real)>, i: int)
    requires 0 <= i < |MatchCombinations(top, pair, combos)|
    ensures var e := MatchCombinations(top, pair, combos)[i];
      e in top || (e.0 == (pair.1, pair.0) && (pair.0, pair.1, e.1) in combos)
  {
    if combos != [] {
      var d := MatchCombinations(top, pair, combos[..|combos| - 1]);
      var c := combos[|combos| - 1];
      var e := MatchCombinations(top, pair, combos)[i];
      if pair.1 == c.1 && pair.0 == c.0 {
        var r := Put(d, (pair.1, pair.0), c.2);
        assert e == r[i];
        PutEntry(d, (pair.1, pair.0), c.2, i);
        if e != ((pair.1, pair.0), c.2) {
          var j :| 0 <= j < |d| && d[j] == e;
          MatchCombinationsSource(top, pair, combos[..|combos| - 1], j);
        }
      } else {
        MatchCombinationsSource(top, pair, combos[..|combos| - 1], i);
      }
    }
  }

  /** An entry of `Put(d, k, v)` is the new entry or an entry of `d`. */
  lemma {:induction false} PutEntry<K, V>(d: Dict<K, V>, k: K, v: V, i: int)
    requires 0 <= i < |Put(d, k, v)|
    ensures Put(d, k, v)[i] == (k, v) || Put(d, k, v)[i] in d
  {
    if d != [] && d[0].0 != k && i > 0 {
      PutEntry(d[1..], k, v, i - 1);
    }
  }

  lemma {:induction false} TopWeightsSource(pairs: seq<(string, string)>, combos: seq<(string, string, real)>, i: int)
    requires 0 <= i < |TopWeights(pairs, combos)|
    ensures var e := TopWeights(pairs, combos)[i];
      (e.0.1, e.0.0) in pairs && (e.0.1, e.0.0, e.1) in combos
  {
    if pairs != [] {
      var ps := pairs[..|pairs| - 1];
      var pair := pairs[|pairs| - 1];
      var prev := TopWeights(ps, combos);
      var e := TopWeights(pairs, combos)[i];
      MatchCombinationsSource(prev, pair, combos, i);
      if e in prev {
        var j :| 0 <= j < |prev| && prev[j] == e;
        TopWeightsSource(ps, combos, j);
      }
    }
  }

  /** When some pair of the sentence is a known combination, the result is
      the matched `(punct, word)` with the largest weight, the first one on
      ties; it is a pair of the sentence and a triple of the combinations. */
  lemma {:induction false} MissingChoiceFromCombinations(puncts: seq<string>, missing: Dict<string, real>, sentence: string,
                                                         combos: seq<(string, string, real)>, draw: real)
    requires NoEmpty(puncts)
    requires TopWeights(PunctWordPairs(puncts, sentence), combos) != []
    ensures var top := TopWeights(PunctWordPairs(puncts, sentence), combos);
      var e := top[BestIndex(top)];
      && MissingChoice(puncts, missing, sentence, combos, draw) == Ok((Some(e.0.1), e.0.0))
      && (e.0.1, e.0.0) in PunctWordPairs(puncts, sentence)
      && (e.0.1, e.0.0, e.1) in combos
      && e.0.1 in puncts && IsToken(e.0.0)
  {
    var pairs := PunctWordPairs(puncts, sentence);
    var top := TopWeights(pairs, combos);
    var i := BestIndex(top);
    TopWeightsSource(pairs, combos, i);
    PunctWordPairsShape(puncts, sentence);
    var k :| 0 <= k < |pairs| && pairs[k] == (top[i].0.1, top[i].0.0);
  }

  /** Without a known combination the word is empty and the mark is a
      missing-punctuation key that occurs in the sentence, or None exactly
      when no such key exists. */
  lemma {:induction false} MissingChoiceFallback(puncts: seq<string>, missing: Dict<string, real>, sentence: string,
                              combos: seq<(string, string, real)>, draw: real)
    requires NoEmpty(puncts)
    requires TopWeights(PunctWordPairs(puncts, sentence), combos) == []
    ensures var r := MissingChoice(puncts, missing, sentence, combos, draw);
      r.Ok? ==> (
        && r.value.1 == []
        && (r.value.0.None? <==> forall i :: 0 <= i < |missing| ==> missing[i].0 !in puncts)
        && (r.value.0.Some? ==> r.value.0.value in Keys(missing) && r.value.0.value in puncts))
  {
    var options := Restrict(missing, puncts);
    var r := MissingChoice(puncts, missing, sentence, combos, draw);
    if options != [] {
      var e := options[0];
      var i :| 0 <= i < |missing| && missing[i] == e;
      if r.Ok? {
        var c := ChooseKey(options, draw).value;
        var e := options[ChoiceIndex(Values(options), draw)];
        var i :| 0 <= i < |missing| && missing[i] == e;
        assert Keys(missing)[i] == c;
      }
    }
  }

  // ---------------------------------------------------------------- replacement character

  /** Some correction of `fixes` is among the sentence's punctuation
      (`set(fixes) & set(puncts)` is not empty). */
  predicate SharesKey(fixes: Dict<string, real>, puncts: seq<string>) {
    exists j :: 0 <= j < |fixes| && fixes[j].0 in puncts
  }

  /** `wrong_options`: the wrong characters whose corrections meet the
      sentence. Looking up `total_fixes[key]` raises KeyError for a wrong
      character without a correction table. */
  function WrongOptions(wrong: Dict<string, real>, totalFixes: Dict<string, Dict<string, real>>, puncts: seq<string>): (r: Result<Dict<string, real>>)
    ensures r.Err? <==> exists i :: 0 <= i < |wrong| && wrong[i].0 !in Keys(totalFixes)
    ensures r.Err? ==> r.error == KeyError
    ensures r.Ok? ==> forall i :: 0 <= i < |r.value| ==>
      r.value[i] in wrong && r.value[i].0 in Keys(totalFixes) && SharesKey(Inner(totalFixes, r.value[i].0), puncts)
    ensures r.Ok? ==> forall i :: 0 <= i < |wrong| && SharesKey(Inner(totalFixes, wrong[i].0), puncts) ==> wrong[i] in r.value
  {
    if wrong == [] then Ok([])
    else if wrong[0].0 !in Keys(totalFixes) then Err(KeyError)
    else
      var rest := WrongOptions(wrong[1..], totalFixes, puncts);
      assert rest.Err? ==> exists i :: 0 <= i < |wrong| && wrong[i].0 !in Keys(totalFixes) by {
        if rest.Err? {
          var i :| 0 <= i < |wrong[1..]| && wrong[1..][i].0 !in Keys(totalFixes);
          assert wrong[i + 1] == wrong[1..][i];
        }
      }
      if rest.Err? then rest
      else Ok((if SharesKey(Inner(totalFixes, wrong[0].0), puncts) then [wrong[0]] else []) + rest.value)
  }

  /** The position pick: `"end"` weighted by the end table and `"middle"`
      by the middle table, an absent entry weighing 0. */
  function PickPosition(middleFixes: Dict<string, Dict<string, real>>, endFixes: Dict<string, Dict<string, real>>,
                        wrong: string, correct: string, draw: real): (r: Result<Position>)
    ensures r.Ok? <==> Get2(endFixes, wrong, correct) + Get2(middleFixes, wrong, correct) > 0.0
  {
    var weights := [Get2(endFixes, wrong, correct), Get2(middleFixes, wrong, correct)];
    assert Total(weights) == weights[0] + weights[1] by {
      assert Prefix(weights, 2) == Prefix(weights, 1) + weights[1];
      assert Prefix(weights, 1) == Prefix(weights, 0) + weights[0];
    }
    Choose([End, Middle], weights, draw)
  }

  /** With non-negative entries and a draw in [0, 1), the position drawn
      has a positive weight. */
  lemma {:induction false} PickPositionWeighted(middleFixes: Dict<string, Dict<string, real>>, endFixes: Dict<string, Dict<string, real>>,
                             wrong: string, correct: string, draw: real)
    requires 0.0 <= draw < 1.0
    requires Get2(endFixes, wrong, correct) >= 0.0 && Get2(middleFixes, wrong, correct) >= 0.0
    requires PickPosition(middleFixes, endFixes, wrong, correct, draw).Ok?
    ensures PickPosition(middleFixes, endFixes, wrong, correct, draw).value == End ==> Get2(endFixes, wrong, correct) > 0.0
    ensures PickPosition(middleFixes, endFixes, wrong, correct, draw).value == Middle ==> Get2(middleFixes, wrong, correct) > 0.0
  {
    var weights := [Get2(endFixes, wrong, correct), Get2(middleFixes, wrong, correct)];
    PickHasPositiveWeight(weights, draw);
  }

  /** The wrong character: a weighted pick among the wrong options. */
  function PickWrong(wrong: Dict<string, real>, totalFixes: Dict<string, Dict<string, real>>,
                     puncts: seq<string>, draw: real): (r: Result<string>)
    ensures r.Ok? ==> r.value in Keys(wrong) && r.value in Keys(totalFixes)
                      && SharesKey(Inner(totalFixes, r.value), puncts)
    ensures r == Err(KeyError) <==> exists i :: 0 <= i < |wrong| && wrong[i].0 !in Keys(totalFixes)
    ensures (forall i :: 0 <= i < |wrong| ==> wrong[i].0 in Keys(totalFixes)) ==>
      (r == Err(IndexError) <==> forall i :: 0 <= i < |wrong| ==> !SharesKey(Inner(totalFixes, wrong[i].0), puncts))
  {
    var options :- WrongOptions(wrong, totalFixes, puncts);
    var r := ChooseKey(options, draw);
    assert r.Ok? ==> r.value in Keys(wrong) by {
      if r.Ok? {
        KeyOfEntry(wrong, options[ChoiceIndex(Values(options), draw)]);
      }
    }
    assert options == [] <==> forall i :: 0 <= i < |wrong| ==> !SharesKey(Inner(totalFixes, wrong[i].0), puncts) by {
      if options != [] {
        assert options[0] in wrong;
      }
    }
    r
  }

  /** The correct character: a weighted pick among the corrections of
      `w` that occur in the sentence. */
  function PickCorrection(totalFixes: Dict<string, Dict<string, real>>, w: string,
                          puncts: seq<string>, draw: real): (r: Result<string>)
    ensures r.Ok? ==> r.value in Keys(Inner(totalFixes, w)) && r.value in puncts
    ensures r == Err(IndexError) <==> !SharesKey(Inner(totalFixes, w), puncts)
  {
    var inner := Inner(totalFixes, w);
    var corrections := Restrict(inner, puncts);
    var r := ChooseKey(corrections, draw);
    assert r.Ok? ==> r.value in Keys(inner) by {
      if r.Ok? {
        KeyOfEntry(inner, corrections[ChoiceIndex(Values(corrections), draw)]);
      }
    }
    assert corrections == [] <==> !SharesKey(inner, puncts) by {
      if SharesKey(inner, puncts) {
        var j :| 0 <= j < |inner| && inner[j].0 in puncts;
        assert inner[j] in corrections;
      }
    }
    r
  }

  /** `determine_replacement_character`: the correct character, the wrong
      character and the position. The wrong character has a correction
      table, the correct character is one of its corrections that occurs in
      the sentence, and the position is drawn for that pair. KeyError exactly
      when some wrong character has no correction table; otherwise
      IndexError exactly when no wrong character has a correction in the
      sentence. */
  function DetermineReplacementCharacter(wrong: Dict<string, real>, puncts: seq<string>,
                                         totalFixes: Dict<string, Dict<string, real>>,
                                         middleFixes: Dict<string, Dict<string, real>>,
                                         endFixes: Dict<string, Dict<string, real>>,
                                         draw1: real, draw2: real, draw3: real): (r: Result<(string, string, Position)>)
    ensures r.Ok? ==>
      && r.value.1 in Keys(wrong) && r.value.1 in Keys(totalFixes)
      && r.value.0 in Keys(Inner(totalFixes, r.value.1)) && r.value.0 in puncts
      && PickPosition(middleFixes, endFixes, r.value.1, r.value.0, draw3) == Ok(r.value.2)
    ensures r == Err(KeyError) <==> exists i :: 0 <= i < |wrong| && wrong[i].0 !in Keys(totalFixes)
    ensures (forall i :: 0 <= i < |wrong| ==> wrong[i].0 in Keys(totalFixes)) ==>
      (r == Err(IndexError) <==> forall i :: 0 <= i < |wrong| ==> !SharesKey(Inner(totalFixes, wrong[i].0), puncts))
  {
    var w :- PickWrong(wrong, totalFixes, puncts, draw1);
    var c :- PickCorrection(totalFixes, w, puncts, draw2);
    var p :- PickPosition(middleFixes, endFixes, w, c, draw3);
    Ok((c, w, p))
  }

  // ---------------------------------------------------------------- the edits

  /** The sentence with `ch` inserted right after the first occurrence of
      `pre`, or unchanged when `pre` does not occur. */
  function InsertAfterFirst(s: string, pre: string, ch: string): string {
    var p := Find(s, pre, 0);
    if p < 0 then s else s[..p + |pre|] + ch + s[p + |pre|..]
  }

  /** `s.replace(pre, pre + ch, 1)` is that insertion. */
  lemma {:induction false} ReplaceFirstInserts(s: string, pre: string, ch: string)
    ensures ReplaceFirst(s, pre, pre + ch) == InsertAfterFirst(s, pre, ch)
  {
    var p := Find(s, pre, 0);
    if p >= 0 {
      assert OccursAt(s, pre, p);
      var a := s[..p];
      var b := s[p + |pre|..];
      assert s[..p + |pre|] == a + pre;
      calc {
        ReplaceFirst(s, pre, pre + ch);
        a + (pre + ch) + b;
        (a + pre) + ch + b;
      }
    }
  }

  /** `generate_u_error`: unchanged when the word is the first word;
      otherwise the character goes right after the first occurrence of the
      word before it. IndexError for no words, ValueError for a word that is
      not among them. */
  function GenerateUError(sentence: string, words: seq<string>, character: string, word: string): (r: Result<string>)
    ensures words == [] ==> r == Err(IndexError)
    ensures words != [] && word == words[0] ==> r == Ok(sentence)
    ensures words != [] && word != words[0] ==> (r.Ok? <==> word in words)
  {
    if words == [] then Err(IndexError)
    else if word == words[0] then Ok(sentence)
    else match IndexOf(words, word)
      case None => Err(ValueError)
      case Some(i) =>
        var pre := words[i - 1];
        Ok(ReplaceFirst(sentence, pre, pre + character))
  }

  /** Away from the first word, the edit inserts the character after the
      first occurrence of the preceding word and changes nothing else. */
  lemma {:induction false} UErrorInserts(sentence: string, words: seq<string>, character: string, word: string)
    requires words != [] && word != words[0] && word in words
    ensures var i := IndexOf(words, word).value;
      i > 0 && GenerateUError(sentence, words, character, word) == Ok(InsertAfterFirst(sentence, words[i - 1], character))
  {
    var i := IndexOf(words, word).value;
    ReplaceFirstInserts(sentence, words[i - 1], character);
  }

  /** Taking the inserted character out again gives back the sentence. */
  lemma {:induction false} InsertAfterFirstUndo(s: string, pre: string, ch: string)
    requires Find(s, pre, 0) >= 0
    ensures var p := Find(s, pre, 0) + |pre|;
      var r := InsertAfterFirst(s, pre, ch);
      |r| == |s| + |ch| && r[..p] + r[p + |ch|..] == s
  {
    var p := Find(s, pre, 0) + |pre|;
    assert OccursAt(s, pre, p - |pre|);
    assert InsertAfterFirst(s, pre, ch) == s[..p] + ch + s[p..];
    InsertUndo(s, p, ch);
  }

  lemma InsertUndo(s: string, p: int, ch: string)
    requires 0 <= p <= |s|
    ensures var r := s[..p] + ch + s[p..];
      |r| == |s| + |ch| && r[..p] + r[p + |ch|..] == s
  {
    var r := s[..p] + ch + s[p..];
    assert r[..p] == s[..p];
    assert r[p + |ch|..] == s[p..];
  }

  /** The sentence without the `n` characters at `p`. */
  function DeleteAt(s: string, p: int, n: nat): string
    requires 0 <= p && p + n <= |s|
  {
    s[..p] + s[p + n..]
  }

  /** What `generate_m_error` leaves: with a word, the character goes from
      the first occurrence of `character + " " + word`; without one, from the
      first occurrence of the character; the sentence is unchanged when
      that text does not occur. */
  function MError(sentence: string, character: string, word: string): string {
    var target := if word != [] then character + " " + word else character;
    MErrorAt(sentence, character, target)
  }

  /** The deletion of `character` at the first occurrence of `target`, which
      starts with it. */
  function MErrorAt(sentence: string, character: string, target: string): string
    requires |character| <= |target|
  {
    var p := Find(sentence, target, 0);
    if p < 0 then sentence else DeleteAt(sentence, p, |character|)
  }

  /** `generate_m_error`: the `while True` search for the occurrences of the
      combination, or the counted `for` loop over the occurrences of the
      character. */
  method GenerateMError(sentence: string, character: string, word: string) returns (r: string)
    ensures r == MError(sentence, character, word)
  {
    if word != [] {
      var combination := character + " " + word;
      assert MError(sentence, character, word) == MErrorAt(sentence, character, combination);
      var positions := CombinationPositions(sentence, combination);
      if positions != [] {
        var pos := positions[0];
        SpliceDeletes(sentence, character, word, pos);
        r := sentence[..pos] + " " + word + sentence[pos + |combination|..];
      } else {
        r := sentence;
      }
    } else {
      assert MError(sentence, character, word) == MErrorAt(sentence, character, character);
      var pos := FirstCharacter(sentence, character);
      if pos != -1 {
        r := sentence[..pos] + sentence[pos + |character|..];
      } else {
        r := sentence;
      }
    }
  }

  /** The starts of the non-overlapping occurrences of `sub` from `start`
      on, read left to right: an occurrence is taken wherever one begins,
      and the reading resumes after its end. */
  function OccurrenceStarts(s: string, sub: string, start: nat): seq<int>
    requires sub != []
    decreases |s| - start
  {
    if start + |sub| > |s| then []
    else if OccursAt(s, sub, start) then [start] + OccurrenceStarts(s, sub, start + |sub|)
    else OccurrenceStarts(s, sub, start + 1)
  }

  /** When `find` finds nothing, there is no start. */
  lemma {:induction false} OccurrenceStartsNone(s: string, sub: string, start: nat)
    requires sub != [] && Find(s, sub, start) < 0
    ensures OccurrenceStarts(s, sub, start) == []
    decreases |s| - start
  {
    if start + |sub| <= |s| {
      assert !OccursAt(s, sub, start);
      assert Find(s, sub, start) == Find(s, sub, start + 1);
      OccurrenceStartsNone(s, sub, start + 1);
    }
  }

  /** Otherwise `find` gives the first start, and the starts resume after
      that occurrence. */
  lemma {:induction false} OccurrenceStartsFirst(s: string, sub: string, start: nat)
    requires sub != [] && Find(s, sub, start) >= 0
    ensures Find(s, sub, start) + |sub| <= |s|
    ensures OccurrenceStarts(s, sub, start)
         == [Find(s, sub, start)] + OccurrenceStarts(s, sub, Find(s, sub, start) + |sub|)
    decreases |s| - start
  {
    if !OccursAt(s, sub, start) {
      assert Find(s, sub, start) == Find(s, sub, start + 1);
      OccurrenceStartsFirst(s, sub, start + 1);
    } else {
      assert Find(s, sub, start) == start;
    }
  }

  /** One pass of the search loop keeps "the starts found so far, then the
      starts still to find, are all the starts". */
  lemma OccurrenceStartsStep(s: string, sub: string, start: nat, found: seq<int>, all: seq<int>)
    requires sub != [] && found + OccurrenceStarts(s, sub, start) == all
    ensures Find(s, sub, start) < 0 ==> found == all
    ensures Find(s, sub, start) >= 0 ==>
      && start < Find(s, sub, start) + |sub| <= |s|
      && (found + [Find(s, sub, start)]) + OccurrenceStarts(s, sub, Find(s, sub, start) + |sub|) == all
  {
    var p := Find(s, sub, start);
    if p < 0 {
      OccurrenceStartsNone(s, sub, start);
    } else {
      OccurrenceStartsFirst(s, sub, start);
      assert (found + [p]) + OccurrenceStarts(s, sub, p + |sub|) == found + ([p] + OccurrenceStarts(s, sub, p + |sub|));
    }
  }

  /** Every start is an occurrence, and each begins at least `|sub|` after
      the one before, so no two overlap. */
  lemma {:induction false} OccurrenceStartsSound(s: string, sub: string, start: nat)
    requires sub != []
    ensures forall i :: 0 <= i < |OccurrenceStarts(s, sub, start)| ==>
      start <= OccurrenceStarts(s, sub, start)[i] && OccursAt(s, sub, OccurrenceStarts(s, sub, start)[i])
    ensures forall i :: 0 < i < |OccurrenceStarts(s, sub, start)| ==>
      OccurrenceStarts(s, sub, start)[i - 1] + |sub| <= OccurrenceStarts(s, sub, start)[i]
    decreases |s| - start
  {
    if start + |sub| <= |s| {
      if OccursAt(s, sub, start) {
        var rest := OccurrenceStarts(s, sub, start + |sub|);
        OccurrenceStartsSound(s, sub, start + |sub|);
        var ps := [start] + rest;
        assert OccurrenceStarts(s, sub, start) == ps;
        forall i | 0 <= i < |ps|
          ensures start <= ps[i] && OccursAt(s, sub, ps[i])
        {
          if i > 0 { assert ps[i] == rest[i - 1]; }
        }
        forall i | 0 < i < |ps|
          ensures ps[i - 1] + |sub| <= ps[i]
        {
          assert ps[i] == rest[i - 1];
          if i > 1 { assert ps[i - 1] == rest[i - 2]; }
        }
      } else {
        OccurrenceStartsSound(s, sub, start + 1);
      }
    }
  }

  /** No occurrence is skipped: every occurrence from `start` on begins
      inside one of the occurrences whose starts are collected. */
  lemma {:induction false} OccurrenceStartsComplete(s: string, sub: string, start: nat, q: int)
    requires sub != []
    requires start <= q && OccursAt(s, sub, q)
    ensures exists i :: (0 <= i < |OccurrenceStarts(s, sub, start)|
      && OccurrenceStarts(s, sub, start)[i] <= q < OccurrenceStarts(s, sub, start)[i] + |sub|)
    decreases |s| - start
  {
    var ps := OccurrenceStarts(s, sub, start);
    if OccursAt(s, sub, start) {
      var rest := OccurrenceStarts(s, sub, start + |sub|);
      assert ps == [start] + rest;
      if q < start + |sub| {
        assert ps[0] <= q < ps[0] + |sub|;
      } else {
        OccurrenceStartsComplete(s, sub, start + |sub|, q);
        var i :| 0 <= i < |rest| && rest[i] <= q < rest[i] + |sub|;
        assert ps[i + 1] == rest[i];
      }
    } else {
      assert q != start;
      assert ps == OccurrenceStarts(s, sub, start + 1);
      OccurrenceStartsComplete(s, sub, start + 1, q);
    }
  }

  /** The `while True` loop of `generate_m_error`: the start of every
      non-overlapping occurrence of `combination`; only the first is used. */
  method CombinationPositions(sentence: string, combination: string) returns (positions: seq<int>)
    requires combination != []
    ensures positions == OccurrenceStarts(sentence, combination, 0)
    ensures positions == [] <==> Find(sentence, combination, 0) < 0
    ensures positions != [] ==> positions[0] == Find(sentence, combination, 0)
  {
    if Find(sentence, combination, 0) < 0 {
      OccurrenceStartsNone(sentence, combination, 0);
    } else {
      OccurrenceStartsFirst(sentence, combination, 0);
    }
    var start: nat := 0;
    positions := [];
    while true
      invariant start <= |sentence|
      invariant positions + OccurrenceStarts(sentence, combination, start) == OccurrenceStarts(sentence, combination, 0)
      decreases |sentence| - start
    {
      OccurrenceStartsStep(sentence, combination, start, positions, OccurrenceStarts(sentence, combination, 0));
      var found := Find(sentence, combination, start);
      if found == -1 {
        break;
      }
      positions := positions + [found];
      start := found + |combination|;
    }
  }


  /** The `for` loop of `generate_m_error` without a word: the first
      occurrence of the character, -1 when there is none. */
  method FirstCharacter(sentence: string, character: string) returns (pos: int)
    ensures pos == Find(sentence, character, 0)
  {
    pos := -1;
    var n := Count(sentence, character);
    for k := 0 to n
      invariant k == 0 && pos == -1
    {
      pos := Find(sentence, character, pos + 1);
      if pos != -1 && sentence[pos..pos + |character|] == character {
        break;
      }
      assert false;
    }
  }

  /** Keeping the word after the mark is deleting the mark alone. */
  lemma SpliceDeletes(sentence: string, character: string, word: string, pos: int)
    requires OccursAt(sentence, character + " " + word, pos)
    ensures sentence[..pos] + " " + word + sentence[pos + |character + " " + word|..]
         == DeleteAt(sentence, pos, |character|)
  {
    var combination := character + " " + word;
    assert sentence[pos..pos + |combination|] == combination;
    assert sentence[pos + |character|..pos + |combination|] == " " + word;
    assert sentence[pos + |character|..] == " " + word + sentence[pos + |combination|..];
  }

  /** Deleting the first `n` characters of an occurrence of `target` at
      `p` can be undone by putting them back. */
  lemma {:induction false} DeleteRestores(s: string, target: string, n: nat, p: int)
    requires n <= |target| && OccursAt(s, target, p)
    ensures |DeleteAt(s, p, n)| + n == |s|
    ensures s[p..p + n] == target[..n]
    ensures DeleteAt(s, p, n)[..p] + target[..n] + DeleteAt(s, p, n)[p..] == s
  {
    var m := s[p..p + n];
    assert m == s[p..p + |target|][..n];
    var a := s[..p];
    var b := s[p + n..];
    var r := DeleteAt(s, p, n);
    assert r == a + b;
    assert r[..p] == a;
    assert r[p..] == b;
    assert s == a + m + b;
  }

  /** The missing-punctuation edit removes the character and nothing else:
      the result is shorter by the character, which occurs at `p`, and
      putting it back at `p` restores the sentence. */
  lemma {:induction false} MErrorDeletesOne(sentence: string, character: string, word: string)
    ensures var target := if word != [] then character + " " + word else character;
      var p := Find(sentence, target, 0);
      var r := MError(sentence, character, word);
      && (p < 0 ==> r == sentence)
      && (p >= 0 ==> (
        && |r| + |character| == |sentence|
        && sentence[p..p + |character|] == character
        && r[..p] + character + r[p..] == sentence))
  {
    var target := if word != [] then character + " " + word else character;
    var p := Find(sentence, target, 0);
    if p >= 0 {
      assert target[..|character|] == character;
      DeleteRestores(sentence, target, |character|, p);
    }
  }

  /** `generate_r_error`: `str.replace` of every occurrence; in the middle
      case of the correct character, in the end case of whatever character
      ends the sentence. */
  function GenerateRError(sentence: string, endPunct: string, correct: string, wrong: string, position: Position): string {
    match position
    case Middle => ReplaceAll(sentence, correct, wrong)
    case End => ReplaceAll(sentence, endPunct, wrong)
  }

  /** For one-character marks the edit swaps every occurrence of the mark
      for the wrong character and keeps every other character. The end case
      therefore also rewrites earlier occurrences of the final character. */
  lemma {:induction false} RErrorReplacesEveryOccurrence(sentence: string, endPunct: string, correct: string, wrong: string, position: Position)
    requires |correct| == 1 && |endPunct| == 1
    ensures var c := if position == Middle then correct[0] else endPunct[0];
      GenerateRError(sentence, endPunct, correct, wrong, position) == ReplaceChar(sentence, c, wrong)
  {
    var c := if position == Middle then correct[0] else endPunct[0];
    assert (if position == Middle then correct else endPunct) == [c];
    ReplaceAllOneChar(sentence, c, wrong);
  }

  /** Replacing a character by one the sentence lacks can be undone. */
  lemma {:induction false} ReplaceCharRoundTrip(s: string, c: char, d: char)
    requires d !in s
    ensures ReplaceChar(ReplaceChar(s, c, [d]), d, [c]) == s
  {
    if s != [] {
      ReplaceCharRoundTrip(s[1..], c, d);
      var head := if s[0] == c then [d] else [s[0]];
      assert ReplaceChar(s, c, [d]) == head + ReplaceChar(s[1..], c, [d]);
      ReplaceCharAppend(head, ReplaceChar(s[1..], c, [d]), d, [c]);
      assert ReplaceChar(head, d, [c]) == [s[0]] by {
        assert head[1..] == [];
      }
      assert s == [s[0]] + s[1..];
    }
  }

  lemma {:induction false} ReplaceCharAppend(a: string, b: string, c: char, repl: string)
    ensures ReplaceChar(a + b, c, repl) == ReplaceChar(a, c, repl) + ReplaceChar(b, c, repl)
  {
    if a != [] {
      assert (a + b)[1..] == a[1..] + b;
      ReplaceCharAppend(a[1..], b, c, repl);
    } else {
      assert a + b == b;
    }
  }
}
