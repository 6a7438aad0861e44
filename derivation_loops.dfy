/** The derivation of `generate_statistics` (scripts/analyzer.py:221-370) as
    the loops it is: each loop fills one table and stops at the first
    exception. Every method is proved to compute the corresponding function
    of module `Derivation`. */
module DerivationLoops {
  import opened Wrappers
  import opened PyStr
  import opened Dict
  import opened Fold
  import opened Ranking
  import opened Tally
  import opened Derivation
  import DerivationFacts

  // ---------------------------------------------------------------- percentage tables

  /** `for key, count in entries: table[key] = count / total * 100`, the
      percentage computed by `Percent`. */
  method FillShares(entries: seq<(string, real)>, total: real) returns (r: Result<Dict<string, real>>)
    ensures r == Shares(entries, total)
  {
    var table: Dict<string, real> := [];
    for k := 0 to |entries|
      invariant FoldResult(ShareStep(total), [], entries[..k]) == Ok(table)
    {
      FoldNext(ShareStep(total), [], entries, k);
      var (key, count) := entries[k];
      var p := Percent(count, total);
      if p.Err? {
        FoldFails(ShareStep(total), [], entries, k + 1);
        return Err(p.error);
      }
      table := Put(table, key, p.value);
    }
    assert entries[..|entries|] == entries;
    return Ok(table);
  }

  /** `for key, count in entries: table[key] = count / denoms[key] * 100`. */
  method FillRatios(entries: seq<(string, real)>, denoms: Dict<string, real>) returns (r: Result<Dict<string, real>>)
    ensures r == Ratios(entries, denoms)
  {
    var table: Dict<string, real> := [];
    for k := 0 to |entries|
      invariant FoldResult(RatioStep(denoms), [], entries[..k]) == Ok(table)
    {
      FoldNext(RatioStep(denoms), [], entries, k);
      var (key, count) := entries[k];
      var d := Lookup(denoms, key);
      if d.Err? {
        FoldFails(RatioStep(denoms), [], entries, k + 1);
        return Err(d.error);
      }
      var p := Percent(count, d.value);
      if p.Err? {
        FoldFails(RatioStep(denoms), [], entries, k + 1);
        return Err(p.error);
      }
      table := Put(table, key, p.value);
    }
    assert entries[..|entries|] == entries;
    return Ok(table);
  }

  // ---------------------------------------------------------------- correction mappings

  /** The inner loop over the corrections of one wrong character. */
  method FillCorrections(wrong: string, denoms: Dict<string, real>, tracked: bool, s0: FixTables,
                         corrections: Dict<string, real>) returns (r: Result<FixTables>)
    ensures r == FoldResult(CorrectionStep(wrong, denoms, tracked), s0, corrections)
  {
    var percentages, total, side := s0.percentages, s0.total, s0.side;
    for k := 0 to |corrections|
      invariant FoldResult(CorrectionStep(wrong, denoms, tracked), s0, corrections[..k]) ==
        Ok(FixTables(percentages, total, side))
    {
      FoldNext(CorrectionStep(wrong, denoms, tracked), s0, corrections, k);
      var (fix, count) := corrections[k];
      var d := Lookup(denoms, wrong);
      if d.Err? {
        FoldFails(CorrectionStep(wrong, denoms, tracked), s0, corrections, k + 1);
        return Err(d.error);
      }
      var p := Percent(count, d.value);
      if p.Err? {
        FoldFails(CorrectionStep(wrong, denoms, tracked), s0, corrections, k + 1);
        return Err(p.error);
      }
      percentages := Put2(percentages, wrong, fix, p.value);
      if tracked {
        total := Add(total, fix, count);
        side := Add(side, fix, count);
      }
    }
    assert corrections[..|corrections|] == corrections;
    return Ok(FixTables(percentages, total, side));
  }

  /** One wrong character: an empty table, then the loop over its corrections. */
  lemma {:induction false} WrongStepIs(denoms: Dict<string, real>, tracked: bool, s: FixTables,
                                       e: (string, Dict<string, real>))
    ensures WrongStep(denoms, tracked)(s, e) ==
      FoldResult(CorrectionStep(e.0, denoms, tracked), FixTables(Touch(s.percentages, e.0), s.total, s.side), e.1)
  {
  }

  /** The outer loop over the ranked wrong characters of a mapping. */
  method FillWrongs(ranked: seq<(string, Dict<string, real>)>, denoms: Dict<string, real>, tracked: bool,
                    start: FixTables) returns (r: Result<FixTables>)
    ensures r == FoldResult(WrongStep(denoms, tracked), start, ranked)
  {
    var s := start;
    for k := 0 to |ranked|
      invariant FoldResult(WrongStep(denoms, tracked), start, ranked[..k]) == Ok(s)
    {
      FoldNext(WrongStep(denoms, tracked), start, ranked, k);
      WrongStepIs(denoms, tracked, s, ranked[k]);
      var (wrong, corrections) := ranked[k];
      var next := FillCorrections(wrong, denoms, tracked, FixTables(Touch(s.percentages, wrong), s.total, s.side),
                                  corrections);
      if next.Err? {
        FoldFails(WrongStep(denoms, tracked), start, ranked, k + 1);
        return next;
      }
      s := next.value;
    }
    assert ranked[..|ranked|] == ranked;
    return Ok(s);
  }

  /** A correction mapping, largest wrong characters first. */
  method FillMappingTables(mapping: Dict<string, Dict<string, real>>, denoms: Dict<string, real>, tracked: bool,
                           start: FixTables) returns (r: Result<FixTables>)
    ensures r == MappingTables(mapping, denoms, tracked, start)
  {
    r := FillWrongs(ByInnerTotal(mapping), denoms, tracked, start);
  }

  // ---------------------------------------------------------------- combinations

  /** The nested loop that lists `(punct, word, count)` for every word and
      every mark counted before it. */
  method FlattenCounts(m: Dict<string, Dict<string, real>>) returns (flat: seq<(string, string, real)>)
    ensures flat == Flatten(m)
  {
    flat := [];
    for k := 0 to |m|
      invariant flat == Flatten(m[..k])
    {
      assert m[..k + 1][..k] == m[..k];
      var (word, counts) := m[k];
      ghost var before := flat;
      for j := 0 to |counts|
        invariant flat == before + FlattenInner(word, counts[..j])
      {
        assert counts[..j + 1][..j] == counts[..j];
        flat := flat + [(counts[j].0, word, counts[j].1)];
      }
      assert counts[..|counts|] == counts;
    }
    assert m[..|m|] == m;
  }

  /** The loop over the ranked unnecessary-character combinations, which
      acts on the first five only. */
  method FillCombinations(d: Dict<string, real>) returns (r: Result<Dict<string, string>>)
    ensures r == UnnecessaryCombinations(d)
  {
    var ranked := ByCount(d);
    var top := Take(ranked, 5);
    var combos: Dict<string, string> := [];
    for index := 0 to |ranked|
      invariant FoldResult(CombinationStep, [], top[..if index < |top| then index else |top|]) == Ok(combos)
    {
      if index < 5 {
        assert index < |top| && top[index] == ranked[index];
        FoldNext(CombinationStep, [], top, index);
        var parts := Split(ranked[index].0, " + ");
        if |parts| < 2 {
          FoldFails(CombinationStep, [], top, index + 1);
          return Err(IndexError);
        }
        combos := Put(combos, parts[1], parts[0]);
      }
    }
    assert top[..|top|] == top;
    return Ok(combos);
  }

  /** The loop that unpacks every `"<word> + <char> + <word>"` key, largest
      count first. */
  method UnpackTriples(d: Dict<string, real>) returns (r: Result<()>)
    ensures r == CheckTriples(d)
  {
    var ranked := ByCount(d);
    for k := 0 to |ranked|
      invariant forall i :: 0 <= i < k ==> |Split(ranked[i].0, " + ")| >= 3
    {
      if |Split(ranked[k].0, " + ")| < 3 {
        DerivationFacts.RankedMember(d, CountOf, ranked[k]);
        return Err(IndexError);
      }
    }
    forall i | 0 <= i < |d|
      ensures |Split(d[i].0, " + ")| >= 3
    {
      DerivationFacts.RankedMember(d, CountOf, d[i]);
    }
    return Ok(());
  }

  // ---------------------------------------------------------------- the derivation

  /** The error rate and the shares of the error types. */
  method ComputeErrorRates(t: Tally) returns (r: Result<Rates>)
    ensures r == ErrorRates(t)
  {
    var errorSentences :- Percent(t.errorSentenceCount as real, t.sentenceCount as real);
    var byType :- FillShares(t.punctErrorCounts, Sum(t.punctErrorCounts));
    var m :- Lookup(t.punctErrorCounts, "M:PUNCT");
    var u :- Lookup(t.punctErrorCounts, "U:PUNCT");
    var rr :- Lookup(t.punctErrorCounts, "R:PUNCT");
    return Ok(Rates(errorSentences, byType, m, u, rr));
  }

  /** The tables of missing, unnecessary and wrong characters. */
  method ComputeCharacterShares(t: Tally, rates: Rates) returns (r: Result<CharacterTables>)
    ensures r == CharacterShares(t, rates)
  {
    var missing :- FillShares(ByCount(t.missing), rates.m);
    var unnecessary :- FillShares(ByCount(t.unnecessary), rates.u);
    var combinations :- FillCombinations(t.unnecessaryNext);
    var _ :- UnpackTriples(t.precedingUnnecessaryNext);
    var replacement :- FillShares(ByCount(t.replacement), rates.r);
    return Ok(CharacterTables(missing, unnecessary, combinations, replacement));
  }

  /** The tables of the wrong characters by position and of their
      corrections, with the fix totals. */
  method ComputePositionShares(t: Tally) returns (r: Result<PositionTables>)
    ensures r == PositionShares(t)
  {
    var total :- FillMappingTables(t.replacementMapping, t.replacement, false, FixTables([], [], []));
    var middle :- FillRatios(ByCount(t.middleReplacement), t.replacement);
    var fixesMiddle :- FillMappingTables(t.middleMapping, t.middleReplacement, true, FixTables([], [], []));
    var end :- FillRatios(ByCount(t.endReplacement), t.replacement);
    var fixesEnd :- FillMappingTables(t.endMapping, t.endReplacement, true, FixTables([], fixesMiddle.total, []));
    return Ok(PositionTables(total.percentages, middle, fixesMiddle.percentages, end, fixesEnd.percentages,
                             fixesEnd.total, fixesMiddle.side, fixesEnd.side));
  }

  /** The fix percentages. */
  method ComputeFixPercentages(p: PositionTables, rErrors: real) returns (r: Result<FixShares>)
    ensures r == FixPercentages(p, rErrors)
  {
    var total :- FillShares(p.totalFixes, rErrors);
    var end :- FillRatios(p.endFixes, p.totalFixes);
    var middle :- FillRatios(p.middleFixes, p.totalFixes);
    return Ok(FixShares(total, end, middle));
  }

  /** `generate_statistics` after its counting loop. */
  method DeriveStatistics(t: Tally) returns (r: Result<Statistics>)
    ensures r == Derive(t)
  {
    var rates :- ComputeErrorRates(t);
    var chars :- ComputeCharacterShares(t, rates);
    var positions :- ComputePositionShares(t);
    var fixes :- ComputeFixPercentages(positions, rates.r);
    var unnecessaryErrors :- Lookup(rates.byType, "U:PUNCT");
    var missingErrors :- Lookup(rates.byType, "M:PUNCT");
    var replacementErrors :- Lookup(rates.byType, "R:PUNCT");
    var missingCombinations := FlattenCounts(t.combinationsMissing);
    return Ok(Statistics(rates.errorSentences, unnecessaryErrors, missingErrors, replacementErrors,
                         chars.unnecessary, chars.missing, chars.replacement, positions.end, positions.middle,
                         positions.fixesTotal, positions.fixesEnd, positions.fixesMiddle,
                         fixes.total, fixes.end, fixes.middle,
                         chars.combinations, Take(SortDesc(missingCombinations, CountOfTriple), 10)));
  }
}
