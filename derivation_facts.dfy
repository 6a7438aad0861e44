/** What the derivation of `generate_statistics` (scripts/analyzer.py:221-405)
    promises: on counters the counting loop produced, it raises exactly when
    the corpus has no sentence or no counted error, and for every fix its
    middle and end percentages add up to one hundred. */
module DerivationFacts {
  import opened Wrappers
  import opened PyStr
  import opened Dict
  import opened Fold
  import opened Ranking
  import opened Tally
  import opened TallyInvariants
  import opened Derivation

  // ---------------------------------------------------------------- ranked entries

  /** Ranking neither adds nor drops an entry. */
  lemma {:induction false} RankedMember<T>(xs: seq<T>, key: T -> real, x: T)
    ensures x in SortDesc(xs, key) <==> x in xs
  {
    assert x in SortDesc(xs, key) <==> x in multiset(SortDesc(xs, key));
    assert x in xs <==> x in multiset(xs);
  }

  /** Every key of a ranked table is a key of the table. */
  lemma {:induction false} RankedKey<V>(d: Dict<string, V>, key: ((string, V)) -> real, i: int)
    requires 0 <= i < |SortDesc(d, key)|
    ensures SortDesc(d, key)[i].0 in Keys(d)
  {
    RankedMember(d, key, SortDesc(d, key)[i]);
    KeyOfEntry(d, SortDesc(d, key)[i]);
  }

  // ---------------------------------------------------------------- percentage tables

  /** `denoms[k]` exists and is not zero, so `count / denoms[k]` does not raise. */
  ghost predicate Divides(denoms: Dict<string, real>, k: string) {
    k in Keys(denoms) && Get0(denoms, k) != 0.0
  }

  /** A table of shares of one total raises exactly when there is an entry
      to divide and the total is zero. */
  lemma {:induction false} SharesOk(entries: seq<(string, real)>, total: real)
    ensures Shares(entries, total).Ok? <==> entries == [] || total != 0.0
  {
    if total != 0.0 {
      FoldAllOk(ShareStep(total), [], entries);
    } else if entries != [] {
      assert entries[..0] == [];
      FoldNext(ShareStep(total), [], entries, 0);
      FoldFails(ShareStep(total), [], entries, 1);
    }
  }

  /** One entry of a ratio table raises exactly when its key does not divide. */
  lemma {:induction false} RatioStepOk(denoms: Dict<string, real>, table: Dict<string, real>, e: (string, real))
    ensures RatioStep(denoms)(table, e).Ok? <==> Divides(denoms, e.0)
  {
    Get0Get(denoms, e.0);
  }

  /** Every entry's key divides. */
  ghost predicate AllDivide(entries: seq<(string, real)>, denoms: Dict<string, real>) {
    forall i :: 0 <= i < |entries| ==> Divides(denoms, entries[i].0)
  }

  lemma {:induction false} AllDivideLast(entries: seq<(string, real)>, denoms: Dict<string, real>)
    requires entries != []
    ensures AllDivide(entries, denoms) <==>
      AllDivide(entries[..|entries| - 1], denoms) && Divides(denoms, entries[|entries| - 1].0)
  {
    assert forall i :: 0 <= i < |entries| - 1 ==> entries[..|entries| - 1][i] == entries[i];
  }

  /** A table of ratios raises exactly when some entry's key has no
      non-zero count in `denoms`. */
  lemma {:induction false} RatiosOk(entries: seq<(string, real)>, denoms: Dict<string, real>)
    ensures Ratios(entries, denoms).Ok? <==> AllDivide(entries, denoms)
  {
    if entries != [] {
      var n := |entries| - 1;
      var prefix := entries[..n];
      RatiosOk(prefix, denoms);
      AllDivideLast(entries, denoms);
      if Ratios(prefix, denoms).Ok? {
        RatioStepOk(denoms, Ratios(prefix, denoms).value, entries[n]);
      }
    }
  }

  /** The entries before the last have distinct keys, none of them the last's. */
  lemma {:induction false} DistinctLast<V>(entries: Dict<string, V>)
    requires entries != [] && DistinctKeys(entries)
    ensures DistinctKeys(entries[..|entries| - 1])
    ensures entries[|entries| - 1].0 !in Keys(entries[..|entries| - 1])
  {
    var n := |entries| - 1;
    assert forall i :: 0 <= i < n ==> Keys(entries[..n])[i] == Keys(entries)[i];
  }

  /** `r` lists the keys of `entries` in their order. */
  ghost predicate SameKeys(r: Dict<string, real>, entries: seq<(string, real)>) {
    |r| == |entries| && forall i :: 0 <= i < |r| ==> r[i].0 == entries[i].0
  }

  lemma {:induction false} SameKeysKeys(r: Dict<string, real>, entries: seq<(string, real)>)
    requires SameKeys(r, entries)
    ensures Keys(r) == Keys(entries)
  {
  }

  /** `r` holds every entry's count as a percentage of `total`. */
  ghost predicate SharesRows(r: Dict<string, real>, entries: seq<(string, real)>, total: real) {
    SameKeys(r, entries) && forall i :: 0 <= i < |r| ==> IsPercent(r[i].1, entries[i].1, total)
  }

  /** The step on a key not yet in the table appends its share. */
  lemma {:induction false} ShareStepNew(r0: Dict<string, real>, e: (string, real), total: real)
    requires total != 0.0 && e.0 !in Keys(r0)
    ensures ShareStep(total)(r0, e) == Ok(r0 + [(e.0, Percent(e.1, total).value)])
  {
    PutNew(r0, e.0, Percent(e.1, total).value);
  }

  /** Appending one share row to the rows of the earlier entries. */
  lemma {:induction false} SharesRowsAppend(r0: Dict<string, real>, entries: seq<(string, real)>, total: real,
                                            x: (string, real))
    requires entries != [] && SharesRows(r0, entries[..|entries| - 1], total)
    requires x.0 == entries[|entries| - 1].0 && IsPercent(x.1, entries[|entries| - 1].1, total)
    ensures SharesRows(r0 + [x], entries, total)
  {
    assert forall i :: 0 <= i < |r0| ==> (r0 + [x])[i] == r0[i] && entries[..|entries| - 1][i] == entries[i];
  }

  /** One more share: a new key is appended. */
  lemma {:induction false} ShareAppend(r0: Dict<string, real>, entries: seq<(string, real)>, total: real)
    requires entries != [] && total != 0.0
    requires SharesRows(r0, entries[..|entries| - 1], total)
    requires entries[|entries| - 1].0 !in Keys(entries[..|entries| - 1])
    ensures ShareStep(total)(r0, entries[|entries| - 1]).Ok?
    ensures SharesRows(ShareStep(total)(r0, entries[|entries| - 1]).value, entries, total)
  {
    var e := entries[|entries| - 1];
    SameKeysKeys(r0, entries[..|entries| - 1]);
    ShareStepNew(r0, e, total);
    SharesRowsAppend(r0, entries, total, (e.0, Percent(e.1, total).value));
  }

  /** With distinct keys, the table of shares lists every entry in order,
      each with its count as a percentage of the total. */
  lemma {:induction false} SharesEntries(entries: seq<(string, real)>, total: real)
    requires DistinctKeys(entries) && total != 0.0
    ensures Shares(entries, total).Ok? && SharesRows(Shares(entries, total).value, entries, total)
  {
    if entries != [] {
      var n := |entries| - 1;
      DistinctLast(entries);
      SharesEntries(entries[..n], total);
      ShareAppend(Shares(entries[..n], total).value, entries, total);
    }
  }

  /** `r` holds every entry's count as a percentage of its key's count in
      `denoms`. */
  ghost predicate RatioRows(r: Dict<string, real>, entries: seq<(string, real)>, denoms: Dict<string, real>) {
    SameKeys(r, entries) && forall i :: 0 <= i < |r| ==> IsPercent(r[i].1, entries[i].1, Get0(denoms, entries[i].0))
  }

  /** The step on a key not yet in the table appends its ratio. */
  lemma {:induction false} RatioStepNew(r0: Dict<string, real>, e: (string, real), denoms: Dict<string, real>)
    requires Divides(denoms, e.0) && e.0 !in Keys(r0)
    ensures RatioStep(denoms)(r0, e) == Ok(r0 + [(e.0, Percent(e.1, Get0(denoms, e.0)).value)])
  {
    Get0Get(denoms, e.0);
    PutNew(r0, e.0, Percent(e.1, Get0(denoms, e.0)).value);
  }

  /** Appending one ratio row to the rows of the earlier entries. */
  lemma {:induction false} RatioRowsAppend(r0: Dict<string, real>, entries: seq<(string, real)>, denoms: Dict<string, real>,
                                           x: (string, real))
    requires entries != [] && RatioRows(r0, entries[..|entries| - 1], denoms)
    requires x.0 == entries[|entries| - 1].0
    requires IsPercent(x.1, entries[|entries| - 1].1, Get0(denoms, entries[|entries| - 1].0))
    ensures RatioRows(r0 + [x], entries, denoms)
  {
    assert forall i :: 0 <= i < |r0| ==> (r0 + [x])[i] == r0[i] && entries[..|entries| - 1][i] == entries[i];
  }

  /** One more ratio: a new key is appended. */
  lemma {:induction false} RatioAppend(r0: Dict<string, real>, entries: seq<(string, real)>, denoms: Dict<string, real>)
    requires entries != [] && Divides(denoms, entries[|entries| - 1].0)
    requires RatioRows(r0, entries[..|entries| - 1], denoms)
    requires entries[|entries| - 1].0 !in Keys(entries[..|entries| - 1])
    ensures RatioStep(denoms)(r0, entries[|entries| - 1]).Ok?
    ensures RatioRows(RatioStep(denoms)(r0, entries[|entries| - 1]).value, entries, denoms)
  {
    var e := entries[|entries| - 1];
    SameKeysKeys(r0, entries[..|entries| - 1]);
    RatioStepNew(r0, e, denoms);
    RatioRowsAppend(r0, entries, denoms, (e.0, Percent(e.1, Get0(denoms, e.0)).value));
  }

  /** With distinct keys that all divide, the table of ratios lists every
      entry in order, each with its count as a percentage of its key's count
      in `denoms`. */
  lemma {:induction false} RatiosEntries(entries: seq<(string, real)>, denoms: Dict<string, real>)
    requires DistinctKeys(entries) && AllDivide(entries, denoms)
    ensures Ratios(entries, denoms).Ok? && RatioRows(Ratios(entries, denoms).value, entries, denoms)
  {
    if entries != [] {
      var n := |entries| - 1;
      DistinctLast(entries);
      AllDivideLast(entries, denoms);
      RatiosEntries(entries[..n], denoms);
      RatioAppend(Ratios(entries[..n], denoms).value, entries, denoms);
    }
  }

  // ---------------------------------------------------------------- correction mappings

  /** One correction raises exactly when its wrong character does not divide. */
  lemma {:induction false} CorrectionStepOk(wrong: string, denoms: Dict<string, real>, tracked: bool,
                                            s: FixTables, e: (string, real))
    ensures CorrectionStep(wrong, denoms, tracked)(s, e).Ok? <==> Divides(denoms, wrong)
  {
    Get0Get(denoms, wrong);
  }

  /** The corrections of one wrong character raise exactly when there is one
      and the character does not divide. */
  lemma {:induction false} CorrectionsOk(wrong: string, denoms: Dict<string, real>, tracked: bool,
                                         s: FixTables, inner: Dict<string, real>)
    ensures FoldResult(CorrectionStep(wrong, denoms, tracked), s, inner).Ok? <==> inner == [] || Divides(denoms, wrong)
  {
    var step := CorrectionStep(wrong, denoms, tracked);
    if Divides(denoms, wrong) {
      forall t, i | 0 <= i < |inner|
        ensures step(t, inner[i]).Ok?
      {
        CorrectionStepOk(wrong, denoms, tracked, t, inner[i]);
      }
      FoldAllOk(step, s, inner);
    } else if inner != [] {
      assert inner[..0] == [];
      CorrectionStepOk(wrong, denoms, tracked, s, inner[0]);
      FoldNext(step, s, inner, 0);
      FoldFails(step, s, inner, 1);
    }
  }

  /** Every wrong character with a correction divides. */
  ghost predicate WrongsDivide(entries: seq<(string, Dict<string, real>)>, denoms: Dict<string, real>) {
    forall i :: 0 <= i < |entries| ==> entries[i].1 == [] || Divides(denoms, entries[i].0)
  }

  lemma {:induction false} WrongsDivideLast(entries: seq<(string, Dict<string, real>)>, denoms: Dict<string, real>)
    requires entries != []
    ensures WrongsDivide(entries, denoms) <==>
      WrongsDivide(entries[..|entries| - 1], denoms) &&
      (entries[|entries| - 1].1 == [] || Divides(denoms, entries[|entries| - 1].0))
  {
    assert forall i :: 0 <= i < |entries| - 1 ==> entries[..|entries| - 1][i] == entries[i];
  }

  /** The loop over wrong characters raises exactly when one of them has a
      correction and does not divide. */
  lemma {:induction false} WrongsOk(entries: seq<(string, Dict<string, real>)>, denoms: Dict<string, real>,
                                    tracked: bool, start: FixTables)
    ensures FoldResult(WrongStep(denoms, tracked), start, entries).Ok? <==> WrongsDivide(entries, denoms)
  {
    if entries != [] {
      var n := |entries| - 1;
      WrongsOk(entries[..n], denoms, tracked, start);
      WrongsDivideLast(entries, denoms);
      var r0 := FoldResult(WrongStep(denoms, tracked), start, entries[..n]);
      if r0.Ok? {
        var e := entries[n];
        CorrectionsOk(e.0, denoms, tracked, FixTables(Touch(r0.value.percentages, e.0), r0.value.total, r0.value.side), e.1);
      }
    }
  }

  /** Ranking the wrong characters does not change which of them divide. */
  lemma {:induction false} RankedWrongsDivide(mapping: Dict<string, Dict<string, real>>, denoms: Dict<string, real>)
    ensures WrongsDivide(ByInnerTotal(mapping), denoms) <==> WrongsDivide(mapping, denoms)
  {
    var ranked := ByInnerTotal(mapping);
    if WrongsDivide(mapping, denoms) {
      forall i | 0 <= i < |ranked|
        ensures ranked[i].1 == [] || Divides(denoms, ranked[i].0)
      {
        RankedMember(mapping, InnerTotal, ranked[i]);
      }
    }
    if WrongsDivide(ranked, denoms) {
      forall i | 0 <= i < |mapping|
        ensures mapping[i].1 == [] || Divides(denoms, mapping[i].0)
      {
        RankedMember(mapping, InnerTotal, mapping[i]);
      }
    }
  }

  /** The percentage table of a correction mapping raises exactly when a
      wrong character with a correction has no non-zero count to divide by. */
  lemma {:induction false} MappingTablesOk(mapping: Dict<string, Dict<string, real>>, denoms: Dict<string, real>,
                                           tracked: bool, start: FixTables)
    ensures MappingTables(mapping, denoms, tracked, start).Ok? <==> WrongsDivide(mapping, denoms)
  {
    WrongsOk(ByInnerTotal(mapping), denoms, tracked, start);
    RankedWrongsDivide(mapping, denoms);
  }

  /** A mapping whose every wrong character was counted never raises. */
  lemma {:induction false} CountedMappingOk(mapping: Dict<string, Dict<string, real>>, denoms: Dict<string, real>,
                                            tracked: bool, start: FixTables)
    requires CountedKeys(mapping, denoms) && Positive(denoms)
    ensures MappingTables(mapping, denoms, tracked, start).Ok?
  {
    forall i | 0 <= i < |mapping|
      ensures Divides(denoms, mapping[i].0)
    {
      assert Keys(mapping)[i] == mapping[i].0;
      PositiveGet(denoms, mapping[i].0);
    }
    MappingTablesOk(mapping, denoms, tracked, start);
  }

  /** An empty mapping leaves the tables as they were. */
  lemma {:induction false} EmptyMapping(denoms: Dict<string, real>, tracked: bool, start: FixTables)
    ensures MappingTables([], denoms, tracked, start) == Ok(start)
  {
    assert ByInnerTotal([]) == [];
  }

  // ---------------------------------------------------------------- fix totals

  /** The fix totals of a tracked mapping: both hold positive counts under
      distinct keys, and every fix's total minus its side count is what it
      was at `start`. */
  ghost predicate Balanced(s: FixTables, start: FixTables) {
    && Positive(s.total) && Positive(s.side) && DistinctKeys(s.total) && DistinctKeys(s.side)
    && forall f :: Get0(s.total, f) - Get0(s.side, f) == Get0(start.total, f) - Get0(start.side, f)
  }

  /** What a tracked correction that does not raise does to the totals. */
  lemma {:induction false} CorrectionTotals(wrong: string, denoms: Dict<string, real>, s: FixTables, e: (string, real))
    requires CorrectionStep(wrong, denoms, true)(s, e).Ok?
    ensures CorrectionStep(wrong, denoms, true)(s, e).value.total == Add(s.total, e.0, e.1)
    ensures CorrectionStep(wrong, denoms, true)(s, e).value.side == Add(s.side, e.0, e.1)
  {
  }

  /** Adding the same positive count to both totals keeps the balance. */
  lemma {:induction false} AddBothBalanced(s: FixTables, s': FixTables, k: string, w: real, start: FixTables)
    requires Balanced(s, start) && w > 0.0
    requires s'.total == Add(s.total, k, w) && s'.side == Add(s.side, k, w)
    ensures Balanced(s', start)
  {
    forall f: string
      ensures Get0(s'.total, f) - Get0(s'.side, f) == Get0(start.total, f) - Get0(start.side, f)
    {
      AddGet0(s.total, k, w, f);
      AddGet0(s.side, k, w, f);
    }
    PositiveAdd(s.total, k, w);
    PositiveAdd(s.side, k, w);
    PutDistinct(s.total, k, Get0(s.total, k) + w);
    PutDistinct(s.side, k, Get0(s.side, k) + w);
  }

  /** A tracked correction with a positive count adds it to both totals. */
  lemma {:induction false} CorrectionBalanced(wrong: string, denoms: Dict<string, real>, s: FixTables,
                                              e: (string, real), start: FixTables)
    requires Balanced(s, start) && e.1 > 0.0 && CorrectionStep(wrong, denoms, true)(s, e).Ok?
    ensures Balanced(CorrectionStep(wrong, denoms, true)(s, e).value, start)
  {
    CorrectionTotals(wrong, denoms, s, e);
    AddBothBalanced(s, CorrectionStep(wrong, denoms, true)(s, e).value, e.0, e.1, start);
  }

  /** The tracked corrections of one wrong character keep the balance. */
  lemma {:induction false} CorrectionsBalanced(wrong: string, denoms: Dict<string, real>, s: FixTables,
                                               inner: Dict<string, real>, start: FixTables)
    requires Balanced(s, start) && Positive(inner)
    ensures FoldResult(CorrectionStep(wrong, denoms, true), s, inner).Ok? ==>
      Balanced(FoldResult(CorrectionStep(wrong, denoms, true), s, inner).value, start)
  {
    if inner != [] {
      var n := |inner| - 1;
      assert Positive(inner[..n]) by {
        assert forall i :: 0 <= i < n ==> inner[..n][i] == inner[i];
      }
      CorrectionsBalanced(wrong, denoms, s, inner[..n], start);
      var r0 := FoldResult(CorrectionStep(wrong, denoms, true), s, inner[..n]);
      if r0.Ok? && CorrectionStep(wrong, denoms, true)(r0.value, inner[n]).Ok? {
        CorrectionBalanced(wrong, denoms, r0.value, inner[n], start);
      }
    }
  }

  lemma {:induction false} Positive2Prefix(entries: seq<(string, Dict<string, real>)>)
    requires entries != [] && Positive2(entries)
    ensures Positive2(entries[..|entries| - 1]) && Positive(entries[|entries| - 1].1)
  {
    assert forall i :: 0 <= i < |entries| - 1 ==> entries[..|entries| - 1][i] == entries[i];
  }

  /** One wrong character of a tracked mapping keeps the balance. */
  lemma {:induction false} WrongBalanced(denoms: Dict<string, real>, s: FixTables,
                                         e: (string, Dict<string, real>), start: FixTables)
    requires Balanced(s, start) && Positive(e.1)
    ensures WrongStep(denoms, true)(s, e).Ok? ==> Balanced(WrongStep(denoms, true)(s, e).value, start)
  {
    CorrectionsBalanced(e.0, denoms, FixTables(Touch(s.percentages, e.0), s.total, s.side), e.1, start);
  }

  /** The loop over the wrong characters of a tracked mapping keeps the balance. */
  lemma {:induction false} WrongsBalanced(denoms: Dict<string, real>, entries: seq<(string, Dict<string, real>)>,
                                          start: FixTables)
    requires Balanced(start, start) && Positive2(entries)
    ensures FoldResult(WrongStep(denoms, true), start, entries).Ok? ==>
      Balanced(FoldResult(WrongStep(denoms, true), start, entries).value, start)
  {
    if entries != [] {
      var n := |entries| - 1;
      Positive2Prefix(entries);
      WrongsBalanced(denoms, entries[..n], start);
      var r0 := FoldResult(WrongStep(denoms, true), start, entries[..n]);
      if r0.Ok? {
        WrongBalanced(denoms, r0.value, entries[n], start);
      }
    }
  }

  /** The fix totals of a tracked mapping grow by the same amount in
      `total` and in `side`, and only by positive counts. */
  lemma {:induction false} MappingBalanced(mapping: Dict<string, Dict<string, real>>, denoms: Dict<string, real>,
                                           start: FixTables)
    requires Balanced(start, start) && Positive2(mapping)
    ensures MappingTables(mapping, denoms, true, start).Ok? ==>
      Balanced(MappingTables(mapping, denoms, true, start).value, start)
  {
    var ranked := ByInnerTotal(mapping);
    forall i | 0 <= i < |ranked|
      ensures Positive(ranked[i].1)
    {
      RankedMember(mapping, InnerTotal, ranked[i]);
    }
    WrongsBalanced(denoms, ranked, start);
  }

  // ---------------------------------------------------------------- the error rates

  /** The three error counters add up to the total of `punct_error_counts`. */
  lemma {:induction false} PunctSum(punct: Dict<string, real>)
    requires Keys(punct) == PunctKeys
    ensures DistinctKeys(punct)
    ensures Sum(punct) == Get0(punct, "M:PUNCT") + Get0(punct, "U:PUNCT") + Get0(punct, "R:PUNCT")
  {
    assert punct[0].0 == "M:PUNCT" && punct[1].0 == "U:PUNCT" && punct[2].0 == "R:PUNCT";
    assert "M:PUNCT"[0] != "U:PUNCT"[0] && "M:PUNCT"[0] != "R:PUNCT"[0] && "U:PUNCT"[0] != "R:PUNCT"[0];
    var rest := punct[1..];
    assert rest[0] == punct[1] && rest[1..][0] == punct[2] && rest[1..][1..] == [];
    assert Get0(punct, "U:PUNCT") == Get0(rest, "U:PUNCT") == punct[1].1;
    assert Get0(punct, "R:PUNCT") == Get0(rest, "R:PUNCT") == Get0(rest[1..], "R:PUNCT") == punct[2].1;
    assert Sum(rest[1..]) == punct[2].1 + Sum(rest[1..][1..]) == punct[2].1;
    assert Sum(punct) == punct[0].1 + Sum(rest) == punct[0].1 + punct[1].1 + Sum(rest[1..]);
    assert Get0(punct, "M:PUNCT") == punct[0].1;
  }

  /** On conserved counters the error rates raise exactly when there is no
      sentence or no counted error; otherwise each type's share is its count
      as a percentage of all counted errors. */
  lemma {:induction false} ErrorRatesOk(t: Tally)
    requires Conserved(t)
    ensures ErrorRates(t).Ok? <==> t.sentenceCount > 0 && Sum(t.punctErrorCounts) > 0.0
    ensures ErrorRates(t).Ok? ==>
      var rates := ErrorRates(t).value;
      && IsPercent(rates.errorSentences, t.errorSentenceCount as real, t.sentenceCount as real)
      && SharesRows(rates.byType, t.punctErrorCounts, Sum(t.punctErrorCounts))
      && rates.m == Get0(t.punctErrorCounts, "M:PUNCT")
      && rates.u == Get0(t.punctErrorCounts, "U:PUNCT")
      && rates.r == Get0(t.punctErrorCounts, "R:PUNCT")
  {
    var punct := t.punctErrorCounts;
    PunctSum(punct);
    PositiveSum(t.unnecessary);
    PositiveSum(t.replacement);
    SharesOk(punct, Sum(punct));
    if Sum(punct) != 0.0 {
      SharesEntries(punct, Sum(punct));
    }
    Get0Get(punct, "M:PUNCT");
    Get0Get(punct, "U:PUNCT");
    Get0Get(punct, "R:PUNCT");
  }

  // ---------------------------------------------------------------- the character tables

  /** A ranked table of positive counts succeeds whenever the total is
      positive as soon as there is an entry. */
  lemma {:induction false} RankedSharesOk(d: Dict<string, real>, total: real)
    requires d != [] ==> total > 0.0
    ensures Shares(ByCount(d), total).Ok?
  {
    SharesOk(ByCount(d), total);
  }

  /** Keys that split into two words never make the combinations raise. */
  lemma {:induction false} CombinationsOk(d: Dict<string, real>)
    requires SplitsInto(d, 2)
    ensures UnnecessaryCombinations(d).Ok?
  {
    var top := Take(ByCount(d), 5);
    forall combos, i | 0 <= i < |top|
      ensures CombinationStep(combos, top[i]).Ok?
    {
      RankedKey(d, CountOf, i);
    }
    FoldAllOk(CombinationStep, [], top);
  }

  /** Keys that split into three words never make the unpacking raise. */
  lemma {:induction false} TriplesOk(d: Dict<string, real>)
    requires SplitsInto(d, 3)
    ensures CheckTriples(d).Ok?
  {
    assert forall i :: 0 <= i < |d| ==> Keys(d)[i] == d[i].0;
  }

  /** Once the error rates succeed, the character tables do too. */
  lemma {:induction false} CharacterSharesOk(t: Tally)
    requires Conserved(t) && ErrorRates(t).Ok?
    ensures CharacterShares(t, ErrorRates(t).value).Ok?
  {
    var rates := ErrorRates(t).value;
    ErrorRatesOk(t);
    PositiveSum(t.unnecessary);
    PositiveSum(t.replacement);
    RankedSharesOk(t.missing, rates.m);
    RankedSharesOk(t.unnecessary, rates.u);
    RankedSharesOk(t.replacement, rates.r);
    CombinationsOk(t.unnecessaryNext);
    TriplesOk(t.precedingUnnecessaryNext);
  }

  // ---------------------------------------------------------------- the position tables

  /** Every character counted at one position divides the replacement counts. */
  lemma {:induction false} PositionDivides(t: Tally, side: Dict<string, real>, other: Dict<string, real>)
    requires Conserved(t) && Positive(side) && Positive(other)
    requires forall c :: Get0(side, c) + Get0(other, c) == Get0(t.replacement, c)
    ensures AllDivide(ByCount(side), t.replacement)
  {
    var ranked := ByCount(side);
    forall i | 0 <= i < |ranked|
      ensures Divides(t.replacement, ranked[i].0)
    {
      var c := ranked[i].0;
      RankedKey(side, CountOf, i);
      PositiveGet(side, c);
      PositiveGet(other, c);
      PositiveGet(t.replacement, c);
    }
  }

  /** The empty fix tables a tracked mapping starts from. */
  const NoFixes: FixTables := FixTables([], [], [])

  /** What the position tables promise the fix percentages: the fix totals
      are positive counts under distinct keys, each fix's total is its
      middle count plus its end count, and there is a fix only if there is
      a wrong character. */
  ghost predicate FixTotals(p: PositionTables, t: Tally) {
    && Positive(p.totalFixes) && Positive(p.middleFixes) && Positive(p.endFixes)
    && DistinctKeys(p.totalFixes) && DistinctKeys(p.middleFixes) && DistinctKeys(p.endFixes)
    && (forall f :: Get0(p.totalFixes, f) == Get0(p.middleFixes, f) + Get0(p.endFixes, f))
    && (p.totalFixes != [] ==> t.replacement != [])
  }

  /** Without a wrong character there is no middle or end mapping. */
  lemma {:induction false} NoReplacementNoMappings(t: Tally)
    requires Conserved(t) && t.replacement == []
    ensures t.middleMapping == [] && t.endMapping == []
  {
    if t.middleMapping != [] {
      var c := t.middleMapping[0].0;
      assert Keys(t.middleMapping)[0] == c;
      PositiveGet(t.endReplacement, c);
    }
    if t.endMapping != [] {
      var c := t.endMapping[0].0;
      assert Keys(t.endMapping)[0] == c;
      PositiveGet(t.middleReplacement, c);
    }
  }

  /** The middle and end mappings: the fix totals of the end mapping start
      from those of the middle mapping. */
  lemma {:induction false} FixMappingsBalanced(t: Tally)
    requires Conserved(t)
    ensures MappingTables(t.middleMapping, t.middleReplacement, true, NoFixes).Ok?
    ensures var middle := MappingTables(t.middleMapping, t.middleReplacement, true, NoFixes).value;
      && Balanced(middle, NoFixes)
      && MappingTables(t.endMapping, t.endReplacement, true, FixTables([], middle.total, [])).Ok?
      && Balanced(MappingTables(t.endMapping, t.endReplacement, true, FixTables([], middle.total, [])).value,
                  FixTables([], middle.total, []))
      && (t.replacement == [] ==>
            && middle == NoFixes
            && MappingTables(t.endMapping, t.endReplacement, true, FixTables([], middle.total, [])).value ==
               FixTables([], middle.total, []))
  {
    CountedMappingOk(t.middleMapping, t.middleReplacement, true, NoFixes);
    MappingBalanced(t.middleMapping, t.middleReplacement, NoFixes);
    var middle := MappingTables(t.middleMapping, t.middleReplacement, true, NoFixes).value;
    var endStart := FixTables([], middle.total, []);
    CountedMappingOk(t.endMapping, t.endReplacement, true, endStart);
    MappingBalanced(t.endMapping, t.endReplacement, endStart);
    if t.replacement == [] {
      NoReplacementNoMappings(t);
      EmptyMapping(t.middleReplacement, true, NoFixes);
      EmptyMapping(t.endReplacement, true, endStart);
    }
  }

  /** On conserved counters the position tables never raise, and they
      leave fix totals that balance. */
  lemma {:induction false} PositionSharesOk(t: Tally)
    requires Conserved(t)
    ensures PositionShares(t).Ok? && FixTotals(PositionShares(t).value, t)
  {
    CountedMappingOk(t.replacementMapping, t.replacement, false, NoFixes);
    PositionDivides(t, t.middleReplacement, t.endReplacement);
    RatiosOk(ByCount(t.middleReplacement), t.replacement);
    PositionDivides(t, t.endReplacement, t.middleReplacement);
    RatiosOk(ByCount(t.endReplacement), t.replacement);
    FixMappingsBalanced(t);
    var middle := MappingTables(t.middleMapping, t.middleReplacement, true, NoFixes).value;
    var end := MappingTables(t.endMapping, t.endReplacement, true, FixTables([], middle.total, [])).value;
    var p := PositionShares(t).value;
    assert p.totalFixes == end.total && p.middleFixes == middle.side && p.endFixes == end.side;
    forall f: string
      ensures Get0(p.totalFixes, f) == Get0(p.middleFixes, f) + Get0(p.endFixes, f)
    {
      assert Get0(middle.total, f) - Get0(middle.side, f) == 0.0;
      assert Get0(end.total, f) - Get0(end.side, f) == Get0(middle.total, f);
    }
  }

  // ---------------------------------------------------------------- the fix percentages

  /** The count a ratio table holds for a key. */
  lemma {:induction false} RatioGet0(r: Dict<string, real>, entries: seq<(string, real)>, denoms: Dict<string, real>,
                                     k: string)
    requires RatioRows(r, entries, denoms) && DistinctKeys(entries)
    ensures k in Keys(entries) ==> IsPercent(Get0(r, k), Get0(entries, k), Get0(denoms, k))
    ensures k !in Keys(entries) ==> Get0(r, k) == 0.0
  {
    SameKeysKeys(r, entries);
    Get0Get(r, k);
    Get0Get(entries, k);
    if k in Keys(entries) {
      var i :| 0 <= i < |entries| && Keys(entries)[i] == k;
      GetEntry(r, i);
      GetEntry(entries, i);
    }
  }

  /** Two percentages of parts that make up a whole add up to one hundred. */
  lemma {:induction false} PartsMakeHundred(a: real, b: real, x: real, y: real, total: real)
    requires IsPercent(a, x, total) && IsPercent(b, y, total) && x + y == total && total != 0.0
    ensures a + b == 100.0
  {
    assert (a + b - 100.0) * total == 0.0;
  }

  /** Every fix counted at one position divides the fix totals. */
  lemma {:induction false} FixSideDivides(side: Dict<string, real>, other: Dict<string, real>, total: Dict<string, real>)
    requires Positive(side) && Positive(other) && Positive(total)
    requires forall f :: Get0(total, f) == Get0(side, f) + Get0(other, f)
    ensures AllDivide(side, total)
  {
    forall i | 0 <= i < |side|
      ensures Divides(total, side[i].0)
    {
      var f := side[i].0;
      assert Keys(side)[i] == f;
      PositiveGet(side, f);
      PositiveGet(other, f);
      PositiveGet(total, f);
    }
  }

  /** The fix percentages never raise after the position tables, and for
      every fix its end and middle percentages add up to one hundred. */
  lemma {:induction false} FixPercentagesOk(p: PositionTables, t: Tally, r: real)
    requires FixTotals(p, t) && (t.replacement != [] ==> r != 0.0)
    ensures FixPercentages(p, r).Ok?
    ensures var fixes := FixPercentages(p, r).value;
      && SharesRows(fixes.total, p.totalFixes, r)
      && forall f :: f in Keys(fixes.total) ==> Get0(fixes.end, f) + Get0(fixes.middle, f) == 100.0
  {
    SharesOk(p.totalFixes, r);
    if p.totalFixes != [] {
      SharesEntries(p.totalFixes, r);
    }
    FixSideDivides(p.endFixes, p.middleFixes, p.totalFixes);
    FixSideDivides(p.middleFixes, p.endFixes, p.totalFixes);
    RatiosEntries(p.endFixes, p.totalFixes);
    RatiosEntries(p.middleFixes, p.totalFixes);
    var fixes := FixPercentages(p, r).value;
    forall f | f in Keys(fixes.total)
      ensures Get0(fixes.end, f) + Get0(fixes.middle, f) == 100.0
    {
      SameKeysKeys(fixes.total, p.totalFixes);
      PositiveGet(p.totalFixes, f);
      PositiveGet(p.endFixes, f);
      PositiveGet(p.middleFixes, f);
      RatioGet0(fixes.end, p.endFixes, p.totalFixes, f);
      RatioGet0(fixes.middle, p.middleFixes, p.totalFixes, f);
      PartsMakeHundred(Get0(fixes.end, f), Get0(fixes.middle, f), Get0(p.endFixes, f), Get0(p.middleFixes, f),
                       Get0(p.totalFixes, f));
    }
  }

  // ---------------------------------------------------------------- the whole derivation

  /** The shares of the three error types: each type's count as a
      percentage of all counted errors, together one hundred. */
  lemma {:induction false} TypeShares(punct: Dict<string, real>, byType: Dict<string, real>)
    requires Keys(punct) == PunctKeys && Sum(punct) != 0.0 && SharesRows(byType, punct, Sum(punct))
    ensures Lookup(byType, "M:PUNCT").Ok? && Lookup(byType, "U:PUNCT").Ok? && Lookup(byType, "R:PUNCT").Ok?
    ensures IsPercent(Lookup(byType, "M:PUNCT").value, Get0(punct, "M:PUNCT"), Sum(punct))
    ensures IsPercent(Lookup(byType, "U:PUNCT").value, Get0(punct, "U:PUNCT"), Sum(punct))
    ensures IsPercent(Lookup(byType, "R:PUNCT").value, Get0(punct, "R:PUNCT"), Sum(punct))
    ensures Lookup(byType, "M:PUNCT").value + Lookup(byType, "U:PUNCT").value + Lookup(byType, "R:PUNCT").value == 100.0
  {
    PunctSum(punct);
    SameKeysKeys(byType, punct);
    GetEntry(byType, 0);
    GetEntry(byType, 1);
    GetEntry(byType, 2);
    GetEntry(punct, 0);
    GetEntry(punct, 1);
    GetEntry(punct, 2);
    Get0Get(punct, "M:PUNCT");
    Get0Get(punct, "U:PUNCT");
    Get0Get(punct, "R:PUNCT");
    var m := Lookup(byType, "M:PUNCT").value;
    var u := Lookup(byType, "U:PUNCT").value;
    var r := Lookup(byType, "R:PUNCT").value;
    assert (m + u + r - 100.0) * Sum(punct) == 0.0;
  }

  /** On counters the counting loop produced, `generate_statistics` raises
      exactly when the corpus has no sentence or no counted error. When it
      returns, the error rate is the error sentences per sentence, each
      error type's share is its count as a percentage of all counted errors
      and the shares add up to one hundred, and for every fix of a wrong
      character its end and middle percentages add up to one hundred. */
  lemma {:induction false} DeriveOk(t: Tally)
    requires Conserved(t)
    ensures Derive(t).Ok? <==> t.sentenceCount > 0 && Sum(t.punctErrorCounts) > 0.0
    ensures Derive(t).Ok? ==>
      var st := Derive(t).value;
      var punct := t.punctErrorCounts;
      && IsPercent(st.totalPunctErrors, t.errorSentenceCount as real, t.sentenceCount as real)
      && IsPercent(st.missingErrors, Get0(punct, "M:PUNCT"), Sum(punct))
      && IsPercent(st.unnecessaryErrors, Get0(punct, "U:PUNCT"), Sum(punct))
      && IsPercent(st.replacementErrors, Get0(punct, "R:PUNCT"), Sum(punct))
      && st.missingErrors + st.unnecessaryErrors + st.replacementErrors == 100.0
      && forall f :: f in Keys(st.totalFixPercentages) ==>
           Get0(st.endFixPercentages, f) + Get0(st.middleFixPercentages, f) == 100.0
  {
    ErrorRatesOk(t);
    if ErrorRates(t).Ok? {
      var rates := ErrorRates(t).value;
      CharacterSharesOk(t);
      PositionSharesOk(t);
      PositiveSum(t.replacement);
      var p := PositionShares(t).value;
      FixPercentagesOk(p, t, rates.r);
      TypeShares(t.punctErrorCounts, rates.byType);
    }
  }
}
