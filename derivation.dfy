/** The second half of `generate_statistics` (scripts/analyzer.py:221-405):
    from the counters of the corpus to the percentage tables and ranked
    lists it returns. Percentages are exact ratios `count / total * 100`;
    a division by zero or a missing key is the `Err` the source raises. The
    tables are filled in the order the source iterates: by descending count,
    ties in insertion order. */
module Derivation {
  import opened Wrappers
  import opened PyStr
  import opened Dict
  import opened Fold
  import opened Ranking
  import opened Tally

  /** The dictionary `generate_statistics` returns. */
  datatype Statistics = Statistics(
    totalPunctErrors: real,
    unnecessaryErrors: real,
    missingErrors: real,
    replacementErrors: real,
    unnecessaryPunctuation: Dict<string, real>,
    missingPunctuation: Dict<string, real>,
    replacementPunctuation: Dict<string, real>,
    replacementEndPunctuation: Dict<string, real>,
    replacementMiddlePunctuation: Dict<string, real>,
    fixesTotalPunctuation: Dict<string, Dict<string, real>>,
    fixesEndPunctuation: Dict<string, Dict<string, real>>,
    fixesMiddlePunctuation: Dict<string, Dict<string, real>>,
    totalFixPercentages: Dict<string, real>,
    endFixPercentages: Dict<string, real>,
    middleFixPercentages: Dict<string, real>,
    unnecessaryCombinations: Dict<string, string>,
    missingCombinations: seq<(string, string, real)>)

  /** `p` is `count` as a percentage of `total`. */
  predicate IsPercent(p: real, count: real, total: real) {
    p * total == count * 100.0
  }

  /** `count / total * 100`. */
  function Percent(count: real, total: real): (r: Result<real>)
    ensures r.Ok? <==> total != 0.0
    ensures r.Ok? ==> IsPercent(r.value, count, total)
  {
    if total == 0.0 then Err(ZeroDivisionError) else Ok(count / total * 100.0)
  }

  // ---------------------------------------------------------------- orders

  function CountOf(e: (string, real)): real {
    e.1
  }

  /** `sorted(d.items(), key=lambda item: item[1], reverse=True)`. */
  function ByCount(d: Dict<string, real>): seq<(string, real)> {
    SortDesc(d, CountOf)
  }

  function InnerTotal(e: (string, Dict<string, real>)): real {
    Sum(e.1)
  }

  /** `sorted(m.items(), key=lambda item: sum(item[1].values()), reverse=True)`. */
  function ByInnerTotal(m: Dict<string, Dict<string, real>>): seq<(string, Dict<string, real>)> {
    SortDesc(m, InnerTotal)
  }

  function CountOfTriple(x: (string, string, real)): real {
    x.2
  }

  // ---------------------------------------------------------------- percentage tables

  /** The body of a loop `table[k] = count / total * 100` over entries. */
  function AddShare(total: real, table: Dict<string, real>, e: (string, real)): Result<Dict<string, real>> {
    var p :- Percent(e.1, total);
    Ok(Put(table, e.0, p))
  }

  function ShareStep(total: real): (Dict<string, real>, (string, real)) -> Result<Dict<string, real>> {
    (table, e) => AddShare(total, table, e)
  }

  /** Every entry's count as a percentage of one total. */
  function Shares(entries: seq<(string, real)>, total: real): Result<Dict<string, real>> {
    FoldResult(ShareStep(total), [], entries)
  }

  /** The body of a loop `table[k] = count / denoms[k] * 100` over entries. */
  function AddRatio(denoms: Dict<string, real>, table: Dict<string, real>, e: (string, real)): Result<Dict<string, real>> {
    var d :- Lookup(denoms, e.0);
    var p :- Percent(e.1, d);
    Ok(Put(table, e.0, p))
  }

  function RatioStep(denoms: Dict<string, real>): (Dict<string, real>, (string, real)) -> Result<Dict<string, real>> {
    (table, e) => AddRatio(denoms, table, e)
  }

  /** Every entry's count as a percentage of the count of its own key in
      `denoms`. */
  function Ratios(entries: seq<(string, real)>, denoms: Dict<string, real>): Result<Dict<string, real>> {
    FoldResult(RatioStep(denoms), [], entries)
  }

  // ---------------------------------------------------------------- correction mappings

  /** The percentage table of a correction mapping, and the fix totals the
      middle and end mappings accumulate: `total` is `totalFixes`, `side`
      is `middleFixes` or `endFixes`. */
  datatype FixTables = FixTables(
    percentages: Dict<string, Dict<string, real>>,
    total: Dict<string, real>,
    side: Dict<string, real>)

  /** One correction of a wrong character: its count as a percentage of the
      wrong character's count and, when `tracked`, the fix totals. */
  function AddCorrection(wrong: string, denoms: Dict<string, real>, tracked: bool, s: FixTables,
                         e: (string, real)): Result<FixTables> {
    var d :- Lookup(denoms, wrong);
    var p :- Percent(e.1, d);
    var percentages := Put2(s.percentages, wrong, e.0, p);
    if tracked then Ok(FixTables(percentages, Add(s.total, e.0, e.1), Add(s.side, e.0, e.1)))
    else Ok(FixTables(percentages, s.total, s.side))
  }

  function CorrectionStep(wrong: string, denoms: Dict<string, real>, tracked: bool): (FixTables, (string, real)) -> Result<FixTables> {
    (s, e) => AddCorrection(wrong, denoms, tracked, s, e)
  }

  /** One wrong character: an (initially empty) table, then its corrections. */
  function AddWrong(denoms: Dict<string, real>, tracked: bool, s: FixTables,
                    e: (string, Dict<string, real>)): Result<FixTables> {
    FoldResult(CorrectionStep(e.0, denoms, tracked), FixTables(Touch(s.percentages, e.0), s.total, s.side), e.1)
  }

  function WrongStep(denoms: Dict<string, real>, tracked: bool): (FixTables, (string, Dict<string, real>)) -> Result<FixTables> {
    (s, e) => AddWrong(denoms, tracked, s, e)
  }

  /** The loop over a correction mapping, largest wrong characters first. */
  function MappingTables(mapping: Dict<string, Dict<string, real>>, denoms: Dict<string, real>, tracked: bool,
                         start: FixTables): Result<FixTables> {
    FoldResult(WrongStep(denoms, tracked), start, ByInnerTotal(mapping))
  }

  // ---------------------------------------------------------------- combinations

  /** `(punct, word, count)` for every word and every mark counted before it. */
  function Flatten(m: Dict<string, Dict<string, real>>): seq<(string, string, real)> {
    if m == [] then []
    else Flatten(m[..|m| - 1]) + FlattenInner(m[|m| - 1].0, m[|m| - 1].1)
  }

  function FlattenInner(word: string, counts: Dict<string, real>): seq<(string, string, real)> {
    if counts == [] then []
    else FlattenInner(word, counts[..|counts| - 1]) + [(counts[|counts| - 1].0, word, counts[|counts| - 1].1)]
  }

  /** The ten most frequent (mark, following word) pairs. */
  function MissingCombinations(m: Dict<string, Dict<string, real>>): seq<(string, string, real)> {
    Take(SortDesc(Flatten(m), CountOfTriple), 10)
  }

  /** One `"<char> + <word>"` key: `word -> char`; IndexError when the key
      does not split into two parts. */
  function CombinationStep(combos: Dict<string, string>, e: (string, real)): Result<Dict<string, string>> {
    var parts := Split(e.0, " + ");
    if |parts| < 2 then Err(IndexError) else Ok(Put(combos, parts[1], parts[0]))
  }

  /** The five most frequent unnecessary-character combinations, as
      following word -> character; a later entry for the same word
      overwrites an earlier one. */
  function UnnecessaryCombinations(d: Dict<string, real>): Result<Dict<string, string>> {
    FoldResult(CombinationStep, [], Take(ByCount(d), 5))
  }

  /** The loop over the `"<word> + <char> + <word>"` keys, which only
      unpacks them: IndexError when one has fewer than three parts. */
  function CheckTriples(d: Dict<string, real>): Result<()> {
    if forall i :: 0 <= i < |d| ==> |Split(d[i].0, " + ")| >= 3 then Ok(()) else Err(IndexError)
  }

  // ---------------------------------------------------------------- the derivation

  /** The error rates: error sentences per sentence, and each error type's
      share of all errors, with the counts of the three types. */
  datatype Rates = Rates(errorSentences: real, byType: Dict<string, real>, m: real, u: real, r: real)

  function ErrorRates(t: Tally): Result<Rates> {
    var errorSentences :- Percent(t.errorSentenceCount as real, t.sentenceCount as real);
    var byType :- Shares(t.punctErrorCounts, Sum(t.punctErrorCounts));
    var m :- Lookup(t.punctErrorCounts, "M:PUNCT");
    var u :- Lookup(t.punctErrorCounts, "U:PUNCT");
    var r :- Lookup(t.punctErrorCounts, "R:PUNCT");
    Ok(Rates(errorSentences, byType, m, u, r))
  }

  /** The tables of missing, unnecessary and wrong characters. */
  datatype CharacterTables = CharacterTables(
    missing: Dict<string, real>, unnecessary: Dict<string, real>, combinations: Dict<string, string>,
    replacement: Dict<string, real>)

  function CharacterShares(t: Tally, rates: Rates): Result<CharacterTables> {
    var missing :- Shares(ByCount(t.missing), rates.m);
    var unnecessary :- Shares(ByCount(t.unnecessary), rates.u);
    var combinations :- UnnecessaryCombinations(t.unnecessaryNext);
    var _ :- CheckTriples(t.precedingUnnecessaryNext);
    var replacement :- Shares(ByCount(t.replacement), rates.r);
    Ok(CharacterTables(missing, unnecessary, combinations, replacement))
  }

  /** The tables of the wrong characters by position, of their corrections,
      and the fix totals. */
  datatype PositionTables = PositionTables(
    fixesTotal: Dict<string, Dict<string, real>>,
    middle: Dict<string, real>, fixesMiddle: Dict<string, Dict<string, real>>,
    end: Dict<string, real>, fixesEnd: Dict<string, Dict<string, real>>,
    totalFixes: Dict<string, real>, middleFixes: Dict<string, real>, endFixes: Dict<string, real>)

  function PositionShares(t: Tally): Result<PositionTables> {
    var total :- MappingTables(t.replacementMapping, t.replacement, false, FixTables([], [], []));
    var middle :- Ratios(ByCount(t.middleReplacement), t.replacement);
    var fixesMiddle :- MappingTables(t.middleMapping, t.middleReplacement, true, FixTables([], [], []));
    var end :- Ratios(ByCount(t.endReplacement), t.replacement);
    var fixesEnd :- MappingTables(t.endMapping, t.endReplacement, true, FixTables([], fixesMiddle.total, []));
    Ok(PositionTables(total.percentages, middle, fixesMiddle.percentages, end, fixesEnd.percentages,
                      fixesEnd.total, fixesMiddle.side, fixesEnd.side))
  }

  /** The fix percentages: of all wrong characters, and of each fix's own
      total by position. */
  datatype FixShares = FixShares(total: Dict<string, real>, end: Dict<string, real>, middle: Dict<string, real>)

  function FixPercentages(p: PositionTables, r: real): Result<FixShares> {
    var total :- Shares(p.totalFixes, r);
    var end :- Ratios(p.endFixes, p.totalFixes);
    var middle :- Ratios(p.middleFixes, p.totalFixes);
    Ok(FixShares(total, end, middle))
  }

  /** `generate_statistics` after its counting loop. */
  function Derive(t: Tally): Result<Statistics> {
    var rates :- ErrorRates(t);
    var chars :- CharacterShares(t, rates);
    var positions :- PositionShares(t);
    var fixes :- FixPercentages(positions, rates.r);
    var unnecessaryErrors :- Lookup(rates.byType, "U:PUNCT");
    var missingErrors :- Lookup(rates.byType, "M:PUNCT");
    var replacementErrors :- Lookup(rates.byType, "R:PUNCT");
    Ok(Statistics(rates.errorSentences, unnecessaryErrors, missingErrors, replacementErrors,
                  chars.unnecessary, chars.missing, chars.replacement, positions.end, positions.middle,
                  positions.fixesTotal, positions.fixesEnd, positions.fixesMiddle,
                  fixes.total, fixes.end, fixes.middle,
                  chars.combinations, MissingCombinations(t.combinationsMissing)))
  }
}
