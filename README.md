# EstGEC punctuation error synthesizer — a Dafny model

The EstGEC punctuation error synthesizer adds realistic punctuation errors to
correct Estonian sentences. It works in two stages:

1. **Statistics.** `generate_statistics` (scripts/analyzer.py) reads an
   annotated learner corpus in M2 format. `S` lines hold source sentences and
   `A` lines hold edits. It counts every missing (`M:PUNCT`), unnecessary
   (`U:PUNCT`) and wrong (`R:PUNCT`) punctuation edit by character, by
   position and by neighbouring word. It then turns the counts into
   percentage tables and two ranked combination lists.
2. **Synthesis.** The main loop of scripts/synthesizer.py goes through the
   sentences. For each one it decides whether to introduce an error and of
   which kind. The decision functions of scripts/error_generator.py pick the
   characters from the tables. Its three editing functions then insert a
   superfluous mark, delete a mark, or replace one. A replacement by `,` at
   the end, or by `:` anywhere, makes the next sentence start in lower case.
   Finally `split_set` cuts the paired output into a training, a test and a
   validation file.

The model follows the source's own form. The counting loop, the
derivation loops, the loops of `collect_punctuations`,
`determine_missing_character` and `generate_m_error`, the sentence loop and
`split_set` are methods with loop invariants. Each is proved equal to a
specification function, except `split_set`, whose three outputs are stated
as slices of its input. The properties are proved about those functions
as lemmas. The decision and editing functions that are pure in the
source are functions here.

Shared conventions:

- **Dicts.** A Python dict is an association list in insertion order
  (module `Dict`). `d[k] += w` is `Add`, the analyzer's two-level increment
  is `Add2`, and `d.get(k, 0)` is `Get0`.
- **Counts and percentages.** Counts are exact `real`s, so a weight of 0.5
  is exact. `count / total * 100` is `Percent`, a ZeroDivisionError when the
  total is zero.
- **Exceptions.** Every Python exception the code can raise becomes an `Err`
  (`IndexError`, `KeyError`, `ValueError`, `ZeroDivisionError`) that aborts
  the run.
- **Randomness.** `random.choices` is modelled exactly as CPython computes
  it: running totals, then `bisect_right` of `random() * total`. The value of
  `random()` is a parameter (a "draw").

Module map:

| Source | Modules |
|---|---|
| scripts/analyzer.py, counting loop | `Tally`, `Counting`, `TallyInvariants`, `EditEffects`, `CorpusCounts` |
| scripts/analyzer.py, derivation | `Derivation`, `DerivationLoops`, `DerivationFacts`, `RankedLists`, `Analyzer` |
| scripts/error_generator.py | `ErrorGenerator` |
| scripts/synthesizer.py | `Synthesizer` |
| Python's standard library | `PyStr`, `Dict`, `Ranking`, `Sampling`, `Fold`, `Wrappers` |

The library modules cover `str` methods, dicts, stable `sorted`, `random.choices`, a `for` loop whose body may raise, and `Result`/`Option`.

On these points the model follows what the code does:

- **Malformed annotation lines.** A line without the expected fields raises
  and aborts the whole statistics run (`IndexError`, `KeyError`,
  `ValueError`); it is not skipped.
- **End replacement.** `generate_r_error` replaces *every* occurrence of the
  sentence's final character, not just the last one.
- **Continuation flag.** The flag is set by `(position == "end" and wrong ==
  ",") or wrong == ":"`. A colon therefore sets it at any position.
- **Partition.** In `split_set` the slice after the training slice, a tenth
  of the lines, goes to the *test* file. The remainder goes to the
  validation file.
- **Weights.** The weight of a correction alternative is 0.5 whenever there
  are two or more alternatives, not 1/k.
- **Keys.** Replacement mappings are keyed by the first character of an
  alternative, while missing counts are keyed by the whole alternative.
  `combinationsMissing` always adds 1.
- **`isErrorSentence`.** The flag is not reset when a new file starts.

## Model

| member | source | states |
|---|---|---|
| Tally.Init | scripts/analyzer.py:30-36 | the error counter starts with exactly the keys M:PUNCT, U:PUNCT, R:PUNCT, all zero, and no sentence or error sentence is counted |
| Tally.Bump | scripts/analyzer.py:97 | incrementing a per-level counter succeeds exactly when the level is one of its fixed keys (otherwise KeyError) |
| Counting.CountCorpus | scripts/analyzer.py:77-80 | the loop over the files, each starting with an empty active sentence, computes exactly `Corpus` |
| Counting.CountFile | scripts/analyzer.py:82-86 | the loop over the lines of a file computes exactly `FileLines`, stopping at the first exception |
| Counting.CountLine | scripts/analyzer.py:83-101 | one line: blank lines skipped, IndexError without a first token, `S` lines reset the sentence, `A` lines counted only with annotator `"0"` and a PUNCT type |
| Counting.CountEdit | scripts/analyzer.py:105-114 | a counted edit marks the error sentence, reads the third field, increments the error counters, then does the typed counts |
| Counting.CountReplacement | scripts/analyzer.py:117-169 | an R:PUNCT edit counts the wrong character, then runs the loop over the alternatives |
| Counting.MapAlternatives | scripts/analyzer.py:139-169 | the loop over the correction alternatives equals `MapOptions`, IndexError on an empty alternative |
| Counting.CountMissing | scripts/analyzer.py:172-190 | an M:PUNCT edit reads the following word, creates its counter, then counts the marks |
| Counting.CountMarksLoop | scripts/analyzer.py:180-190 | the loop over the missing marks equals `CountMarks` |
| Counting.CountUnnecessary | scripts/analyzer.py:193-218 | a U:PUNCT edit counts the extra character and its two combinations |
| EditEffects.ReplacementContextIs | scripts/analyzer.py:118-123 | after some lines of a file, the wrong character is token i of the file's most recent `S` line (`activeSentence[i+1]`), and the position is end exactly when i is that line's last token index |
| EditEffects.ReplacementOk | scripts/analyzer.py:118-119 | an R:PUNCT edit raises exactly when the index is not an integer, token i does not exist, or an alternative is empty |
| EditEffects.RecordReplacementEffect | scripts/analyzer.py:125-137 | the wrong character's total and its end (at the end) or middle (elsewhere) count rise by 1; no other count or field changes |
| EditEffects.MapOptionsOk | scripts/analyzer.py:139-143 | the loop over the alternatives raises exactly when some alternative is empty (`option[0]`) |
| EditEffects.MapOptionsEffect | scripts/analyzer.py:139-169 | each mapping entry (c, j) gains the weight once per alternative whose first character is j, in the overall mapping and in the end or middle mapping by position; nothing else changes |
| EditEffects.MissingContextIs | scripts/analyzer.py:174-177 | after some lines of a file, the following word is token i of the file's most recent `S` line, read only when i < len(activeSentence) - 2, and absent otherwise |
| EditEffects.MissingOk | scripts/analyzer.py:174-177 | an M:PUNCT edit raises exactly when the index is not an integer or the following token is read and does not exist |
| EditEffects.CountMarksEffect | scripts/analyzer.py:180-190 | every whole alternative gains the weight per occurrence; the following word's counter gains 1 per occurrence whatever the number of alternatives; nothing else changes |
| EditEffects.RecordMissingEffect | scripts/analyzer.py:176-190 | the same for a whole M:PUNCT edit, with weight 1 for one alternative and 0.5 for several |
| EditEffects.UnnecessaryContextIs | scripts/analyzer.py:194-200 | after some lines of a file, the extra character is token i of the file's most recent `S` line, the preceding word is its entry at index i, and the next word, token i+1, is read only when i < len(activeSentence) - 2 |
| EditEffects.UnnecessaryOk | scripts/analyzer.py:194-200 | a U:PUNCT edit raises exactly when the index is not an integer or one of the tokens it reads does not exist |
| EditEffects.RecordUnnecessaryEffect | scripts/analyzer.py:202-218 | the extra character gains 1, and the two combination keys gain 1 only when a next word exists; nothing else changes |
| EditEffects.LastSentenceNone | scripts/analyzer.py:80-98 | with no `S` line among the lines, the most recent sentence is what it was before them |
| EditEffects.LastSentenceIsLatest | scripts/analyzer.py:94-98 | when line j is an `S` line and no later line is one, the most recent sentence is the tokens of line j |
| EditEffects.TypedStepKeepsActive | scripts/analyzer.py:116-218 | the typed counts of an edit never change the active sentence |
| EditEffects.EditKeepsActive | scripts/analyzer.py:105-218 | a whole counted edit never changes the active sentence |
| EditEffects.AnnotationKeepsActive | scripts/analyzer.py:100-218 | an `A` line, counted or not, never changes the active sentence |
| EditEffects.LineSetsActive | scripts/analyzer.py:94-98 | an `S` line makes its tokens the active sentence, and no other line changes it |
| EditEffects.FileLinesActive | scripts/analyzer.py:80-98 | after any lines of a file the active sentence is the tokens of its most recent `S` line, or what it was before when there is none |
| TallyInvariants.InitConserved | scripts/analyzer.py:30-57 | the initial counters satisfy the invariants |
| TallyInvariants.SentenceKeeps | scripts/analyzer.py:94-98 | an `S` line keeps the invariants, adds 1 to the sentence count and clears the error-sentence flag |
| TallyInvariants.MarkEffect | scripts/analyzer.py:106-109 | marking adds 1 to the error sentences only when the sentence was not yet an error sentence, and sets the flag |
| TallyInvariants.CountErrorEffect | scripts/analyzer.py:113-114 | the error counter of the edit's type rises by 1 and no other counter or key changes |
| TallyInvariants.EditCounters | scripts/analyzer.py:106-114 | marking and counting together add one edit, and one error sentence when the sentence had none |
| TallyInvariants.RecordReplacementKeeps | scripts/analyzer.py:125-137 | counting a wrong character keeps middle + end == total per character and adds 1 to the replacement total |
| TallyInvariants.MapOptionsKeeps | scripts/analyzer.py:139-169 | the mappings stay positive, every mapping key keeps a positive count to divide by, and only the three mappings change |
| TallyInvariants.ReplacementKeeps | scripts/analyzer.py:117-169 | an R:PUNCT edit keeps the invariants and adds exactly 1 to the sum of `replacementPunctuation` |
| TallyInvariants.CountMarksKeeps | scripts/analyzer.py:180-190 | missing counts stay positive and only the missing counters change |
| TallyInvariants.MissingKeeps | scripts/analyzer.py:172-190 | an M:PUNCT edit keeps the invariants and leaves a missing count |
| TallyInvariants.RecordUnnecessaryKeeps | scripts/analyzer.py:202-218 | the combination keys keep splitting into two and three words, and the unnecessary total rises by 1 |
| TallyInvariants.UnnecessaryKeeps | scripts/analyzer.py:193-218 | a U:PUNCT edit keeps the invariants and adds exactly 1 to the sum of `unnecessaryPunctuation` |
| TallyInvariants.TypedKeeps | scripts/analyzer.py:116-218 | the typed counts keep the invariants and move only the totals of the edit's own type |
| TallyInvariants.EditKeeps | scripts/analyzer.py:105-218 | a counted edit keeps the invariants (middle + end == total, the totals equal the error counters, every mapping key divides) and counts one edit |
| TallyInvariants.AnnotationKeeps | scripts/analyzer.py:100-105 | an `A` line changes the counters only when its last field is `"0"` and its type is a PUNCT key, and then counts one edit |
| TallyInvariants.LineKeeps | scripts/analyzer.py:82-114 | any line keeps the invariants; a line that is neither `S` nor a counted edit changes nothing |
| TallyInvariants.FileKeeps | scripts/analyzer.py:78-86 | one file keeps the invariants and moves the summary line by line |
| TallyInvariants.FilesKeep | scripts/analyzer.py:77-218 | the whole corpus keeps the invariants, with the summary of all its lines in order |
| CorpusCounts.SummaryCounts | scripts/analyzer.py:94-114 | the sentence count is the number of `S` lines and the error count the number of counted `A` lines |
| CorpusCounts.SummaryBound | scripts/analyzer.py:95-109 | in any order of lines, error sentences exceed sentences by at most one |
| CorpusCounts.SummaryBoundAfterSentence | scripts/analyzer.py:95-109 | when every counted edit follows an `S` line, each sentence is counted at most once as an error sentence |
| CorpusCounts.CorpusCountsLines | scripts/analyzer.py:77-221 | after the corpus: invariants hold, sentenceCount = number of `S` lines, sum of punctErrorCounts = number of counted edits, errorSentenceCount <= sentenceCount (+1 unless every edit follows an `S`) |
| Derivation.Percent | scripts/analyzer.py:222 | `count / total * 100` raises exactly when the total is zero, otherwise its product with the total is 100 times the count |
| DerivationLoops.ComputeErrorRates | scripts/analyzer.py:221-228 | the error-rate statements compute exactly `ErrorRates` |
| DerivationLoops.FlattenCounts | scripts/analyzer.py:237-240 | the nested loop lists `(punct, word, count)` exactly as `Flatten` |
| DerivationLoops.FillShares | scripts/analyzer.py:269-272 | the loop of shares of one total computes exactly `Shares` |
| DerivationLoops.ComputeCharacterShares | scripts/analyzer.py:268-303 | the missing, unnecessary and wrong character tables are exactly `CharacterShares` |
| DerivationLoops.FillCombinations | scripts/analyzer.py:283-289 | the loop over the ranked combinations, acting on the first five, computes exactly `UnnecessaryCombinations` |
| DerivationLoops.UnpackTriples | scripts/analyzer.py:295-297 | the unpacking loop raises exactly as `CheckTriples` |
| DerivationLoops.FillCorrections | scripts/analyzer.py:329-337 | the inner loop over the corrections of one wrong character equals its fold |
| DerivationLoops.FillWrongs | scripts/analyzer.py:325-337 | the outer loop over the ranked wrong characters equals its fold |
| DerivationLoops.FillMappingTables | scripts/analyzer.py:306-314 | a mapping's percentage table and fix totals are exactly `MappingTables` |
| DerivationLoops.ComputePositionShares | scripts/analyzer.py:305-360 | the position tables are exactly `PositionShares` |
| DerivationLoops.FillRatios | scripts/analyzer.py:318-322 | the loop of per-key ratios computes exactly `Ratios` |
| DerivationLoops.ComputeFixPercentages | scripts/analyzer.py:362-370 | the fix percentages are exactly `FixPercentages` |
| DerivationLoops.DeriveStatistics | scripts/analyzer.py:221-405 | the derivation phase computes exactly `Derive` |
| DerivationFacts.SharesOk | scripts/analyzer.py:269-272 | a share table raises exactly when there is an entry and the total is zero |
| DerivationFacts.SharesEntries | scripts/analyzer.py:269-272 | with distinct keys, the share table lists every entry in order, each as a percentage of the total |
| DerivationFacts.RatiosOk | scripts/analyzer.py:318-322 | a ratio table raises exactly when some key has no non-zero count to divide by |
| DerivationFacts.RatiosEntries | scripts/analyzer.py:318-322 | with distinct dividing keys, the ratio table lists every entry as a percentage of its own key's count |
| DerivationFacts.CorrectionsOk | scripts/analyzer.py:329-333 | the corrections of one wrong character raise exactly when there is one and its count is missing or zero |
| DerivationFacts.WrongsOk | scripts/analyzer.py:325-333 | the loop over wrong characters raises exactly when one with a correction cannot be divided by |
| DerivationFacts.MappingTablesOk | scripts/analyzer.py:306-314 | a mapping's tables raise exactly when a wrong character with a correction has no non-zero count |
| DerivationFacts.CountedMappingOk | scripts/analyzer.py:325-337 | a mapping whose keys were all counted never raises |
| DerivationFacts.MappingBalanced | scripts/analyzer.py:334-337 | the fix totals grow by the same positive amounts in `totalFixes` and in the position's `middleFixes` or `endFixes` |
| DerivationFacts.FixMappingsBalanced | scripts/analyzer.py:325-360 | the middle and end mapping loops never raise on conserved counters, and each keeps its fix totals balanced |
| DerivationFacts.ErrorRatesOk | scripts/analyzer.py:221-228 | the rates raise exactly when there is no sentence or no counted error, otherwise they are the error-sentence percentage and each type's share |
| DerivationFacts.RankedSharesOk | scripts/analyzer.py:269-280 | a ranked share table of a non-empty counter with a positive total never raises |
| DerivationFacts.CombinationsOk | scripts/analyzer.py:283-287 | keys that split into two words never make the combinations raise |
| DerivationFacts.TriplesOk | scripts/analyzer.py:295-297 | keys that split into three words never make the unpacking raise |
| DerivationFacts.CharacterSharesOk | scripts/analyzer.py:268-303 | once the error rates succeed, the character tables do too |
| DerivationFacts.PositionSharesOk | scripts/analyzer.py:305-360 | on conserved counters the position tables never raise and their fix totals satisfy middle + end == total |
| DerivationFacts.FixPercentagesOk | scripts/analyzer.py:362-370 | the fix percentages never raise, and each fix's end and middle percentages add up to 100 |
| DerivationFacts.TypeShares | scripts/analyzer.py:223-228 | the three error-type percentages are each count's share and add up to 100 |
| DerivationFacts.DeriveOk | scripts/analyzer.py:221-405 | the derivation raises exactly when there is no sentence or no counted error; otherwise its rates are the stated percentages, the type shares add to 100, and each fix's end + middle percentages add to 100 |
| RankedLists.CombinationsLastWins | scripts/analyzer.py:283-287 | the combination loop stores, for every word, the character of the last entry naming it, and nothing for other words |
| RankedLists.UnnecessaryCombinationsLastWins | scripts/analyzer.py:283-287 | `unnecessaryCombinations[word]` is the character of the last of the five largest combinations with that next word |
| RankedLists.FlattenMember | scripts/analyzer.py:237-240 | a triple is listed exactly when `combinationsMissing[word][punct] == count` |
| RankedLists.MissingCombinationsTop | scripts/analyzer.py:243-246 | at most ten triples, largest count first, each from the counter, and every triple left out counts no more than any kept one |
| Ranking.SortDesc | scripts/analyzer.py:243 | `sorted(..., reverse=True)` is a permutation sorted by descending key |
| Ranking.SortDescStable | scripts/analyzer.py:243 | the sort is stable: items with equal keys keep their order |
| Ranking.Take | scripts/analyzer.py:246 | `xs[:n]` holds the first min(n, len) items |
| Analyzer.RunGenerateStatistics | scripts/analyzer.py:29-405 | running the counting loop and then the derivation loops gives exactly `GenerateStatistics` |
| Analyzer.GenerateStatisticsOk | scripts/analyzer.py:221-370 | the statistics succeed exactly when the corpus has an `S` line and a counted edit; then the type shares add to 100, each fix's end + middle shares add to 100, and the error-sentence rate is at most 100 when every edit follows an `S` line |
| Sampling.Choose | scripts/error_generator.py:30 | `random.choices` fails with IndexError when population and weights are both empty, with ValueError when their lengths differ or the total is not positive, and otherwise returns the item at `ChoiceIndex` |
| Sampling.ChooseKey | scripts/error_generator.py:48-50 | picking a key of a dict fails with IndexError exactly when it is empty |
| Sampling.PickHasPositiveWeight | scripts/error_generator.py:30 | with non-negative weights and a draw in [0, 1), the picked item has a positive weight |
| Sampling.ChooseKeyPositive | scripts/error_generator.py:48-50 | a key drawn from a non-negative dict carries a positive weight |
| ErrorGenerator.CollectPunctuations | scripts/error_generator.py:16-21 | the loop computes exactly `Punctuations` |
| ErrorGenerator.PunctuationsMembers | scripts/error_generator.py:16-21 | the result holds exactly the one-character strings of ASCII punctuation characters of the sentence |
| ErrorGenerator.PunctuationsAppend | scripts/error_generator.py:16-21 | collecting keeps the order of the sentence (it distributes over concatenation), repeats included |
| ErrorGenerator.DeterminePunctError | scripts/error_generator.py:26-32 | the result is "yes" exactly when draw × 100 is below the percentage |
| ErrorGenerator.DetermineErrorType | scripts/error_generator.py:35-41 | the choice succeeds exactly when the weights have a positive total, and is never "u" when an unnecessary error is impossible |
| ErrorGenerator.DetermineUnnecessaryCharacter | scripts/error_generator.py:44-52 | the character is a key of the table and among the options; IndexError exactly when no key is among the options |
| ErrorGenerator.UnnecessaryPickSucceeds | scripts/error_generator.py:44-52 | with positive weights and one candidate key, the pick succeeds |
| ErrorGenerator.FirstWord | scripts/error_generator.py:64 | the first word of a segment is empty or a whole whitespace-free token |
| ErrorGenerator.SegmentPairsShape | scripts/error_generator.py:62-66 | every pair of one punctuation holds that punctuation and a whole token |
| ErrorGenerator.PunctWordPairsShape | scripts/error_generator.py:60-66 | every pair of the sentence holds one of its punctuation marks and a whole token |
| ErrorGenerator.CollectSegmentPairs | scripts/error_generator.py:62-66 | the inner loop yields the first word of every segment after the first, when non-empty |
| ErrorGenerator.AppendSegmentPairs | scripts/error_generator.py:61-66 | one pass of the outer loop appends that punctuation's pairs |
| ErrorGenerator.CollectPairs | scripts/error_generator.py:60-66 | the pair list is `PunctWordPairs`, and ValueError exactly when a punctuation is empty |
| ErrorGenerator.MatchTopCombinations | scripts/error_generator.py:71-75 | the nested loop computes exactly `TopWeights` |
| ErrorGenerator.TopWeightsSource | scripts/error_generator.py:71-75 | every stored weight comes from a pair of the sentence and a known triple with exactly that weight |
| ErrorGenerator.BestIndex | scripts/error_generator.py:80-81 | `max(..., key=get)` is the first entry holding the largest weight |
| ErrorGenerator.DetermineMissingCharacter | scripts/error_generator.py:55-94 | the function's loops and pick compute exactly `MissingChoice` |
| ErrorGenerator.MissingChoiceFromCombinations | scripts/error_generator.py:77-83 | with a matching combination, the result is the matching pair with the largest weight, the first on ties |
| ErrorGenerator.MissingChoiceFallback | scripts/error_generator.py:84-94 | without a match the word is empty and the character is a missing-table key present in the sentence; None exactly when no such key exists |
| ErrorGenerator.WrongOptions | scripts/error_generator.py:100-101 | the wrong options are exactly the entries whose fix table shares a key with the sentence; KeyError exactly when a wrong character has no fix table |
| ErrorGenerator.PickWrong | scripts/error_generator.py:100-103 | the wrong character is a key with a fix table sharing a key with the sentence; KeyError exactly when some wrong character has no fix table, otherwise IndexError exactly when no fix table shares a key with the sentence |
| ErrorGenerator.PickCorrection | scripts/error_generator.py:106-109 | the correct character is a fix of the wrong one present in the sentence; IndexError exactly when there is none |
| ErrorGenerator.PickPosition | scripts/error_generator.py:112-120 | the position pick succeeds exactly when the end and middle weights, absent ones counting 0, have a positive total |
| ErrorGenerator.PickPositionWeighted | scripts/error_generator.py:112-120 | with non-negative weights, the position drawn has a positive weight |
| ErrorGenerator.DetermineReplacementCharacter | scripts/error_generator.py:97-122 | the three picks together: a wrong key whose fix table shares a key with the sentence, a correct character among its fixes and in the sentence, and the position `PickPosition` draws; KeyError exactly when a wrong character has no fix table, otherwise IndexError exactly when no fix table shares a key with the sentence |
| ErrorGenerator.GenerateUError | scripts/error_generator.py:125-140 | IndexError on no words; unchanged when the word is the first word; otherwise succeeds exactly when the word is in the list |
| ErrorGenerator.ReplaceFirstInserts | scripts/error_generator.py:138 | `replace(pre, pre + ch, 1)` inserts `ch` right after the first occurrence of `pre` |
| ErrorGenerator.UErrorInserts | scripts/error_generator.py:127-140 | away from the first word, the character is inserted after the first occurrence of the preceding word, nothing else changes |
| ErrorGenerator.InsertAfterFirstUndo | scripts/error_generator.py:133-138 | removing the inserted character again gives back the sentence |
| ErrorGenerator.GenerateMError | scripts/error_generator.py:143-176 | the function computes exactly `MError` |
| ErrorGenerator.CombinationPositions | scripts/error_generator.py:149-157 | the `while True` loop collects exactly `OccurrenceStarts`, the starts of the non-overlapping occurrences read left to right; none exactly when the combination is absent, and the first is what `find` returns |
| ErrorGenerator.OccurrenceStartsSound | scripts/error_generator.py:149-157 | every start collected is an occurrence of the combination, and each begins at least its length after the one before (no overlap) |
| ErrorGenerator.OccurrenceStartsComplete | scripts/error_generator.py:149-157 | the search skips no occurrence: every occurrence begins inside one whose start is collected |
| ErrorGenerator.OccurrenceStartsNone | scripts/error_generator.py:151-153 | when `find` returns -1 there is no start left to collect |
| ErrorGenerator.OccurrenceStartsFirst | scripts/error_generator.py:151-156 | otherwise `find` returns the next start, and the others follow from just after that occurrence (`start += len(combination)`) |
| ErrorGenerator.OccurrenceStartsStep | scripts/error_generator.py:150-156 | one pass of the loop keeps "starts found so far, then starts still to find, are all the starts", and the loop ends exactly when they are all found |
| ErrorGenerator.FirstCharacter | scripts/error_generator.py:166-170 | the counted `for` loop stops at the first occurrence of the character, -1 when absent |
| ErrorGenerator.SpliceDeletes | scripts/error_generator.py:159-162 | keeping `" " + word` after the cut deletes the mark alone |
| ErrorGenerator.DeleteRestores | scripts/error_generator.py:171-172 | deleting the first characters of an occurrence can be undone by putting them back |
| ErrorGenerator.MErrorDeletesOne | scripts/error_generator.py:143-176 | unchanged when the target is absent; otherwise exactly the character at the target's first occurrence is removed and putting it back restores the sentence |
| ErrorGenerator.RErrorReplacesEveryOccurrence | scripts/error_generator.py:179-186 | middle replaces every occurrence of the correct character, end every occurrence of the final character |
| ErrorGenerator.ReplaceCharRoundTrip | scripts/error_generator.py:181-184 | replacing a character by one the sentence lacks can be undone |
| Synthesizer.DetectUnnecessaryCandidates | scripts/synthesizer.py:150-157 | the candidate words and characters are exactly the candidates of the table in order, and the flag holds iff there is one |
| Synthesizer.CandidatesAligned | scripts/synthesizer.py:150-157 | the two lists have equal length, stay aligned as table entries, and hold exactly the table keys that are candidates |
| Synthesizer.CandidateCharIsLookup | scripts/synthesizer.py:157 | with distinct keys, `u_punctuation_options[k] == u_combinations[u_words_options[k]]` |
| Synthesizer.CandidateInserts | scripts/synthesizer.py:152-154 | a candidate is not the first word, so `generate_u_error` inserts after the preceding word |
| Synthesizer.WordForFirst | scripts/synthesizer.py:172 | the word used is the first candidate whose paired character is the chosen one |
| Synthesizer.WriteUnnecessary | scripts/synthesizer.py:169-175 | the unnecessary case always writes, with the sentence as its correct side, and leaves the flag clear |
| Synthesizer.UnnecessaryInserts | scripts/synthesizer.py:169-175 | the unnecessary case writes the sentence with the chosen character inserted after the word before a candidate |
| Synthesizer.WriteMissing | scripts/synthesizer.py:176-185 | the missing case leaves the flag clear and, when it writes, writes the sentence as its correct side |
| Synthesizer.WriteReplacement | scripts/synthesizer.py:186-192 | the replacement case always writes, with the sentence as its correct side |
| Synthesizer.LowerFirst | scripts/synthesizer.py:139-141 | lower-casing the first character changes only that character; IndexError on an empty sentence |
| Synthesizer.SkippedExactly | scripts/synthesizer.py:159-194 | a sentence is skipped exactly on a "no" flip or a missing case without a character |
| Synthesizer.FlagExactly | scripts/synthesizer.py:186-191 | the flag is set exactly by a replacement at the end with "," or with ":" anywhere |
| Synthesizer.ProcessSentence | scripts/synthesizer.py:139-195 | the loop body computes exactly `SynthesizeSentence` |
| Synthesizer.RunSynthesis | scripts/synthesizer.py:136-195 | the sentence loop computes exactly `Synthesis` |
| Synthesizer.OutcomesExtend | scripts/synthesizer.py:136-195 | one outcome per sentence, in order: the outcomes of the first n sentences are the first n outcomes |
| Synthesizer.SynthesisOutcomes | scripts/synthesizer.py:136-195 | outcome i is that of sentence i, lower-cased first exactly when the previous sentence set the flag |
| Synthesizer.SplitSet | scripts/synthesizer.py:71-87 | lines below ⌊0.8n⌋ go to train, the next ⌊0.1n⌋ to test and the rest to valid, in order, each exactly once; both boundaries lie within the n lines |

## Left out

- File and directory I/O is not modelled: `glob`, `open`, `save_to_file`, the report lines and `print` calls of scripts/analyzer.py:21-26 and 232-372, the pickle persistence of the statistics, `output_set` and the file handling of `split_set`. The corpus is given as a list of (level, lines) pairs, and the synthesis output as a list of outcomes.
- The corpus level is the name of the file's directory; the model takes it as given with each file.
- NLTK (`sent_tokenize`, `word_tokenize`) is a foreign library. The sentences come in already split, and `output_set`'s re-tokenization of the written pair is not modelled.
- Module-level side effects are left out: the directory creation, the import-time call of `generate_statistics()`, and `main()`'s argument check.
- `round(..., 2)` is not modelled: every percentage is the exact ratio `count / total * 100`.
- Floating-point division is modelled as exact real division.
- The random number generator is left out. Each `random.choices` call takes the value of `random()` as a parameter.
- The per-level report loop (scripts/analyzer.py:257-261) only prints, so it is not modelled.
- The loop at scripts/analyzer.py:295-297 stores nothing. It is modelled only for the IndexError it can raise.
- The unused parameters of `determine_missing_character` (`correct_end_punctuation`) and of `determine_replacement_character` (`total`) are not modelled.
- `str.lower` is modelled for the ASCII and Latin-1 capitals and for Š and Ž, which covers the Estonian alphabet. Other characters are left unchanged.
- `int()` is modelled for an optional sign followed by ASCII digits. Whitespace, underscores and non-ASCII digits are left out.
- The partition's `math.floor(n * 0.8)` and `math.floor(n * 0.1)` are modelled as the integer divisions `n * 8 / 10` and `n / 10`. This is exact for line counts below 2^50, because the doubles nearest 0.8 and 0.1 lie slightly above them.
- TallyInvariants.EditKeeps: the invariant does not include that dict keys are distinct. The model's `Put` and `Add` keep keys distinct, but no invariant states it.
