# Phoneme bigram language models, in Dafny

This project models the two bigram phoneme language models of `LM_models.py` and the
input shaping of `phonemic_similarity.py` that feeds them:

- **Counting** (`counting.dfy`). Every training word contributes its adjacent pairs
  as bigrams and every non-final symbol as a history unigram. `Counter` is a
  `multiset`, so an absent key reads 0. The counting identity "the bigram counts of
  `h` add up to the history count of `h`" is proved from the comprehensions of lines
  28-29.
- **Estimators** (`estimators.dfy`, `sums.dfy`). These are the add-one table (lines
  47-62) and the absolute-discounting back-off table (lines 126-165), as exact `real`
  functions of the counters and the vocabulary. The proofs show:
  - every row sums to exactly 1 (the invariant `test` asserts);
  - all unseen histories share the unigram row;
  - entries are positive;
  - there is a division by zero when there is no count at all.
- **Scoring** (`scoring.dfy`). This covers `logP` on the `defaultdict` (a missing row is
  inserted empty, a missing entry raises `KeyError`), the out-of-set remapping of each
  side of a pair to `'$'`, the left-to-right scan of `perplexity` that stops at the
  first exception, `surprisal`, and what `test` checks.
- **The model object** (`language_models.dfy`). The class `PhonemeLM` holds the
  fields `ucounts`, `bcounts`, `phonemeSet` and `P`, plus a `smoothing` field that
  picks the `estimate_probs` override the subclass `Absdisc_Phoneme_LM` installs.
  - The caller's phoneme set is a `SymbolSet` object the model keeps a reference to,
    so adding `'$'` changes the caller's set too.
  - `estimate_probs` fills `P` with nested loops over the set. Each loop is proved to
    build exactly the estimator's table, or to raise `ZeroDivisionError` at its first
    division by `N == 0`.
  - `perplexity`, `surprisal`, `logP` and `test` are methods proved against the
    scoring functions.
- **Input shaping** (`phonemic_similarity.dfy`, `py_strings.dfy`).
  - `read_data` runs over an in-memory sequence of lines. It uses Python's `strip()`,
    `split("\t")` and `split()`, whose join/split round trips and tokenisation laws are
    proved.
  - Each line is parsed, and a short line raises `IndexError`. A kept sequence is
    `'#'`, the tokens of field 4, `'@'`, with at least 4 symbols, appended to its
    language in line order.
  - Each language's phoneme set is built from its training sequences. The proofs
    show that this set meets the preconditions of the normalisation and positivity
    theorems. `TrainedModelsPass` states the end-to-end result.

`math.log(x, 2)` and `math.pow(2, x)` are the function parameters `log2` and `pow2`.
Iteration over a Python `set` takes its elements in an unspecified order, so those loops
pick elements with `:|` and sums over sets are an order-independent ghost `Sum`.

Five behaviours of the code that a reader might not expect are kept as written:
- **Field 4 is split on whitespace.** `phonemic_similarity.py` line 34 splits the
  transcription with `split()`, so runs of spaces and tabs separate symbols.
- **Empty corpus.** For `Absdisc_Phoneme_LM`, an empty training corpus over a
  non-empty phoneme set raises `ZeroDivisionError` inside `estimate_probs`
  (`LM_models.py` line 143); over an empty set nothing is divided and no error is
  raised. The add-one model of `Phoneme_LM` is uniform in that case.
- **Zero probability.** A zero or negative entry that reaches `math.log` in `logP`
  raises a math domain error (`MathDomainError` in the model).
- **The caller's phoneme set.** `'$'` is added to the caller's set in place
  (`LM_models.py` line 42), so the caller sees the change.
- **The `unk` flag.** `Absdisc_Phoneme_LM` passes `unk=True` whatever `unk` it was
  given (`LM_models.py` line 122).

## Model

| member | source | states |
|---|---|---|
| Counting.Bigrams | LM_models.py:29 | a word of length n ≥ 1 yields exactly n-1 bigrams, `(w[i-1], w[i])` for `i` in `range(1, n)` |
| Counting.Histories | LM_models.py:28 | the history unigrams of a non-empty word are the word without its final symbol |
| Counting.CorpusBigrams | LM_models.py:26-32 | `ph_Bgrams` holds one bigram per adjacent pair of every training word, word after word |
| Counting.CorpusHistories | LM_models.py:26-32 | `ph_Ugrams` holds one history per adjacent pair of every training word, word after word |
| Counting.UnigramCounts | LM_models.py:35 | every key of `UCOUNTS` is one of the collected histories |
| Counting.BigramCounts | LM_models.py:36 | every key of `BCOUNTS` is one of the collected bigrams |
| Counting.NumContinuations | LM_models.py:150 | `nPlus_h`, the number of distinct bigram keys with history `h`, is 0 exactly when no key has history `h` |
| Counting.NumHistoryTypes | LM_models.py:142 | `nPlus_i`, the number of distinct keys of `UCOUNTS`, is 0 exactly when the counter is empty, so a non-empty counter has `nPlus_i > 0` |
| Counting.WordBigrams | LM_models.py:28-29 | a word of length n ≥ 1 gives n-1 bigrams, the adjacent pairs in order; its histories are the word without its last symbol and the first components of its bigrams |
| Counting.CorpusHistoriesAreFirsts | LM_models.py:26-32 | over the whole corpus the history list is the list of first components of the bigram list, and both have one entry per adjacent pair |
| Counting.UnigramTotal | LM_models.py:35-36 | the total history count `N` equals the number of bigrams of the corpus |
| Counting.CorpusBigramsAppend | LM_models.py:26-32 | the bigrams of two corpora read one after the other are the bigrams of the first followed by those of the second |
| Counting.CorpusBigramsFromWords | LM_models.py:26-32 | every collected bigram joins two adjacent symbols of one training word |
| Counting.CorpusBigramsWithin | LM_models.py:29 | when every training symbol is in the vocabulary, both sides of every bigram are too |
| Counting.ContinuationSum | LM_models.py:28-29 | summing the bigram counts of `h` over a vocabulary holding every continuation gives the number of times `h` is a first component |
| Counting.CountSum | LM_models.py:35 | summing the counts of a counter over a vocabulary holding every key gives its total |
| Counting.CountingIdentity | LM_models.py:26-36 | for every history `h`, the sum over the vocabulary of `BCOUNTS[(h, c)]` is `UCOUNTS[h]`; the unigram counts sum to the number of bigrams |
| Counting.BigramAtMostHistory | LM_models.py:28-29 | a bigram never occurs more often than its history |
| Counting.HistoryHasContinuation | LM_models.py:28-29 | a symbol counted as a history has at least one recorded continuation |
| Counting.CountsOfCorpus | LM_models.py:35-36 | for counters built from a corpus, `BCOUNTS[(h, c)] <= UCOUNTS[h]`, and a seen history has `nPlus_h > 0` |
| Counting.CountKeysWithin | LM_models.py:35-36 | every key of both counters is made of vocabulary symbols when the training symbols are |
| Counting.ContinuationTypes | LM_models.py:150 | when every training symbol is in the vocabulary, `nPlus_h` is the number of vocabulary symbols with a positive bigram count after `h` |
| Counting.HistoryTypes | LM_models.py:142 | when every training symbol is in the vocabulary, `nPlus_i` is the number of vocabulary symbols with a positive history count |
| Counting.CorpusCountsConsistent | LM_models.py:26-36 | counters extracted from a corpus over the vocabulary satisfy every count fact the normalisation proofs use |
| Sums.SumRemove | LM_models.py:103 | a sum over a set may take any element first: the result does not depend on iteration order |
| Sums.SumInsert | LM_models.py:103 | adding a fresh element to the summed set adds its value: the step of the accumulating loop |
| Sums.Max0 | LM_models.py:144 | `max(x, 0)` is non-negative, at least `x`, and equal to one of them |
| Sums.DiscountedSum | LM_models.py:144 | subtracting `d` in [0, 1] from every whole count, floored at 0, removes exactly `d` per positive count |
| Estimators.DiscountedCount | LM_models.py:144 | `max(n - d, 0)` is non-negative, at least `n - d`, and exactly `n - d` when `d <= n` |
| Estimators.AddOneRow | LM_models.py:57-62 | the row the inner loop fills for `h` has exactly one entry per vocabulary symbol |
| Estimators.UnigramProb | LM_models.py:140-144 | `uniP` is `max(Ni - d, 0)/N + Zi/L` with `Zi = (d/N) * nPlus_i`; what it equals without a discount and when it is positive are stated by `UndiscountedIsRelativeFrequency` and `UnigramPositive` |
| Estimators.BackOffWeight | LM_models.py:151 | `Zh = (d/Nh) * nPlus_h`; its sign and when it vanishes are stated by `BackOffWeightZero` |
| Estimators.AbsDiscProb | LM_models.py:134-165 | the entry after an unseen history is exactly `uniP`: the row backs off entirely |
| Estimators.AddOneProb | LM_models.py:62 | the add-one entry `(Nb + 1)/(Nu + L)` is strictly positive |
| Estimators.AddOneTable | LM_models.py:53-62 | the add-one table has exactly one row per vocabulary symbol |
| Estimators.AddOneTableEntry | LM_models.py:53-62 | entry `[h][c]` of the add-one table is `(BCOUNTS[(h, c)] + 1)/(UCOUNTS[h] + L)`, absent keys counting 0 |
| Estimators.AddOneTableRow | LM_models.py:57-62 | row `h` of the add-one table is the row the inner loop fills for `h` |
| Estimators.AddOneBounds | LM_models.py:62 | every add-one entry lies in (0, 1] when the bigram does not outnumber its history |
| Estimators.AddOneRowSum | LM_models.py:57-62 | an add-one row sums to 1 when the bigram counts of its history add up to the history count |
| Estimators.AddOneNormalised | LM_models.py:53-62 | with counts consistent with the vocabulary, every add-one row is a distribution over it: entries non-negative, mass exactly 1 |
| Estimators.AddOneUniformWithoutData | LM_models.py:62 | with no training data the add-one model does not fail and is uniform, `1/L` |
| Estimators.AddOneMonotone | LM_models.py:62 | one more occurrence of a bigram strictly raises its add-one probability |
| Estimators.AbsDiscRow | LM_models.py:136-165 | a discounting row has exactly one entry per vocabulary symbol |
| Estimators.AbsDiscTable | LM_models.py:132-165 | the discounting table has exactly one row per vocabulary symbol, and exists only when `N > 0` or the vocabulary is empty |
| Estimators.AbsDiscTableEntry | LM_models.py:132-165 | entry `[h][c]` of the discounting table is `uniP` for an unseen `h` and `max(Nb-d,0)/Nh + Zh*uniP` for a seen one |
| Estimators.AbsDiscTableRow | LM_models.py:132-165 | row `h` of the discounting table is the row lines 136-165 fill for `h` |
| Estimators.UnigramSplit | LM_models.py:144 | summed over the vocabulary, `uniP` is the scaled discounted counts plus `L` uniform shares |
| Estimators.UnigramDiscountedMass | LM_models.py:141-144 | the discounted unigram counts over `N` carry `(N - d * nPlus_i)/N` |
| Estimators.UnigramNormalised | LM_models.py:139-144 | for `N > 0` and `0 <= d <= 1` the back-off distribution `uniP` sums to 1 over the vocabulary |
| Estimators.UnigramPositive | LM_models.py:141-144 | with `d > 0` every `uniP` is positive |
| Estimators.UndiscountedIsRelativeFrequency | LM_models.py:134-165 | with `d = 0` the discounting estimate is the relative frequency: `Nb/Nh` after a seen history, `Ni/N` after an unseen one |
| Estimators.BackOffWeightZero | LM_models.py:151 | `Zh >= 0` for `d >= 0`, and `Zh == 0` exactly when `d == 0` or `h` has no recorded continuation |
| Estimators.UnseenHistoriesShareRow | LM_models.py:136-146 | every history with count 0 gets the `uniP` row, so all unseen histories have identical rows |
| Estimators.SeenProbSplit | LM_models.py:150-165 | a seen history's entry is the scaled discounted bigram count plus `Zh` times `uniP` |
| Estimators.BackOffMass | LM_models.py:162-165 | the backed-off part of a seen row carries exactly the weight `Zh` |
| Estimators.SeenDiscountedMass | LM_models.py:150-165 | the discounted bigram part of a seen row carries `(Nh - d * nPlus_h)/Nh`, that is `1 - Zh` |
| Estimators.SeenRowSum | LM_models.py:148-165 | with consistent counts and `0 <= d <= 1` a seen history's row sums to 1 |
| Estimators.UnseenRowSum | LM_models.py:136-146 | with consistent counts and `0 <= d <= 1` an unseen history's row sums to 1 |
| Estimators.AbsDiscRowSum | LM_models.py:132-165 | every discounting row sums to exactly 1 when `N > 0`, `0 <= d <= 1` and the counts are consistent |
| Estimators.AbsDiscNonNegative | LM_models.py:141-165 | every discounting entry is non-negative for `d >= 0` |
| Estimators.AbsDiscPositive | LM_models.py:136-165 | with `N > 0` and `d > 0` every discounting entry is strictly positive, so `logP` is defined on it |
| Estimators.AbsDiscNormalised | LM_models.py:132-165 | every row of the discounting table is a distribution over the vocabulary |
| Scoring.Touch | LM_models.py:67 | reading `self.P[h]` on the `defaultdict` inserts an empty row when `h` is missing; what it keeps is stated by `TouchKeepsRows` |
| Scoring.LogProb | LM_models.py:65-67 | a successful `logP` read a present, positive entry; a failing one raises only `KeyError` or a math domain error |
| Scoring.Remap | LM_models.py:81-82 | the remapped symbol is in the phoneme set or is `'$'`, and a symbol of the set is kept as is |
| Scoring.RemapAll | LM_models.py:81-82 | one remapped pair per scored pair |
| Scoring.ScanLogs | LM_models.py:76-85 | a raise names a position inside the list of pairs |
| Scoring.PerplexityOf | LM_models.py:70-88 | `perplexity` succeeds exactly when no `logP` raises and the test corpus has a bigram |
| Scoring.TableAfterScoring | LM_models.py:70-88 | scoring never drops or alters a row of the table, and every row it adds is empty |
| Scoring.SurprisalOf | LM_models.py:91-93 | an exception of `perplexity` passes through unchanged, and `surprisal` succeeds exactly when the perplexity is positive |
| Scoring.TablePasses | LM_models.py:96-112 | over an empty phoneme set `test` passes, as its loop has nothing to check |
| Scoring.LogProbCases | LM_models.py:65-67 | `logP` succeeds exactly on a present positive entry and is then its `log2`; a missing row or entry is a `KeyError`; a non-positive entry is a math domain error |
| Scoring.TouchKeepsRows | LM_models.py:67 | reading a row of the `defaultdict` inserts only that row, empty, when missing, and never alters another row |
| Scoring.RemapAllAt | LM_models.py:81-82 | each side of each scored pair is remapped to `'$'` on its own when outside the phoneme set |
| Scoring.ScoredPairsRemapped | LM_models.py:77-82 | the `k`-th scored pair is the `k`-th test bigram with each side remapped, and lies in the phoneme set plus `'$'` |
| Scoring.ScoredPairsCount | LM_models.py:76-85 | `M` counts one per adjacent pair of every test word, the same decomposition as training |
| Scoring.ScanStopsAtFirstFailure | LM_models.py:76-85 | once a prefix of the pairs raises, scoring any extension raises the same exception at the same pair |
| Scoring.ScanLogsSpec | LM_models.py:76-85 | a raise names the first failing pair, after pairs that all succeeded; a sum means every pair succeeded |
| Scoring.ScanRaisesIn | LM_models.py:76-85 | a pair that raises after pairs that all succeeded is where the whole scan raises |
| Scoring.ScanSucceeds | LM_models.py:76-85 | scoring succeeds exactly when every pair has a present, positive entry |
| Scoring.WordPairExtends | LM_models.py:78-85 | scoring the next pair of a word adds its log-probability to the running sum |
| Scoring.WordPairRaises | LM_models.py:78-85 | when the next pair of a word raises, the whole scan raises there with that pair's row inserted |
| Scoring.ScoredPrefixRaises | LM_models.py:76-85 | when the first `k` test words raise, `perplexity` raises the same exception and leaves the same table |
| Scoring.EmptyTestRaises | LM_models.py:73-93 | a test corpus without bigrams makes `perplexity` and `surprisal` raise `ZeroDivisionError` and leaves the table as it was |
| Scoring.CoveredScoring | LM_models.py:70-88 | with every entry over the phoneme set and `'$'` present and positive, no `logP` raises, `perplexity` fails exactly on a test corpus without bigrams, and the table is unchanged |
| Scoring.ScoredPairCovered | LM_models.py:77-85 | in a table covering the phoneme set and `'$'`, every scored pair has a present, positive entry |
| Scoring.PerplexityValue | LM_models.py:87-88 | when no `logP` raises and there is a pair, the perplexity is `pow2` of minus the mean log-probability |
| Scoring.SurprisalIsAverage | LM_models.py:87-93 | with `log2` the inverse of `pow2`, the surprisal is the average negative log-probability of the scored pairs |
| Scoring.DistributionsPass | LM_models.py:102-106 | a table whose rows are distributions over the phoneme set passes `test` |
| Scoring.FailingRow | LM_models.py:102-106 | a table that fails `test` has a row that is incomplete or misses mass 1 by the tolerance |
| Scoring.AddOneModelPasses | LM_models.py:102-106 | the add-one table of a corpus passes `test` whenever every training symbol is in the phoneme set |
| Scoring.AbsDiscModelPasses | LM_models.py:102-106 | the discounting table of a corpus with a bigram passes `test` for `0 <= d <= 1` whenever every training symbol is in the phoneme set |
| Scoring.AddOneCovered | LM_models.py:62 | every add-one entry exists and is positive, so with `'$'` in the set no `logP` of `perplexity` raises |
| Scoring.AbsDiscCovered | LM_models.py:136-165 | with a training bigram and `d > 0`, every discounting entry over the set with `'$'` exists and is positive |
| LanguageModels.EstimatedTable | LM_models.py:126-146 | `estimate_probs` fails exactly for the discounting model with `N == 0` over a non-empty set, with `ZeroDivisionError`; otherwise its table has one row per symbol |
| LanguageModels.AbsDiscOutcome | LM_models.py:129-146 | over a set holding `'$'`, a run of the discounting `estimate_probs` fails exactly when there is no count, and otherwise leaves the discounting table |
| LanguageModels.SymbolSet.constructor | LM_models.py:39 | the phoneme set object holds the caller's symbols |
| LanguageModels.SymbolSet.Add | LM_models.py:42 | `set.add` adds exactly the one symbol |
| LanguageModels.WordGrams | LM_models.py:28-29 | the two comprehensions for one word give exactly its histories and its bigrams |
| LanguageModels.CountCorpus | LM_models.py:26-36 | the loop's two lists, counted, are exactly the history and bigram counters of the corpus |
| LanguageModels.AddOneRowLoop | LM_models.py:57-62 | the inner loop builds exactly the add-one row of `ph1` |
| LanguageModels.UnseenRowLoop | LM_models.py:138-146 | for an unseen history, the loop raises `ZeroDivisionError` exactly when `N == 0` and the set is non-empty, and otherwise builds the `uniP` row |
| LanguageModels.SeenRowLoop | LM_models.py:148-165 | for a seen history the loop builds exactly its discounting row |
| LanguageModels.PhonemeLM.Init | LM_models.py:18-42 | the counters are those of the corpus; the model keeps the caller's set object; `'$'` is added to it exactly when `unk` holds |
| LanguageModels.PhonemeLM.Create | LM_models.py:18-44 | `Phoneme_LM(...)` counts, updates the caller's set and leaves the add-one table of the final set |
| LanguageModels.PhonemeLM.CreateAbsdisc | LM_models.py:119-123 | `Absdisc_Phoneme_LM(...)` always adds `'$'`, fails with `ZeroDivisionError` exactly when the corpus has no bigram, and otherwise leaves the discounting table |
| LanguageModels.PhonemeLM.EstimateAbsdiscTwice | LM_models.py:122-123 | the run through line 44 and the run at line 123 leave the same table, and fail exactly when there is no count |
| LanguageModels.PhonemeLM.EstimateProbs | LM_models.py:44 | the dispatched `estimate_probs` leaves `EstimatedTable` of the fields, or raises its exception with `P` empty |
| LanguageModels.PhonemeLM.EstimateAddOne | LM_models.py:47-62 | `P` is rebuilt from scratch as the add-one table of the counters over the phoneme set |
| LanguageModels.PhonemeLM.EstimateAbsDisc | LM_models.py:126-165 | `P` is rebuilt as the discounting table, or `ZeroDivisionError` is raised with `P` empty when `N == 0` over a non-empty set |
| LanguageModels.PhonemeLM.LogP | LM_models.py:65-67 | returns `LogProb` of the old table and inserts the row of `ph1` when missing |
| LanguageModels.PhonemeLM.Perplexity | LM_models.py:70-88 | returns `PerplexityOf` the old table over the remapped test pairs and leaves `TableAfterScoring` |
| LanguageModels.PhonemeLM.ScoreWord | LM_models.py:77-85 | scoring one word continues the scan of the pairs scored so far: a sum with `M` advanced, or the first exception with its row inserted |
| LanguageModels.PhonemeLM.ScorePair | LM_models.py:78-85 | one remapped pair extends the running sum by its log-probability, or the whole scan raises there |
| LanguageModels.PhonemeLM.Surprisal | LM_models.py:91-93 | returns `log2` of the perplexity, or the exception `perplexity` raised |
| LanguageModels.PhonemeLM.Test | LM_models.py:96-112 | `test` passes exactly when every row is complete and sums to 1 within `10**-10`; a `KeyError` names an incomplete row, an `AssertionError` a complete row off by the tolerance |
| LanguageModels.PhonemeLM.RowSum | LM_models.py:103 | the sum of line 103 succeeds exactly when the row is complete, and is then the row's mass; otherwise `KeyError` |
| PyStrings.StripStart | phonemic_similarity.py:24 | `lstrip()` removes exactly the leading whitespace |
| PyStrings.StripEnd | phonemic_similarity.py:24 | `rstrip()` removes exactly the trailing whitespace |
| PyStrings.Strip | phonemic_similarity.py:24 | the stripped line neither starts nor ends with whitespace |
| PyStrings.StripPadded | phonemic_similarity.py:24 | whitespace around a text that neither starts nor ends with whitespace is exactly what `strip()` removes |
| PyStrings.Split | phonemic_similarity.py:24 | `split("\t")` has one field more than the tabs of the text, and no field holds a tab |
| PyStrings.JoinSplit | phonemic_similarity.py:24 | joining the fields with the separator gives back the text |
| PyStrings.SplitJoin | phonemic_similarity.py:24 | splitting separator-free fields joined with the separator gives back the fields |
| PyStrings.SplitFree | phonemic_similarity.py:24 | a text without the separator is one field |
| PyStrings.SplitPrefix | phonemic_similarity.py:24 | a separator-free field, the separator, then a rest splits into that field then the fields of the rest |
| PyStrings.RunLength | phonemic_similarity.py:34 | the leading run of non-whitespace characters ends at the first whitespace or at the end |
| PyStrings.Tokens | phonemic_similarity.py:34 | `split()` yields only non-empty tokens free of whitespace |
| PyStrings.TokensSeparated | phonemic_similarity.py:34 | a whitespace character separates tokens: the tokens of the text before it, then those after it |
| PyStrings.TokensAfterRun | phonemic_similarity.py:34 | a non-empty run followed by whitespace is the first token |
| PyStrings.TokensOfRun | phonemic_similarity.py:34 | a non-empty text without whitespace is a single token |
| PhonemicSimilarity.ParseLine | phonemic_similarity.py:24-38 | a line raises `IndexError` exactly when it has fewer than 4 tab-separated fields |
| PhonemicSimilarity.Bracketed | phonemic_similarity.py:33-34 | the tokens of `'# ' + t + ' @'` are `'#'`, the tokens of `t`, then `'@'` |
| PhonemicSimilarity.ParseLineSpec | phonemic_similarity.py:24-38 | a line raises exactly when it has fewer than 4 fields; otherwise it keeps `'#'`, the tokens of field 4, `'@'` under field 1 exactly when field 1 is a requested language and field 4 has at least 2 tokens, and keeps nothing otherwise |
| PhonemicSimilarity.KeptShape | phonemic_similarity.py:27-38 | a kept sequence is under a requested language, starts with `'#'`, ends with `'@'` and has at least 4 symbols |
| PhonemicSimilarity.ParseAll | phonemic_similarity.py:22-38 | one outcome per line |
| PhonemicSimilarity.Dataset | phonemic_similarity.py:13-42 | no lines give the empty dataset, and every language in a successful result holds at least one sequence |
| PhonemicSimilarity.Collect | phonemic_similarity.py:22-40 | every language in a successful result holds at least one sequence: a key is created only by an append |
| PhonemicSimilarity.KeptFor | phonemic_similarity.py:27-40 | a language keeps at most one sequence per line, and each is the sequence some line keeps for it |
| PhonemicSimilarity.Append | phonemic_similarity.py:40 | `dataset[ID].append(word)` adds the key if missing, appends the sequence to it and changes no other language |
| PhonemicSimilarity.ReadData | phonemic_similarity.py:13-42 | the loop over the lines returns `Dataset` of the lines: the collected outcomes, or the first exception |
| PhonemicSimilarity.CollectFailureSticks | phonemic_similarity.py:22-27 | once a line raises, the lines after it change nothing: `read_data` raises that exception |
| PhonemicSimilarity.CollectFails | phonemic_similarity.py:22-27 | collecting the outcomes raises exactly when some line raised |
| PhonemicSimilarity.DatasetFails | phonemic_similarity.py:24-27 | `read_data` raises exactly when some line has fewer than 4 tab-separated fields |
| PhonemicSimilarity.CollectContents | phonemic_similarity.py:22-40 | each language holds exactly its kept sequences, in line order, and is present exactly when it has one |
| PhonemicSimilarity.DatasetContents | phonemic_similarity.py:40 | in `read_data`'s result, each language holds exactly the sequences its lines keep, in line order, and nothing else is added |
| PhonemicSimilarity.CollectShape | phonemic_similarity.py:33-40 | collecting well-shaped outcomes gives a dataset whose languages are requested and non-empty and whose sequences are bracketed with at least 4 symbols |
| PhonemicSimilarity.ParsedShape | phonemic_similarity.py:30-38 | every line that keeps a sequence keeps a well-shaped one |
| PhonemicSimilarity.DatasetShape | phonemic_similarity.py:30-40 | every sequence `read_data` returns is bracketed by `'#'` and `'@'`, has at least 4 symbols and sits under a requested language with at least one sequence |
| PhonemicSimilarity.Concat | phonemic_similarity.py:53-54 | every sequence's symbols, with their multiplicities, are in the extended list |
| PhonemicSimilarity.ConcatSymbols | phonemic_similarity.py:54 | a symbol occurs in the extended list exactly when it occurs in one of the sequences |
| PhonemicSimilarity.ExtendAll | phonemic_similarity.py:53-54 | extending a language's list with every sequence appends their symbols in order, and creates the key only when there is a sequence |
| PhonemicSimilarity.PhonemeSeqs | phonemic_similarity.py:49-54 | every language with a sequence gets the concatenation of its sequences, and no other key appears |
| PhonemicSimilarity.PhonemeSets | phonemic_similarity.py:56-62 | each language's phoneme set holds exactly the symbols of its list |
| PhonemicSimilarity.PhonemeSetExact | phonemic_similarity.py:61-62 | the phoneme set is exactly the set of symbols of the training sequences: every training symbol is in it, and each member occurs in some sequence |
| PhonemicSimilarity.BracketedCorpus | phonemic_similarity.py:33-40 | a non-empty list of kept sequences has a bigram, and its symbols include `'#'` and `'@'` |
| PhonemicSimilarity.TrainedModelsPass | phonemic_similarity.py:66-67 | the discounting model built from a language's training sequences and its phoneme set plus `'$'` passes `test` and gives every pair a positive probability, for `0 < d <= 1` |

## Left out

- Opening and reading the data files (phonemic_similarity.py:19-22) is replaced by a
  sequence of lines. The module-level calls at lines 44-45 and the report loop and
  prints of lines 59-72 are left out as I/O.
- The `verbose` prints and the final print of `test` (LM_models.py:99-100, 108-112)
  are output only.
- Floating point is left out. Probabilities are exact reals, so rows sum to exactly 1
  and the `10**-10` tolerance is checked on exact values.
- `math.log` and `math.pow` are the uninterpreted parameters `log2` and `pow2`. An
  `OverflowError` from `math.pow` is not modelled. A non-positive argument to `log2`
  is the error `MathDomainError`.
- Iteration order over a Python `set` or `dict` is not fixed. Loops take elements in
  any order, and every proved result holds for all orders.
- `Counter` and `defaultdict(defaultdict)` are a `multiset` and a nested `map`. A
  lookup on a missing row inserts an empty row (`Touch`), as `defaultdict` does.
- LanguageModels.PhonemeLM.EstimateAddOne builds each row in a local map and then
  stores it in `P`. The source stores entry by entry into `self.P[ph1]`, so the
  intermediate states of a half-built row are not modelled.
- LanguageModels.PhonemeLM.EstimateAbsDisc does the same. When line 143 raises,
  `P` is left empty: the exception comes at the very first entry, so the source's
  `self.P` holds no entry either.
- LanguageModels.UnseenRowLoop recomputes `N` and `nPlus_i` for every entry, through
  `UnigramProb`, as the source does. The recomputation is not a separate step.
- The loop of `perplexity` uses `j = i - 1` as its index. The pairs visited are the same.
- Scoring.AbsDiscModelPasses and Estimators.AbsDiscRowSum are stated for
  `0 <= d <= 1`. For `d > 1` the discounted mass no longer matches the freed mass, and
  the rows need not sum to 1.
- PhonemicSimilarity.TrainedModelsPass is stated for `0 < d <= 1`. The script uses the
  default `d = 0.5`.
- Subclassing is modelled as one class whose `smoothing` field picks the override.
  This is the dispatch line 44 performs, since `self.estimate_probs` is the
  subclass's method there.
