/** The evaluation half of `Phoneme_LM` (LM_models.py lines 65-112) as functions of a
    probability table: `logP`, the scoring loop of `perplexity`, `surprisal` and the
    normalisation check of `test`. `math.log(x, 2)` and `math.pow(2, x)` are the
    parameters `log2` and `pow2`; the table is a map of rows, where a missing row or
    entry is the `KeyError` of the source's `defaultdict(defaultdict)`. */
module Scoring {
  import opened Outcomes
  import opened Sums
  import opened Counting
  import opened Estimators

  /** The `<UNK>` symbol of line 42. */
  const Unk: Phoneme := "$"

  /** `10**-10`, the tolerance of line 104. */
  const Precision: real := 1.0 / 10000000000.0

  /** The exceptions the model can raise. `MathDomainError` is the `ValueError` of
      `math.log` on a non-positive argument. */
  datatype LMError = ZeroDivisionError | KeyError | MathDomainError | AssertionError

  /** Reading `self.P[h]` on the `defaultdict` of line 50: a missing row is inserted
      as an empty one. */
  function Touch(P: Table, h: Phoneme): (r: Table)
  {
    if h in P then P else P[h := map[]]
  }

  /** `logP(h, c)` (lines 65-67): `log2(P[h][c])`, a `KeyError` when the row or the
      entry is missing, a math domain error when the entry is not positive. */
  function LogProb(P: Table, log2: real -> real, h: Phoneme, c: Phoneme): (r: Result<real, LMError>)
    ensures r.Success? ==> h in P && c in P[h] && P[h][c] > 0.0
    ensures r.Failure? ==> r.error == KeyError || r.error == MathDomainError
  {
    if h !in P || c !in P[h] then Failure(KeyError)
    else if P[h][c] <= 0.0 then Failure(MathDomainError)
    else Success(log2(P[h][c]))
  }

  /** Lines 81-82: a symbol outside the phoneme set is read as `'$'`. */
  function Remap(vocab: set<Phoneme>, x: Phoneme): (y: Phoneme)
    ensures y in vocab || y == Unk
    ensures x in vocab ==> y == x
  {
    if x in vocab then x else Unk
  }

  /** Both positions of every pair remapped, each on its own (lines 81-82). */
  function RemapAll(vocab: set<Phoneme>, ps: seq<Bigram>): (r: seq<Bigram>)
    ensures |r| == |ps|
  {
    if ps == [] then []
    else RemapAll(vocab, ps[..|ps| - 1]) + [(Remap(vocab, ps[|ps| - 1].0), Remap(vocab, ps[|ps| - 1].1))]
  }

  /** The pairs `perplexity` scores, in order: the adjacent pairs of every test word
      (lines 77-79), remapped. */
  function ScoredPairs(vocab: set<Phoneme>, test: seq<Word>): seq<Bigram>
  {
    RemapAll(vocab, CorpusBigrams(test))
  }

  /** Where the scoring loop of lines 77-85 ends: the sum of the log-probabilities of
      all pairs, or the exception of the first pair whose `logP` raises. */
  datatype Scan = Summed(total: real) | Raised(error: LMError, at: nat)

  function ScanLogs(P: Table, log2: real -> real, pairs: seq<Bigram>): (s: Scan)
    ensures s.Raised? ==> s.at < |pairs|
  {
    if pairs == [] then Summed(0.0)
    else
      var last := pairs[|pairs| - 1];
      var prev := ScanLogs(P, log2, pairs[..|pairs| - 1]);
      if prev.Raised? then prev
      else match LogProb(P, log2, last.0, last.1)
        case Failure(e) => Raised(e, |pairs| - 1)
        case Success(l) => Summed(prev.total + l)
  }

  /** `perplexity(test)` (lines 70-88): `2 ** (-(1/M) * sum of logP)` over the `M`
      scored pairs; a `ZeroDivisionError` when there is no pair. */
  function PerplexityOf(P: Table, vocab: set<Phoneme>, log2: real -> real, pow2: real -> real, test: seq<Word>): (r: Result<real, LMError>)
    ensures r.Success? <==> ScanLogs(P, log2, ScoredPairs(vocab, test)).Summed? && PairTotal(test) > 0
  {
    var pairs := ScoredPairs(vocab, test);
    match ScanLogs(P, log2, pairs)
    case Raised(e, _) => Failure(e)
    case Summed(s) =>
      if |pairs| == 0 then Failure(ZeroDivisionError)
      else Success(pow2(Exponent(s, |pairs|)))
  }

  /** `(-1/M) * logProbs` of line 87. */
  function Exponent(logProbs: real, m: nat): real
    requires m > 0
  {
    (-1.0 / m as real) * logProbs
  }

  /** The table after `perplexity`: unchanged, except that a `logP` call on a missing
      row has inserted that row empty before raising. */
  function TableAfterScoring(P: Table, vocab: set<Phoneme>, log2: real -> real, test: seq<Word>): (r: Table)
    ensures P.Keys <= r.Keys
    ensures forall k :: k in P ==> r[k] == P[k]
    ensures forall k :: k in r && k !in P ==> r[k] == map[]
  {
    var pairs := ScoredPairs(vocab, test);
    match ScanLogs(P, log2, pairs)
    case Raised(_, i) => Touch(P, pairs[i].0)
    case Summed(_) => P
  }

  /** `surprisal(test)` (lines 91-93): `log2` of the perplexity. */
  function SurprisalOf(P: Table, vocab: set<Phoneme>, log2: real -> real, pow2: real -> real, test: seq<Word>): (r: Result<real, LMError>)
    ensures PerplexityOf(P, vocab, log2, pow2, test).Failure? ==> r == PerplexityOf(P, vocab, log2, pow2, test)
    ensures r.Success? <==> PerplexityOf(P, vocab, log2, pow2, test).Success? && PerplexityOf(P, vocab, log2, pow2, test).value > 0.0
  {
    match PerplexityOf(P, vocab, log2, pow2, test)
    case Failure(e) => Failure(e)
    case Success(pp) => if pp <= 0.0 then Failure(MathDomainError) else Success(log2(pp))
  }

  /** `abs`. */
  function Abs(x: real): real
  {
    if x < 0.0 then -x else x
  }

  /** Row `h` exists and holds an entry for every symbol: reading it in line 103 raises no
      `KeyError`. */
  predicate RowCovered(P: Table, h: Phoneme, vocab: set<Phoneme>)
  {
    h in P && vocab <= P[h].Keys
  }

  /** The assertion of line 106 for one row. */
  ghost predicate MassNearOne(row: Row, vocab: set<Phoneme>)
  {
    Abs(1.0 - RowMass(row, vocab)) < Precision
  }

  /** `test()` (lines 96-112) completes: every row is complete and sums to 1 within
      the tolerance. */
  ghost predicate TablePasses(P: Table, vocab: set<Phoneme>)
    ensures vocab == {} ==> TablePasses(P, vocab)
  {
    forall h :: h in vocab ==> RowCovered(P, h, vocab) && MassNearOne(P[h], vocab)
  }

  /** Every entry `logP` can be asked for over `vocab` exists and is positive. */
  predicate Covered(P: Table, vocab: set<Phoneme>)
  {
    forall h, c :: h in vocab && c in vocab ==> h in P && c in P[h] && P[h][c] > 0.0
  }

  // ---------------------------------------------------------------------------
  // logP

  /** `logP` succeeds exactly on a present, positive entry, and then is its log. */
  lemma LogProbCases(P: Table, log2: real -> real, h: Phoneme, c: Phoneme)
    ensures LogProb(P, log2, h, c).Success? <==> h in P && c in P[h] && P[h][c] > 0.0
    ensures LogProb(P, log2, h, c).Success? ==> LogProb(P, log2, h, c).value == log2(P[h][c])
    ensures h !in P || c !in P[h] ==> LogProb(P, log2, h, c) == Failure(KeyError)
    ensures h in P && c in P[h] && P[h][c] <= 0.0 ==> LogProb(P, log2, h, c) == Failure(MathDomainError)
  {
  }

  /** Touching a row never loses or alters an existing one. */
  lemma TouchKeepsRows(P: Table, h: Phoneme, k: Phoneme)
    requires k in P
    ensures Touch(P, h).Keys == P.Keys + {h}
    ensures k in Touch(P, h) && Touch(P, h)[k] == P[k]
    ensures h in P ==> Touch(P, h) == P
    ensures h !in P ==> Touch(P, h)[h] == map[]
  {
  }

  // ---------------------------------------------------------------------------
  // The scored pairs

  /** `M` counts one per adjacent pair of the test corpus, the same decomposition as
      training: it is the number of bigrams of the test words. */
  lemma ScoredPairsCount(vocab: set<Phoneme>, test: seq<Word>)
    ensures |ScoredPairs(vocab, test)| == PairTotal(test)
  {
    CorpusHistoriesAreFirsts(test);
  }

  /** Each scored pair is the corresponding test bigram with each side remapped on its
      own, and so lies in the phoneme set extended with `'$'`. */
  lemma ScoredPairsRemapped(vocab: set<Phoneme>, test: seq<Word>, k: nat)
    requires k < |CorpusBigrams(test)|
    ensures k < |ScoredPairs(vocab, test)|
    ensures var p, q := CorpusBigrams(test)[k], ScoredPairs(vocab, test)[k];
            && q.0 == (if p.0 in vocab then p.0 else Unk)
            && q.1 == (if p.1 in vocab then p.1 else Unk)
    ensures ScoredPairs(vocab, test)[k].0 in vocab + {Unk} && ScoredPairs(vocab, test)[k].1 in vocab + {Unk}
  {
    RemapAllAt(vocab, CorpusBigrams(test), k);
  }

  /** Each remapped pair is the original pair with each side remapped on its own. */
  lemma {:induction false} RemapAllAt(vocab: set<Phoneme>, ps: seq<Bigram>, i: nat)
    requires i < |ps|
    ensures RemapAll(vocab, ps)[i] == (Remap(vocab, ps[i].0), Remap(vocab, ps[i].1))
  {
    if i < |ps| - 1 {
      RemapAllAt(vocab, ps[..|ps| - 1], i);
    }
  }

  /** The pairs of a corpus extended by one word, remapped, extend the remapped pairs
      of the corpus by the remapped pairs of the word. */
  lemma {:induction false} RemapAllAppend(vocab: set<Phoneme>, a: seq<Bigram>, b: seq<Bigram>)
    ensures RemapAll(vocab, a + b) == RemapAll(vocab, a) + RemapAll(vocab, b)
  {
    var r := RemapAll(vocab, a + b);
    var s := RemapAll(vocab, a) + RemapAll(vocab, b);
    assert |r| == |s|;
    forall i | 0 <= i < |r| ensures r[i] == s[i] {
      RemapAllAt(vocab, a + b, i);
      if i < |a| {
        assert (a + b)[i] == a[i];
        RemapAllAt(vocab, a, i);
      } else {
        assert (a + b)[i] == b[i - |a|];
        RemapAllAt(vocab, b, i - |a|);
      }
    }
  }

  // ---------------------------------------------------------------------------
  // The scoring loop

  /** The loop stops at the first failing pair: once a prefix raises, the scan of any
      extension raises the same exception at the same pair. */
  lemma {:induction false} ScanStopsAtFirstFailure(P: Table, log2: real -> real, a: seq<Bigram>, b: seq<Bigram>)
    requires ScanLogs(P, log2, a).Raised?
    ensures ScanLogs(P, log2, a + b) == ScanLogs(P, log2, a)
  {
    if b == [] {
      assert a + b == a;
    } else {
      var init := b[..|b| - 1];
      ScanStopsAtFirstFailure(P, log2, a, init);
      assert (a + b)[..|a + b| - 1] == a + init;
    }
  }

  /** What the scan says about the pairs: a raise names the first failing pair, after
      pairs that all succeeded; a sum means every pair succeeded. */
  lemma {:induction false} ScanLogsSpec(P: Table, log2: real -> real, pairs: seq<Bigram>)
    ensures var s := ScanLogs(P, log2, pairs);
            && (s.Raised? ==> s.at < |pairs| && LogProb(P, log2, pairs[s.at].0, pairs[s.at].1) == Failure(s.error))
            && (s.Raised? ==> forall j :: 0 <= j < s.at ==> LogProb(P, log2, pairs[j].0, pairs[j].1).Success?)
            && (s.Summed? ==> forall j :: 0 <= j < |pairs| ==> LogProb(P, log2, pairs[j].0, pairs[j].1).Success?)
  {
    if pairs != [] {
      var init := pairs[..|pairs| - 1];
      ScanLogsSpec(P, log2, init);
      forall j | 0 <= j < |init| ensures pairs[j] == init[j] {
      }
    }
  }

  /** The scored pairs of the first `k + 1` test words: those of the first `k` words
      followed by those of word `k`. */
  lemma ScoredPairsStep(vocab: set<Phoneme>, test: seq<Word>, k: nat)
    requires k < |test|
    ensures RemapAll(vocab, CorpusBigrams(test[..k + 1])) ==
              RemapAll(vocab, CorpusBigrams(test[..k])) + RemapAll(vocab, Bigrams(test[k]))
  {
    assert test[..k + 1][..k] == test[..k];
    RemapAllAppend(vocab, CorpusBigrams(test[..k]), Bigrams(test[k]));
  }

  /** The remapped pair at position `j` of a word joins its symbols `j` and `j + 1`. */
  lemma WordPairAt(vocab: set<Phoneme>, word: Word, j: nat)
    requires j + 1 < |word|
    ensures j < |RemapAll(vocab, Bigrams(word))|
    ensures RemapAll(vocab, Bigrams(word))[j] == (Remap(vocab, word[j]), Remap(vocab, word[j + 1]))
  {
    RemapAllAt(vocab, Bigrams(word), j);
  }

  /** Scoring the next pair of a word extends the running sum by its log-probability. */
  lemma WordPairExtends(P: Table, vocab: set<Phoneme>, log2: real -> real, done: seq<Bigram>, word: Word, j: nat, total: real, l: real)
    requires j + 1 < |word|
    requires ScanLogs(P, log2, done + RemapAll(vocab, Bigrams(word))[..j]) == Summed(total)
    requires LogProb(P, log2, Remap(vocab, word[j]), Remap(vocab, word[j + 1])) == Success(l)
    ensures ScanLogs(P, log2, done + RemapAll(vocab, Bigrams(word))[..j + 1]) == Summed(total + l)
  {
    WordPairAt(vocab, word, j);
    ScanPairExtends(P, log2, done, RemapAll(vocab, Bigrams(word)), j, total, l, total + l);
  }

  /** Scoring the next pair of a word raises: so does the whole scan, at that pair. */
  lemma WordPairRaises(P: Table, P1: Table, vocab: set<Phoneme>, log2: real -> real, done: seq<Bigram>, word: Word, j: nat, e: LMError)
    requires j + 1 < |word|
    requires ScanLogs(P, log2, done + RemapAll(vocab, Bigrams(word))[..j]).Summed?
    requires LogProb(P, log2, Remap(vocab, word[j]), Remap(vocab, word[j + 1])) == Failure(e)
    requires P1 == Touch(P, Remap(vocab, word[j]))
    ensures var pairs := done + RemapAll(vocab, Bigrams(word));
      ScanLogs(P, log2, pairs) == Raised(e, |done| + j) && P1 == Touch(P, pairs[|done| + j].0)
  {
    WordPairAt(vocab, word, j);
    ScanPairRaises(P, P1, log2, done, RemapAll(vocab, Bigrams(word)), j, e);
  }

  /** A word has one pair fewer than symbols, and none when it has at most one. */
  lemma WordPairCount(vocab: set<Phoneme>, word: Word)
    ensures |RemapAll(vocab, Bigrams(word))| == if |word| <= 1 then 0 else |word| - 1
  {
  }

  /** When the first `k` test words already raise, so does the whole test corpus, at
      the same pair: `perplexity` raises that exception, with that pair's row touched. */
  lemma ScoredPrefixRaises(P: Table, P1: Table, vocab: set<Phoneme>, log2: real -> real, pow2: real -> real, test: seq<Word>, k: nat, e: LMError)
    requires k <= |test|
    requires ScanLogs(P, log2, RemapAll(vocab, CorpusBigrams(test[..k]))).Raised?
    requires ScanLogs(P, log2, RemapAll(vocab, CorpusBigrams(test[..k]))).error == e
    requires P1 == Touch(P, RemapAll(vocab, CorpusBigrams(test[..k]))[ScanLogs(P, log2, RemapAll(vocab, CorpusBigrams(test[..k]))).at].0)
    ensures PerplexityOf(P, vocab, log2, pow2, test) == Failure(e)
    ensures TableAfterScoring(P, vocab, log2, test) == P1
  {
    var done := RemapAll(vocab, CorpusBigrams(test[..k]));
    var rest := RemapAll(vocab, CorpusBigrams(test[k..]));
    assert RemapAll(vocab, CorpusBigrams(test)) == done + rest by {
      assert test == test[..k] + test[k..];
      CorpusBigramsAppend(test[..k], test[k..]);
      RemapAllAppend(vocab, CorpusBigrams(test[..k]), CorpusBigrams(test[k..]));
    }
    ScanStopsAtFirstFailure(P, log2, done, rest);
    var s := ScanLogs(P, log2, ScoredPairs(vocab, test));
    assert s == ScanLogs(P, log2, done) == Raised(e, s.at);
    assert ScoredPairs(vocab, test)[s.at] == done[s.at];
  }

  /** Scoring pair `j` of a word after `done` and the word's first `j` pairs: a success
      adds its log-probability to the running sum. */
  lemma ScanPairExtends(P: Table, log2: real -> real, done: seq<Bigram>, pairs: seq<Bigram>, j: nat, total: real, l: real, next: real)
    requires j < |pairs|
    requires ScanLogs(P, log2, done + pairs[..j]) == Summed(total)
    requires LogProb(P, log2, pairs[j].0, pairs[j].1) == Success(l)
    requires next == total + l
    ensures ScanLogs(P, log2, done + pairs[..j + 1]) == Summed(next)
  {
    assert done + pairs[..j + 1] == (done + pairs[..j]) + [pairs[j]];
    ScanExtend(P, log2, done + pairs[..j], pairs[j], total, l);
  }

  /** ... and a failure is where the scan of `done` and all the word's pairs raises,
      with the row of that pair touched. */
  lemma ScanPairRaises(P: Table, P1: Table, log2: real -> real, done: seq<Bigram>, pairs: seq<Bigram>, j: nat, e: LMError)
    requires j < |pairs|
    requires ScanLogs(P, log2, done + pairs[..j]).Summed?
    requires LogProb(P, log2, pairs[j].0, pairs[j].1) == Failure(e)
    requires P1 == Touch(P, pairs[j].0)
    ensures ScanLogs(P, log2, done + pairs) == Raised(e, |done| + j)
    ensures P1 == Touch(P, (done + pairs)[|done| + j].0)
  {
    var s := done + pairs;
    assert s[..|done| + j] == done + pairs[..j];
    assert s[|done| + j] == pairs[j];
    ScanRaisesIn(P, log2, s, |done| + j, e);
  }

  /** Pair `i` raising after a prefix that raised nothing is where the whole scan raises. */
  lemma ScanRaisesIn(P: Table, log2: real -> real, s: seq<Bigram>, i: nat, e: LMError)
    requires i < |s|
    requires ScanLogs(P, log2, s[..i]).Summed?
    requires LogProb(P, log2, s[i].0, s[i].1) == Failure(e)
    ensures ScanLogs(P, log2, s) == Raised(e, i)
  {
    assert s == s[..i] + [s[i]] + s[i + 1..];
    ScanRaisesAt(P, log2, s[..i], s[i], s[i + 1..], e);
  }

  /** One more pair scored after a prefix that raised nothing. */
  lemma ScanStep(P: Table, log2: real -> real, a: seq<Bigram>, p: Bigram)
    requires ScanLogs(P, log2, a).Summed?
    ensures ScanLogs(P, log2, a + [p]) ==
              match LogProb(P, log2, p.0, p.1)
              case Failure(e) => Raised(e, |a|)
              case Success(l) => Summed(ScanLogs(P, log2, a).total + l)
  {
    assert (a + [p])[..|a|] == a;
  }

  /** A pair whose `logP` succeeds adds its log-probability to the running sum. */
  lemma ScanExtend(P: Table, log2: real -> real, a: seq<Bigram>, p: Bigram, total: real, l: real)
    requires ScanLogs(P, log2, a) == Summed(total)
    requires LogProb(P, log2, p.0, p.1) == Success(l)
    ensures ScanLogs(P, log2, a + [p]) == Summed(total + l)
  {
    ScanStep(P, log2, a, p);
  }

  /** A pair whose `logP` raises ends the scan there, whatever follows it. */
  lemma ScanRaisesAt(P: Table, log2: real -> real, a: seq<Bigram>, p: Bigram, rest: seq<Bigram>, e: LMError)
    requires ScanLogs(P, log2, a).Summed?
    requires LogProb(P, log2, p.0, p.1) == Failure(e)
    ensures ScanLogs(P, log2, a + [p] + rest) == Raised(e, |a|)
    ensures (a + [p] + rest)[|a|] == p
  {
    ScanStep(P, log2, a, p);
    ScanStopsAtFirstFailure(P, log2, a + [p], rest);
  }

  /** A scan succeeds exactly when every pair has a present, positive entry. */
  lemma ScanSucceeds(P: Table, log2: real -> real, pairs: seq<Bigram>)
    ensures ScanLogs(P, log2, pairs).Summed? <==>
              forall j :: 0 <= j < |pairs| ==> pairs[j].0 in P && pairs[j].1 in P[pairs[j].0] && P[pairs[j].0][pairs[j].1] > 0.0
  {
    var s := ScanLogs(P, log2, pairs);
    ScanLogsSpec(P, log2, pairs);
    if s.Raised? {
      LogProbCases(P, log2, pairs[s.at].0, pairs[s.at].1);
    } else {
      forall j | 0 <= j < |pairs|
        ensures pairs[j].0 in P && pairs[j].1 in P[pairs[j].0] && P[pairs[j].0][pairs[j].1] > 0.0
      {
        LogProbCases(P, log2, pairs[j].0, pairs[j].1);
      }
    }
  }

  // ---------------------------------------------------------------------------
  // perplexity and surprisal

  /** With no bigram in the test corpus, `M` stays 0 and line 87 divides by zero,
      unless some `logP` raised first, which cannot happen as there is no pair. */
  lemma EmptyTestRaises(P: Table, vocab: set<Phoneme>, log2: real -> real, pow2: real -> real, test: seq<Word>)
    requires PairTotal(test) == 0
    ensures PerplexityOf(P, vocab, log2, pow2, test) == Failure(ZeroDivisionError)
    ensures SurprisalOf(P, vocab, log2, pow2, test) == Failure(ZeroDivisionError)
    ensures TableAfterScoring(P, vocab, log2, test) == P
  {
    ScoredPairsCount(vocab, test);
  }

  /** When every entry over the phoneme set and `'$'` exists and is positive, no `logP`
      raises: `perplexity` fails only on a test corpus without bigrams, and leaves the
      table as it was. */
  lemma CoveredScoring(P: Table, vocab: set<Phoneme>, log2: real -> real, pow2: real -> real, test: seq<Word>)
    requires Covered(P, vocab + {Unk})
    ensures ScanLogs(P, log2, ScoredPairs(vocab, test)).Summed?
    ensures PerplexityOf(P, vocab, log2, pow2, test).Success? <==> PairTotal(test) > 0
    ensures TableAfterScoring(P, vocab, log2, test) == P
  {
    CoveredScan(P, vocab, log2, test);
    ScoredPairsCount(vocab, test);
  }

  lemma CoveredScan(P: Table, vocab: set<Phoneme>, log2: real -> real, test: seq<Word>)
    requires Covered(P, vocab + {Unk})
    ensures ScanLogs(P, log2, ScoredPairs(vocab, test)).Summed?
  {
    var pairs := ScoredPairs(vocab, test);
    forall j | 0 <= j < |pairs|
      ensures pairs[j].0 in P && pairs[j].1 in P[pairs[j].0] && P[pairs[j].0][pairs[j].1] > 0.0
    {
      ScoredPairCovered(P, vocab, test, j);
    }
    ScanSucceeds(P, log2, pairs);
  }

  /** Scored pair `j` has a present, positive entry in a covering table. */
  lemma ScoredPairCovered(P: Table, vocab: set<Phoneme>, test: seq<Word>, j: nat)
    requires Covered(P, vocab + {Unk})
    requires j < |ScoredPairs(vocab, test)|
    ensures var q := ScoredPairs(vocab, test)[j]; q.0 in P && q.1 in P[q.0] && P[q.0][q.1] > 0.0
  {
    ScoredPairsCount(vocab, test);
    ScoredPairsRemapped(vocab, test, j);
    var q := ScoredPairs(vocab, test)[j];
    CoveredAt(P, vocab + {Unk}, q.0, q.1);
  }

  lemma CoveredAt(P: Table, symbols: set<Phoneme>, h: Phoneme, c: Phoneme)
    requires Covered(P, symbols) && h in symbols && c in symbols
    ensures h in P && c in P[h] && P[h][c] > 0.0
  {
  }

  /** With `log2` the inverse of `pow2` and `pow2` positive, the surprisal is the average
      negative log-probability of the scored pairs. */
  lemma SurprisalIsAverage(P: Table, vocab: set<Phoneme>, log2: real -> real, pow2: real -> real, test: seq<Word>)
    requires forall x :: pow2(x) > 0.0 && log2(pow2(x)) == x
    requires ScanLogs(P, log2, ScoredPairs(vocab, test)).Summed?
    requires PairTotal(test) > 0
    ensures SurprisalOf(P, vocab, log2, pow2, test)
            == Success(-ScanLogs(P, log2, ScoredPairs(vocab, test)).total / PairTotal(test) as real)
  {
    var s := ScanLogs(P, log2, ScoredPairs(vocab, test)).total;
    PerplexityValue(P, vocab, log2, pow2, test);
    var x := Exponent(s, PairTotal(test));
    assert pow2(x) > 0.0 && log2(pow2(x)) == x;
    NegatedMean(s, PairTotal(test));
  }

  /** When no `logP` raises and there is a pair, the perplexity is `pow2` of minus the
      mean log-probability. */
  lemma PerplexityValue(P: Table, vocab: set<Phoneme>, log2: real -> real, pow2: real -> real, test: seq<Word>)
    requires ScanLogs(P, log2, ScoredPairs(vocab, test)).Summed?
    requires PairTotal(test) > 0
    ensures PerplexityOf(P, vocab, log2, pow2, test)
            == Success(pow2(Exponent(ScanLogs(P, log2, ScoredPairs(vocab, test)).total, PairTotal(test))))
  {
    ScoredPairsCount(vocab, test);
  }

  lemma NegatedMean(s: real, m: nat)
    requires m > 0
    ensures Exponent(s, m) == -s / m as real
  {
  }

  // ---------------------------------------------------------------------------
  // test

  /** A table whose rows are distributions over the phoneme set passes `test`. */
  lemma DistributionsPass(P: Table, vocab: set<Phoneme>)
    requires forall h :: h in vocab ==> h in P && Distribution(P[h], vocab)
    ensures TablePasses(P, vocab)
  {
    assert 0.0 < Precision;
  }

  /** A row that fails `test` is either incomplete or misses mass 1 by the tolerance. */
  lemma FailingRow(P: Table, vocab: set<Phoneme>)
    requires !TablePasses(P, vocab)
    ensures exists h :: h in vocab && (!RowCovered(P, h, vocab) || !MassNearOne(P[h], vocab))
  {
  }

  /** Normalisation of the add-one model (lines 53-62 checked by lines 102-106): when
      every training symbol is in the phoneme set, `test` passes. */
  lemma AddOneModelPasses(corpus: seq<Word>, vocab: set<Phoneme>)
    requires SymbolsWithin(corpus, vocab)
    ensures TablePasses(AddOneTable(UnigramCounts(corpus), BigramCounts(corpus), vocab), vocab)
  {
    var u, b := UnigramCounts(corpus), BigramCounts(corpus);
    var P := AddOneTable(u, b, vocab);
    CorpusCountsConsistent(corpus, vocab);
    forall h | h in vocab ensures h in P && Distribution(P[h], vocab) {
      AddOneNormalised(u, b, vocab, h);
    }
    DistributionsPass(P, vocab);
  }

  /** Normalisation of the discounting model (lines 126-165 checked by lines 102-106):
      with at least one training bigram, a discount in [0, 1] and every training symbol
      in the phoneme set, `test` passes. */
  lemma AbsDiscModelPasses(corpus: seq<Word>, vocab: set<Phoneme>, d: real)
    requires SymbolsWithin(corpus, vocab)
    requires PairTotal(corpus) > 0 && 0.0 <= d <= 1.0
    ensures |UnigramCounts(corpus)| > 0
    ensures TablePasses(AbsDiscTable(UnigramCounts(corpus), BigramCounts(corpus), vocab, d), vocab)
  {
    var u, b := UnigramCounts(corpus), BigramCounts(corpus);
    UnigramTotal(corpus);
    var P := AbsDiscTable(u, b, vocab, d);
    CorpusCountsConsistent(corpus, vocab);
    forall h | h in vocab ensures h in P && Distribution(P[h], vocab) {
      AbsDiscNormalised(u, b, vocab, d, h);
    }
    DistributionsPass(P, vocab);
  }

  // ---------------------------------------------------------------------------
  // Which models can score

  /** Every add-one entry is positive, so with `'$'` in the phoneme set no `logP` call
      of `perplexity` can raise. */
  lemma AddOneCovered(ucounts: multiset<Phoneme>, bcounts: multiset<Bigram>, vocab: set<Phoneme>)
    requires Unk in vocab
    ensures Covered(AddOneTable(ucounts, bcounts, vocab), vocab + {Unk})
  {
    assert vocab + {Unk} == vocab;
    forall h, c | h in vocab && c in vocab
      ensures AddOneTable(ucounts, bcounts, vocab)[h][c] > 0.0
    {
      AddOneTableEntry(ucounts, bcounts, vocab, h, c);
    }
  }

  /** With a positive discount and a non-empty training corpus every discounting entry
      is positive, so `logP` is defined on every pair `perplexity` scores. */
  lemma AbsDiscCovered(corpus: seq<Word>, vocab: set<Phoneme>, d: real)
    requires Unk in vocab && d > 0.0 && PairTotal(corpus) > 0
    ensures |UnigramCounts(corpus)| > 0
    ensures Covered(AbsDiscTable(UnigramCounts(corpus), BigramCounts(corpus), vocab, d), vocab + {Unk})
  {
    var u, b := UnigramCounts(corpus), BigramCounts(corpus);
    UnigramTotal(corpus);
    assert vocab + {Unk} == vocab;
    forall h, c | h in vocab && c in vocab
      ensures AbsDiscTable(u, b, vocab, d)[h][c] > 0.0
    {
      CountsOfCorpus(corpus, h, c);
      AbsDiscEntryPositive(u, b, vocab, d, h, c);
    }
  }

  lemma AbsDiscEntryPositive(ucounts: multiset<Phoneme>, bcounts: multiset<Bigram>, vocab: set<Phoneme>, d: real, h: Phoneme, c: Phoneme)
    requires d > 0.0 && |ucounts| > 0 && h in vocab && c in vocab
    requires ucounts[h] > 0 ==> NumContinuations(bcounts, h) > 0
    ensures AbsDiscTable(ucounts, bcounts, vocab, d)[h][c] > 0.0
  {
    AbsDiscPositive(ucounts, bcounts, |vocab|, d, h, c);
    PositiveEntry(ucounts, bcounts, vocab, d, h, c);
  }

  lemma PositiveEntry(ucounts: multiset<Phoneme>, bcounts: multiset<Bigram>, vocab: set<Phoneme>, d: real, h: Phoneme, c: Phoneme)
    requires |ucounts| > 0 && h in vocab && c in vocab
    requires AbsDiscProb(ucounts, bcounts, |vocab|, d, h, c) > 0.0
    ensures AbsDiscTable(ucounts, bcounts, vocab, d)[h][c] > 0.0
  {
    AbsDiscTableEntry(ucounts, bcounts, vocab, d, h, c);
  }
}
