/** The classes `Phoneme_LM` and `Absdisc_Phoneme_LM` of LM_models.py as one class
    `PhonemeLM` whose `smoothing` field selects the `estimate_probs` override, as the
    subclass does. `math.log(x, 2)` and `math.pow(2, x)` are the parameters `log2` and
    `pow2`; probabilities are exact reals. */
module LanguageModels {
  import opened Outcomes
  import opened Sums
  import opened Counting
  import opened Estimators
  import opened Scoring

  /** Which `estimate_probs` runs: the base class's add-one smoothing or the subclass's
      absolute discounting with discount `d`. */
  datatype Smoothing = AddOne | AbsoluteDiscount(d: real)

  /** The table `estimate_probs` leaves in `self.P`, or the exception it raises. */
  function EstimatedTable(smoothing: Smoothing, ucounts: multiset<Phoneme>, bcounts: multiset<Bigram>, vocab: set<Phoneme>): (r: Result<Table, LMError>)
    ensures r.Failure? <==> smoothing.AbsoluteDiscount? && |ucounts| == 0 && vocab != {}
    ensures r.Failure? ==> r.error == ZeroDivisionError
    ensures r.Success? ==> r.value.Keys == vocab
  {
    match smoothing
    case AddOne => Success(AddOneTable(ucounts, bcounts, vocab))
    case AbsoluteDiscount(d) =>
      if |ucounts| == 0 && vocab != {} then Failure(ZeroDivisionError)
      else Success(AbsDiscTable(ucounts, bcounts, vocab, d))
  }

  /** What one run of the discounting `estimate_probs` leaves behind over a vocabulary
      holding `'$'`: it fails exactly when there is no count at all. */
  lemma AbsDiscOutcome(d: real, ucounts: multiset<Phoneme>, bcounts: multiset<Bigram>, vocab: set<Phoneme>, err: Option<LMError>, P: Table)
    requires Unk in vocab
    requires match EstimatedTable(AbsoluteDiscount(d), ucounts, bcounts, vocab)
      case Success(t) => err == None && P == t
      case Failure(e) => err == Some(e) && P == map[]
    ensures err.Some? <==> |ucounts| == 0
    ensures err.Some? ==> err.value == ZeroDivisionError
    ensures err.None? ==> P == AbsDiscTable(ucounts, bcounts, vocab, d)
  {
  }

  /** The caller's `phoneme_set`: the model keeps a reference to it, so line 42
      changes the caller's set as well. */
  class SymbolSet {
    var elems: set<Phoneme>

    constructor (elems: set<Phoneme>)
      ensures this.elems == elems
    {
      this.elems := elems;
    }

    /** `set.add`. */
    method Add(x: Phoneme)
      modifies this
      ensures elems == old(elems) + {x}
    {
      elems := elems + {x};
    }
  }

  /** The two list comprehensions of lines 28-29 for one word. */
  method WordGrams(ipaTrans: Word) returns (ugrams: seq<Phoneme>, bgrams: seq<Bigram>)
    ensures ugrams == Histories(ipaTrans) && bgrams == Bigrams(ipaTrans)
  {
    ugrams := seq(if |ipaTrans| <= 1 then 0 else |ipaTrans| - 1, i requires 0 <= i < |ipaTrans| - 1 => ipaTrans[i]);
    bgrams := seq(if |ipaTrans| <= 1 then 0 else |ipaTrans| - 1, i requires 0 <= i < |ipaTrans| - 1 => (ipaTrans[i], ipaTrans[i + 1]));
  }

  /** The loop of lines 26-32 and the counters of lines 35-36: the history unigrams and
      the bigrams of every word, in corpus order. */
  method CountCorpus(corpus: seq<Word>) returns (ucounts: multiset<Phoneme>, bcounts: multiset<Bigram>)
    ensures ucounts == UnigramCounts(corpus) && bcounts == BigramCounts(corpus)
  {
    var phUgrams: seq<Phoneme> := [];
    var phBgrams: seq<Bigram> := [];
    var k := 0;
    while k < |corpus|
      invariant 0 <= k <= |corpus|
      invariant phUgrams == CorpusHistories(corpus[..k])
      invariant phBgrams == CorpusBigrams(corpus[..k])
    {
      var ugrams, bgrams := WordGrams(corpus[k]);
      assert corpus[..k + 1][..k] == corpus[..k];
      phUgrams := phUgrams + ugrams;
      phBgrams := phBgrams + bgrams;
      k := k + 1;
    }
    assert corpus[..k] == corpus;
    ucounts := multiset(phUgrams);
    bcounts := multiset(phBgrams);
  }

  /** The inner loop of LM_models.py lines 57-62: the add-one estimate of every
      symbol after history `ph1`. */
  method AddOneRowLoop(ucounts: multiset<Phoneme>, bcounts: multiset<Bigram>, vocab: set<Phoneme>, ph1: Phoneme) returns (row: Row)
    ensures row == AddOneRow(ucounts, bcounts, vocab, ph1)
  {
    var size := |vocab|;
    row := map[];
    var cols := vocab;
    assert vocab - cols == {};
    while cols != {}
      invariant cols <= vocab
      invariant row == Tabulate(vocab - cols, AddOneEntryOf(ucounts, bcounts, vocab, ph1))
      decreases cols
    {
      var ph2 :| ph2 in cols;
      var p := AddOneProb(ucounts, bcounts, size, ph1, ph2);
      AddOneEntryOfAt(ucounts, bcounts, vocab, ph1, ph2);
      TabulateExtend(row, vocab, cols, AddOneEntryOf(ucounts, bcounts, vocab, ph1), ph2, p);
      row := row[ph2 := p];
      cols := cols - {ph2};
    }
    assert vocab - cols == vocab;
    AddOneRowTabulated(ucounts, bcounts, vocab, ph1);
  }

  /** LM_models.py lines 138-146: the row of a history never seen, the unigram
      estimate `uniP` for every symbol. `N` is recomputed for every entry, as in the
      source, so the division by `N == 0` fails at the first entry. */
  method UnseenRowLoop(ucounts: multiset<Phoneme>, bcounts: multiset<Bigram>, vocab: set<Phoneme>, d: real, ph1: Phoneme)
    returns (err: Option<LMError>, row: Row)
    requires ucounts[ph1] == 0
    ensures err.Some? <==> |ucounts| == 0 && vocab != {}
    ensures err.Some? ==> err.value == ZeroDivisionError
    ensures err.None? && |ucounts| > 0 ==> row == AbsDiscRow(ucounts, bcounts, vocab, d, ph1)
  {
    var size := |vocab|;
    row := map[];
    var cols := vocab;
    assert vocab - cols == {};
    while cols != {}
      invariant cols <= vocab
      invariant |ucounts| == 0 ==> cols == vocab
      invariant |ucounts| > 0 ==> row == Tabulate(vocab - cols, AbsDiscEntryOf(ucounts, bcounts, vocab, d, ph1))
      decreases cols
    {
      var ph2 :| ph2 in cols;
      if |ucounts| == 0 {
        return Some(ZeroDivisionError), row;
      }
      var p := UnigramProb(ucounts, size, d, ph2);
      AbsDiscEntryOfAt(ucounts, bcounts, vocab, d, ph1, ph2);
      TabulateExtend(row, vocab, cols, AbsDiscEntryOf(ucounts, bcounts, vocab, d, ph1), ph2, p);
      row := row[ph2 := p];
      cols := cols - {ph2};
    }
    err := None;
    if |ucounts| > 0 {
      assert vocab - cols == vocab;
      AbsDiscRowTabulated(ucounts, bcounts, vocab, d, ph1);
    }
  }

  /** LM_models.py lines 148-165: the row of a seen history, the discounted bigram
      estimate plus `Zh` times the unigram estimate. */
  method SeenRowLoop(ucounts: multiset<Phoneme>, bcounts: multiset<Bigram>, vocab: set<Phoneme>, d: real, ph1: Phoneme) returns (row: Row)
    requires ucounts[ph1] > 0
    ensures |ucounts| > 0 && row == AbsDiscRow(ucounts, bcounts, vocab, d, ph1)
  {
    var size := |vocab|;
    assert ph1 in ucounts;
    row := map[];
    var cols := vocab;
    assert vocab - cols == {};
    while cols != {}
      invariant cols <= vocab
      invariant row == Tabulate(vocab - cols, AbsDiscEntryOf(ucounts, bcounts, vocab, d, ph1))
      decreases cols
    {
      var ph2 :| ph2 in cols;
      var p := AbsDiscProb(ucounts, bcounts, size, d, ph1, ph2);
      AbsDiscEntryOfAt(ucounts, bcounts, vocab, d, ph1, ph2);
      TabulateExtend(row, vocab, cols, AbsDiscEntryOf(ucounts, bcounts, vocab, d, ph1), ph2, p);
      row := row[ph2 := p];
      cols := cols - {ph2};
    }
    assert vocab - cols == vocab;
    AbsDiscRowTabulated(ucounts, bcounts, vocab, d, ph1);
  }

  class PhonemeLM {
    var ucounts: multiset<Phoneme>
    var bcounts: multiset<Bigram>
    var phonemeSet: SymbolSet
    var smoothing: Smoothing
    var P: Table

    /** Lines 22-42: count the corpus, keep a reference to the caller's phoneme set and
        add `'$'` to it when `unk` holds; `self.P` is filled by `estimate_probs`. */
    constructor Init(corpus: seq<Word>, phonemeSet: SymbolSet, unk: bool, smoothing: Smoothing)
      modifies phonemeSet
      ensures this.ucounts == UnigramCounts(corpus) && this.bcounts == BigramCounts(corpus)
      ensures this.phonemeSet == phonemeSet && this.smoothing == smoothing
      ensures phonemeSet.elems == old(phonemeSet.elems) + (if unk then {Unk} else {})
      ensures P == map[]
    {
      var u, b := CountCorpus(corpus);
      ucounts := u;
      bcounts := b;
      this.phonemeSet := phonemeSet;
      this.smoothing := smoothing;
      P := map[];
      new;
      if unk {
        phonemeSet.Add(Unk);
      }
    }

    /** `Phoneme_LM(corpus, phoneme_set, unk)`: the constructor followed by the add-one
        `estimate_probs` of line 44, which cannot fail. */
    static method Create(corpus: seq<Word>, phonemeSet: SymbolSet, unk: bool) returns (lm: PhonemeLM)
      modifies phonemeSet
      ensures fresh(lm)
      ensures lm.phonemeSet == phonemeSet && lm.smoothing == AddOne
      ensures lm.ucounts == UnigramCounts(corpus) && lm.bcounts == BigramCounts(corpus)
      ensures phonemeSet.elems == old(phonemeSet.elems) + (if unk then {Unk} else {})
      ensures lm.P == AddOneTable(lm.ucounts, lm.bcounts, phonemeSet.elems)
    {
      lm := new PhonemeLM.Init(corpus, phonemeSet, unk, AddOne);
      var err := lm.EstimateProbs();
    }

    /** `Absdisc_Phoneme_LM(corpus, phoneme_set, unk, d)` (lines 119-123): `unk` is
        ignored and `'$'` always added; `estimate_probs` runs twice, at line 44 through
        the override and again at line 123. With `'$'` in the set the vocabulary is never
        empty, so construction fails exactly when the corpus has no bigram. */
    static method CreateAbsdisc(corpus: seq<Word>, phonemeSet: SymbolSet, unk: bool, d: real) returns (r: Result<PhonemeLM, LMError>)
      modifies phonemeSet
      ensures phonemeSet.elems == old(phonemeSet.elems) + {Unk}
      ensures r.Failure? <==> PairTotal(corpus) == 0
      ensures r.Failure? ==> r.error == ZeroDivisionError
      ensures r.Success? ==> fresh(r.value)
      ensures r.Success? ==> r.value.phonemeSet == phonemeSet && r.value.smoothing == AbsoluteDiscount(d)
      ensures r.Success? ==> r.value.ucounts == UnigramCounts(corpus) && r.value.bcounts == BigramCounts(corpus)
      ensures r.Success? ==> |r.value.ucounts| > 0
      ensures r.Success? ==> r.value.P == AbsDiscTable(r.value.ucounts, r.value.bcounts, r.value.phonemeSet.elems, d)
    {
      var lm := new PhonemeLM.Init(corpus, phonemeSet, true, AbsoluteDiscount(d));
      ghost var u, b, vocab := lm.ucounts, lm.bcounts, phonemeSet.elems;
      assert u == UnigramCounts(corpus) && b == BigramCounts(corpus);
      var err := lm.EstimateAbsdiscTwice(d);
      assert lm.phonemeSet == phonemeSet && lm.smoothing == AbsoluteDiscount(d);
      assert lm.ucounts == u && lm.bcounts == b && phonemeSet.elems == vocab;
      UnigramTotal(corpus);
      if err.Some? {
        return Failure(err.value);
      }
      return Success(lm);
    }

    /** The two runs of the discounting `estimate_probs` during construction: line 44,
        which raises when there is no count at all, and line 123. */
    method EstimateAbsdiscTwice(d: real) returns (err: Option<LMError>)
      requires smoothing == AbsoluteDiscount(d) && Unk in phonemeSet.elems
      modifies `P
      ensures err.Some? <==> |ucounts| == 0
      ensures err.Some? ==> err.value == ZeroDivisionError
      ensures err.None? ==> P == AbsDiscTable(ucounts, bcounts, phonemeSet.elems, d)
    {
      err := EstimateProbs();
      AbsDiscOutcome(d, ucounts, bcounts, phonemeSet.elems, err, P);
      if err.Some? {
        return;
      }
      err := EstimateProbs();
      AbsDiscOutcome(d, ucounts, bcounts, phonemeSet.elems, err, P);
    }

    /** `estimate_probs`, dispatched on the smoothing as the override is (line 44). */
    method EstimateProbs() returns (err: Option<LMError>)
      modifies `P
      ensures match EstimatedTable(smoothing, ucounts, bcounts, phonemeSet.elems)
        case Success(t) => err == None && P == t
        case Failure(e) => err == Some(e) && P == map[]
    {
      match smoothing
      case AddOne =>
        EstimateAddOne();
        err := None;
      case AbsoluteDiscount(d) =>
        err := EstimateAbsDisc(d);
        if err.Some? {
          assert EstimatedTable(smoothing, ucounts, bcounts, phonemeSet.elems) == Failure(ZeroDivisionError);
        } else {
          assert EstimatedTable(smoothing, ucounts, bcounts, phonemeSet.elems) == Success(P);
        }
    }

    /** `Phoneme_LM.estimate_probs` (lines 47-62): every row, every entry. */
    method EstimateAddOne()
      modifies `P
      ensures P == AddOneTable(ucounts, bcounts, phonemeSet.elems)
    {
      var u, b, vocab := ucounts, bcounts, phonemeSet.elems;
      P := map[];
      var rows := vocab;
      assert vocab - rows == {};
      while rows != {}
        invariant rows <= vocab
        invariant P == Tabulate(vocab - rows, AddOneRowOf(u, b, vocab))
        invariant u == ucounts && b == bcounts && vocab == phonemeSet.elems
        decreases rows
      {
        var ph1 :| ph1 in rows;
        var row := AddOneRowLoop(u, b, vocab, ph1);
        AddOneRowOfAt(u, b, vocab, ph1);
        TabulateExtend(P, vocab, rows, AddOneRowOf(u, b, vocab), ph1, row);
        P := P[ph1 := row];
        rows := rows - {ph1};
      }
      assert vocab - rows == vocab;
      AddOneTableTabulated(u, b, vocab);
    }

    /** `estimate_probs` of the subclass (lines 126-165). With `N == 0` the first entry
        of the first row divides by zero before anything is stored. */
    method EstimateAbsDisc(d: real) returns (err: Option<LMError>)
      modifies `P
      ensures |ucounts| == 0 && phonemeSet.elems != {} ==> err == Some(ZeroDivisionError) && P == map[]
      ensures !(|ucounts| == 0 && phonemeSet.elems != {}) ==> err == None && P == AbsDiscTable(ucounts, bcounts, phonemeSet.elems, d)
    {
      var u, b, vocab := ucounts, bcounts, phonemeSet.elems;
      P := map[];
      var rows := vocab;
      assert vocab - rows == {};
      while rows != {}
        invariant rows <= vocab
        invariant |u| == 0 ==> rows == vocab && P == map[]
        invariant |u| > 0 ==> P == Tabulate(vocab - rows, AbsDiscRowOf(u, b, vocab, d))
        invariant u == ucounts && b == bcounts && vocab == phonemeSet.elems
        decreases rows
      {
        var ph1 :| ph1 in rows;
        var row: Row;
        if u[ph1] == 0 {
          err, row := UnseenRowLoop(u, b, vocab, d, ph1);
          if err.Some? {
            return;
          }
        } else {
          row := SeenRowLoop(u, b, vocab, d, ph1);
        }
        AbsDiscRowOfAt(u, b, vocab, d, ph1);
        TabulateExtend(P, vocab, rows, AbsDiscRowOf(u, b, vocab, d), ph1, row);
        P := P[ph1 := row];
        rows := rows - {ph1};
      }
      if |u| > 0 {
        assert vocab - rows == vocab;
        AbsDiscTableTabulated(u, b, vocab, d);
      }
      return None;
    }

    /** `logP(ph1, ph2)` (lines 65-67). Reading a missing row of the `defaultdict`
        inserts it empty; a missing entry raises without inserting anything. */
    method LogP(log2: real -> real, ph1: Phoneme, ph2: Phoneme) returns (r: Result<real, LMError>)
      modifies `P
      ensures r == LogProb(old(P), log2, ph1, ph2)
      ensures P == Touch(old(P), ph1)
    {
      P := Touch(P, ph1);
      var row := P[ph1];
      if ph2 !in row {
        return Failure(KeyError);
      }
      if row[ph2] <= 0.0 {
        return Failure(MathDomainError);
      }
      return Success(log2(row[ph2]));
    }

    /** `perplexity(test_corpus)` (lines 70-88): score every remapped pair of every
        test word in order, stopping at the first `logP` that raises. */
    method Perplexity(log2: real -> real, pow2: real -> real, testCorpus: seq<Word>) returns (r: Result<real, LMError>)
      modifies `P
      ensures r == PerplexityOf(old(P), phonemeSet.elems, log2, pow2, testCorpus)
      ensures P == TableAfterScoring(old(P), phonemeSet.elems, log2, testCorpus)
    {
      ghost var vocab := phonemeSet.elems;
      ghost var P0 := P;
      ghost var done: seq<Bigram> := [];
      var logProbs := 0.0;
      var m := 0;
      var k := 0;
      while k < |testCorpus|
        invariant 0 <= k <= |testCorpus|
        invariant P == P0
        invariant done == RemapAll(vocab, CorpusBigrams(testCorpus[..k]))
        invariant ScanLogs(P0, log2, done) == Summed(logProbs)
        invariant m == |done|
        invariant vocab == phonemeSet.elems
      {
        var err;
        err, logProbs, m := ScoreWord(log2, testCorpus[k], done, logProbs, m);
        ScoredPairsStep(vocab, testCorpus, k);
        done := done + RemapAll(vocab, Bigrams(testCorpus[k]));
        if err.Some? {
          ScoredPrefixRaises(P0, P, vocab, log2, pow2, testCorpus, k + 1, err.value);
          return Failure(err.value);
        }
        k := k + 1;
      }
      assert testCorpus[..k] == testCorpus;
      if m == 0 {
        return Failure(ZeroDivisionError);
      }
      return Success(pow2(Exponent(logProbs, m)));
    }

    /** Lines 77-85 for one test word, after the pairs `done` have been scored to
        `logProbs0`. */
    method ScoreWord(log2: real -> real, word: Word, ghost done: seq<Bigram>, logProbs0: real, m0: nat)
      returns (err: Option<LMError>, logProbs: real, m: nat)
      requires ScanLogs(P, log2, done) == Summed(logProbs0)
      requires m0 == |done|
      modifies `P
      ensures var pairs := done + RemapAll(phonemeSet.elems, Bigrams(word));
        match ScanLogs(old(P), log2, pairs)
        case Raised(e, at) => err == Some(e) && P == Touch(old(P), pairs[at].0)
        case Summed(s) => err == None && logProbs == s && m == |pairs| && P == old(P)
    {
      var vocab := phonemeSet.elems;
      ghost var P0 := P;
      ghost var pairs := RemapAll(vocab, Bigrams(word));
      logProbs, m := logProbs0, m0;
      WordPairCount(vocab, word);
      assert done + pairs[..0] == done;
      // `j` is the source's `i - 1`: the number of pairs of the word scored so far.
      var j := 0;
      while j + 1 < |word|
        invariant j <= |pairs|
        invariant P == P0
        invariant ScanLogs(P0, log2, done + pairs[..j]) == Summed(logProbs)
        invariant m == |done| + j
        invariant vocab == phonemeSet.elems
      {
        var lp := ScorePair(log2, word, j, done, logProbs);
        if lp.Failure? {
          return Some(lp.error), logProbs, m;
        }
        logProbs := logProbs + lp.value;
        m := m + 1;
        j := j + 1;
      }
      assert pairs[..j] == pairs;
      err := None;
    }

    /** Lines 83-85 for pair `j` of a word: remap both symbols to `'$'` when outside
        the phoneme set and score the pair, after the pairs `done` and the first `j`
        pairs of the word summed to `logProbs`. */
    method ScorePair(log2: real -> real, word: Word, j: nat, ghost done: seq<Bigram>, ghost logProbs: real)
      returns (lp: Result<real, LMError>)
      requires j + 1 < |word|
      requires ScanLogs(P, log2, done + RemapAll(phonemeSet.elems, Bigrams(word))[..j]) == Summed(logProbs)
      modifies `P
      ensures var pairs := done + RemapAll(phonemeSet.elems, Bigrams(word));
        lp.Failure? ==> ScanLogs(old(P), log2, pairs) == Raised(lp.error, |done| + j) && P == Touch(old(P), pairs[|done| + j].0)
      ensures lp.Success? ==>
        P == old(P) && ScanLogs(old(P), log2, done + RemapAll(phonemeSet.elems, Bigrams(word))[..j + 1]) == Summed(logProbs + lp.value)
    {
      var vocab := phonemeSet.elems;
      ghost var P0 := P;
      var phH, phI := Remap(vocab, word[j]), Remap(vocab, word[j + 1]);
      lp := LogP(log2, phH, phI);
      if lp.Failure? {
        WordPairRaises(P0, P, vocab, log2, done, word, j, lp.error);
      } else {
        WordPairExtends(P0, vocab, log2, done, word, j, logProbs, lp.value);
      }
    }

    /** `surprisal(test_corpus)` (lines 91-93). */
    method Surprisal(log2: real -> real, pow2: real -> real, testCorpus: seq<Word>) returns (r: Result<real, LMError>)
      modifies `P
      ensures r == SurprisalOf(old(P), phonemeSet.elems, log2, pow2, testCorpus)
      ensures P == TableAfterScoring(old(P), phonemeSet.elems, log2, testCorpus)
    {
      var pp := Perplexity(log2, pow2, testCorpus);
      if pp.Failure? {
        return Failure(pp.error);
      }
      if pp.value <= 0.0 {
        return Failure(MathDomainError);
      }
      return Success(log2(pp.value));
    }

    /** `test()` (lines 96-112): every row of the phoneme set, in some order, must be
        complete and sum to 1 within `10**-10`. Reading a missing row inserts it empty
        and then raises at its first entry. */
    method Test() returns (r: Option<LMError>)
      modifies `P
      ensures r.None? <==> TablePasses(old(P), phonemeSet.elems)
      ensures r.Some? ==> r.value == KeyError || r.value == AssertionError
      ensures r == Some(KeyError) ==> exists h :: h in phonemeSet.elems && !RowCovered(old(P), h, phonemeSet.elems)
      ensures r == Some(AssertionError) ==>
                exists h :: h in phonemeSet.elems && RowCovered(old(P), h, phonemeSet.elems) && !MassNearOne(old(P)[h], phonemeSet.elems)
      ensures P == old(P) || exists h :: h in phonemeSet.elems && h !in old(P) && P == Touch(old(P), h)
    {
      ghost var P0 := P;
      var vocab := phonemeSet.elems;
      var rows := vocab;
      while rows != {}
        invariant rows <= vocab
        invariant P == P0
        invariant forall h :: h in vocab - rows ==> RowCovered(P0, h, vocab) && MassNearOne(P0[h], vocab)
        decreases rows
      {
        var ph1 :| ph1 in rows;
        var pSum := RowSum(ph1);
        if pSum.Failure? {
          return Some(KeyError);
        }
        assert P == P0;
        if !(Abs(1.0 - pSum.value) < Precision) {
          return Some(AssertionError);
        }
        rows := rows - {ph1};
      }
      return None;
    }

    /** `sum(self.P[ph1][ph2] for ph2 in self.phoneme_set)` of line 103. */
    method RowSum(ph1: Phoneme) returns (r: Result<real, LMError>)
      requires ph1 in phonemeSet.elems
      modifies `P
      ensures r.Success? <==> RowCovered(old(P), ph1, phonemeSet.elems)
      ensures r.Success? ==> r.value == RowMass(old(P)[ph1], phonemeSet.elems) && P == old(P)
      ensures r.Failure? ==> r.error == KeyError && P == Touch(old(P), ph1)
    {
      ghost var P0 := P;
      var vocab := phonemeSet.elems;
      P := Touch(P, ph1);
      var row := P[ph1];
      assert ph1 !in P0 ==> row == map[];
      var pSum := 0.0;
      var cols := vocab;
      while cols != {}
        invariant cols <= vocab
        invariant P == Touch(P0, ph1)
        invariant vocab - cols <= row.Keys
        invariant pSum == Sum(vocab - cols, RowValues(row))
        decreases cols
      {
        var ph2 :| ph2 in cols;
        if ph2 !in row {
          return Failure(KeyError);
        }
        SumInsert(vocab - cols, RowValues(row), ph2);
        assert (vocab - cols) + {ph2} == vocab - (cols - {ph2});
        pSum := pSum + row[ph2];
        cols := cols - {ph2};
      }
      assert ph1 in P0 && P == P0 && vocab - cols == vocab;
      return Success(pSum);
    }
  }
}
