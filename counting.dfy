/** Count extraction of `Phoneme_LM.__init__` (LM_models.py lines 26-36): every word
    contributes one bigram per adjacent pair and one history unigram per
    non-final position. `Counter` is modelled as a multiset: a missing key reads 0. */
module Counting {
  import opened Sums

  type Phoneme = string
  type Word = seq<Phoneme>
  type Bigram = (Phoneme, Phoneme)

  /** The list comprehension of line 29: `(w[i-1], w[i])` for `i` in `range(1, len(w))`. */
  function Bigrams(w: Word): (r: seq<Bigram>)
    ensures |w| >= 1 ==> |r| == |w| - 1
  {
    if |w| <= 1 then [] else seq(|w| - 1, i requires 0 <= i < |w| - 1 => (w[i], w[i + 1]))
  }

  /** The list comprehension of line 28: `w[i-1]` for `i` in `range(1, len(w))`. */
  function Histories(w: Word): (r: seq<Phoneme>)
    ensures |w| >= 1 ==> r == w[..|w| - 1]
  {
    if |w| <= 1 then [] else seq(|w| - 1, i requires 0 <= i < |w| - 1 => w[i])
  }

  function Firsts(bs: seq<Bigram>): (r: seq<Phoneme>)
  {
    seq(|bs|, i requires 0 <= i < |bs| => bs[i].0)
  }

  function Seconds(bs: seq<Bigram>): (r: seq<Phoneme>)
  {
    seq(|bs|, i requires 0 <= i < |bs| => bs[i].1)
  }

  /** `ph_Bgrams` after the loop of lines 26-32: the words' bigrams, word after word. */
  function CorpusBigrams(corpus: seq<Word>): (r: seq<Bigram>)
    ensures |r| == PairTotal(corpus)
  {
    if corpus == [] then [] else CorpusBigrams(corpus[..|corpus| - 1]) + Bigrams(corpus[|corpus| - 1])
  }

  /** `ph_Ugrams` after the loop of lines 26-32. */
  function CorpusHistories(corpus: seq<Word>): (r: seq<Phoneme>)
    ensures |r| == PairTotal(corpus)
  {
    if corpus == [] then [] else CorpusHistories(corpus[..|corpus| - 1]) + Histories(corpus[|corpus| - 1])
  }

  /** `UCOUNTS = Counter(ph_Ugrams)` (line 35). */
  function UnigramCounts(corpus: seq<Word>): (r: multiset<Phoneme>)
    ensures forall x :: x in r ==> x in CorpusHistories(corpus)
  {
    multiset(CorpusHistories(corpus))
  }

  /** `BCOUNTS = Counter(ph_Bgrams)` (line 36). */
  function BigramCounts(corpus: seq<Word>): (r: multiset<Bigram>)
    ensures forall p :: p in r ==> p in CorpusBigrams(corpus)
  {
    multiset(CorpusBigrams(corpus))
  }

  /** Total number of adjacent pairs in a corpus. */
  function PairTotal(corpus: seq<Word>): nat
  {
    if corpus == [] then 0
    else PairTotal(corpus[..|corpus| - 1]) + (if |corpus[|corpus| - 1]| <= 1 then 0 else |corpus[|corpus| - 1]| - 1)
  }

  /** Every symbol of every word of `corpus` is in `vocab`. */
  ghost predicate SymbolsWithin(corpus: seq<Word>, vocab: set<Phoneme>)
  {
    forall i, j :: 0 <= i < |corpus| && 0 <= j < |corpus[i]| ==> corpus[i][j] in vocab
  }

  /** `BCOUNTS[(h, c)]` as a function of `c`. */
  function ContinuationCounts(bcounts: multiset<Bigram>, h: Phoneme): Phoneme -> real
  {
    c => bcounts[(h, c)] as real
  }

  /** `UCOUNTS[x]` as a function of `x`. */
  function CountsOf(ucounts: multiset<Phoneme>): Phoneme -> real
  {
    x => ucounts[x] as real
  }

  /** `nPlus_h` of line 150: the number of distinct bigram keys whose history is `h`. */
  function NumContinuations(bcounts: multiset<Bigram>, h: Phoneme): (r: nat)
    ensures r == 0 <==> forall p :: p in bcounts ==> p.0 != h
  {
    var keys := set p | p in bcounts && p.0 == h;
    if exists p :: p in bcounts && p.0 == h then
      var p :| p in bcounts && p.0 == h;
      assert p in keys;
      |keys|
    else
      assert keys == {};
      |keys|
  }

  /** `nPlus_i` of line 142: the number of distinct keys of `UCOUNTS`. */
  function NumHistoryTypes(ucounts: multiset<Phoneme>): (r: nat)
    ensures r == 0 <==> |ucounts| == 0
  {
    var keys := set x | x in ucounts;
    if |ucounts| == 0 then
      assert ucounts == multiset{} && keys == {};
      |keys|
    else
      var x :| x in ucounts;
      assert x in keys;
      |keys|
  }

  // ---------------------------------------------------------------------------
  // One word

  /** A word of length n >= 1 yields exactly n - 1 bigrams, the adjacent pairs in order,
      and the word is recovered from them: histories are the first components, the
      tail of the word the second components. */
  lemma WordBigrams(w: Word)
    ensures |Bigrams(w)| == |Histories(w)| == (if |w| == 0 then 0 else |w| - 1)
    ensures forall i :: 0 <= i < |Bigrams(w)| ==> Bigrams(w)[i] == (w[i], w[i + 1])
    ensures Histories(w) == Firsts(Bigrams(w))
    ensures |w| >= 1 ==> Histories(w) == w[..|w| - 1] && Seconds(Bigrams(w)) == w[1..]
    ensures |w| >= 1 ==> w == Histories(w) + [w[|w| - 1]]
  {
  }

  lemma FirstsAppend(a: seq<Bigram>, b: seq<Bigram>)
    ensures Firsts(a + b) == Firsts(a) + Firsts(b)
  {
  }

  /** The total history count `N` is the number of bigrams of the corpus. */
  lemma UnigramTotal(corpus: seq<Word>)
    ensures |UnigramCounts(corpus)| == PairTotal(corpus)
  {
    CorpusHistoriesAreFirsts(corpus);
  }

  /** The final symbol is never a history: the histories of a corpus are exactly
      the first components of its bigrams. */
  lemma {:induction false} CorpusHistoriesAreFirsts(corpus: seq<Word>)
    ensures CorpusHistories(corpus) == Firsts(CorpusBigrams(corpus))
    ensures |CorpusBigrams(corpus)| == |CorpusHistories(corpus)| == PairTotal(corpus)
  {
    if corpus != [] {
      var init, w := corpus[..|corpus| - 1], corpus[|corpus| - 1];
      CorpusHistoriesAreFirsts(init);
      WordBigrams(w);
      FirstsAppend(CorpusBigrams(init), Bigrams(w));
    }
  }

  /** The bigrams of two corpora read one after the other. */
  lemma {:induction false} CorpusBigramsAppend(a: seq<Word>, b: seq<Word>)
    ensures CorpusBigrams(a + b) == CorpusBigrams(a) + CorpusBigrams(b)
  {
    if b != [] {
      var init := b[..|b| - 1];
      CorpusBigramsAppend(a, init);
      assert (a + b)[..|a + b| - 1] == a + init;
      assert (a + b)[|a + b| - 1] == b[|b| - 1];
    } else {
      assert a + b == a;
    }
  }

  /** Every bigram of the corpus joins two adjacent symbols of one of its words. */
  lemma {:induction false} CorpusBigramsFromWords(corpus: seq<Word>, k: nat)
    requires k < |CorpusBigrams(corpus)|
    ensures exists i, j :: 0 <= i < |corpus| && 0 <= j && j + 1 < |corpus[i]|
                           && CorpusBigrams(corpus)[k] == (corpus[i][j], corpus[i][j + 1])
  {
    var init, w := corpus[..|corpus| - 1], corpus[|corpus| - 1];
    var n := |CorpusBigrams(init)|;
    assert CorpusBigrams(corpus) == CorpusBigrams(init) + Bigrams(w);
    if k < n {
      CorpusBigramsFromWords(init, k);
      var i, j :| 0 <= i < |init| && 0 <= j && j + 1 < |init[i]|
                  && CorpusBigrams(init)[k] == (init[i][j], init[i][j + 1]);
      assert corpus[i] == init[i];
      assert CorpusBigrams(corpus)[k] == CorpusBigrams(init)[k];
    } else {
      var i, j := |corpus| - 1, k - n;
      assert |w| >= 2 && |Bigrams(w)| == |w| - 1;
      assert CorpusBigrams(corpus)[k] == Bigrams(w)[j] == (w[j], w[j + 1]);
      assert corpus[i] == w;
    }
  }

  /** When every training symbol is in the vocabulary, so is each side of every bigram. */
  lemma CorpusBigramsWithin(corpus: seq<Word>, vocab: set<Phoneme>)
    requires SymbolsWithin(corpus, vocab)
    ensures forall k :: 0 <= k < |CorpusBigrams(corpus)| ==>
              CorpusBigrams(corpus)[k].0 in vocab && CorpusBigrams(corpus)[k].1 in vocab
  {
    forall k | 0 <= k < |CorpusBigrams(corpus)|
      ensures CorpusBigrams(corpus)[k].0 in vocab && CorpusBigrams(corpus)[k].1 in vocab
    {
      CorpusBigramsFromWords(corpus, k);
    }
  }

  // ---------------------------------------------------------------------------
  // The counting identity

  function PairIndicator(p: Bigram, h: Phoneme): Phoneme -> real
  {
    c => if (h, c) == p then 1.0 else 0.0
  }

  function SymbolIndicator(y: Phoneme): Phoneme -> real
  {
    x => if x == y then 1.0 else 0.0
  }

  /** Summing the bigram counts of history `h` over a vocabulary holding every
      continuation gives the number of times `h` occurs as a first component. */
  lemma {:induction false} ContinuationSum(bs: seq<Bigram>, vocab: set<Phoneme>, h: Phoneme)
    requires forall k :: 0 <= k < |bs| ==> bs[k].1 in vocab
    ensures Sum(vocab, ContinuationCounts(multiset(bs), h)) == multiset(Firsts(bs))[h] as real
  {
    if bs == [] {
      SumConstant(vocab, ContinuationCounts(multiset(bs), h), 0.0);
    } else {
      var init, p := bs[..|bs| - 1], bs[|bs| - 1];
      assert bs == init + [p];
      ContinuationSum(init, vocab, h);
      ContinuationStep(init, p, vocab, h);
      FirstsAppend(init, [p]);
    }
  }

  lemma ContinuationStep(init: seq<Bigram>, p: Bigram, vocab: set<Phoneme>, h: Phoneme)
    requires p.1 in vocab
    ensures Sum(vocab, ContinuationCounts(multiset(init + [p]), h))
            == Sum(vocab, ContinuationCounts(multiset(init), h)) + (if p.0 == h then 1.0 else 0.0)
  {
    var before, after := ContinuationCounts(multiset(init), h), ContinuationCounts(multiset(init + [p]), h);
    forall c | c in vocab
      ensures after(c) == before(c) + PairIndicator(p, h)(c)
    {
      assert multiset(init + [p]) == multiset(init) + multiset{p};
    }
    SumAdd(vocab, before, PairIndicator(p, h), after);
    if p.0 == h {
      SumIndicator(vocab, PairIndicator(p, h), p.1);
    } else {
      SumConstant(vocab, PairIndicator(p, h), 0.0);
    }
  }

  /** Summing the counts of a multiset over a vocabulary holding all its elements
      gives its size. */
  lemma {:induction false} CountSum(s: seq<Phoneme>, vocab: set<Phoneme>)
    requires forall k :: 0 <= k < |s| ==> s[k] in vocab
    ensures Sum(vocab, CountsOf(multiset(s))) == |s| as real
  {
    if s == [] {
      SumConstant(vocab, CountsOf(multiset(s)), 0.0);
    } else {
      var init, y := s[..|s| - 1], s[|s| - 1];
      assert s == init + [y];
      CountSum(init, vocab);
      SumAdd(vocab, CountsOf(multiset(init)), SymbolIndicator(y), CountsOf(multiset(s)));
      SumIndicator(vocab, SymbolIndicator(y), y);
    }
  }

  /** The counting identity behind normalisation: for every history `h`,
      the sum over the vocabulary of `BCOUNTS[(h, c)]` is `UCOUNTS[h]`, and the
      unigram counts add up to the number of bigrams. */
  lemma CountingIdentity(corpus: seq<Word>, vocab: set<Phoneme>, h: Phoneme)
    requires SymbolsWithin(corpus, vocab)
    ensures Sum(vocab, ContinuationCounts(BigramCounts(corpus), h)) == UnigramCounts(corpus)[h] as real
    ensures Sum(vocab, CountsOf(UnigramCounts(corpus))) == |UnigramCounts(corpus)| as real
    ensures |UnigramCounts(corpus)| == |BigramCounts(corpus)| == PairTotal(corpus)
  {
    var bs := CorpusBigrams(corpus);
    CorpusHistoriesAreFirsts(corpus);
    CorpusBigramsWithin(corpus, vocab);
    ContinuationSum(bs, vocab, h);
    CountSum(Firsts(bs), vocab);
  }

  /** A bigram never occurs more often than its history. */
  lemma {:induction false} BigramAtMostHistory(bs: seq<Bigram>, h: Phoneme, c: Phoneme)
    ensures multiset(bs)[(h, c)] <= multiset(Firsts(bs))[h]
  {
    if bs != [] {
      var init, p := bs[..|bs| - 1], bs[|bs| - 1];
      assert bs == init + [p];
      BigramAtMostHistory(init, h, c);
      FirstsAppend(init, [p]);
    }
  }

  /** A symbol counted as a history has at least one recorded continuation. */
  lemma {:induction false} HistoryHasContinuation(bs: seq<Bigram>, h: Phoneme)
    requires multiset(Firsts(bs))[h] > 0
    ensures exists c :: (h, c) in multiset(bs)
  {
    var init, p := bs[..|bs| - 1], bs[|bs| - 1];
    assert bs == init + [p];
    FirstsAppend(init, [p]);
    if p.0 != h {
      HistoryHasContinuation(init, h);
    } else {
      assert (h, p.1) in multiset(bs);
    }
  }

  lemma CountsOfCorpus(corpus: seq<Word>, h: Phoneme, c: Phoneme)
    ensures BigramCounts(corpus)[(h, c)] <= UnigramCounts(corpus)[h]
    ensures UnigramCounts(corpus)[h] > 0 ==> NumContinuations(BigramCounts(corpus), h) > 0
  {
    var bs := CorpusBigrams(corpus);
    CorpusHistoriesAreFirsts(corpus);
    BigramAtMostHistory(bs, h, c);
    if UnigramCounts(corpus)[h] > 0 {
      HistoryHasContinuation(bs, h);
      var c' :| (h, c') in multiset(bs);
      var keys := set p | p in BigramCounts(corpus) && p.0 == h;
      assert (h, c') in keys;
      assert |keys| > 0;
    }
  }

  // ---------------------------------------------------------------------------
  // Distinct keys

  /** Every history of the corpus, and every continuation, is a vocabulary symbol. */
  lemma CountKeysWithin(corpus: seq<Word>, vocab: set<Phoneme>)
    requires SymbolsWithin(corpus, vocab)
    ensures forall x :: x in UnigramCounts(corpus) ==> x in vocab
    ensures forall p :: p in BigramCounts(corpus) ==> p.0 in vocab && p.1 in vocab
  {
    var bs := CorpusBigrams(corpus);
    CorpusHistoriesAreFirsts(corpus);
    CorpusBigramsWithin(corpus, vocab);
    forall x | x in UnigramCounts(corpus) ensures x in vocab {
      var k :| 0 <= k < |Firsts(bs)| && Firsts(bs)[k] == x;
    }
    forall p | p in BigramCounts(corpus) ensures p.0 in vocab && p.1 in vocab {
      var k :| 0 <= k < |bs| && bs[k] == p;
    }
  }

  /** Pairs `(h, c)` for `c` in `s`: as many as there are elements of `s`. */
  lemma {:induction false} PairingPreservesSize(s: set<Phoneme>, h: Phoneme)
    ensures |set c | c in s :: (h, c)| == |s|
    decreases s
  {
    if s != {} {
      var x :| x in s;
      PairingPreservesSize(s - {x}, h);
      assert (set c | c in s :: (h, c)) == (set c | c in s - {x} :: (h, c)) + {(h, x)};
    }
  }

  /** `nPlus_h` counts the distinct observed continuations of `h`, which (all being
      vocabulary symbols) are the vocabulary symbols with a positive bigram count. */
  lemma ContinuationTypes(corpus: seq<Word>, vocab: set<Phoneme>, h: Phoneme)
    requires SymbolsWithin(corpus, vocab)
    ensures NumContinuations(BigramCounts(corpus), h) == |Support(vocab, ContinuationCounts(BigramCounts(corpus), h))|
  {
    var b := BigramCounts(corpus);
    var cs := Support(vocab, ContinuationCounts(b, h));
    CountKeysWithin(corpus, vocab);
    PairingPreservesSize(cs, h);
    assert (set p | p in b && p.0 == h) == (set c | c in cs :: (h, c));
  }

  /** `nPlus_i` counts the distinct histories, which are the vocabulary symbols with a
      positive unigram count. */
  lemma HistoryTypes(corpus: seq<Word>, vocab: set<Phoneme>)
    requires SymbolsWithin(corpus, vocab)
    ensures NumHistoryTypes(UnigramCounts(corpus)) == |Support(vocab, CountsOf(UnigramCounts(corpus)))|
  {
    CountKeysWithin(corpus, vocab);
    assert (set x | x in UnigramCounts(corpus)) == Support(vocab, CountsOf(UnigramCounts(corpus)));
  }

  // ---------------------------------------------------------------------------
  // What the estimators rely on

  /** The facts about a pair of counters that the normalisation proofs use, all of
      which hold for counters extracted from a corpus over `vocab`. */
  ghost predicate CountsConsistent(ucounts: multiset<Phoneme>, bcounts: multiset<Bigram>, vocab: set<Phoneme>)
  {
    && Sum(vocab, CountsOf(ucounts)) == |ucounts| as real
    && NumHistoryTypes(ucounts) == |Support(vocab, CountsOf(ucounts))|
    && (forall h :: h in vocab ==> Sum(vocab, ContinuationCounts(bcounts, h)) == ucounts[h] as real)
    && (forall h :: h in vocab ==> NumContinuations(bcounts, h) == |Support(vocab, ContinuationCounts(bcounts, h))|)
  }

  /** Counts extracted from a corpus whose symbols all lie in `vocab` are consistent. */
  lemma CorpusCountsConsistent(corpus: seq<Word>, vocab: set<Phoneme>)
    requires SymbolsWithin(corpus, vocab)
    ensures CountsConsistent(UnigramCounts(corpus), BigramCounts(corpus), vocab)
  {
    var u, b := UnigramCounts(corpus), BigramCounts(corpus);
    CountingIdentity(corpus, vocab, "");
    HistoryTypes(corpus, vocab);
    forall h | h in vocab
      ensures Sum(vocab, ContinuationCounts(b, h)) == u[h] as real
      ensures NumContinuations(b, h) == |Support(vocab, ContinuationCounts(b, h))|
    {
      CountingIdentity(corpus, vocab, h);
      ContinuationTypes(corpus, vocab, h);
    }
  }
}
