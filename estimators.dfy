/** The two probability estimators of LM_models.py as functions of the counts and
    the vocabulary: add-one smoothing (`Phoneme_LM.estimate_probs`, lines 47-62) and
    back-off with absolute discounting (`Absdisc_Phoneme_LM.estimate_probs`, lines
    126-165). A table maps every history `h` to a row mapping every `c` to P(c | h).
    The normalisation proofs are stated over any pair of counters satisfying
    `CountsConsistent`, which counters extracted from a corpus do. */
module Estimators {
  import opened Sums
  import opened Counting

  type Row = map<Phoneme, real>
  type Table = map<Phoneme, Row>

  /** `max(Nb - d, 0)` where `Nb` is a count and `d` the discount. */
  function DiscountedCount(count: nat, d: real): (r: real)
    ensures r >= 0.0 && r >= count as real - d
    ensures d <= count as real ==> r == count as real - d
  {
    Max0(count as real - d)
  }

  /** Line 62: `(Nb + 1)/(Nu + L)`, absent counts read as 0. */
  function AddOneProb(ucounts: multiset<Phoneme>, bcounts: multiset<Bigram>, size: nat, h: Phoneme, c: Phoneme): (p: real)
    requires size > 0
    ensures p > 0.0
  {
    (bcounts[(h, c)] + 1) as real / (ucounts[h] + size) as real
  }

  /** The row `self.P[ph1]` filled by the inner loop of lines 57-62. */
  function AddOneRow(ucounts: multiset<Phoneme>, bcounts: multiset<Bigram>, vocab: set<Phoneme>, h: Phoneme): (r: Row)
    ensures r.Keys == vocab
  {
    map c | c in vocab :: AddOneProb(ucounts, bcounts, |vocab|, h, c)
  }

  /** The table `self.P` filled by the nested loops of lines 53-62. */
  function AddOneTable(ucounts: multiset<Phoneme>, bcounts: multiset<Bigram>, vocab: set<Phoneme>): (t: Table)
    ensures t.Keys == vocab
  {
    map h | h in vocab :: AddOneRow(ucounts, bcounts, vocab, h)
  }

  /** `uniP` of lines 140-144: the discounted unigram estimate plus the freed mass
      `Zi = (d/N) * nPlus_i` spread uniformly over the `L` vocabulary symbols. */
  function UnigramProb(ucounts: multiset<Phoneme>, size: nat, d: real, c: Phoneme): real
    requires |ucounts| > 0 && size > 0
  {
    var n := |ucounts| as real;
    var zi := (d / n) * NumHistoryTypes(ucounts) as real;
    DiscountedCount(ucounts[c], d) / n + zi * (1.0 / size as real)
  }

  /** `Zh = (d/Nh) * nPlus_h` of line 151: the mass freed in the row of a seen history. */
  function BackOffWeight(ucounts: multiset<Phoneme>, bcounts: multiset<Bigram>, d: real, h: Phoneme): real
    requires ucounts[h] > 0
  {
    (d / ucounts[h] as real) * NumContinuations(bcounts, h) as real
  }

  /** P(c | h) of lines 134-165: the unigram estimate for an unseen history, and the
      discounted bigram estimate backed off to `uniP` with weight `Zh` for a seen one. */
  function AbsDiscProb(ucounts: multiset<Phoneme>, bcounts: multiset<Bigram>, size: nat, d: real, h: Phoneme, c: Phoneme): (r: real)
    requires |ucounts| > 0 && size > 0
    ensures ucounts[h] == 0 ==> r == UnigramProb(ucounts, size, d, c)
  {
    var nh := ucounts[h];
    if nh == 0 then UnigramProb(ucounts, size, d, c)
    else DiscountedCount(bcounts[(h, c)], d) / nh as real + BackOffWeight(ucounts, bcounts, d, h) * UnigramProb(ucounts, size, d, c)
  }

  /** The row `self.P[ph1]` filled by lines 136-165. */
  function AbsDiscRow(ucounts: multiset<Phoneme>, bcounts: multiset<Bigram>, vocab: set<Phoneme>, d: real, h: Phoneme): (r: Row)
    requires |ucounts| > 0 || vocab == {}
    ensures r.Keys == vocab
  {
    map c | c in vocab :: AbsDiscProb(ucounts, bcounts, |vocab|, d, h, c)
  }

  /** The table filled by lines 132-165; it exists only when the total count `N` is
      positive or there is no history to fill (otherwise line 143 divides by zero). */
  function AbsDiscTable(ucounts: multiset<Phoneme>, bcounts: multiset<Bigram>, vocab: set<Phoneme>, d: real): (t: Table)
    requires |ucounts| > 0 || vocab == {}
    ensures t.Keys == vocab
  {
    map h | h in vocab :: AbsDiscRow(ucounts, bcounts, vocab, d, h)
  }

  /** The map sending every key of `keys` to `f` of it: what a loop over `keys` that
      stores `f(k)` under every `k` it visits has built. */
  function Tabulate<V>(keys: set<Phoneme>, f: Phoneme --> V): (m: map<Phoneme, V>)
    requires forall k :: k in keys ==> f.requires(k)
    ensures m.Keys == keys
  {
    map k | k in keys :: f(k)
  }

  /** Visiting one more key stores its value and changes nothing else. */
  lemma TabulateStep<V>(keys: set<Phoneme>, f: Phoneme --> V, k: Phoneme)
    requires forall x :: x in keys + {k} ==> f.requires(x)
    ensures Tabulate(keys + {k}, f) == Tabulate(keys, f)[k := f(k)]
  {
  }

  /** The loop step: a map holding `f` on the keys visited so far, updated at one more
      key `k` with `f(k)`, holds `f` on the keys visited after that step. */
  lemma TabulateExtend<V>(m: map<Phoneme, V>, keys: set<Phoneme>, rest: set<Phoneme>, f: Phoneme --> V, k: Phoneme, v: V)
    requires rest <= keys && k in rest
    requires forall x :: x in keys ==> f.requires(x)
    requires m == Tabulate(keys - rest, f) && v == f(k)
    ensures m[k := v] == Tabulate(keys - (rest - {k}), f)
  {
    TabulateStep(keys - rest, f, k);
    assert (keys - rest) + {k} == keys - (rest - {k});
  }

  /** Entry `c` of the add-one row of `h`, as a function of `c`. */
  function AddOneEntryOf(ucounts: multiset<Phoneme>, bcounts: multiset<Bigram>, vocab: set<Phoneme>, h: Phoneme): Phoneme --> real
  {
    c requires c in vocab => AddOneProb(ucounts, bcounts, |vocab|, h, c)
  }

  /** Row `h` of the add-one table, as a function of `h`. */
  function AddOneRowOf(ucounts: multiset<Phoneme>, bcounts: multiset<Bigram>, vocab: set<Phoneme>): Phoneme -> Row
  {
    h => AddOneRow(ucounts, bcounts, vocab, h)
  }

  /** Entry `c` of the discounted row of `h`, as a function of `c`. */
  function AbsDiscEntryOf(ucounts: multiset<Phoneme>, bcounts: multiset<Bigram>, vocab: set<Phoneme>, d: real, h: Phoneme): Phoneme --> real
    requires |ucounts| > 0
  {
    c requires c in vocab => AbsDiscProb(ucounts, bcounts, |vocab|, d, h, c)
  }

  /** Row `h` of the discounting table, as a function of `h`. */
  function AbsDiscRowOf(ucounts: multiset<Phoneme>, bcounts: multiset<Bigram>, vocab: set<Phoneme>, d: real): Phoneme -> Row
    requires |ucounts| > 0
  {
    h => AbsDiscRow(ucounts, bcounts, vocab, d, h)
  }

  lemma AddOneEntryOfAt(ucounts: multiset<Phoneme>, bcounts: multiset<Bigram>, vocab: set<Phoneme>, h: Phoneme, c: Phoneme)
    requires c in vocab
    ensures AddOneEntryOf(ucounts, bcounts, vocab, h).requires(c)
    ensures AddOneEntryOf(ucounts, bcounts, vocab, h)(c) == AddOneProb(ucounts, bcounts, |vocab|, h, c)
  {
  }

  lemma AddOneRowOfAt(ucounts: multiset<Phoneme>, bcounts: multiset<Bigram>, vocab: set<Phoneme>, h: Phoneme)
    ensures AddOneRowOf(ucounts, bcounts, vocab)(h) == AddOneRow(ucounts, bcounts, vocab, h)
  {
  }

  lemma AbsDiscEntryOfAt(ucounts: multiset<Phoneme>, bcounts: multiset<Bigram>, vocab: set<Phoneme>, d: real, h: Phoneme, c: Phoneme)
    requires |ucounts| > 0 && c in vocab
    ensures AbsDiscEntryOf(ucounts, bcounts, vocab, d, h).requires(c)
    ensures AbsDiscEntryOf(ucounts, bcounts, vocab, d, h)(c) == AbsDiscProb(ucounts, bcounts, |vocab|, d, h, c)
  {
  }

  lemma AbsDiscRowOfAt(ucounts: multiset<Phoneme>, bcounts: multiset<Bigram>, vocab: set<Phoneme>, d: real, h: Phoneme)
    requires |ucounts| > 0
    ensures AbsDiscRowOf(ucounts, bcounts, vocab, d)(h) == AbsDiscRow(ucounts, bcounts, vocab, d, h)
  {
  }

  /** The add-one row tabulated entry by entry. */
  lemma AddOneRowTabulated(ucounts: multiset<Phoneme>, bcounts: multiset<Bigram>, vocab: set<Phoneme>, h: Phoneme)
    ensures Tabulate(vocab, AddOneEntryOf(ucounts, bcounts, vocab, h)) == AddOneRow(ucounts, bcounts, vocab, h)
  {
  }

  /** The add-one table tabulated row by row. */
  lemma AddOneTableTabulated(ucounts: multiset<Phoneme>, bcounts: multiset<Bigram>, vocab: set<Phoneme>)
    ensures Tabulate(vocab, AddOneRowOf(ucounts, bcounts, vocab)) == AddOneTable(ucounts, bcounts, vocab)
  {
    var t, s := Tabulate(vocab, AddOneRowOf(ucounts, bcounts, vocab)), AddOneTable(ucounts, bcounts, vocab);
    forall h | h in t ensures t[h] == s[h] {
      AddOneTableRow(ucounts, bcounts, vocab, h);
    }
    TablesEqual(t, s);
  }

  /** The discounted row tabulated entry by entry. */
  lemma AbsDiscRowTabulated(ucounts: multiset<Phoneme>, bcounts: multiset<Bigram>, vocab: set<Phoneme>, d: real, h: Phoneme)
    requires |ucounts| > 0
    ensures Tabulate(vocab, AbsDiscEntryOf(ucounts, bcounts, vocab, d, h)) == AbsDiscRow(ucounts, bcounts, vocab, d, h)
  {
  }

  /** The discounting table tabulated row by row. */
  lemma AbsDiscTableTabulated(ucounts: multiset<Phoneme>, bcounts: multiset<Bigram>, vocab: set<Phoneme>, d: real)
    requires |ucounts| > 0
    ensures Tabulate(vocab, AbsDiscRowOf(ucounts, bcounts, vocab, d)) == AbsDiscTable(ucounts, bcounts, vocab, d)
  {
    var t, s := Tabulate(vocab, AbsDiscRowOf(ucounts, bcounts, vocab, d)), AbsDiscTable(ucounts, bcounts, vocab, d);
    forall h | h in t ensures t[h] == s[h] {
      AbsDiscTableRow(ucounts, bcounts, vocab, d, h);
    }
    TablesEqual(t, s);
  }

  /** Two rows with the same keys and the same entries are the same row. */
  lemma RowsEqual(r: Row, s: Row)
    requires r.Keys == s.Keys
    requires forall c :: c in r ==> r[c] == s[c]
    ensures r == s
  {
  }

  /** Two tables with the same histories and the same rows are the same table. */
  lemma TablesEqual(t: Table, s: Table)
    requires t.Keys == s.Keys
    requires forall h :: h in t ==> t[h] == s[h]
    ensures t == s
  {
  }

  lemma AddOneTableEntry(ucounts: multiset<Phoneme>, bcounts: multiset<Bigram>, vocab: set<Phoneme>, h: Phoneme, c: Phoneme)
    requires h in vocab && c in vocab
    ensures AddOneTable(ucounts, bcounts, vocab)[h][c] == AddOneProb(ucounts, bcounts, |vocab|, h, c)
  {
  }

  /** Row `h` of the add-one table is the add-one row of `h`. */
  lemma AddOneTableRow(ucounts: multiset<Phoneme>, bcounts: multiset<Bigram>, vocab: set<Phoneme>, h: Phoneme)
    requires h in vocab
    ensures AddOneTable(ucounts, bcounts, vocab)[h] == AddOneRow(ucounts, bcounts, vocab, h)
  {
    var r := AddOneTable(ucounts, bcounts, vocab)[h];
    var s := AddOneRow(ucounts, bcounts, vocab, h);
    forall c | c in vocab ensures r[c] == s[c] {
      AddOneTableEntry(ucounts, bcounts, vocab, h, c);
    }
    RowsEqual(r, s);
  }

  lemma AbsDiscTableEntry(ucounts: multiset<Phoneme>, bcounts: multiset<Bigram>, vocab: set<Phoneme>, d: real, h: Phoneme, c: Phoneme)
    requires |ucounts| > 0 && h in vocab && c in vocab
    ensures AbsDiscTable(ucounts, bcounts, vocab, d)[h][c] == AbsDiscProb(ucounts, bcounts, |vocab|, d, h, c)
  {
  }

  /** Row `h` of the discounting table is the discounting row of `h`. */
  lemma AbsDiscTableRow(ucounts: multiset<Phoneme>, bcounts: multiset<Bigram>, vocab: set<Phoneme>, d: real, h: Phoneme)
    requires |ucounts| > 0 && h in vocab
    ensures AbsDiscTable(ucounts, bcounts, vocab, d)[h] == AbsDiscRow(ucounts, bcounts, vocab, d, h)
  {
    var r := AbsDiscTable(ucounts, bcounts, vocab, d)[h];
    var s := AbsDiscRow(ucounts, bcounts, vocab, d, h);
    forall c | c in vocab ensures r[c] == s[c] {
      AbsDiscTableEntry(ucounts, bcounts, vocab, d, h, c);
    }
    RowsEqual(r, s);
  }

  /** A row read as a function; absent symbols read 0. */
  function RowValues(row: Row): Phoneme -> real
  {
    c => if c in row then row[c] else 0.0
  }

  /** `sum(self.P[ph1][ph2] for ph2 in self.phoneme_set)` of line 103. */
  ghost function RowMass(row: Row, vocab: set<Phoneme>): real
  {
    Sum(vocab, RowValues(row))
  }

  /** A row is a probability distribution over `vocab`: entries non-negative, mass 1. */
  ghost predicate Distribution(row: Row, vocab: set<Phoneme>)
  {
    && row.Keys == vocab
    && (forall c :: c in row ==> row[c] >= 0.0)
    && RowMass(row, vocab) == 1.0
  }

  lemma RowValuesAt(row: Row, c: Phoneme)
    requires c in row
    ensures RowValues(row)(c) == row[c]
  {
  }

  /** In a distribution no entry exceeds 1. */
  lemma DistributionEntryAtMostOne(row: Row, vocab: set<Phoneme>, c: Phoneme)
    requires Distribution(row, vocab) && c in vocab
    ensures row[c] <= 1.0
  {
    forall x | x in vocab ensures RowValues(row)(x) >= 0.0 {
      RowValuesAt(row, x);
    }
    SumBoundsTerm(vocab, RowValues(row), c);
    RowValuesAt(row, c);
  }

  // ---------------------------------------------------------------------------
  // Add-one smoothing

  /** `BCOUNTS[(h, c)] + 1` as a function of `c`. */
  function ShiftedCounts(bcounts: multiset<Bigram>, h: Phoneme): Phoneme -> real
  {
    c => (bcounts[(h, c)] + 1) as real
  }

  lemma AddOneEntry(ucounts: multiset<Phoneme>, bcounts: multiset<Bigram>, vocab: set<Phoneme>, h: Phoneme, c: Phoneme)
    requires c in vocab
    ensures RowValues(AddOneRow(ucounts, bcounts, vocab, h))(c) == ShiftedCounts(bcounts, h)(c) / (ucounts[h] + |vocab|) as real
  {
    RowValuesAt(AddOneRow(ucounts, bcounts, vocab, h), c);
  }

  /** The add-one row is the shifted counts over the common denominator `Nu + L`. */
  lemma AddOneRowQuotient(ucounts: multiset<Phoneme>, bcounts: multiset<Bigram>, vocab: set<Phoneme>, h: Phoneme)
    requires vocab != {}
    ensures RowMass(AddOneRow(ucounts, bcounts, vocab, h), vocab)
         == Sum(vocab, ShiftedCounts(bcounts, h)) / (ucounts[h] + |vocab|) as real
  {
    var row := AddOneRow(ucounts, bcounts, vocab, h);
    forall c | c in vocab
      ensures RowValues(row)(c) == ShiftedCounts(bcounts, h)(c) / (ucounts[h] + |vocab|) as real
    {
      AddOneEntry(ucounts, bcounts, vocab, h, c);
    }
    SumDivide(vocab, ShiftedCounts(bcounts, h), RowValues(row), (ucounts[h] + |vocab|) as real);
  }

  /** Adding one to each of the `L` counts adds `L` to their sum. */
  lemma ShiftedSum(bcounts: multiset<Bigram>, vocab: set<Phoneme>, h: Phoneme)
    ensures Sum(vocab, ShiftedCounts(bcounts, h)) == Sum(vocab, ContinuationCounts(bcounts, h)) + |vocab| as real
  {
    SumConstant(vocab, Constant(1.0), 1.0);
    SumAdd(vocab, ContinuationCounts(bcounts, h), Constant(1.0), ShiftedCounts(bcounts, h));
  }

  lemma SelfQuotient(x: real, y: real)
    requires y != 0.0 && x == y
    ensures x / y == 1.0
  {
  }

  /** The add-one row of `h` sums to 1 whenever the bigram counts of `h` over the
      vocabulary add up to the history count of `h`. */
  lemma AddOneRowSum(ucounts: multiset<Phoneme>, bcounts: multiset<Bigram>, vocab: set<Phoneme>, h: Phoneme)
    requires h in vocab
    requires Sum(vocab, ContinuationCounts(bcounts, h)) == ucounts[h] as real
    ensures RowMass(AddOneRow(ucounts, bcounts, vocab, h), vocab) == 1.0
  {
    AddOneRowQuotient(ucounts, bcounts, vocab, h);
    ShiftedSum(bcounts, vocab, h);
    SelfQuotient(Sum(vocab, ShiftedCounts(bcounts, h)), (ucounts[h] + |vocab|) as real);
  }

  /** Every add-one probability lies in (0, 1] when the bigram does not outnumber its
      history, as in counts extracted from a corpus. */
  lemma AddOneBounds(ucounts: multiset<Phoneme>, bcounts: multiset<Bigram>, size: nat, h: Phoneme, c: Phoneme)
    requires size > 0
    requires bcounts[(h, c)] <= ucounts[h]
    ensures 0.0 < AddOneProb(ucounts, bcounts, size, h, c) <= 1.0
  {
    FractionAtMostOne((bcounts[(h, c)] + 1) as real, (ucounts[h] + size) as real);
  }

  lemma FractionAtMostOne(x: real, y: real)
    requires 0.0 < x <= y
    ensures 0.0 < x / y <= 1.0
  {
  }

  /** Normalisation of the add-one estimator: with consistent counts every row of the
      table is a distribution over the vocabulary (what `test` asserts). */
  lemma AddOneNormalised(ucounts: multiset<Phoneme>, bcounts: multiset<Bigram>, vocab: set<Phoneme>, h: Phoneme)
    requires CountsConsistent(ucounts, bcounts, vocab)
    requires h in vocab
    ensures Distribution(AddOneTable(ucounts, bcounts, vocab)[h], vocab)
  {
    AddOneRowSum(ucounts, bcounts, vocab, h);
  }

  /** Without training bigrams the add-one estimator is uniform: every entry is 1/L. */
  lemma AddOneUniformWithoutData(ucounts: multiset<Phoneme>, bcounts: multiset<Bigram>, size: nat, h: Phoneme, c: Phoneme)
    requires size > 0
    requires |ucounts| == 0 && |bcounts| == 0
    ensures AddOneProb(ucounts, bcounts, size, h, c) == 1.0 / size as real
  {
    assert ucounts == multiset{} && bcounts == multiset{};
  }

  /** One more occurrence of a bigram, its history unchanged, strictly raises its probability. */
  lemma AddOneMonotone(ucounts: multiset<Phoneme>, bcounts: multiset<Bigram>, size: nat, h: Phoneme, c: Phoneme)
    requires size > 0
    ensures AddOneProb(ucounts, bcounts + multiset{(h, c)}, size, h, c) > AddOneProb(ucounts, bcounts, size, h, c)
  {
    var denom := (ucounts[h] + size) as real;
    var k := bcounts[(h, c)] as real;
    assert (bcounts + multiset{(h, c)})[(h, c)] as real == k + 1.0;
    assert (k + 2.0) / denom == (k + 1.0) / denom + 1.0 / denom;
  }

  // ---------------------------------------------------------------------------
  // Absolute discounting: the unigram back-off distribution

  /** `uniP` as a function of `c`. */
  function UnigramValues(ucounts: multiset<Phoneme>, size: nat, d: real): Phoneme -> real
    requires |ucounts| > 0 && size > 0
  {
    c => UnigramProb(ucounts, size, d, c)
  }

  /** `max(f(c) - d, 0) / n` as a function of `c`. */
  function ScaledDiscounts(f: Phoneme -> real, d: real, n: real): Phoneme -> real
    requires n != 0.0
  {
    c => Discounted(f, d)(c) / n
  }

  /** `Zi * (1/L)`: the share of the freed unigram mass each symbol receives. */
  function UniformShare(ucounts: multiset<Phoneme>, size: nat, d: real): real
    requires |ucounts| > 0 && size > 0
  {
    ((d / |ucounts| as real) * NumHistoryTypes(ucounts) as real) * (1.0 / size as real)
  }

  /** Counts are whole numbers: each is 0 or at least 1. */
  lemma CountsWhole(ucounts: multiset<Phoneme>, s: set<Phoneme>)
    ensures forall x :: x in s ==> CountsOf(ucounts)(x) == 0.0 || CountsOf(ucounts)(x) >= 1.0
  {
  }

  lemma ContinuationCountsWhole(bcounts: multiset<Bigram>, h: Phoneme, s: set<Phoneme>)
    ensures forall x :: x in s ==> ContinuationCounts(bcounts, h)(x) == 0.0 || ContinuationCounts(bcounts, h)(x) >= 1.0
  {
  }

  /** Discounting every positive count by `d` (at most 1) removes `d` per positive count. */
  lemma DiscountedMass(f: Phoneme -> real, s: set<Phoneme>, d: real, total: real, types: nat)
    requires 0.0 <= d <= 1.0
    requires forall x :: x in s ==> f(x) == 0.0 || f(x) >= 1.0
    requires Sum(s, f) == total && |Support(s, f)| == types
    ensures Sum(s, Discounted(f, d)) == total - types as real * d
  {
    DiscountedSum(s, f, d);
    TimesIsProduct(types, d);
  }

  lemma ScaledDiscountsMass(f: Phoneme -> real, s: set<Phoneme>, d: real, n: real, total: real)
    requires n != 0.0
    requires Sum(s, Discounted(f, d)) == total
    ensures Sum(s, ScaledDiscounts(f, d, n)) == total / n
  {
    SumDivide(s, Discounted(f, d), ScaledDiscounts(f, d, n), n);
  }

  /** `uniP` splits into the scaled discounted count and the uniform share. */
  lemma UnigramSplit(ucounts: multiset<Phoneme>, vocab: set<Phoneme>, d: real)
    requires |ucounts| > 0 && vocab != {}
    ensures Sum(vocab, UnigramValues(ucounts, |vocab|, d))
         == Sum(vocab, ScaledDiscounts(CountsOf(ucounts), d, |ucounts| as real)) + Sum(vocab, Constant(UniformShare(ucounts, |vocab|, d)))
  {
    forall c | c in vocab
      ensures UnigramValues(ucounts, |vocab|, d)(c)
           == ScaledDiscounts(CountsOf(ucounts), d, |ucounts| as real)(c) + Constant(UniformShare(ucounts, |vocab|, d))(c)
    {
      UnigramEntrySplit(ucounts, |vocab|, d, c);
    }
    SumAdd(vocab, ScaledDiscounts(CountsOf(ucounts), d, |ucounts| as real), Constant(UniformShare(ucounts, |vocab|, d)),
           UnigramValues(ucounts, |vocab|, d));
  }

  lemma UnigramEntrySplit(ucounts: multiset<Phoneme>, size: nat, d: real, c: Phoneme)
    requires |ucounts| > 0 && size > 0
    ensures UnigramValues(ucounts, size, d)(c)
         == ScaledDiscounts(CountsOf(ucounts), d, |ucounts| as real)(c) + Constant(UniformShare(ucounts, size, d))(c)
  {
    var n := |ucounts| as real;
    assert CountsOf(ucounts)(c) == ucounts[c] as real;
    assert Discounted(CountsOf(ucounts), d)(c) == DiscountedCount(ucounts[c], d);
    assert ScaledDiscounts(CountsOf(ucounts), d, n)(c) == DiscountedCount(ucounts[c], d) / n;
    assert Constant(UniformShare(ucounts, size, d))(c) == UniformShare(ucounts, size, d);
  }

  lemma UnigramArithmetic(n: real, size: real, d: real, types: real)
    requires n > 0.0 && size > 0.0
    ensures (n - types * d) / n + ((d / n) * types * (1.0 / size)) * size == 1.0
  {
    assert (1.0 / size) * size == 1.0;
    assert ((d / n) * types * (1.0 / size)) * size == (d / n) * types;
    assert (n - types * d) / n == 1.0 - (d / n) * types;
  }

  /** Discounting removes `d` from each of the `nPlus_i` positive unigram counts. */
  lemma UnigramDiscountTotal(ucounts: multiset<Phoneme>, vocab: set<Phoneme>, d: real)
    requires 0.0 <= d <= 1.0
    requires Sum(vocab, CountsOf(ucounts)) == |ucounts| as real
    requires NumHistoryTypes(ucounts) == |Support(vocab, CountsOf(ucounts))|
    ensures Sum(vocab, Discounted(CountsOf(ucounts), d)) == |ucounts| as real - NumHistoryTypes(ucounts) as real * d
  {
    CountsWhole(ucounts, vocab);
    DiscountedMass(CountsOf(ucounts), vocab, d, |ucounts| as real, NumHistoryTypes(ucounts));
  }

  /** The discounted unigram counts, over `N`, carry `(N - d * nPlus_i) / N`. */
  lemma UnigramDiscountedMass(ucounts: multiset<Phoneme>, vocab: set<Phoneme>, d: real)
    requires |ucounts| > 0 && 0.0 <= d <= 1.0
    requires Sum(vocab, CountsOf(ucounts)) == |ucounts| as real
    requires NumHistoryTypes(ucounts) == |Support(vocab, CountsOf(ucounts))|
    ensures Sum(vocab, ScaledDiscounts(CountsOf(ucounts), d, |ucounts| as real))
         == (|ucounts| as real - NumHistoryTypes(ucounts) as real * d) / |ucounts| as real
  {
    UnigramDiscountTotal(ucounts, vocab, d);
    ScaledDiscountsMass(CountsOf(ucounts), vocab, d, |ucounts| as real, |ucounts| as real - NumHistoryTypes(ucounts) as real * d);
  }

  /** `uniP` summed over the vocabulary: the discounted part plus `L` uniform shares. */
  lemma UnigramParts(ucounts: multiset<Phoneme>, vocab: set<Phoneme>, d: real)
    requires |ucounts| > 0 && vocab != {}
    requires 0.0 <= d <= 1.0
    requires Sum(vocab, CountsOf(ucounts)) == |ucounts| as real
    requires NumHistoryTypes(ucounts) == |Support(vocab, CountsOf(ucounts))|
    ensures Sum(vocab, UnigramValues(ucounts, |vocab|, d))
         == Sum(vocab, ScaledDiscounts(CountsOf(ucounts), d, |ucounts| as real)) + UniformShare(ucounts, |vocab|, d) * |vocab| as real
  {
    var share := UniformShare(ucounts, |vocab|, d);
    var spread := Sum(vocab, Constant(share));
    assert spread == share * |vocab| as real by {
      SumConstant(vocab, Constant(share), share);
    }
    assert Sum(vocab, UnigramValues(ucounts, |vocab|, d))
        == Sum(vocab, ScaledDiscounts(CountsOf(ucounts), d, |ucounts| as real)) + spread by {
      UnigramSplit(ucounts, vocab, d);
    }
  }

  /** The back-off distribution `uniP` sums to 1 over the vocabulary: the discount
      removed from the positive unigram counts is exactly the mass spread uniformly. */
  lemma UnigramNormalised(ucounts: multiset<Phoneme>, vocab: set<Phoneme>, d: real)
    requires |ucounts| > 0 && vocab != {}
    requires 0.0 <= d <= 1.0
    requires Sum(vocab, CountsOf(ucounts)) == |ucounts| as real
    requires NumHistoryTypes(ucounts) == |Support(vocab, CountsOf(ucounts))|
    ensures Sum(vocab, UnigramValues(ucounts, |vocab|, d)) == 1.0
  {
    var discounted := Sum(vocab, ScaledDiscounts(CountsOf(ucounts), d, |ucounts| as real));
    var shares := UniformShare(ucounts, |vocab|, d) * |vocab| as real;
    var kept := (|ucounts| as real - NumHistoryTypes(ucounts) as real * d) / |ucounts| as real;
    assert Sum(vocab, UnigramValues(ucounts, |vocab|, d)) == discounted + shares by {
      UnigramParts(ucounts, vocab, d);
    }
    assert discounted == kept by {
      UnigramDiscountedMass(ucounts, vocab, d);
    }
    assert kept + shares == 1.0 by {
      UnigramShareArithmetic(ucounts, |vocab|, d);
    }
  }

  lemma UnigramShareArithmetic(ucounts: multiset<Phoneme>, size: nat, d: real)
    requires |ucounts| > 0 && size > 0
    ensures (|ucounts| as real - NumHistoryTypes(ucounts) as real * d) / |ucounts| as real
          + UniformShare(ucounts, size, d) * size as real == 1.0
  {
    UnigramArithmetic(|ucounts| as real, size as real, d, NumHistoryTypes(ucounts) as real);
  }

  /** With a positive discount every `uniP` is positive. */
  lemma UnigramPositive(ucounts: multiset<Phoneme>, size: nat, d: real, c: Phoneme)
    requires |ucounts| > 0 && size > 0 && d > 0.0
    ensures UnigramProb(ucounts, size, d, c) > 0.0
  {
    var n := |ucounts| as real;
    var types := NumHistoryTypes(ucounts) as real;
    assert d / n > 0.0;
    assert (d / n) * types > 0.0;
    assert 1.0 / size as real > 0.0;
    assert ((d / n) * types) * (1.0 / size as real) > 0.0;
  }

  /** With no discount the back-off model is the maximum-likelihood estimate: the
      relative bigram frequency after a seen history, the relative unigram frequency
      after an unseen one. */
  lemma UndiscountedIsRelativeFrequency(ucounts: multiset<Phoneme>, bcounts: multiset<Bigram>, size: nat, h: Phoneme, c: Phoneme)
    requires |ucounts| > 0 && size > 0
    ensures ucounts[h] == 0 ==> AbsDiscProb(ucounts, bcounts, size, 0.0, h, c) == ucounts[c] as real / |ucounts| as real
    ensures ucounts[h] > 0 ==> AbsDiscProb(ucounts, bcounts, size, 0.0, h, c) == bcounts[(h, c)] as real / ucounts[h] as real
  {
    var n := |ucounts| as real;
    assert (0.0 / n) * NumHistoryTypes(ucounts) as real == 0.0;
    assert UnigramProb(ucounts, size, 0.0, c) == ucounts[c] as real / n;
    if ucounts[h] > 0 {
      assert BackOffWeight(ucounts, bcounts, 0.0, h) == 0.0;
    }
  }

  /** `Zh` is non-negative for a non-negative discount, and zero exactly when there is
      no discount or `h` has no recorded continuation: only then does the row of a seen
      history not back off to `uniP`. */
  lemma BackOffWeightZero(ucounts: multiset<Phoneme>, bcounts: multiset<Bigram>, d: real, h: Phoneme)
    requires ucounts[h] > 0
    ensures d >= 0.0 ==> BackOffWeight(ucounts, bcounts, d, h) >= 0.0
    ensures BackOffWeight(ucounts, bcounts, d, h) == 0.0 <==> d == 0.0 || forall p :: p in bcounts ==> p.0 != h
  {
    var nh := ucounts[h] as real;
    var k := NumContinuations(bcounts, h) as real;
    assert d == 0.0 <==> d / nh == 0.0;
    assert d >= 0.0 ==> d / nh >= 0.0;
    assert (d / nh) * k == 0.0 <==> d / nh == 0.0 || k == 0.0;
  }

  // ---------------------------------------------------------------------------
  // Absolute discounting: the rows

  /** An entry of the back-off table is `AbsDiscProb`. */
  lemma AbsDiscEntry(ucounts: multiset<Phoneme>, bcounts: multiset<Bigram>, vocab: set<Phoneme>, d: real, h: Phoneme, c: Phoneme)
    requires |ucounts| > 0 && c in vocab
    ensures RowValues(AbsDiscRow(ucounts, bcounts, vocab, d, h))(c) == AbsDiscProb(ucounts, bcounts, |vocab|, d, h, c)
  {
    RowValuesAt(AbsDiscRow(ucounts, bcounts, vocab, d, h), c);
  }

  /** For a seen history, P(c | h) is the scaled discounted bigram count plus `Zh * uniP`. */
  lemma SeenProbSplit(ucounts: multiset<Phoneme>, bcounts: multiset<Bigram>, size: nat, d: real, h: Phoneme, c: Phoneme)
    requires |ucounts| > 0 && size > 0 && ucounts[h] > 0
    ensures AbsDiscProb(ucounts, bcounts, size, d, h, c)
         == ScaledDiscounts(ContinuationCounts(bcounts, h), d, ucounts[h] as real)(c)
          + Scaled(UnigramValues(ucounts, size, d), BackOffWeight(ucounts, bcounts, d, h))(c)
  {
    assert AbsDiscProb(ucounts, bcounts, size, d, h, c)
        == DiscountedCount(bcounts[(h, c)], d) / ucounts[h] as real + BackOffWeight(ucounts, bcounts, d, h) * UnigramProb(ucounts, size, d, c);
    assert ContinuationCounts(bcounts, h)(c) == bcounts[(h, c)] as real;
    assert Discounted(ContinuationCounts(bcounts, h), d)(c) == DiscountedCount(bcounts[(h, c)], d);
    assert ScaledDiscounts(ContinuationCounts(bcounts, h), d, ucounts[h] as real)(c) == DiscountedCount(bcounts[(h, c)], d) / ucounts[h] as real;
    assert UnigramValues(ucounts, size, d)(c) == UnigramProb(ucounts, size, d, c);
  }

  lemma UnseenEntry(ucounts: multiset<Phoneme>, bcounts: multiset<Bigram>, vocab: set<Phoneme>, d: real, h: Phoneme, c: Phoneme)
    requires |ucounts| > 0 && ucounts[h] == 0 && c in vocab
    ensures RowValues(AbsDiscRow(ucounts, bcounts, vocab, d, h))(c) == UnigramValues(ucounts, |vocab|, d)(c)
  {
    AbsDiscEntry(ucounts, bcounts, vocab, d, h, c);
  }

  lemma SeenEntry(ucounts: multiset<Phoneme>, bcounts: multiset<Bigram>, vocab: set<Phoneme>, d: real, h: Phoneme, c: Phoneme)
    requires |ucounts| > 0 && ucounts[h] > 0 && c in vocab
    ensures RowValues(AbsDiscRow(ucounts, bcounts, vocab, d, h))(c)
         == ScaledDiscounts(ContinuationCounts(bcounts, h), d, ucounts[h] as real)(c)
          + Scaled(UnigramValues(ucounts, |vocab|, d), BackOffWeight(ucounts, bcounts, d, h))(c)
  {
    AbsDiscEntry(ucounts, bcounts, vocab, d, h, c);
    SeenProbSplit(ucounts, bcounts, |vocab|, d, h, c);
  }

  /** An unseen history gets the `uniP` row, so all unseen histories share one row. */
  lemma UnseenHistoriesShareRow(ucounts: multiset<Phoneme>, bcounts: multiset<Bigram>, vocab: set<Phoneme>, d: real, h1: Phoneme, h2: Phoneme)
    requires |ucounts| > 0
    requires ucounts[h1] == 0 && ucounts[h2] == 0
    ensures forall c :: c in vocab ==> AbsDiscRow(ucounts, bcounts, vocab, d, h1)[c] == UnigramProb(ucounts, |vocab|, d, c)
    ensures AbsDiscRow(ucounts, bcounts, vocab, d, h1) == AbsDiscRow(ucounts, bcounts, vocab, d, h2)
  {
    var r1, r2 := AbsDiscRow(ucounts, bcounts, vocab, d, h1), AbsDiscRow(ucounts, bcounts, vocab, d, h2);
    forall c | c in vocab
      ensures r1[c] == UnigramProb(ucounts, |vocab|, d, c) && r2[c] == r1[c]
    {
      UnseenEntry(ucounts, bcounts, vocab, d, h1, c);
      UnseenEntry(ucounts, bcounts, vocab, d, h2, c);
      RowValuesAt(r1, c);
      RowValuesAt(r2, c);
    }
  }

  lemma UnseenRowMass(ucounts: multiset<Phoneme>, bcounts: multiset<Bigram>, vocab: set<Phoneme>, d: real, h: Phoneme)
    requires |ucounts| > 0 && ucounts[h] == 0 && vocab != {}
    ensures RowMass(AbsDiscRow(ucounts, bcounts, vocab, d, h), vocab) == Sum(vocab, UnigramValues(ucounts, |vocab|, d))
  {
    forall c | c in vocab
      ensures RowValues(AbsDiscRow(ucounts, bcounts, vocab, d, h))(c) == UnigramValues(ucounts, |vocab|, d)(c)
    {
      UnseenEntry(ucounts, bcounts, vocab, d, h, c);
    }
    SumCongruence(vocab, RowValues(AbsDiscRow(ucounts, bcounts, vocab, d, h)), UnigramValues(ucounts, |vocab|, d));
  }

  lemma SeenRowSplit(ucounts: multiset<Phoneme>, bcounts: multiset<Bigram>, vocab: set<Phoneme>, d: real, h: Phoneme)
    requires |ucounts| > 0 && ucounts[h] > 0 && vocab != {}
    ensures RowMass(AbsDiscRow(ucounts, bcounts, vocab, d, h), vocab)
         == Sum(vocab, ScaledDiscounts(ContinuationCounts(bcounts, h), d, ucounts[h] as real)) + Sum(vocab, Scaled(UnigramValues(ucounts, |vocab|, d), BackOffWeight(ucounts, bcounts, d, h)))
  {
    forall c | c in vocab
      ensures RowValues(AbsDiscRow(ucounts, bcounts, vocab, d, h))(c)
           == ScaledDiscounts(ContinuationCounts(bcounts, h), d, ucounts[h] as real)(c) + Scaled(UnigramValues(ucounts, |vocab|, d), BackOffWeight(ucounts, bcounts, d, h))(c)
    {
      SeenEntry(ucounts, bcounts, vocab, d, h, c);
    }
    SumAdd(vocab, ScaledDiscounts(ContinuationCounts(bcounts, h), d, ucounts[h] as real), Scaled(UnigramValues(ucounts, |vocab|, d), BackOffWeight(ucounts, bcounts, d, h)),
           RowValues(AbsDiscRow(ucounts, bcounts, vocab, d, h)));
  }

  /** The backed-off part of a seen row carries exactly the freed mass `Zh`. */
  lemma BackOffMass(ucounts: multiset<Phoneme>, vocab: set<Phoneme>, d: real, w: real)
    requires |ucounts| > 0 && vocab != {}
    requires 0.0 <= d <= 1.0
    requires Sum(vocab, CountsOf(ucounts)) == |ucounts| as real
    requires NumHistoryTypes(ucounts) == |Support(vocab, CountsOf(ucounts))|
    ensures Sum(vocab, Scaled(UnigramValues(ucounts, |vocab|, d), w)) == w
  {
    SumScale(vocab, UnigramValues(ucounts, |vocab|, d), Scaled(UnigramValues(ucounts, |vocab|, d), w), w);
    UnigramNormalised(ucounts, vocab, d);
  }

  /** Discounting removes `d` from each of the `nPlus_h` positive continuation counts. */
  lemma SeenDiscountTotal(ucounts: multiset<Phoneme>, bcounts: multiset<Bigram>, vocab: set<Phoneme>, d: real, h: Phoneme)
    requires 0.0 <= d <= 1.0
    requires Sum(vocab, ContinuationCounts(bcounts, h)) == ucounts[h] as real
    requires NumContinuations(bcounts, h) == |Support(vocab, ContinuationCounts(bcounts, h))|
    ensures Sum(vocab, Discounted(ContinuationCounts(bcounts, h), d)) == ucounts[h] as real - NumContinuations(bcounts, h) as real * d
  {
    ContinuationCountsWhole(bcounts, h, vocab);
    DiscountedMass(ContinuationCounts(bcounts, h), vocab, d, ucounts[h] as real, NumContinuations(bcounts, h));
  }

  /** The discounted bigram part of a seen row carries `1 - Zh`. */
  lemma SeenDiscountedMass(ucounts: multiset<Phoneme>, bcounts: multiset<Bigram>, vocab: set<Phoneme>, d: real, h: Phoneme)
    requires ucounts[h] > 0 && 0.0 <= d <= 1.0
    requires Sum(vocab, ContinuationCounts(bcounts, h)) == ucounts[h] as real
    requires NumContinuations(bcounts, h) == |Support(vocab, ContinuationCounts(bcounts, h))|
    ensures Sum(vocab, ScaledDiscounts(ContinuationCounts(bcounts, h), d, ucounts[h] as real))
         == (ucounts[h] as real - NumContinuations(bcounts, h) as real * d) / ucounts[h] as real
  {
    SeenDiscountTotal(ucounts, bcounts, vocab, d, h);
    ScaledDiscountsMass(ContinuationCounts(bcounts, h), vocab, d, ucounts[h] as real,
                        ucounts[h] as real - NumContinuations(bcounts, h) as real * d);
  }

  lemma SeenArithmetic(nh: real, k: real, d: real)
    requires nh > 0.0
    ensures (nh - k * d) / nh + (d / nh) * k == 1.0
  {
    assert (nh - k * d) / nh == nh / nh - (k * d) / nh;
    assert nh / nh == 1.0;
    assert (k * d) / nh == (d / nh) * k;
  }

  lemma SeenWeightArithmetic(ucounts: multiset<Phoneme>, bcounts: multiset<Bigram>, d: real, h: Phoneme)
    requires ucounts[h] > 0
    ensures (ucounts[h] as real - NumContinuations(bcounts, h) as real * d) / ucounts[h] as real
          + BackOffWeight(ucounts, bcounts, d, h) == 1.0
  {
    SeenArithmetic(ucounts[h] as real, NumContinuations(bcounts, h) as real, d);
  }

  /** A seen row sums to the discounted share `1 - Zh` plus the backed-off share `Zh`. */
  lemma SeenRowParts(ucounts: multiset<Phoneme>, bcounts: multiset<Bigram>, vocab: set<Phoneme>, d: real, h: Phoneme)
    requires |ucounts| > 0 && ucounts[h] > 0 && vocab != {}
    requires 0.0 <= d <= 1.0
    requires Sum(vocab, CountsOf(ucounts)) == |ucounts| as real
    requires NumHistoryTypes(ucounts) == |Support(vocab, CountsOf(ucounts))|
    requires Sum(vocab, ContinuationCounts(bcounts, h)) == ucounts[h] as real
    requires NumContinuations(bcounts, h) == |Support(vocab, ContinuationCounts(bcounts, h))|
    ensures RowMass(AbsDiscRow(ucounts, bcounts, vocab, d, h), vocab)
         == (ucounts[h] as real - NumContinuations(bcounts, h) as real * d) / ucounts[h] as real
          + BackOffWeight(ucounts, bcounts, d, h)
  {
    SeenRowSplit(ucounts, bcounts, vocab, d, h);
    SeenDiscountedMass(ucounts, bcounts, vocab, d, h);
    BackOffMass(ucounts, vocab, d, BackOffWeight(ucounts, bcounts, d, h));
  }

  lemma SeenRowSum(ucounts: multiset<Phoneme>, bcounts: multiset<Bigram>, vocab: set<Phoneme>, d: real, h: Phoneme)
    requires |ucounts| > 0 && ucounts[h] > 0 && vocab != {}
    requires 0.0 <= d <= 1.0
    requires Sum(vocab, CountsOf(ucounts)) == |ucounts| as real
    requires NumHistoryTypes(ucounts) == |Support(vocab, CountsOf(ucounts))|
    requires Sum(vocab, ContinuationCounts(bcounts, h)) == ucounts[h] as real
    requires NumContinuations(bcounts, h) == |Support(vocab, ContinuationCounts(bcounts, h))|
    ensures RowMass(AbsDiscRow(ucounts, bcounts, vocab, d, h), vocab) == 1.0
  {
    SeenRowParts(ucounts, bcounts, vocab, d, h);
    SeenWeightArithmetic(ucounts, bcounts, d, h);
  }

  lemma UnseenRowSum(ucounts: multiset<Phoneme>, bcounts: multiset<Bigram>, vocab: set<Phoneme>, d: real, h: Phoneme)
    requires |ucounts| > 0 && ucounts[h] == 0 && vocab != {}
    requires 0.0 <= d <= 1.0
    requires Sum(vocab, CountsOf(ucounts)) == |ucounts| as real
    requires NumHistoryTypes(ucounts) == |Support(vocab, CountsOf(ucounts))|
    ensures RowMass(AbsDiscRow(ucounts, bcounts, vocab, d, h), vocab) == 1.0
  {
    UnseenRowMass(ucounts, bcounts, vocab, d, h);
    UnigramNormalised(ucounts, vocab, d);
  }

  /** Normalisation of the back-off estimator: with consistent counts, a positive total
      count and `0 <= d <= 1`, every row of the table sums to 1. */
  lemma AbsDiscRowSum(ucounts: multiset<Phoneme>, bcounts: multiset<Bigram>, vocab: set<Phoneme>, d: real, h: Phoneme)
    requires CountsConsistent(ucounts, bcounts, vocab)
    requires |ucounts| > 0 && h in vocab
    requires 0.0 <= d <= 1.0
    ensures RowMass(AbsDiscRow(ucounts, bcounts, vocab, d, h), vocab) == 1.0
  {
    if ucounts[h] == 0 {
      UnseenRowSum(ucounts, bcounts, vocab, d, h);
    } else {
      SeenRowSum(ucounts, bcounts, vocab, d, h);
    }
  }

  lemma UnigramNonNegative(ucounts: multiset<Phoneme>, size: nat, d: real, c: Phoneme)
    requires |ucounts| > 0 && size > 0 && d >= 0.0
    ensures UnigramProb(ucounts, size, d, c) >= 0.0
  {
    var n := |ucounts| as real;
    assert DiscountedCount(ucounts[c], d) / n >= 0.0;
    assert (d / n) * NumHistoryTypes(ucounts) as real >= 0.0;
    assert 1.0 / size as real > 0.0;
  }

  lemma SeenNonNegative(ucounts: multiset<Phoneme>, bcounts: multiset<Bigram>, size: nat, d: real, h: Phoneme, c: Phoneme)
    requires |ucounts| > 0 && size > 0 && d >= 0.0 && ucounts[h] > 0
    requires UnigramProb(ucounts, size, d, c) >= 0.0
    ensures AbsDiscProb(ucounts, bcounts, size, d, h, c) >= 0.0
  {
    assert DiscountedCount(bcounts[(h, c)], d) / ucounts[h] as real >= 0.0;
    assert d / ucounts[h] as real >= 0.0;
    assert BackOffWeight(ucounts, bcounts, d, h) >= 0.0;
  }

  /** Every entry of the back-off estimator is non-negative for a non-negative discount. */
  lemma AbsDiscNonNegative(ucounts: multiset<Phoneme>, bcounts: multiset<Bigram>, size: nat, d: real, h: Phoneme, c: Phoneme)
    requires |ucounts| > 0 && size > 0 && d >= 0.0
    ensures AbsDiscProb(ucounts, bcounts, size, d, h, c) >= 0.0
  {
    UnigramNonNegative(ucounts, size, d, c);
    if ucounts[h] > 0 {
      SeenNonNegative(ucounts, bcounts, size, d, h, c);
    }
  }

  /** With a positive discount every entry is strictly positive (so `logP` is defined),
      given that a seen history has at least one recorded continuation. */
  lemma AbsDiscPositive(ucounts: multiset<Phoneme>, bcounts: multiset<Bigram>, size: nat, d: real, h: Phoneme, c: Phoneme)
    requires |ucounts| > 0 && size > 0 && d > 0.0
    requires ucounts[h] > 0 ==> NumContinuations(bcounts, h) > 0
    ensures AbsDiscProb(ucounts, bcounts, size, d, h, c) > 0.0
  {
    UnigramPositive(ucounts, size, d, c);
    if ucounts[h] > 0 {
      var nh := ucounts[h] as real;
      var zh := BackOffWeight(ucounts, bcounts, d, h);
      assert d / nh > 0.0;
      assert zh > 0.0;
      assert zh * UnigramProb(ucounts, size, d, c) > 0.0;
      assert DiscountedCount(bcounts[(h, c)], d) / nh >= 0.0;
    }
  }

  /** Each row of the back-off table is a distribution over the vocabulary. */
  lemma AbsDiscNormalised(ucounts: multiset<Phoneme>, bcounts: multiset<Bigram>, vocab: set<Phoneme>, d: real, h: Phoneme)
    requires CountsConsistent(ucounts, bcounts, vocab)
    requires |ucounts| > 0 && h in vocab
    requires 0.0 <= d <= 1.0
    ensures Distribution(AbsDiscTable(ucounts, bcounts, vocab, d)[h], vocab)
  {
    var row := AbsDiscRow(ucounts, bcounts, vocab, d, h);
    AbsDiscRowSum(ucounts, bcounts, vocab, d, h);
    forall c | c in row ensures row[c] >= 0.0 {
      AbsDiscNonNegative(ucounts, bcounts, |vocab|, d, h, c);
    }
  }
}
