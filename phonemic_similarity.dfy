/** The input shaping of phonemic_similarity.py: `read_data` turns tab-separated
    lines into bracketed symbol sequences `# … @` grouped by language (lines 13-42),
    and the script builds each language's phoneme set from its training sequences
    (lines 49-62). The lines are an in-memory sequence; opening and reading the file
    are left out. */
module PhonemicSimilarity {
  import opened Outcomes
  import opened PyStrings
  import opened Counting
  import opened Estimators
  import opened Scoring

  const Tab: char := '\t'
  /** The begin-of-word and end-of-word symbols added at line 33. */
  const WordStart: Phoneme := "#"
  const WordEnd: Phoneme := "@"

  /** The exception `read_data` can raise: line 27 reads field 4 of a line with fewer
      than 4 tab-separated fields. */
  datatype ReadError = IndexError

  /** What one line contributes: a sequence kept for language `id`, or nothing. */
  datatype Parsed = Kept(id: string, word: Word) | Skipped

  /** Lines 24-38 for one line. Both fields are read before the language test, so a
      short line raises whatever its language. */
  function ParseLine(line: string, langIDs: seq<string>): (r: Result<Parsed, ReadError>)
    ensures r.Failure? <==> |Split(Strip(line), Tab)| < 4
  {
    var instance := Split(Strip(line), Tab);
    if |instance| < 4 then Failure(IndexError)
    else
      var id, transcription := instance[0], instance[3];
      if id !in langIDs then Success(Skipped)
      else
        var word := Tokens(WordStart + " " + transcription + " " + WordEnd);
        if |word| < 4 then Success(Skipped) else Success(Kept(id, word))
  }

  /** The four fields `line.strip().split("\t")` needs for line 27 not to raise. */
  predicate HasFields(line: string)
  {
    |Split(Strip(line), Tab)| >= 4
  }

  /** Field `i` of a line, as line 27 reads it. */
  function Field(line: string, i: nat): string
    requires HasFields(line) && i < 4
  {
    Split(Strip(line), Tab)[i]
  }

  /** Lines 33-34: the bracketed sequence is `'#'`, the whitespace tokens of the
      transcription, then `'@'`. */
  lemma Bracketed(transcription: string)
    ensures Tokens(WordStart + " " + transcription + " " + WordEnd) == [WordStart] + Tokens(transcription) + [WordEnd]
  {
    var s := WordStart + " " + transcription + " " + WordEnd;
    assert s == WordStart + [' '] + (transcription + [' '] + WordEnd);
    TokensSeparated(WordStart, ' ', transcription + [' '] + WordEnd);
    TokensSeparated(transcription, ' ', WordEnd);
    TokensOfRun(WordStart);
    TokensOfRun(WordEnd);
  }

  /** What a line yields: it raises exactly when it has fewer than 4 fields; otherwise
      it is kept exactly when its first field is a requested language and its fourth
      has at least 2 tokens, and then the sequence is `'#'`, those tokens, `'@'`. */
  lemma ParseLineSpec(line: string, langIDs: seq<string>)
    ensures ParseLine(line, langIDs).Failure? <==> !HasFields(line)
    ensures HasFields(line) ==>
      ((ParseLine(line, langIDs) == Success(Kept(Field(line, 0), [WordStart] + Tokens(Field(line, 3)) + [WordEnd])))
       <==> (Field(line, 0) in langIDs && |Tokens(Field(line, 3))| >= 2))
    ensures HasFields(line) && !(Field(line, 0) in langIDs && |Tokens(Field(line, 3))| >= 2) ==>
      ParseLine(line, langIDs) == Success(Skipped)
  {
    if HasFields(line) {
      Bracketed(Field(line, 3));
    }
  }

  /** Every kept sequence is bracketed by `'#'` and `'@'`, has at least 4 symbols and
      belongs to a requested language. */
  lemma KeptShape(line: string, langIDs: seq<string>)
    requires ParseLine(line, langIDs).Success? && ParseLine(line, langIDs).value.Kept?
    ensures ParseLine(line, langIDs).value.id in langIDs && Bracketed4(ParseLine(line, langIDs).value.word)
  {
    Bracketed(Field(line, 3));
  }

  /** What every line yields, in line order. */
  function ParseAll(lines: seq<string>, langIDs: seq<string>): (r: seq<Result<Parsed, ReadError>>)
    ensures |r| == |lines|
  {
    seq(|lines|, i requires 0 <= i < |lines| => ParseLine(lines[i], langIDs))
  }

  /** The result of `read_data` over `lines`: the kept sequences of each language in
      line order, or the exception of the first short line. */
  function Dataset(lines: seq<string>, langIDs: seq<string>): (r: Result<map<string, seq<Word>>, ReadError>)
    ensures lines == [] ==> r == Success(map[])
    ensures r.Success? ==> forall l :: l in r.value ==> r.value[l] != []
  {
    Collect(ParseAll(lines, langIDs))
  }

  /** The loop of lines 22-40 over what the lines yield: append every kept sequence to
      its language, stop at the first exception. */
  function Collect(parsed: seq<Result<Parsed, ReadError>>): (r: Result<map<string, seq<Word>>, ReadError>)
    ensures r.Success? ==> forall l :: l in r.value ==> r.value[l] != []
  {
    if parsed == [] then Success(map[])
    else
      match Collect(parsed[..|parsed| - 1])
      case Failure(e) => Failure(e)
      case Success(dataset) =>
        match parsed[|parsed| - 1]
        case Failure(e) => Failure(e)
        case Success(Skipped) => Success(dataset)
        case Success(Kept(id, word)) => Success(Append(dataset, id, word))
  }

  /** `dataset[ID].append(word)` on a `defaultdict(list)` (line 40). */
  function Append(dataset: map<string, seq<Word>>, id: string, word: Word): (r: map<string, seq<Word>>)
    ensures r.Keys == dataset.Keys + {id}
    ensures r[id] == (if id in dataset then dataset[id] else []) + [word]
    ensures forall l :: l in dataset && l != id ==> r[l] == dataset[l]
  {
    dataset[id := (if id in dataset then dataset[id] else []) + [word]]
  }

  /** The sequences kept for language `l`, in line order. */
  function KeptFor(parsed: seq<Result<Parsed, ReadError>>, l: string): (r: seq<Word>)
    ensures |r| <= |parsed|
    ensures forall w :: w in r ==> exists i :: 0 <= i < |parsed| && parsed[i] == Success(Kept(l, w))
  {
    if parsed == [] then []
    else
      var p := parsed[|parsed| - 1];
      KeptFor(parsed[..|parsed| - 1], l) + (if p.Success? && p.value.Kept? && p.value.id == l then [p.value.word] else [])
  }

  /** `read_data` (lines 13-42) over an in-memory sequence of lines. */
  method ReadData(lines: seq<string>, langIDs: seq<string>) returns (r: Result<map<string, seq<Word>>, ReadError>)
    ensures r == Dataset(lines, langIDs)
  {
    ghost var parsedAll := ParseAll(lines, langIDs);
    var dataset: map<string, seq<Word>> := map[];
    var k := 0;
    while k < |lines|
      invariant k <= |lines|
      invariant Collect(parsedAll[..k]) == Success(dataset)
    {
      assert parsedAll[..k + 1][..k] == parsedAll[..k];
      var parsed := ParseLine(lines[k], langIDs);
      assert parsedAll[k] == parsed;
      if parsed.Failure? {
        CollectFailureSticks(parsedAll, k + 1);
        return Failure(parsed.error);
      }
      if parsed.value.Kept? {
        dataset := Append(dataset, parsed.value.id, parsed.value.word);
      }
      k := k + 1;
    }
    assert parsedAll[..k] == parsedAll;
    return Success(dataset);
  }

  /** Once a prefix of the lines raises, so do all the lines. */
  lemma {:induction false} CollectFailureSticks(parsed: seq<Result<Parsed, ReadError>>, k: nat)
    requires k <= |parsed| && Collect(parsed[..k]).Failure?
    ensures Collect(parsed) == Collect(parsed[..k])
    decreases |parsed| - k
  {
    if k < |parsed| {
      assert parsed[..k + 1][..k] == parsed[..k];
      CollectFailureSticks(parsed, k + 1);
    } else {
      assert parsed[..k] == parsed;
    }
  }

  /** Collecting raises exactly when some line raised. */
  lemma {:induction false} CollectFails(parsed: seq<Result<Parsed, ReadError>>)
    ensures Collect(parsed).Failure? <==> exists i :: 0 <= i < |parsed| && parsed[i].Failure?
  {
    if parsed != [] {
      var init := parsed[..|parsed| - 1];
      CollectFails(init);
      if exists i :: 0 <= i < |init| && init[i].Failure? {
        var i :| 0 <= i < |init| && init[i].Failure?;
        assert parsed[i] == init[i];
      }
      if exists i :: 0 <= i < |parsed| && parsed[i].Failure? {
        var i :| 0 <= i < |parsed| && parsed[i].Failure?;
        if i < |init| {
          assert init[i] == parsed[i];
        }
      }
    }
  }

  /** `read_data` raises exactly when some line has fewer than 4 fields. */
  lemma DatasetFails(lines: seq<string>, langIDs: seq<string>)
    ensures Dataset(lines, langIDs).Failure? <==> exists i :: 0 <= i < |lines| && !HasFields(lines[i])
  {
    var parsed := ParseAll(lines, langIDs);
    CollectFails(parsed);
    assert forall i :: 0 <= i < |lines| ==> (parsed[i].Failure? <==> !HasFields(lines[i]));
  }

  /** Each language holds exactly its kept sequences, in order, and is present only
      once it has one. */
  lemma {:induction false} CollectContents(parsed: seq<Result<Parsed, ReadError>>, l: string)
    requires Collect(parsed).Success?
    ensures l in Collect(parsed).value <==> KeptFor(parsed, l) != []
    ensures l in Collect(parsed).value ==> Collect(parsed).value[l] == KeptFor(parsed, l)
  {
    if parsed != [] {
      CollectContents(parsed[..|parsed| - 1], l);
    }
  }

  /** Line 40: each language holds exactly the sequences its lines keep, in line
      order, and is present only once it has one. */
  lemma DatasetContents(lines: seq<string>, langIDs: seq<string>, l: string)
    requires Dataset(lines, langIDs).Success?
    ensures l in Dataset(lines, langIDs).value <==> KeptFor(ParseAll(lines, langIDs), l) != []
    ensures l in Dataset(lines, langIDs).value ==> Dataset(lines, langIDs).value[l] == KeptFor(ParseAll(lines, langIDs), l)
  {
    CollectContents(ParseAll(lines, langIDs), l);
  }

  /** Every kept sequence is bracketed and under a requested language. */
  predicate KeptWellShaped(parsed: seq<Result<Parsed, ReadError>>, langIDs: seq<string>)
  {
    forall i :: 0 <= i < |parsed| && parsed[i].Success? && parsed[i].value.Kept? ==>
      parsed[i].value.id in langIDs && Bracketed4(parsed[i].value.word)
  }

  /** Collecting well-shaped outcomes gives a well-shaped dataset. */
  lemma {:induction false} CollectShape(parsed: seq<Result<Parsed, ReadError>>, langIDs: seq<string>)
    requires Collect(parsed).Success? && KeptWellShaped(parsed, langIDs)
    ensures WellShaped(Collect(parsed).value, langIDs)
  {
    if parsed != [] {
      var init := parsed[..|parsed| - 1];
      assert KeptWellShaped(init, langIDs) by {
        forall i | 0 <= i < |init| ensures init[i] == parsed[i] { }
      }
      CollectShape(init, langIDs);
    }
  }

  /** Every sequence `read_data` returns is bracketed, has at least 4 symbols and sits
      under a requested language, and no language is present with no sequence. */
  lemma DatasetShape(lines: seq<string>, langIDs: seq<string>)
    requires Dataset(lines, langIDs).Success?
    ensures WellShaped(Dataset(lines, langIDs).value, langIDs)
  {
    ParsedShape(lines, langIDs);
    CollectShape(ParseAll(lines, langIDs), langIDs);
  }

  /** Every line that keeps a sequence keeps a well-shaped one. */
  lemma ParsedShape(lines: seq<string>, langIDs: seq<string>)
    ensures KeptWellShaped(ParseAll(lines, langIDs), langIDs)
  {
    var parsed := ParseAll(lines, langIDs);
    forall i | 0 <= i < |parsed| && parsed[i].Success? && parsed[i].value.Kept?
      ensures parsed[i].value.id in langIDs && Bracketed4(parsed[i].value.word)
    {
      KeptShape(lines[i], langIDs);
    }
  }

  /** A sequence as `read_data` keeps it. */
  predicate Bracketed4(w: Word)
  {
    |w| >= 4 && w[0] == WordStart && w[|w| - 1] == WordEnd
  }

  /** Every language requested and nonempty, every sequence bracketed. */
  predicate WellShaped(dataset: map<string, seq<Word>>, langIDs: seq<string>)
  {
    forall l :: l in dataset ==> l in langIDs && dataset[l] != [] && forall i :: 0 <= i < |dataset[l]| ==> Bracketed4(dataset[l][i])
  }

  /** The symbols of the sequences, one after the other (the `extend` of line 54). */
  function Concat(words: seq<Word>): (r: seq<Phoneme>)
    ensures forall w :: w in words ==> multiset(w) <= multiset(r)
  {
    if words == [] then []
    else
      var init, last := words[..|words| - 1], words[|words| - 1];
      assert forall w :: w in words ==> w in init || w == last;
      Concat(init) + last
  }

  /** A symbol occurs in the concatenation exactly when it occurs in one of the
      sequences. */
  lemma {:induction false} ConcatSymbols(words: seq<Word>, x: Phoneme)
    ensures x in Concat(words) <==> exists i, j :: 0 <= i < |words| && 0 <= j < |words[i]| && words[i][j] == x
  {
    if words != [] {
      var init, last := words[..|words| - 1], words[|words| - 1];
      ConcatSymbols(init, x);
      if x in Concat(words) {
        if x in Concat(init) {
          var i, j :| 0 <= i < |init| && 0 <= j < |init[i]| && init[i][j] == x;
          assert words[i][j] == x;
        } else {
          var j :| 0 <= j < |last| && last[j] == x;
          assert words[|words| - 1][j] == x;
        }
      }
      if exists i, j :: 0 <= i < |words| && 0 <= j < |words[i]| && words[i][j] == x {
        var i, j :| 0 <= i < |words| && 0 <= j < |words[i]| && words[i][j] == x;
        if i < |init| {
          assert init[i][j] == x;
        } else {
          assert last[j] == x;
        }
      }
    }
  }

  /** Line 54 for one language: `phoneme_seq[LID].extend(trans)` for every sequence of
      `words`; the key appears only once something is extended. */
  method ExtendAll(seqs: map<string, seq<Phoneme>>, lid: string, words: seq<Word>) returns (r: map<string, seq<Phoneme>>)
    ensures words == [] ==> r == seqs
    ensures words != [] ==> r == seqs[lid := (if lid in seqs then seqs[lid] else []) + Concat(words)]
  {
    r := seqs;
    var base := if lid in seqs then seqs[lid] else [];
    var k := 0;
    while k < |words|
      invariant k <= |words|
      invariant k == 0 ==> r == seqs
      invariant k > 0 ==> r == seqs[lid := base + Concat(words[..k])]
    {
      var current := if lid in r then r[lid] else [];
      assert k > 0 ==> current == base + Concat(words[..k]);
      assert k == 0 ==> current == base + Concat(words[..k]);
      assert words[..k + 1][..k] == words[..k];
      assert Concat(words[..k + 1]) == Concat(words[..k]) + words[k];
      assert current + words[k] == base + Concat(words[..k + 1]);
      r := r[lid := current + words[k]];
      k := k + 1;
    }
    assert words[..k] == words;
  }

  /** Lines 49-54: the symbols of every training sequence of each language, in order. */
  method PhonemeSeqs(train: map<string, seq<Word>>) returns (seqs: map<string, seq<Phoneme>>)
    ensures seqs.Keys == set l | l in train && train[l] != []
    ensures forall l :: l in seqs ==> seqs[l] == Concat(train[l])
  {
    seqs := map[];
    var todo := train.Keys;
    while todo != {}
      invariant todo <= train.Keys
      invariant seqs.Keys == set l | l in train.Keys - todo && train[l] != []
      invariant forall l :: l in seqs ==> seqs[l] == Concat(train[l])
      decreases todo
    {
      var lid :| lid in todo;
      assert lid !in seqs;
      seqs := ExtendAll(seqs, lid, train[lid]);
      todo := todo - {lid};
    }
  }

  /** Lines 56-62: `phoneme_set[L] = set(phoneme_seq[L])` for every language. */
  method PhonemeSets(seqs: map<string, seq<Phoneme>>) returns (sets: map<string, set<Phoneme>>)
    ensures sets.Keys == seqs.Keys
    ensures forall l, x :: l in sets ==> (x in sets[l] <==> x in seqs[l])
  {
    sets := map[];
    var todo := seqs.Keys;
    while todo != {}
      invariant todo <= seqs.Keys
      invariant sets.Keys == seqs.Keys - todo
      invariant forall l, x :: l in sets ==> (x in sets[l] <==> x in seqs[l])
      decreases todo
    {
      var lid :| lid in todo;
      sets := sets[lid := set x | x in seqs[lid]];
      todo := todo - {lid};
    }
  }

  /** A language's phoneme set is exactly the set of symbols of its training
      sequences: every training symbol is in it, and nothing else. */
  lemma PhonemeSetExact(words: seq<Word>, vocab: set<Phoneme>)
    requires forall x :: x in vocab <==> x in Concat(words)
    ensures SymbolsWithin(words, vocab)
    ensures forall x :: x in vocab ==> exists i, j :: 0 <= i < |words| && 0 <= j < |words[i]| && words[i][j] == x
  {
    forall i, j | 0 <= i < |words| && 0 <= j < |words[i]| ensures words[i][j] in vocab {
      ConcatSymbols(words, words[i][j]);
    }
    forall x | x in vocab ensures exists i, j :: 0 <= i < |words| && 0 <= j < |words[i]| && words[i][j] == x {
      ConcatSymbols(words, x);
    }
  }

  /** A nonempty list of bracketed sequences has bigrams, and its phoneme set holds
      `'#'` and `'@'`. */
  lemma {:induction false} BracketedCorpus(words: seq<Word>)
    requires words != [] && forall i :: 0 <= i < |words| ==> Bracketed4(words[i])
    ensures PairTotal(words) > 0
    ensures WordStart in Concat(words) && WordEnd in Concat(words)
  {
    var init, last := words[..|words| - 1], words[|words| - 1];
    assert Concat(words) == Concat(init) + last;
    assert last[0] in Concat(words) && last[|last| - 1] in Concat(words);
  }

  /** End to end: the discounting model built by line 67 from a language's training
      sequences over its phoneme set (with `'$'` added, as the subclass does) passes
      `test` and gives every pair of symbols a positive probability, for any discount
      `0 < d <= 1`. */
  lemma TrainedModelsPass(lines: seq<string>, langIDs: seq<string>, l: string, vocab: set<Phoneme>, d: real)
    requires Dataset(lines, langIDs).Success? && l in Dataset(lines, langIDs).value
    requires forall x :: x in vocab <==> x in Concat(Dataset(lines, langIDs).value[l])
    requires 0.0 < d <= 1.0
    ensures var words := Dataset(lines, langIDs).value[l];
      |UnigramCounts(words)| > 0
      && TablePasses(AbsDiscTable(UnigramCounts(words), BigramCounts(words), vocab + {Unk}, d), vocab + {Unk})
      && Covered(AbsDiscTable(UnigramCounts(words), BigramCounts(words), vocab + {Unk}, d), vocab + {Unk})
  {
    var words := Dataset(lines, langIDs).value[l];
    DatasetShape(lines, langIDs);
    BracketedCorpus(words);
    PhonemeSetExact(words, vocab);
    assert SymbolsWithin(words, vocab + {Unk});
    AbsDiscModelPasses(words, vocab + {Unk}, d);
    AbsDiscCovered(words, vocab + {Unk}, d);
  }
}
