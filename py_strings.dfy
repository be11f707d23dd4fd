/** The three Python string operations `read_data` relies on: `str.strip()` with no
    argument, `str.split(sep)` with a separator and `str.split()` with none. */
module PyStrings {

  /** `str.isspace` for one character: the characters Python treats as whitespace. */
  predicate IsSpace(c: char)
  {
    var n := c as int;
    (9 <= n <= 13) || (28 <= n <= 32) || n == 133 || n == 160 || n == 5760
    || (8192 <= n <= 8202) || n == 8232 || n == 8233 || n == 8239 || n == 8287 || n == 12288
  }

  /** No character of `s` is whitespace. */
  predicate NoSpace(s: string)
  {
    forall k :: 0 <= k < |s| ==> !IsSpace(s[k])
  }

  /** `str.lstrip()`: the suffix left once the leading whitespace is removed. */
  function StripStart(s: string): (r: string)
    ensures |r| <= |s| && r == s[|s| - |r|..]
    ensures r == [] || !IsSpace(r[0])
    ensures forall k :: 0 <= k < |s| - |r| ==> IsSpace(s[k])
  {
    if s != [] && IsSpace(s[0]) then StripStart(s[1..]) else s
  }

  /** `str.rstrip()`: the prefix left once the trailing whitespace is removed. */
  function StripEnd(s: string): (r: string)
    ensures |r| <= |s| && r == s[..|r|]
    ensures r == [] || !IsSpace(r[|r| - 1])
    ensures forall k :: |r| <= k < |s| ==> IsSpace(s[k])
  {
    if s != [] && IsSpace(s[|s| - 1]) then StripEnd(s[..|s| - 1]) else s
  }

  /** `str.strip()`. */
  function Strip(s: string): (r: string)
    ensures r == [] || (!IsSpace(r[0]) && !IsSpace(r[|r| - 1]))
  {
    StripEnd(StripStart(s))
  }

  /** Whitespace around a text that neither starts nor ends with whitespace is exactly
      what `strip` removes. */
  lemma StripPadded(before: string, t: string, after: string)
    requires forall k :: 0 <= k < |before| ==> IsSpace(before[k])
    requires forall k :: 0 <= k < |after| ==> IsSpace(after[k])
    requires t == [] || (!IsSpace(t[0]) && !IsSpace(t[|t| - 1]))
    ensures Strip(before + t + after) == t
  {
    if t == [] {
      assert before + t + after == (before + after) + [];
      StripStartPadded(before + after, []);
    } else {
      assert before + t + after == before + (t + after);
      StripStartPadded(before, t + after);
      StripEndPadded(t, after);
    }
  }

  lemma {:induction false} StripStartPadded(before: string, rest: string)
    requires forall k :: 0 <= k < |before| ==> IsSpace(before[k])
    requires rest == [] || !IsSpace(rest[0])
    ensures StripStart(before + rest) == rest
  {
    if before != [] {
      assert (before + rest)[1..] == before[1..] + rest;
      StripStartPadded(before[1..], rest);
    }
  }

  lemma {:induction false} StripEndPadded(rest: string, after: string)
    requires forall k :: 0 <= k < |after| ==> IsSpace(after[k])
    requires rest == [] || !IsSpace(rest[|rest| - 1])
    ensures StripEnd(rest + after) == rest
  {
    if after != [] {
      var init := after[..|after| - 1];
      assert (rest + after)[..|rest + after| - 1] == rest + init;
      StripEndPadded(rest, init);
    } else {
      assert rest + after == rest;
    }
  }

  /** `str.split(sep)`: the fields between the occurrences of `sep`, empty ones
      included; there is always at least one. */
  function Split(s: string, sep: char): (r: seq<string>)
    ensures |r| == multiset(s)[sep] + 1
    ensures forall i :: 0 <= i < |r| ==> sep !in r[i]
  {
    if s == [] then [[]]
    else
      assert s == [s[0]] + s[1..];
      var rest := Split(s[1..], sep);
      if s[0] == sep then [[]] + rest
      else [[s[0]] + rest[0]] + rest[1..]
  }

  /** `sep.join(parts)`. */
  function Join(parts: seq<string>, sep: char): string
  {
    if |parts| == 0 then []
    else if |parts| == 1 then parts[0]
    else parts[0] + [sep] + Join(parts[1..], sep)
  }

  /** Joining the fields with the separator gives back the split text. */
  lemma {:induction false} JoinSplit(s: string, sep: char)
    ensures Join(Split(s, sep), sep) == s
  {
    if s != [] {
      var rest := Split(s[1..], sep);
      JoinSplit(s[1..], sep);
      assert s == [s[0]] + s[1..];
      if s[0] == sep {
        JoinCons([], rest, sep);
      } else {
        JoinGrowsHead(s[0], rest, sep);
      }
    }
  }

  /** Joining a first field before at least one more puts the separator between. */
  lemma JoinCons(first: string, rest: seq<string>, sep: char)
    requires |rest| >= 1
    ensures Join([first] + rest, sep) == first + [sep] + Join(rest, sep)
  {
    assert ([first] + rest)[1..] == rest;
  }

  /** Prefixing the first field with `x` prefixes the joined text with `x`. */
  lemma JoinGrowsHead(x: char, parts: seq<string>, sep: char)
    requires |parts| >= 1
    ensures Join([[x] + parts[0]] + parts[1..], sep) == [x] + Join(parts, sep)
  {
    if |parts| > 1 {
      JoinCons([x] + parts[0], parts[1..], sep);
      assert parts == [parts[0]] + parts[1..];
      JoinCons(parts[0], parts[1..], sep);
    }
  }

  /** Splitting fields free of the separator joined with it gives back the fields. */
  lemma {:induction false} SplitJoin(parts: seq<string>, sep: char)
    requires |parts| >= 1
    requires forall i :: 0 <= i < |parts| ==> sep !in parts[i]
    ensures Split(Join(parts, sep), sep) == parts
  {
    if |parts| == 1 {
      SplitFree(parts[0], sep);
    } else {
      SplitJoin(parts[1..], sep);
      SplitPrefix(parts[0], Join(parts[1..], sep), sep);
      assert [parts[0]] + parts[1..] == parts;
    }
  }

  /** A text free of the separator is one field. */
  lemma {:induction false} SplitFree(s: string, sep: char)
    requires sep !in s
    ensures Split(s, sep) == [s]
  {
    if s != [] {
      SplitFree(s[1..], sep);
      assert [s[0]] + s[1..] == s;
    }
  }

  /** A field free of the separator, the separator, then the rest: the field comes
      first and the fields of the rest follow. */
  lemma {:induction false} SplitPrefix(field: string, rest: string, sep: char)
    requires sep !in field
    ensures Split(field + [sep] + rest, sep) == [field] + Split(rest, sep)
  {
    if field == [] {
      assert field + [sep] + rest == [sep] + rest;
      assert ([sep] + rest)[1..] == rest;
    } else {
      var s := field + [sep] + rest;
      assert s[1..] == field[1..] + [sep] + rest;
      SplitPrefix(field[1..], rest, sep);
      assert [field[0]] + field[1..] == field;
    }
  }

  /** The length of the run of non-whitespace characters `s` starts with. */
  function RunLength(s: string): (n: nat)
    ensures n <= |s|
    ensures forall k :: 0 <= k < n ==> !IsSpace(s[k])
    ensures n < |s| ==> IsSpace(s[n])
  {
    if s == [] || IsSpace(s[0]) then 0 else 1 + RunLength(s[1..])
  }

  /** `str.split()`: the maximal runs of non-whitespace characters, in order. */
  function Tokens(s: string): (r: seq<string>)
    ensures forall i :: 0 <= i < |r| ==> r[i] != [] && NoSpace(r[i])
    decreases |s|
  {
    if s == [] then []
    else if IsSpace(s[0]) then Tokens(s[1..])
    else
      var n := RunLength(s);
      [s[..n]] + Tokens(s[n..])
  }

  /** A run of non-whitespace characters followed by whitespace ends where the text
      before the whitespace ends. */
  lemma {:induction false} RunLengthBeforeSpace(a: string, c: char, b: string)
    requires NoSpace(a) && IsSpace(c)
    ensures RunLength(a + [c] + b) == |a|
  {
    if a != [] {
      assert (a + [c] + b)[1..] == a[1..] + [c] + b;
      RunLengthBeforeSpace(a[1..], c, b);
    }
  }

  /** A whitespace character separates tokens: the tokens of `a`, then those of `b`. */
  lemma {:induction false} TokensSeparated(a: string, c: char, b: string)
    requires IsSpace(c)
    ensures Tokens(a + [c] + b) == Tokens(a) + Tokens(b)
    decreases |a|, 1
  {
    if a == [] {
      assert a + [c] + b == [c] + b;
      TokensAfterSpace(c, b);
    } else if IsSpace(a[0]) {
      TokensSeparatedSpace(a, c, b);
    } else {
      TokensSeparatedRun(a, c, b);
    }
  }

  /** `TokensSeparated` when `a` starts with whitespace. */
  lemma {:induction false} TokensSeparatedSpace(a: string, c: char, b: string)
    requires IsSpace(c) && a != [] && IsSpace(a[0])
    ensures Tokens(a + [c] + b) == Tokens(a) + Tokens(b)
    decreases |a|, 0
  {
    assert a + [c] + b == [a[0]] + (a[1..] + [c] + b);
    TokensAfterSpace(a[0], a[1..] + [c] + b);
    assert a == [a[0]] + a[1..];
    TokensAfterSpace(a[0], a[1..]);
    TokensSeparated(a[1..], c, b);
  }

  /** `TokensSeparated` when `a` starts with a token. */
  lemma {:induction false} TokensSeparatedRun(a: string, c: char, b: string)
    requires IsSpace(c) && a != [] && !IsSpace(a[0])
    ensures Tokens(a + [c] + b) == Tokens(a) + Tokens(b)
    decreases |a|, 0
  {
    var n := RunLength(a);
    assert Tokens(a) == [a[..n]] + Tokens(a[n..]);
    if n == |a| {
      assert a + [c] + b == a + ([c] + b);
      TokensAfterRun(a, [c] + b);
      TokensAfterSpace(c, b);
      assert a[..n] == a && a[n..] == [];
    } else {
      assert a + [c] + b == a[..n] + (a[n..] + [c] + b);
      TokensAfterRun(a[..n], a[n..] + [c] + b);
      TokensSeparated(a[n..], c, b);
    }
  }

  /** A leading whitespace character yields no token. */
  lemma TokensAfterSpace(c: char, b: string)
    requires IsSpace(c)
    ensures Tokens([c] + b) == Tokens(b)
  {
    assert ([c] + b)[1..] == b;
  }

  /** A nonempty run of non-whitespace characters followed by whitespace is the first
      token. */
  lemma TokensAfterRun(w: string, rest: string)
    requires w != [] && NoSpace(w) && rest != [] && IsSpace(rest[0])
    ensures Tokens(w + rest) == [w] + Tokens(rest)
  {
    var s := w + rest;
    assert s == w + [rest[0]] + rest[1..];
    RunLengthBeforeSpace(w, rest[0], rest[1..]);
    assert s[..|w|] == w && s[|w|..] == rest;
  }

  /** A nonempty text with no whitespace is a single token. */
  lemma TokensOfRun(w: string)
    requires w != [] && NoSpace(w)
    ensures Tokens(w) == [w]
  {
    RunLengthOfRun(w);
    assert w[..|w|] == w && w[|w|..] == [];
  }

  lemma {:induction false} RunLengthOfRun(w: string)
    requires NoSpace(w)
    ensures RunLength(w) == |w|
  {
    if w != [] {
      RunLengthOfRun(w[1..]);
    }
  }
}
