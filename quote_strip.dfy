/** The regex-based column counters (`getColCountOld` of
    benchmarks/jagged_rows_bench.js and `getColCountOriginal` of
    benchmarks/sniffer_bench.js, the same expression), the span-skipping
    `getColCountOptimized` of benchmarks/sniffer_bench.js, and how both
    relate to the quote-parity counter of the `ColumnCount` module. */
module QuoteStrip {
  import opened Strings
  import opened ColumnCount

  // ---------------------------------------------------------------------
  // `line.replace(/"[^"]*"/g, '""')` and `s.split(d).length`

  /** The regex replacement from position `i` on: each leftmost quoted span
      `"…"` becomes `""`; a quote with no later partner, and everything
      after it, is kept. */
  function StripFrom(line: string, i: nat): string
    decreases |line| - i
  {
    if i >= |line| then []
    else if line[i] != '"' then [line[i]] + StripFrom(line, i + 1)
    else
      var j := IndexOfChar(line, '"', i + 1);
      if j == -1 then line[i..] else "\"\"" + StripFrom(line, j + 1)
  }

  function StripQuoted(line: string): string
  {
    StripFrom(line, 0)
  }

  /** Non-overlapping occurrences of `d` in `s`, found left to right. */
  function Occurrences(s: string, d: string): nat
    requires |d| > 0
    decreases |s|
  {
    if |s| < |d| then 0
    else if s[..|d|] == d then 1 + Occurrences(s[|d|..], d)
    else Occurrences(s[1..], d)
  }

  /** `s.split(d).length` in JavaScript: pieces between non-overlapping
      occurrences, or one piece per character for the empty separator. */
  function SplitCount(s: string, d: string): nat
  {
    if d == [] then |s| else 1 + Occurrences(s, d)
  }

  /** `getColCountOld` / `getColCountOriginal`: strip the quoted spans,
      then count the split pieces. */
  function StripCount(line: string, d: string): nat
  {
    SplitCount(StripQuoted(line), d)
  }

  predicate QuoteFree(d: string)
  {
    '"' !in d
  }

  // ---------------------------------------------------------------------
  // Facts about stripping and splitting

  /** For a one-character separator, `SplitCount` agrees with the piece
      list of `Strings.Split`. */
  lemma {:induction false} OccurrencesChar(s: string, c: char)
    ensures Occurrences(s, [c]) == CountChar(s, c)
    decreases |s|
  {
    if s != [] {
      OccurrencesChar(s[1..], c);
      assert s[..1] == [s[0]];
    }
  }

  lemma {:induction false} SplitCountChar(s: string, c: char)
    ensures SplitCount(s, [c]) == |Split(s, c)|
  {
    OccurrencesChar(s, c);
    SplitLength(s, c);
  }

  /** A quote-free delimiter never starts at a quote. */
  lemma {:induction false} OccurrencesSkipQuote(s: string, d: string)
    requires |d| > 0 && QuoteFree(d)
    requires s != [] && s[0] == '"'
    ensures Occurrences(s, d) == Occurrences(s[1..], d)
  {
    if |s| >= |d| {
      assert s[..|d|][0] == '"';
    }
  }

  /** Where `d` does not start, the count moves on by one character. */
  lemma {:induction false} OccurrencesSkip(s: string, d: string)
    requires |d| > 0 && s != []
    requires !StartsWith(s, d)
    ensures Occurrences(s, d) == Occurrences(s[1..], d)
  {
  }

  lemma {:induction false} OccurrencesFound(d: string, r: string)
    requires |d| > 0
    ensures Occurrences(d + r, d) == 1 + Occurrences(r, d)
  {
    assert (d + r)[..|d|] == d;
    assert (d + r)[|d|..] == r;
  }

  /** With no quote left, the replacement changes nothing. */
  lemma {:induction false} StripNoQuote(line: string, i: nat)
    requires i <= |line|
    requires forall k :: i <= k < |line| ==> line[k] != '"'
    ensures StripFrom(line, i) == line[i..]
    decreases |line| - i
  {
    if i < |line| {
      StripNoQuote(line, i + 1);
      assert line[i..] == [line[i]] + line[i + 1..];
    }
  }

  lemma {:induction false} StripQuoteFreeLine(line: string)
    requires '"' !in line
    ensures StripQuoted(line) == line
  {
    StripNoQuote(line, 0);
  }

  /** A character other than a quote is copied through. */
  lemma {:induction false} StripPlain(line: string, i: nat)
    requires i < |line| && line[i] != '"'
    ensures StripFrom(line, i) == [line[i]] + StripFrom(line, i + 1)
  {
  }

  /** A quote-free run is copied through unchanged. */
  lemma {:induction false} StripRun(line: string, i: nat, m: nat)
    requires i + m <= |line|
    requires forall k :: i <= k < i + m ==> line[k] != '"'
    ensures StripFrom(line, i) == line[i..i + m] + StripFrom(line, i + m)
    decreases m
  {
    if m > 0 {
      assert line[i] != '"';
      StripPlain(line, i);
      StripRun(line, i + 1, m - 1);
      var rest := StripFrom(line, i + m);
      assert line[i..i + m] == [line[i]] + line[i + 1..i + m];
      calc {
        StripFrom(line, i);
        [line[i]] + StripFrom(line, i + 1);
        [line[i]] + (line[i + 1..i + m] + rest);
        ([line[i]] + line[i + 1..i + m]) + rest;
      }
    }
  }

  /** An occurrence of a quote-free delimiter holds no quote. */
  lemma {:induction false} DelimiterRun(line: string, d: string, i: nat)
    requires QuoteFree(d) && StartsAt(line, d, i)
    ensures forall k :: i <= k < i + |d| ==> line[k] != '"'
  {
    forall k | i <= k < i + |d| ensures line[k] != '"' {
      assert line[k] == line[i..i + |d|][k - i];
    }
  }

  /** After a quote, the stripped text starts with a quote. */
  lemma {:induction false} StripAtQuote(line: string, i: nat)
    requires i < |line| && line[i] == '"'
    ensures StripFrom(line, i) != [] && StripFrom(line, i)[0] == '"'
  {
  }

  /** A quote-free `d` starts the stripped text at `i` exactly when it
      starts the line at `i`. */
  lemma {:induction false} StripStartsWith(line: string, i: nat, d: string)
    requires QuoteFree(d) && i <= |line|
    ensures StartsWith(StripFrom(line, i), d) <==> StartsAt(line, d, i)
    decreases |d|
  {
    if d == [] {
    } else if i >= |line| {
    } else if line[i] == '"' {
      StripAtQuote(line, i);
    } else {
      var r := StripFrom(line, i + 1);
      StripPlain(line, i);
      StripStartsWith(line, i + 1, d[1..]);
      ConsStartsWith(line[i], r, d);
      StartsAtCons(line, d, i);
    }
  }

  /** `[x] + r` starts with a non-empty `d` exactly when `x` is its first
      character and `r` starts with the rest. */
  lemma {:induction false} ConsStartsWith(x: char, r: string, d: string)
    requires d != []
    ensures StartsWith([x] + r, d) <==> x == d[0] && StartsWith(r, d[1..])
  {
    if StartsWith([x] + r, d) {
      assert ([x] + r)[..|d|] == [x] + r[..|d| - 1];
      assert d == [d[0]] + d[1..];
    }
    if x == d[0] && StartsWith(r, d[1..]) {
      assert ([x] + r)[..|d|] == [x] + r[..|d| - 1];
      assert d == [d[0]] + d[1..];
    }
  }

  /** A non-empty `d` starts at `i` exactly when its first character is
      there and the rest starts at `i + 1`. */
  lemma {:induction false} StartsAtCons(line: string, d: string, i: nat)
    requires d != [] && i < |line|
    ensures StartsAt(line, d, i) <==> line[i] == d[0] && StartsAt(line, d[1..], i + 1)
  {
    if i + |d| <= |line| {
      assert line[i..i + |d|] == [line[i]] + line[i + 1..i + |d|];
      assert d == [d[0]] + d[1..];
    }
  }

  // ---------------------------------------------------------------------
  // The regex counter against the quote-parity counter

  /** The text that an unpaired quote leaves to be read as plain text:
      what follows the first quote, from `i` on, that pairing quotes left
      to right leaves without a partner. */
  function DanglingFrom(line: string, i: nat): string
    decreases |line| - i
  {
    if i >= |line| then []
    else if line[i] != '"' then DanglingFrom(line, i + 1)
    else
      var j := IndexOfChar(line, '"', i + 1);
      if j == -1 then line[i + 1..] else DanglingFrom(line, j + 1)
  }

  function Dangling(line: string): string
  {
    DanglingFrom(line, 0)
  }

  /** Number of quotes in `line[i..]`. */
  function QuotesFrom(line: string, i: nat): nat
    decreases |line| - i
  {
    if i >= |line| then 0 else (if line[i] == '"' then 1 else 0) + QuotesFrom(line, i + 1)
  }

  lemma {:induction false} QuotesFromCount(line: string, i: nat)
    requires i <= |line|
    ensures QuotesFrom(line, i) == CountChar(line[i..], '"')
    decreases |line| - i
  {
    if i < |line| {
      QuotesFromCount(line, i + 1);
      assert line[i..][1..] == line[i + 1..];
    }
  }

  lemma {:induction false} QuotesFromSkip(line: string, i: nat, j: nat)
    requires i <= j <= |line|
    requires forall k :: i <= k < j ==> line[k] != '"'
    ensures QuotesFrom(line, i) == QuotesFrom(line, j)
    decreases j - i
  {
    if i < j {
      QuotesFromSkip(line, i + 1, j);
    }
  }

  /** With an even number of quotes from `i` on, nothing dangles. */
  lemma {:induction false} DanglingEven(line: string, i: nat)
    requires i <= |line| && QuotesFrom(line, i) % 2 == 0
    ensures DanglingFrom(line, i) == []
    decreases |line| - i
  {
    if i < |line| {
      if line[i] != '"' {
        DanglingEven(line, i + 1);
      } else {
        var j := IndexOfChar(line, '"', i + 1);
        if j == -1 {
          QuotesFromSkip(line, i + 1, |line|);
        } else {
          QuotesFromSkip(line, i + 1, j);
          DanglingEven(line, j + 1);
        }
      }
    }
  }

  /** With an odd number, what dangles is the quote-free text after the
      last quote of the line. */
  lemma {:induction false} DanglingOdd(line: string, i: nat)
    requires i <= |line| && QuotesFrom(line, i) % 2 == 1
    ensures var t := DanglingFrom(line, i);
      |t| < |line| - i && t == line[|line| - |t|..] &&
      line[|line| - |t| - 1] == '"' && '"' !in t
    decreases |line| - i
  {
    if line[i] != '"' {
      DanglingOdd(line, i + 1);
    } else {
      var j := IndexOfChar(line, '"', i + 1);
      if j == -1 {
        assert DanglingFrom(line, i) == line[i + 1..];
        assert |line| - |line[i + 1..]| == i + 1;
        var t := line[i + 1..];
        forall k | 0 <= k < |t| ensures t[k] != '"' {
          assert t[k] == line[i + 1 + k];
        }
      } else {
        QuotesFromSkip(line, i + 1, j);
        DanglingOdd(line, j + 1);
      }
    }
  }

  /** The invariant of the comparison, from an even-parity position `i`. */
  lemma {:induction false} StripVersusHits(line: string, c: char, i: nat)
    requires c != '"' && i <= |line|
    requires CharsBelow(line, '"', i) % 2 == 0
    ensures Occurrences(StripFrom(line, i), [c]) + HitsBelow(line, [c], i) ==
      HitsBelow(line, [c], |line|) + CountChar(DanglingFrom(line, i), c)
    decreases |line| - i
  {
    if i < |line| {
      if line[i] != '"' {
        assert CharsBelow(line, '"', i + 1) == CharsBelow(line, '"', i);
        StripVersusHits(line, c, i + 1);
        PlainStep(line, c, i);
      } else {
        var j := IndexOfChar(line, '"', i + 1);
        if j == -1 {
          UnclosedStep(line, c, i);
        } else {
          PairedParity(line, c, i, j);
          StripVersusHits(line, c, j + 1);
          PairedStep(line, c, i, j);
        }
      }
    }
  }

  /** A character other than a quote is copied, and counts on both sides
      exactly when it is the delimiter. */
  lemma {:induction false} PlainStep(line: string, c: char, i: nat)
    requires c != '"' && i < |line| && line[i] != '"'
    requires CharsBelow(line, '"', i) % 2 == 0
    requires Occurrences(StripFrom(line, i + 1), [c]) + HitsBelow(line, [c], i + 1) ==
      HitsBelow(line, [c], |line|) + CountChar(DanglingFrom(line, i + 1), c)
    ensures Occurrences(StripFrom(line, i), [c]) + HitsBelow(line, [c], i) ==
      HitsBelow(line, [c], |line|) + CountChar(DanglingFrom(line, i), c)
  {
    var r := StripFrom(line, i + 1);
    StripPlain(line, i);
    assert ([line[i]] + r)[1..] == r;
    assert DanglingFrom(line, i) == DanglingFrom(line, i + 1);
    SingleCharHit(line, c, i);
    if line[i] == c {
      OccurrencesFound([c], r);
      assert HitsBelow(line, [c], i + 1) == HitsBelow(line, [c], i) + 1;
    } else {
      assert !StartsWith([line[i]] + r, [c]);
      OccurrencesSkip([line[i]] + r, [c]);
      assert HitsBelow(line, [c], i + 1) == HitsBelow(line, [c], i);
    }
  }

  /** A quote with no partner: the rest is kept as it is and counted as
      dangling, while the toggle counter counts nothing more. */
  lemma {:induction false} UnclosedStep(line: string, c: char, i: nat)
    requires c != '"' && i < |line| && line[i] == '"'
    requires CharsBelow(line, '"', i) % 2 == 0
    requires IndexOfChar(line, '"', i + 1) == -1
    ensures Occurrences(StripFrom(line, i), [c]) + HitsBelow(line, [c], i) ==
      HitsBelow(line, [c], |line|) + CountChar(DanglingFrom(line, i), c)
  {
    SingleCharHit(line, c, i);
    assert HitsBelow(line, [c], i + 1) == HitsBelow(line, [c], i);
    assert StripFrom(line, i) == line[i..];
    assert DanglingFrom(line, i) == line[i + 1..];
    QuotedStretch(line, [c], i + 1, |line|);
    OccurrencesSkipQuote(line[i..], [c]);
    assert line[i..][1..] == line[i + 1..];
    OccurrencesChar(line[i + 1..], c);
  }

  /** The quotes at `i` and its partner `j` leave the parity even past `j`. */
  lemma {:induction false} PairedParity(line: string, c: char, i: nat, j: int)
    requires c != '"' && i < |line| && line[i] == '"'
    requires CharsBelow(line, '"', i) % 2 == 0
    requires j == IndexOfChar(line, '"', i + 1) && j != -1
    ensures i < j < |line| && CharsBelow(line, '"', j + 1) % 2 == 0
    ensures HitsBelow(line, [c], j + 1) == HitsBelow(line, [c], i)
  {
    SingleCharHit(line, c, i);
    assert HitsBelow(line, [c], i + 1) == HitsBelow(line, [c], i);
    StepOutOfQuote(line, [c], i + 1, j);
    EvenPlus(CharsBelow(line, '"', i), 2);
  }

  /** A paired span becomes `""`, which holds no delimiter. */
  lemma {:induction false} PairedStep(line: string, c: char, i: nat, j: int)
    requires c != '"' && i < |line| && line[i] == '"'
    requires j == IndexOfChar(line, '"', i + 1) && i < j < |line|
    requires HitsBelow(line, [c], j + 1) == HitsBelow(line, [c], i)
    requires Occurrences(StripFrom(line, j + 1), [c]) + HitsBelow(line, [c], j + 1) ==
      HitsBelow(line, [c], |line|) + CountChar(DanglingFrom(line, j + 1), c)
    ensures Occurrences(StripFrom(line, i), [c]) + HitsBelow(line, [c], i) ==
      HitsBelow(line, [c], |line|) + CountChar(DanglingFrom(line, i), c)
  {
    StripAtPair(line, i, j);
    DanglingAtPair(line, i, j);
    EmptyPairSkipped(StripFrom(line, j + 1), c);
  }

  /** A quote at `i` paired with the next quote `j` becomes `""`. */
  lemma {:induction false} StripAtPair(line: string, i: nat, j: int)
    requires i < |line| && line[i] == '"'
    requires j == IndexOfChar(line, '"', i + 1) && i < j < |line|
    ensures StripFrom(line, i) == "\"\"" + StripFrom(line, j + 1)
  {
  }

  /** Nothing dangles from a paired span. */
  lemma {:induction false} DanglingAtPair(line: string, i: nat, j: int)
    requires i < |line| && line[i] == '"'
    requires j == IndexOfChar(line, '"', i + 1) && i < j < |line|
    ensures DanglingFrom(line, i) == DanglingFrom(line, j + 1)
  {
  }

  /** The `""` a quoted span becomes holds no one-character delimiter. */
  lemma {:induction false} EmptyPairSkipped(r: string, c: char)
    requires c != '"'
    ensures Occurrences("\"\"" + r, [c]) == Occurrences(r, [c])
  {
    OccurrencesSkipQuote("\"\"" + r, [c]);
    assert ("\"\"" + r)[1..] == "\"" + r;
    OccurrencesSkipQuote("\"" + r, [c]);
    assert ("\"" + r)[1..] == r;
  }

  /** `getColCountOld` counts every column the toggle counter counts, plus
      one per delimiter after an unpaired quote. */
  lemma {:induction false} StripCountVersusColCount(line: string, c: char)
    requires c != '"'
    ensures StripCount(line, [c]) == ColCount(line, [c]) + CountChar(Dangling(line), c)
  {
    StripVersusHits(line, c, 0);
  }

  /** With an even number of quotes the two counters agree. */
  lemma {:induction false} EvenQuotesAgree(line: string, c: char)
    requires c != '"' && CountChar(line, '"') % 2 == 0
    ensures StripCount(line, [c]) == ColCount(line, [c])
  {
    StripCountVersusColCount(line, c);
    QuotesFromCount(line, 0);
    assert line[0..] == line;
    DanglingEven(line, 0);
  }

  /** Quote-free text adds nothing to what dangles. */
  lemma {:induction false} DanglingSkip(line: string, i: nat, j: nat)
    requires i <= j <= |line|
    requires forall k :: i <= k < j ==> line[k] != '"'
    ensures DanglingFrom(line, i) == DanglingFrom(line, j)
    decreases j - i
  {
    if i < j {
      DanglingSkip(line, i + 1, j);
    }
  }

  /** A line with a single quote leaves everything after it dangling. */
  lemma {:induction false} OneQuoteDangling(a: string, t: string)
    requires QuoteFree(a) && QuoteFree(t)
    ensures Dangling(a + "\"" + t) == t
  {
    var line := a + "\"" + t;
    forall k | 0 <= k < |a|
      ensures line[k] != '"'
    {
      assert line[k] == a[k];
    }
    forall k | |a| < k < |line|
      ensures line[k] != '"'
    {
      assert line[k] == t[k - |a| - 1];
    }
    DanglingSkip(line, 0, |a|);
    var j := IndexOfChar(line, '"', |a| + 1);
    assert j == -1;
    assert line[|a| + 1..] == t;
  }

  /** One `c` between two stretches free of it. */
  lemma {:induction false} CountAround(x: string, y: string, c: char)
    requires c !in x && c !in y
    ensures CountChar(x + [c] + y, c) == 1
  {
    CountCharZero(x, c);
    CountCharZero(y, c);
    CountCharAppend(x, [c], c);
    CountCharAppend(x + [c], y, c);
    assert CountChar([c], c) == 1 + CountChar([], c);
  }

  /** The unbalanced-quote fixtures of benchmarks/jagged_rows_bench.js:
      the regex counter gives 3 where the toggle counter gives 2 and 1. */
  lemma {:induction false} FixtureOldUnclosedQuote(line: string)
    requires line == "val1,\"broken,val2"
    ensures StripCount(line, ",") == 3
  {
    var a, t := "val1,", "broken,val2";
    UnclosedPieces(a, t);
    OneQuoteDangling(a, t);
    StripCountVersusColCount(line, ',');
    FixtureUnclosedQuote();
  }

  lemma {:induction false} UnclosedPieces(a: string, t: string)
    requires a == "val1," && t == "broken,val2"
    ensures QuoteFree(a) && QuoteFree(t) && CountChar(t, ',') == 1
    ensures a + "\"" + t == "val1,\"broken,val2"
  {
    assert "broken" + [','] + "val2" == t;
    CountAround("broken", "val2", ',');
  }

  lemma {:induction false} FixtureOldStrayQuote(line: string)
    requires line == "broken\",val2,val3"
    ensures StripCount(line, ",") == 3
  {
    var a, t := "broken", ",val2,val3";
    StrayPieces(a, t);
    OneQuoteDangling(a, t);
    StripCountVersusColCount(line, ',');
    FixtureStrayQuote();
  }

  lemma {:induction false} StrayPieces(a: string, t: string)
    requires a == "broken" && t == ",val2,val3"
    ensures QuoteFree(a) && QuoteFree(t) && CountChar(t, ',') == 2
    ensures a + "\"" + t == "broken\",val2,val3"
  {
    assert "" + [','] + "val2" == ",val2";
    assert "" + [','] + "val3" == ",val3";
    assert ",val2" + ",val3" == t;
    CountAround("", "val2", ',');
    CountAround("", "val3", ',');
    CountCharAppend(",val2", ",val3", ',');
  }

  /** Multi-character delimiters: the split-based counters count
      non-overlapping occurrences, while the shipped `getColCount` resumes
      one character after each delimiter start and so also counts
      overlapping ones. */
  lemma {:induction false} MultiCharDelimiter(s: string)
    requires s == "a:::b"
    ensures StripCount(s, "::") == 2
    ensures ColCount(s, "::") == 3
  {
    MultiCharSplit(s);
    MultiCharHits(s);
  }

  lemma {:induction false} MultiCharSplit(s: string)
    requires s == "a:::b"
    ensures Occurrences(StripQuoted(s), "::") == 1
  {
    StripQuoteFreeLine(s);
    assert s[..2][0] == 'a';
    OccurrencesSkip(s, "::");
    assert s[1..] == "::" + ":b";
    OccurrencesFound("::", ":b");
    assert ":b"[..2][1] == 'b';
    assert ":b"[1..] == "b";
  }

  lemma {:induction false} MultiCharHits(s: string)
    requires s == "a:::b"
    ensures HitsBelow(s, "::", |s|) == 2
  {
    CharsUnchanged(s, '"', 0, 1);
    CharsUnchanged(s, '"', 0, 2);
    assert s[0..2][0] == 'a' && s[3..5][1] == 'b';
    assert s[1..3] == "::" && s[2..4] == "::";
    assert !IsHit(s, "::", 0) && IsHit(s, "::", 1) && IsHit(s, "::", 2);
    assert !IsHit(s, "::", 3) && !IsHit(s, "::", 4);
    assert HitsBelow(s, "::", 1) == 0;
    assert HitsBelow(s, "::", 3) == 2;
  }

  // ---------------------------------------------------------------------
  // `getColCountOptimized`

  /** Skipping a closed span `"…"` skips its `""` in the stripped text. */
  lemma {:induction false} SkipClosedSpan(line: string, d: string, i: nat)
    requires |d| > 0 && QuoteFree(d)
    requires i < |line| && line[i] == '"' && IndexOfChar(line, '"', i + 1) != -1
    ensures Occurrences(StripFrom(line, i), d) ==
      Occurrences(StripFrom(line, IndexOfChar(line, '"', i + 1) + 1), d)
  {
    var j := IndexOfChar(line, '"', i + 1);
    StripAtPair(line, i, j);
    PairNoOccurrence(StripFrom(line, j + 1), d);
  }

  /** The `""` a quoted span becomes holds no quote-free delimiter. */
  lemma {:induction false} PairNoOccurrence(r: string, d: string)
    requires |d| > 0 && QuoteFree(d)
    ensures Occurrences("\"\"" + r, d) == Occurrences(r, d)
  {
    OccurrencesSkipQuote("\"\"" + r, d);
    assert ("\"\"" + r)[1..] == "\"" + r;
    OccurrencesSkipQuote("\"" + r, d);
    assert ("\"" + r)[1..] == r;
  }

  /** An unclosed quote is passed over like an ordinary character that
      starts no delimiter. */
  lemma {:induction false} PassUnclosedQuote(line: string, d: string, i: nat)
    requires |d| > 0 && QuoteFree(d)
    requires i < |line| && line[i] == '"' && IndexOfChar(line, '"', i + 1) == -1
    ensures !StartsAt(line, d, i)
    ensures Occurrences(StripFrom(line, i), d) == Occurrences(StripFrom(line, i + 1), d)
  {
    StripNoQuote(line, i + 1);
    OccurrencesSkipQuote(line[i..], d);
    assert line[i..][1..] == line[i + 1..];
    assert d[0] != '"';
  }

  /** A delimiter outside all spans is one occurrence in the stripped text. */
  lemma {:induction false} PassDelimiter(line: string, d: string, i: nat)
    requires |d| > 0 && QuoteFree(d)
    requires StartsAt(line, d, i)
    ensures Occurrences(StripFrom(line, i), d) == 1 + Occurrences(StripFrom(line, i + |d|), d)
  {
    DelimiterRun(line, d, i);
    StripRun(line, i, |d|);
    OccurrencesFound(d, StripFrom(line, i + |d|));
  }

  /** Any other character is copied and starts no occurrence. */
  lemma {:induction false} PassPlain(line: string, d: string, i: nat)
    requires |d| > 0 && QuoteFree(d)
    requires i < |line| && line[i] != '"' && !StartsAt(line, d, i)
    ensures Occurrences(StripFrom(line, i), d) == Occurrences(StripFrom(line, i + 1), d)
  {
    StripStartsWith(line, i, d);
    var r := StripFrom(line, i + 1);
    StripPlain(line, i);
    OccurrencesSkip([line[i]] + r, d);
    assert ([line[i]] + r)[1..] == r;
  }

  /** The delimiters the span-skipping scan counts from `i` on, one scan
      step per call. */
  ghost function SkipFrom(line: string, d: string, i: nat): nat
    requires |d| > 0
    decreases |line| - i
  {
    if i >= |line| then 0
    else if line[i] == '"' && IndexOfChar(line, '"', i + 1) != -1 then
      SkipFrom(line, d, IndexOfChar(line, '"', i + 1) + 1)
    else if |d| == 1 then (if line[i] == d[0] then 1 else 0) + SkipFrom(line, d, i + 1)
    else if StartsAt(line, d, i) then 1 + SkipFrom(line, d, i + |d|)
    else SkipFrom(line, d, i + 1)
  }

  /** A quote with a closing partner skips to just after the partner. */
  lemma {:induction false} SkipSpanStep(line: string, d: string, i: nat)
    requires |d| > 0 && i < |line| && line[i] == '"' && IndexOfChar(line, '"', i + 1) != -1
    ensures SkipFrom(line, d, i) == SkipFrom(line, d, IndexOfChar(line, '"', i + 1) + 1)
  {
  }

  /** Any other character is compared with the delimiter, or the
      delimiter is matched at it. */
  lemma {:induction false} SkipCharStep(line: string, d: string, i: nat)
    requires |d| > 0 && i < |line| && !(line[i] == '"' && IndexOfChar(line, '"', i + 1) != -1)
    ensures |d| == 1 ==> SkipFrom(line, d, i) == (if line[i] == d[0] then 1 else 0) + SkipFrom(line, d, i + 1)
    ensures |d| > 1 && StartsAt(line, d, i) ==> SkipFrom(line, d, i) == 1 + SkipFrom(line, d, i + |d|)
    ensures |d| > 1 && !StartsAt(line, d, i) ==> SkipFrom(line, d, i) == SkipFrom(line, d, i + 1)
  {
  }

  /** For a quote-free delimiter the scan counts exactly the occurrences
      left in the stripped text. */
  lemma {:induction false} SkipFromStrip(line: string, d: string, i: nat)
    requires |d| > 0 && QuoteFree(d)
    ensures SkipFrom(line, d, i) == Occurrences(StripFrom(line, i), d)
    decreases |line| - i, 1
  {
    if i < |line| {
      if line[i] == '"' {
        SkipFromStripAtQuote(line, d, i);
      } else {
        SkipFromStripElsewhere(line, d, i);
      }
    }
  }

  lemma {:induction false} SkipFromStripAtQuote(line: string, d: string, i: nat)
    requires |d| > 0 && QuoteFree(d)
    requires i < |line| && line[i] == '"'
    ensures SkipFrom(line, d, i) == Occurrences(StripFrom(line, i), d)
    decreases |line| - i, 0
  {
    var j := IndexOfChar(line, '"', i + 1);
    if j != -1 {
      SkipClosedSpan(line, d, i);
      SkipFromStrip(line, d, j + 1);
    } else {
      PassUnclosedQuote(line, d, i);
      if |d| == 1 {
        assert d[0] != line[i];
      }
      SkipFromStrip(line, d, i + 1);
    }
  }

  lemma {:induction false} SkipFromStripElsewhere(line: string, d: string, i: nat)
    requires |d| > 0 && QuoteFree(d)
    requires i < |line| && line[i] != '"'
    ensures SkipFrom(line, d, i) == Occurrences(StripFrom(line, i), d)
    decreases |line| - i, 0
  {
    if |d| == 1 {
      StartsAtChar(line, d[0], i);
      assert d == [d[0]];
    }
    if StartsAt(line, d, i) {
      PassDelimiter(line, d, i);
      SkipFromStrip(line, d, i + |d|);
    } else {
      PassPlain(line, d, i);
      SkipFromStrip(line, d, i + 1);
    }
  }

  /** `getColCountOptimized` of benchmarks/sniffer_bench.js: a quote with a
      closing partner skips the whole span; an unclosed quote is read as
      an ordinary character; a multi-character delimiter is stepped over. */
  method SpanSkipCount(line: string, delimiter: string) returns (count: nat)
    requires |delimiter| > 0
    ensures count >= 1
    ensures QuoteFree(delimiter) ==> count == StripCount(line, delimiter)
  {
    if |line| == 0 {
      return 1;
    }
    count := 1;
    var i := 0;
    var delimLen := |delimiter|;
    var isSingleChar := delimLen == 1;
    while i < |line|
      invariant 0 <= i <= |line| && count >= 1
      invariant count + SkipFrom(line, delimiter, i) == 1 + SkipFrom(line, delimiter, 0)
      decreases |line| - i
    {
      var ch := line[i];
      if ch == '"' {
        // fast-forward to the closing quote
        var closingIndex := IndexOfChar(line, '"', i + 1);
        if closingIndex != -1 {
          SkipSpanStep(line, delimiter, i);
          i := closingIndex + 1;
          continue;
        }
      }
      SkipCharStep(line, delimiter, i);
      if isSingleChar {
        if ch == delimiter[0] {
          count := count + 1;
        }
      } else {
        if StartsAt(line, delimiter, i) {
          count := count + 1;
          i := i + delimLen - 1;
        }
      }
      i := i + 1;
    }
    if QuoteFree(delimiter) {
      SkipFromStrip(line, delimiter, 0);
    }
  }
}
