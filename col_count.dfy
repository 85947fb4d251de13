/** Quote-aware column counting: the specification every counter is
    proved against, the shipped index-jumping `getColCount` of
    src/lib/sniffer.ts, and the two reference counters of
    benchmarks/sniffer_loop_bench.js and benchmarks/jagged_rows_bench.js. */
module ColumnCount {
  import opened Strings

  // ---------------------------------------------------------------------
  // Specification

  /** Number of occurrences of `c` in `line[..i]`. */
  function CharsBelow(line: string, c: char, i: nat): nat
    requires i <= |line|
  {
    if i == 0 then 0 else CharsBelow(line, c, i - 1) + (if line[i - 1] == c then 1 else 0)
  }

  /** A delimiter at `p` counts: the delimiter starts there, the character
      there is not a quote, and an even number of quotes precede it. */
  predicate IsHit(line: string, d: string, p: nat)
  {
    p < |line| && StartsAt(line, d, p) && line[p] != '"' && CharsBelow(line, '"', p) % 2 == 0
  }

  /** Number of counted delimiter positions below `i`. */
  function HitsBelow(line: string, d: string, i: nat): nat
    requires i <= |line|
  {
    if i == 0 then 0 else HitsBelow(line, d, i - 1) + (if IsHit(line, d, i - 1) then 1 else 0)
  }

  /** The column count of a line: one more than the counted delimiters. */
  function ColCount(line: string, d: string): nat
  {
    1 + HitsBelow(line, d, |line|)
  }

  // ---------------------------------------------------------------------
  // Facts about the specification

  lemma {:induction false} CharsBelowCount(line: string, c: char, i: nat)
    requires i <= |line|
    ensures CharsBelow(line, c, i) == CountChar(line[..i], c)
  {
    if i > 0 {
      CharsBelowCount(line, c, i - 1);
      assert line[..i] == line[..i - 1] + [line[i - 1]];
      CountCharAppend(line[..i - 1], [line[i - 1]], c);
    }
  }

  /** No `c` in `line[i..j]` leaves the count unchanged. */
  lemma {:induction false} CharsUnchanged(line: string, c: char, i: nat, j: nat)
    requires i <= j <= |line|
    requires forall k :: i <= k < j ==> line[k] != c
    ensures CharsBelow(line, c, j) == CharsBelow(line, c, i)
    decreases j - i
  {
    if i < j {
      CharsUnchanged(line, c, i, j - 1);
    }
  }

  /** No hit in `line[i..j]` leaves the hit count unchanged. */
  lemma {:induction false} HitsUnchanged(line: string, d: string, i: nat, j: nat)
    requires i <= j <= |line|
    requires forall k :: i <= k < j ==> !IsHit(line, d, k)
    ensures HitsBelow(line, d, j) == HitsBelow(line, d, i)
    decreases j - i
  {
    if i < j {
      HitsUnchanged(line, d, i, j - 1);
    }
  }

  /** Inside an open quote (odd count before `i`) and up to the next
      quote `q`, nothing counts. */
  lemma {:induction false} QuotedStretch(line: string, d: string, i: nat, q: nat)
    requires i <= q <= |line|
    requires CharsBelow(line, '"', i) % 2 == 1
    requires forall k :: i <= k < q ==> line[k] != '"'
    ensures HitsBelow(line, d, q) == HitsBelow(line, d, i)
  {
    forall k | i <= k < q ensures !IsHit(line, d, k) {
      CharsUnchanged(line, '"', i, k);
    }
    HitsUnchanged(line, d, i, q);
  }

  /** Every counted delimiter position is a delimiter character, so a line
      has at most one column more than it has delimiter characters. */
  lemma {:induction false} HitsBelowChars(line: string, c: char, i: nat)
    requires i <= |line|
    ensures HitsBelow(line, [c], i) <= CharsBelow(line, c, i)
  {
    if i > 0 {
      HitsBelowChars(line, c, i - 1);
      if IsHit(line, [c], i - 1) {
        assert line[i - 1..i][0] == line[i - 1];
      }
    }
  }

  lemma {:induction false} ColCountBounds(line: string, c: char)
    ensures 1 <= ColCount(line, [c]) <= 1 + CountChar(line, c)
  {
    HitsBelowChars(line, c, |line|);
    CharsBelowCount(line, c, |line|);
    assert line[..|line|] == line;
  }

  /** The empty line has one column. */
  lemma {:induction false} EmptyLineOneColumn(d: string)
    ensures ColCount([], d) == 1
  {
  }

  /** A delimiter preceded by an odd number of quotes is never counted:
      appending text after an unclosed quote adds no column. */
  lemma {:induction false} OddQuotesNeverCount(line: string, d: string, p: nat)
    requires p < |line| && CharsBelow(line, '"', p) % 2 == 1
    ensures !IsHit(line, d, p)
  {
  }

  /** Counting is compositional over a prefix that closes all its quotes. */
  lemma {:induction false} CharsPrefix(a: string, b: string, c: char, i: nat)
    requires i <= |a|
    ensures CharsBelow(a + b, c, i) == CharsBelow(a, c, i)
  {
    if i > 0 {
      CharsPrefix(a, b, c, i - 1);
      assert (a + b)[i - 1] == a[i - 1];
    }
  }

  lemma {:induction false} CharsBelowConcat(a: string, b: string, c: char, k: nat)
    requires k <= |b|
    ensures CharsBelow(a + b, c, |a| + k) == CharsBelow(a, c, |a|) + CharsBelow(b, c, k)
  {
    if k == 0 {
      CharsPrefix(a, b, c, |a|);
    } else {
      CharsBelowConcat(a, b, c, k - 1);
      assert (a + b)[|a| + k - 1] == b[k - 1];
    }
  }

  /** For a one-character delimiter a hit is a delimiter character
      outside quotes. */
  lemma {:induction false} SingleCharHit(line: string, c: char, p: nat)
    requires p < |line|
    ensures IsHit(line, [c], p) <==>
      line[p] == c && c != '"' && CharsBelow(line, '"', p) % 2 == 0
  {
    assert StartsAt(line, [c], p) <==> line[p] == c by {
      if p + 1 <= |line| {
        assert line[p..p + 1] == [line[p]];
      }
    }
  }

  lemma {:induction false} HitsPrefix(a: string, b: string, c: char, i: nat)
    requires i <= |a|
    ensures HitsBelow(a + b, [c], i) == HitsBelow(a, [c], i)
  {
    if i > 0 {
      HitsPrefix(a, b, c, i - 1);
      CharsPrefix(a, b, '"', i - 1);
      SingleCharHit(a + b, c, i - 1);
      SingleCharHit(a, c, i - 1);
      assert (a + b)[i - 1] == a[i - 1];
    }
  }

  /** Past a prefix with an even number of quotes, a position of `b`
      counts in `a + b` exactly when it counts in `b`. */
  lemma {:induction false} HitShift(a: string, b: string, c: char, k: nat)
    requires k < |b|
    requires CharsBelow(a, '"', |a|) % 2 == 0
    ensures IsHit(a + b, [c], |a| + k) == IsHit(b, [c], k)
  {
    ParityShift(a, b, k);
    HitSameParity(a + b, b, c, |a| + k, k);
  }

  /** Past a prefix with an even number of quotes the quote parity is that
      of the suffix alone. */
  lemma {:induction false} ParityShift(a: string, b: string, k: nat)
    requires k < |b|
    requires CharsBelow(a, '"', |a|) % 2 == 0
    ensures CharsBelow(a + b, '"', |a| + k) % 2 == CharsBelow(b, '"', k) % 2
    ensures (a + b)[|a| + k] == b[k]
  {
    CharsBelowConcat(a, b, '"', k);
    EvenPlus(CharsBelow(a, '"', |a|), CharsBelow(b, '"', k));
  }

  /** Positions holding the same character under the same quote parity
      count alike. */
  lemma {:induction false} HitSameParity(s: string, t: string, c: char, n: nat, k: nat)
    requires n < |s| && k < |t| && s[n] == t[k]
    requires CharsBelow(s, '"', n) % 2 == CharsBelow(t, '"', k) % 2
    ensures IsHit(s, [c], n) == IsHit(t, [c], k)
  {
    SingleCharHit(s, c, n);
    SingleCharHit(t, c, k);
  }

  lemma {:induction false} EvenPlus(x: nat, y: nat)
    requires x % 2 == 0
    ensures (x + y) % 2 == y % 2
  {
  }

  lemma {:induction false} HitsConcat(a: string, b: string, c: char, k: nat)
    requires k <= |b|
    requires CharsBelow(a, '"', |a|) % 2 == 0
    ensures HitsBelow(a + b, [c], |a| + k) == HitsBelow(a, [c], |a|) + HitsBelow(b, [c], k)
  {
    if k == 0 {
      HitsPrefix(a, b, c, |a|);
    } else {
      HitsConcat(a, b, c, k - 1);
      HitShift(a, b, c, k - 1);
    }
  }

  /** After a prefix with an even number of quotes the count starts
      afresh: the columns of `a + b` are those of `a` and of `b`, less the
      one they share. */
  lemma {:induction false} ColCountConcat(a: string, b: string, c: char)
    requires CharsBelow(a, '"', |a|) % 2 == 0
    ensures ColCount(a + b, [c]) == ColCount(a, [c]) + ColCount(b, [c]) - 1
    ensures CharsBelow(a + b, '"', |a + b|) == CharsBelow(a, '"', |a|) + CharsBelow(b, '"', |b|)
  {
    HitsConcat(a, b, c, |b|);
    CharsBelowConcat(a, b, '"', |b|);
  }

  // ---------------------------------------------------------------------
  // The counters

  /** Outside quotes at `i`, the first delimiter at `p` comes before any
      quote: it is counted and the quote parity is unchanged past it. */
  lemma {:induction false} StepOverDelimiter(line: string, d: string, i: nat, p: nat)
    requires i <= p < |line| && StartsAt(line, d, p)
    requires CharsBelow(line, '"', i) % 2 == 0
    requires forall k :: i <= k < p ==> !StartsAt(line, d, k)
    requires forall k :: i <= k <= p ==> line[k] != '"'
    ensures CharsBelow(line, '"', p + 1) == CharsBelow(line, '"', i)
    ensures HitsBelow(line, d, p + 1) == HitsBelow(line, d, i) + 1
  {
    CharsUnchanged(line, '"', i, p + 1);
    HitsUnchanged(line, d, i, p);
  }

  /** Outside quotes at `i`, an opening quote at `q` with no delimiter
      start before it: nothing counts up to and including `q`. */
  lemma {:induction false} StepIntoQuote(line: string, d: string, i: nat, q: nat)
    requires i <= q < |line| && line[q] == '"'
    requires forall k :: i <= k < q ==> !StartsAt(line, d, k)
    requires forall k :: i <= k < q ==> line[k] != '"'
    ensures CharsBelow(line, '"', q + 1) == CharsBelow(line, '"', i) + 1
    ensures HitsBelow(line, d, q + 1) == HitsBelow(line, d, i)
  {
    CharsUnchanged(line, '"', i, q);
    HitsUnchanged(line, d, i, q + 1);
  }

  /** Inside quotes at `i`, the closing quote at `q`: nothing counts up
      to and including `q`. */
  lemma {:induction false} StepOutOfQuote(line: string, d: string, i: nat, q: nat)
    requires i <= q < |line| && line[q] == '"'
    requires CharsBelow(line, '"', i) % 2 == 1
    requires forall k :: i <= k < q ==> line[k] != '"'
    ensures CharsBelow(line, '"', q + 1) == CharsBelow(line, '"', i) + 1
    ensures HitsBelow(line, d, q + 1) == HitsBelow(line, d, i)
  {
    QuotedStretch(line, d, i, q);
    CharsUnchanged(line, '"', i, q);
  }

  /** Outside quotes, with no delimiter left, nothing more counts. */
  lemma {:induction false} NoDelimiterLeft(line: string, d: string, i: nat)
    requires |d| > 0 && i <= |line| && IndexOf(line, d, i) == -1
    ensures HitsBelow(line, d, |line|) == HitsBelow(line, d, i)
  {
    HitsUnchanged(line, d, i, |line|);
  }

  /** Outside quotes, a delimiter before the next quote is counted, and the
      quote parity past it is unchanged. */
  lemma {:induction false} DelimiterFirst(line: string, d: string, i: nat, p: int)
    requires |d| > 0 && i < |line| && CharsBelow(line, '"', i) % 2 == 0
    requires p == IndexOf(line, d, i) && p != -1
    requires IndexOfChar(line, '"', i) == -1 || p < IndexOfChar(line, '"', i)
    ensures 0 <= p < |line|
    ensures CharsBelow(line, '"', p + 1) % 2 == 0
    ensures HitsBelow(line, d, p + 1) == HitsBelow(line, d, i) + 1
  {
    StepOverDelimiter(line, d, i, p);
  }

  /** Outside quotes, a quote no later than the next delimiter opens a
      quoted stretch; nothing counts up to it. */
  lemma {:induction false} QuoteFirst(line: string, d: string, i: nat, q: int)
    requires |d| > 0 && i < |line| && CharsBelow(line, '"', i) % 2 == 0
    requires q == IndexOfChar(line, '"', i) && q != -1
    requires IndexOf(line, d, i) == -1 || q <= IndexOf(line, d, i)
    ensures 0 <= q < |line|
    ensures CharsBelow(line, '"', q + 1) % 2 == 1
    ensures HitsBelow(line, d, q + 1) == HitsBelow(line, d, i)
  {
    StepIntoQuote(line, d, i, q);
  }

  /** Inside quotes, with no closing quote, nothing more counts. */
  lemma {:induction false} NoClosingQuote(line: string, d: string, i: nat)
    requires i <= |line| && CharsBelow(line, '"', i) % 2 == 1
    requires IndexOfChar(line, '"', i) == -1
    ensures HitsBelow(line, d, |line|) == HitsBelow(line, d, i)
  {
    QuotedStretch(line, d, i, |line|);
  }

  /** Inside quotes, nothing counts up to the closing quote. */
  lemma {:induction false} ClosingQuote(line: string, d: string, i: nat, q: int)
    requires i < |line| && CharsBelow(line, '"', i) % 2 == 1
    requires q == IndexOfChar(line, '"', i) && q != -1
    ensures 0 <= q < |line|
    ensures CharsBelow(line, '"', q + 1) % 2 == 0
    ensures HitsBelow(line, d, q + 1) == HitsBelow(line, d, i)
  {
    StepOutOfQuote(line, d, i, q);
  }

  /** The state of an index-jumping scan at `i`: inside quotes exactly
      when an odd number of quotes precede `i`, and one column more than
      the counted delimiters below `i`. */
  predicate Scan(line: string, d: string, i: nat, inQuote: bool, count: nat)
  {
    i <= |line| && (inQuote <==> CharsBelow(line, '"', i) % 2 == 1) &&
    count == 1 + HitsBelow(line, d, i)
  }

  /** Leaving a quoted stretch at its closing quote. */
  lemma {:induction false} CloseStep(line: string, d: string, i: nat, count: nat, q: int)
    requires i < |line| && Scan(line, d, i, true, count)
    requires q == IndexOfChar(line, '"', i) && q != -1
    ensures 0 <= q < |line| && Scan(line, d, q + 1, false, count)
  {
    ClosingQuote(line, d, i, q);
  }

  /** Counting the next delimiter outside quotes. */
  lemma {:induction false} CountStep(line: string, d: string, i: nat, count: nat, p: int)
    requires |d| > 0 && i < |line| && Scan(line, d, i, false, count)
    requires p == IndexOf(line, d, i) && p != -1
    requires IndexOfChar(line, '"', i) == -1 || p < IndexOfChar(line, '"', i)
    ensures 0 <= p < |line| && Scan(line, d, p + 1, false, count + 1)
  {
    DelimiterFirst(line, d, i, p);
  }

  /** Entering a quoted stretch at the next quote. */
  lemma {:induction false} OpenStep(line: string, d: string, i: nat, count: nat, q: int)
    requires |d| > 0 && i < |line| && Scan(line, d, i, false, count)
    requires q == IndexOfChar(line, '"', i) && q != -1
    requires IndexOf(line, d, i) == -1 || q <= IndexOf(line, d, i)
    ensures 0 <= q < |line| && Scan(line, d, q + 1, true, count)
  {
    QuoteFirst(line, d, i, q);
  }

  /** Stopping early: nothing further counts. */
  lemma {:induction false} StopEarly(line: string, d: string, i: nat, inQuote: bool, count: nat)
    requires |d| > 0 && Scan(line, d, i, inQuote, count)
    requires inQuote ==> IndexOfChar(line, '"', i) == -1
    requires !inQuote ==> IndexOf(line, d, i) == -1
    ensures count == ColCount(line, d)
  {
    if inQuote {
      NoClosingQuote(line, d, i);
    } else {
      NoDelimiterLeft(line, d, i);
    }
  }

  /** `getColCount` of src/lib/sniffer.ts (the same loop as
      `getColCountIndexOfOpt` of benchmarks/sniffer_loop_bench.js): it
      jumps from one quote or delimiter to the next with `indexOf`. */
  method GetColCount(line: string, delim: string) returns (count: nat)
    requires |delim| > 0
    ensures count == ColCount(line, delim)
  {
    count := 1;
    var inQuote := false;
    var i := 0;
    while i < |line|
      invariant Scan(line, delim, i, inQuote, count)
      decreases |line| - i
    {
      if inQuote {
        var nextQuote := IndexOfChar(line, '"', i);
        if nextQuote == -1 {
          StopEarly(line, delim, i, inQuote, count);
          return;
        }
        CloseStep(line, delim, i, count, nextQuote);
        inQuote := false;
        i := nextQuote + 1;
      } else {
        var nextDelim := IndexOf(line, delim, i);
        if nextDelim == -1 {
          StopEarly(line, delim, i, inQuote, count);
          return;
        }
        var nextQuote := IndexOfChar(line, '"', i);
        if nextQuote == -1 || nextDelim < nextQuote {
          CountStep(line, delim, i, count, nextDelim);
          count := count + 1;
          i := nextDelim + 1;
        } else {
          OpenStep(line, delim, i, count, nextQuote);
          inQuote := true;
          i := nextQuote + 1;
        }
      }
    }
  }

  /** `getColCountIndexOf` of benchmarks/sniffer_loop_bench.js: looks up
      both the next quote and the next delimiter before deciding, and
      enters a quote even when no delimiter is left. */
  method IndexOfCount(line: string, delim: string) returns (count: nat)
    requires |delim| > 0
    ensures count == ColCount(line, delim)
  {
    count := 1;
    var inQuote := false;
    var i := 0;
    while i < |line|
      invariant Scan(line, delim, i, inQuote, count)
      decreases |line| - i
    {
      if inQuote {
        var nextQuote := IndexOfChar(line, '"', i);
        if nextQuote == -1 {
          StopEarly(line, delim, i, inQuote, count);
          return;
        }
        CloseStep(line, delim, i, count, nextQuote);
        inQuote := false;
        i := nextQuote + 1;
      } else {
        var nextQuote := IndexOfChar(line, '"', i);
        var nextDelim := IndexOf(line, delim, i);
        if nextDelim == -1 {
          if nextQuote == -1 {
            StopEarly(line, delim, i, inQuote, count);
            return;
          } else {
            OpenStep(line, delim, i, count, nextQuote);
            inQuote := true;
            i := nextQuote + 1;
          }
        } else {
          if nextQuote == -1 || nextDelim < nextQuote {
            CountStep(line, delim, i, count, nextDelim);
            count := count + 1;
            i := nextDelim + 1;
          } else {
            OpenStep(line, delim, i, count, nextQuote);
            inQuote := true;
            i := nextQuote + 1;
          }
        }
      }
    }
  }

  /** One character of the toggle scan: a quote flips the state, a
      delimiter outside quotes counts, anything else leaves both. */
  lemma {:induction false} ToggleStep(line: string, c: char, i: nat, inQuote: bool, count: nat)
    requires i < |line| && Scan(line, [c], i, inQuote, count)
    ensures Scan(line, [c], i + 1, if line[i] == '"' then !inQuote else inQuote,
      if line[i] != '"' && line[i] == c && !inQuote then count + 1 else count)
  {
    SingleCharHit(line, c, i);
  }

  /** `getColCountCurrent` of benchmarks/sniffer_loop_bench.js, which is
      also `getColCountNew` of benchmarks/jagged_rows_bench.js: one pass
      that toggles on every quote and counts delimiters outside quotes. */
  method ToggleCount(line: string, delim: char) returns (count: nat)
    ensures count == ColCount(line, [delim])
  {
    count := 1;
    var inQuote := false;
    for i := 0 to |line|
      invariant Scan(line, [delim], i, inQuote, count)
    {
      ToggleStep(line, delim, i, inQuote, count);
      if line[i] == '"' {
        inQuote := !inQuote;
      } else if line[i] == delim && !inQuote {
        count := count + 1;
      }
    }
  }

  // ---------------------------------------------------------------------
  // Fixtures of benchmarks/sniffer_loop_bench.js and benchmarks/jagged_rows_bench.js

  /** No quote and no delimiter. */
  predicate Plain(w: string, c: char)
  {
    forall k :: 0 <= k < |w| ==> w[k] != '"' && w[k] != c
  }

  /** Plain text is one column and closes no quote. */
  lemma {:induction false} PlainShape(w: string, c: char)
    requires Plain(w, c)
    ensures ColCount(w, [c]) == 1 && CharsBelow(w, '"', |w|) == 0
  {
    CharsUnchanged(w, '"', 0, |w|);
    forall k | 0 <= k < |w|
      ensures !IsHit(w, [c], k)
    {
      SingleCharHit(w, c, k);
    }
    HitsUnchanged(w, [c], 0, |w|);
  }

  /** A lone delimiter is two columns. */
  lemma {:induction false} DelimiterShape(c: char)
    requires c != '"'
    ensures ColCount([c], [c]) == 2 && CharsBelow([c], '"', 1) == 0
  {
    SingleCharHit([c], c, 0);
    assert IsHit([c], [c], 0);
    assert HitsBelow([c], [c], 1) == 1;
  }

  /** A quoted field without inner quotes is one column holding two quotes,
      whatever delimiters it contains. */
  lemma {:induction false} QuotedShape(w: string, c: char)
    requires c != '"' && forall k :: 0 <= k < |w| ==> w[k] != '"'
    ensures ColCount("\"" + w + "\"", [c]) == 1
    ensures CharsBelow("\"" + w + "\"", '"', |w| + 2) == 2
  {
    var s := "\"" + w + "\"";
    assert s[0] == '"' && s[|w| + 1] == '"';
    forall k | 1 <= k < |w| + 1
      ensures s[k] != '"'
    {
      assert s[k] == w[k - 1];
    }
    CharsUnchanged(s, '"', 1, |w| + 1);
    forall k | 0 <= k < |s|
      ensures !IsHit(s, [c], k)
    {
      if 1 <= k < |w| + 1 {
        CharsUnchanged(s, '"', 1, k);
      }
    }
    HitsUnchanged(s, [c], 0, |s|);
  }

  /** An opening quote that is never closed: one column, one quote. */
  lemma {:induction false} OpenQuoteShape(w: string, c: char)
    requires c != '"' && forall k :: 0 <= k < |w| ==> w[k] != '"'
    ensures ColCount("\"" + w, [c]) == 1
    ensures CharsBelow("\"" + w, '"', |w| + 1) == 1
  {
    var s := "\"" + w;
    assert s[0] == '"';
    forall k | 1 <= k < |s|
      ensures s[k] != '"'
    {
      assert s[k] == w[k - 1];
    }
    CharsUnchanged(s, '"', 1, |s|);
    forall k | 0 <= k < |s|
      ensures !IsHit(s, [c], k)
    {
      if 1 <= k {
        CharsUnchanged(s, '"', 1, k);
      }
    }
    HitsUnchanged(s, [c], 0, |s|);
  }

  lemma {:induction false} FixturesPlain()
    ensures ColCount("val1,val2,val3", ",") == 3
    ensures ColCount("", ",") == 1
    ensures ColCount(",,", ",") == 3
    ensures ColCount("\"\",\"\",\"\"", ",") == 3
  {
    ThreePlainFields("val1", "val2", "val3");
    DelimiterShape(',');
    ColCountConcat(",", ",", ',');
    QuotedShape("", ',');
    var e := "\"\"";
    assert "\"" + "" + "\"" == e;
    ColCountConcat(e, ",", ',');
    ColCountConcat(e + ",", e, ',');
    ColCountConcat(e + "," + e, ",", ',');
    ColCountConcat(e + "," + e + ",", e, ',');
    assert e + "," + e + "," + e == "\"\",\"\",\"\"";
  }

  lemma {:induction false} ThreePlainFields(a: string, b: string, c: string)
    requires a == "val1" && b == "val2" && c == "val3"
    ensures ColCount(a + "," + b + "," + c, ",") == 3
    ensures a + "," + b + "," + c == "val1,val2,val3"
  {
    PlainShape(a, ',');
    PlainShape(b, ',');
    PlainShape(c, ',');
    DelimiterShape(',');
    ColCountConcat(a, ",", ',');
    ColCountConcat(a + ",", b, ',');
    ColCountConcat(a + "," + b, ",", ',');
    ColCountConcat(a + "," + b + ",", c, ',');
  }

  /** `a,"b",c` with a quoted middle field free of quotes. */
  lemma {:induction false} QuotedMiddle(a: string, b: string, c: string)
    requires Plain(a, ',') && Plain(c, ',') && forall k :: 0 <= k < |b| ==> b[k] != '"'
    ensures ColCount(a + "," + ("\"" + b + "\"") + "," + c, ",") == 3
  {
    PlainShape(a, ',');
    PlainShape(c, ',');
    DelimiterShape(',');
    QuotedShape(b, ',');
    var m := "\"" + b + "\"";
    ColCountConcat(a, ",", ',');
    ColCountConcat(a + ",", m, ',');
    ColCountConcat(a + "," + m, ",", ',');
    ColCountConcat(a + "," + m + ",", c, ',');
  }

  /** `a,"b""d",c`: a doubled quote inside a quoted middle field. */
  lemma {:induction false} DoubledMiddle(a: string, b: string, d: string, c: string)
    requires Plain(a, ',') && Plain(c, ',')
    requires forall k :: 0 <= k < |b| ==> b[k] != '"'
    requires forall k :: 0 <= k < |d| ==> d[k] != '"'
    ensures ColCount(a + "," + ("\"" + b + "\"") + ("\"" + d + "\"") + "," + c, ",") == 3
  {
    PlainShape(a, ',');
    PlainShape(c, ',');
    DelimiterShape(',');
    QuotedShape(b, ',');
    QuotedShape(d, ',');
    var m := "\"" + b + "\"";
    var n := "\"" + d + "\"";
    ColCountConcat(a, ",", ',');
    ColCountConcat(a + ",", m, ',');
    ColCountConcat(a + "," + m, n, ',');
    ColCountConcat(a + "," + m + n, ",", ',');
    ColCountConcat(a + "," + m + n + ",", c, ',');
  }

  lemma {:induction false} FixtureQuotedField()
    ensures ColCount("val1,\"val2\",val3", ",") == 3
  {
    var a, b, c := "val1", "val2", "val3";
    QuotedMiddle(a, b, c);
    assert a + "," + ("\"" + b + "\"") + "," + c == "val1,\"val2\",val3";
  }

  lemma {:induction false} FixtureDelimiterInQuotes()
    ensures ColCount("val1,\"val,2\",val3", ",") == 3
  {
    var a, b, c := "val1", "val,2", "val3";
    QuotedMiddle(a, b, c);
    assert a + "," + ("\"" + b + "\"") + "," + c == "val1,\"val,2\",val3";
  }

  /** A doubled quote toggles twice. */
  lemma {:induction false} FixtureDoubledQuote()
    ensures ColCount("val1,\"val\"\"2\",val3", ",") == 3
  {
    var a, b, d, c := "val1", "val", "2", "val3";
    DoubledMiddle(a, b, d, c);
    assert a + "," + ("\"" + b + "\"") + ("\"" + d + "\"") + "," + c == "val1,\"val\"\"2\",val3";
  }

  /** The comma after a doubled quote is still inside the field. */
  lemma {:induction false} FixtureDoubledQuoteDelimiter()
    ensures ColCount("val1,\"val\"\"2,val3\",val4", ",") == 3
  {
    var a, b, d, c := "val1", "val", "2,val3", "val4";
    DoubledMiddle(a, b, d, c);
    assert a + "," + ("\"" + b + "\"") + ("\"" + d + "\"") + "," + c == "val1,\"val\"\"2,val3\",val4";
  }

  /** After an unclosed quote nothing more counts. */
  lemma {:induction false} FixtureUnclosedQuote()
    ensures ColCount("val1,\"broken,val2", ",") == 2
  {
    var a, b := "val1", "broken,val2";
    PlainShape(a, ',');
    DelimiterShape(',');
    OpenQuoteShape(b, ',');
    ColCountConcat(a, ",", ',');
    ColCountConcat(a + ",", "\"" + b, ',');
    assert a + "," + ("\"" + b) == "val1,\"broken,val2";
  }

  /** A stray quote opens a quote that never closes. */
  lemma {:induction false} FixtureStrayQuote()
    ensures ColCount("broken\",val2,val3", ",") == 1
  {
    var a, b := "broken", ",val2,val3";
    PlainShape(a, ',');
    OpenQuoteShape(b, ',');
    ColCountConcat(a, "\"" + b, ',');
    assert a + ("\"" + b) == "broken\",val2,val3";
  }
}
