/** The decisions of `sniffFile` and the scan of `detectJaggedRows` in
    src/lib/sniffer.ts, over the bytes already read from the file. The
    text decoder and `JSON.parse` are parameters of the model. */
module Sniffer {
  import opened Strings
  import opened Utf8Sniff
  import opened ColumnCount
  import opened DelimiterDetect

  datatype Encoding = Utf8 | Windows1252
  datatype Format = Csv | Json

  datatype SniffResult = SniffResult(
    encoding: Encoding,
    delimiter: string,
    hasHeader: bool,
    newline: string,
    format: Format)

  // ---------------------------------------------------------------------
  // Format

  /** The text handed to `JSON.parse`: the first 10000 characters, closed
      by `]` for a long text that opens with `[`, and by `}` otherwise. */
  function JsonProbe(trimmed: string): (r: string)
    ensures |r| == (if |trimmed| < 10000 then |trimmed| else 10000) + 1
  {
    var cut := if |trimmed| < 10000 then |trimmed| else 10000;
    trimmed[..cut] + (if |trimmed| > 10000 && StartsWith(trimmed, "[") then "]" else "}")
  }

  /** The format decision; `parses` answers whether `JSON.parse` accepts
      a text. */
  function DetectFormat(trimmed: string, parses: string -> bool): Format
  {
    if StartsWith(trimmed, "[") || StartsWith(trimmed, "{") then
      if parses(JsonProbe(trimmed)) then Json
      else if StartsWith(trimmed, "[") || StartsWith(trimmed, "{") then Json
      else Csv
    else Csv
  }

  /** The format of a trimmed text depends only on its first character. */
  lemma {:induction false} FormatByFirst(t: string, parses: string -> bool)
    ensures DetectFormat(t, parses) == Json <==> t != [] && (t[0] == '[' || t[0] == '{')
  {
    if t != [] {
      assert StartsWith(t, "[") <==> t[0] == '[';
      assert StartsWith(t, "{") <==> t[0] == '{';
    }
  }

  /** There is at most one first non-whitespace position. */
  lemma {:induction false} FirstNonSpaceUnique(s: string, k1: nat, k2: nat)
    requires FirstNonSpace(s, k1) && FirstNonSpace(s, k2)
    ensures k1 == k2
  {
  }

  /** An all-whitespace text has no first non-whitespace position. */
  lemma {:induction false} AllSpaceNoFirst(s: string, k: nat)
    requires forall j :: 0 <= j < |s| ==> IsJsWhitespace(s[j])
    ensures !FirstNonSpace(s, k)
  {
    if k < |s| {
      assert IsJsWhitespace(s[k]);
    }
  }

  /** Whatever `JSON.parse` answers, the format is JSON exactly when the
      first non-whitespace character of the text is `[` or `{`. */
  lemma {:induction false} FormatIgnoresParse(text: string, p1: string -> bool, p2: string -> bool)
    ensures DetectFormat(Trim(text), p1) == DetectFormat(Trim(text), p2)
    ensures DetectFormat(Trim(text), p1) == Json <==>
      exists k: nat :: FirstNonSpace(text, k) && (text[k] == '[' || text[k] == '{')
  {
    TrimFacts(text);
    var t := Trim(text);
    FormatByFirst(t, p1);
    FormatByFirst(t, p2);
    if t == [] {
      forall k: nat
        ensures !FirstNonSpace(text, k)
      {
        AllSpaceNoFirst(text, k);
      }
    } else {
      var k: nat :| FirstNonSpace(text, k) && t[0] == text[k];
      forall k2: nat | FirstNonSpace(text, k2)
        ensures text[k2] == t[0]
      {
        FirstNonSpaceUnique(text, k, k2);
      }
    }
  }

  // ---------------------------------------------------------------------
  // Newline

  /** `\r\n` if that pair occurs, else `\r` if a carriage return occurs,
      else `\n`. */
  function DetectNewline(text: string): (r: string)
    ensures r == "\r\n" || r == "\r" || r == "\n"
  {
    if Contains(text, "\r\n") then "\r\n" else if Contains(text, "\r") then "\r" else "\n"
  }

  /** The newline found occurs in the text exactly when the text holds
      any line break; a carriage return wins only without a CRLF pair. */
  lemma {:induction false} NewlineOccurs(text: string)
    ensures Contains(text, DetectNewline(text)) <==> '\r' in text || '\n' in text
    ensures DetectNewline(text) == "\r" ==> '\r' in text && !Contains(text, "\r\n")
  {
    ContainsIff(text, "\r\n");
    ContainsIff(text, "\r");
    ContainsIff(text, "\n");
    if '\r' in text {
      var k :| 0 <= k < |text| && text[k] == '\r';
      StartsAtChar(text, '\r', k);
    }
    if '\n' in text {
      var k :| 0 <= k < |text| && text[k] == '\n';
      StartsAtChar(text, '\n', k);
    }
    if Contains(text, "\r") {
      var k :| StartsAt(text, "\r", k);
      StartsAtChar(text, '\r', k);
    }
    if Contains(text, "\n") {
      var k :| StartsAt(text, "\n", k);
      StartsAtChar(text, '\n', k);
    }
    if Contains(text, "\r\n") {
      var k: nat :| StartsAt(text, "\r\n", k);
      assert text[k..k + 2][0] == text[k];
    }
  }

  // ---------------------------------------------------------------------
  // sniffFile

  /** The decisions of `sniffFile` over the bytes read; `decode` stands
      for the `TextDecoder` of the chosen encoding and `parses` for
      `JSON.parse`. */
  method Sniff(bytes: seq<bv8>, decode: (Encoding, seq<bv8>) -> string, parses: string -> bool)
    returns (r: SniffResult)
    ensures r.encoding == (if LooksUtf8(bytes) then Utf8 else Windows1252)
    ensures r.format == DetectFormat(Trim(decode(r.encoding, bytes)), parses)
    ensures r.delimiter == [] <==> r.format == Json
    ensures r.format == Csv ==> r.delimiter == [ChosenDelimiter(SampleLines(decode(r.encoding, bytes)))]
    ensures r.newline == DetectNewline(decode(r.encoding, bytes))
    ensures r.hasHeader
  {
    var ok := IsUtf8(bytes);
    var encoding := if ok then Utf8 else Windows1252;
    var text := decode(encoding, bytes);
    var trimmed := Trim(text);
    var format := DetectFormat(trimmed, parses);
    var delimiter: string;
    if format == Json {
      delimiter := "";
    } else {
      var d := DetectDelimiter(text);
      delimiter := [d];
    }
    r := SniffResult(encoding, delimiter, true, DetectNewline(text), format);
  }

  // ---------------------------------------------------------------------
  // detectJaggedRows

  datatype JaggedRowError = JaggedRowError(row: nat, expected: nat, actual: nat, content: string)

  /** The first 50 characters, followed by `...` when the line is longer. */
  function Preview(line: string): (r: string)
    ensures |line| <= 50 ==> r == line
    ensures |line| > 50 ==> r == line[..50] + "..."
  {
    line[..if |line| < 50 then |line| else 50] + (if |line| > 50 then "..." else "")
  }

  /** The lines of the text that hold something other than whitespace. */
  function NonBlank(lines: seq<string>): (r: seq<string>)
    ensures |r| <= |lines|
  {
    if lines == [] then [] else (if Trim(lines[0]) != [] then [lines[0]] else []) + NonBlank(lines[1..])
  }

  /** The delimiter used: the one given, or the one detected on the first
      line when none (or the empty string) is given. */
  function SafeDelimiter(delimiter: string, first: string): (d: string)
    ensures |d| > 0
  {
    if delimiter != [] then delimiter else [ChosenDelimiter(SampleLines(first))]
  }

  /** The column counter for delimiter `d`. */
  function ColCountIn(d: string): string -> nat
  {
    line => ColCount(line, d)
  }

  /** Every line among `lines[lo..hi]` whose count is not `expected`,
      reported with its one-based row number. */
  function Mismatches(lines: seq<string>, count: string -> nat, expected: nat, lo: nat, hi: nat): seq<JaggedRowError>
    requires hi <= |lines|
    decreases hi
  {
    if hi <= lo then []
    else
      var actual := count(lines[hi - 1]);
      Mismatches(lines, count, expected, lo, hi - 1) +
        (if actual != expected then [JaggedRowError(hi, expected, actual, Preview(lines[hi - 1]))] else [])
  }

  /** The report over the non-blank lines: the first five mismatches
      among the first thousand lines, measured against the first. */
  function ReportFor(lines: seq<string>, delimiter: string): seq<JaggedRowError>
  {
    if |lines| < 2 then []
    else
      var d := SafeDelimiter(delimiter, lines[0]);
      Take(Mismatches(lines, ColCountIn(d), ColCount(lines[0], d), 1, Limit(lines)), 5)
  }

  /** How many of the lines are scanned. */
  function Limit(lines: seq<string>): (n: nat)
    ensures n <= |lines| && n <= 1000
  {
    if |lines| < 1000 then |lines| else 1000
  }

  /** The report of `detectJaggedRows` for the decoded text. */
  function JaggedReport(text: string, delimiter: string): seq<JaggedRowError>
  {
    ReportFor(NonBlank(SplitLines(text)), delimiter)
  }

  lemma {:induction false} MismatchesAppend(lines: seq<string>, count: string -> nat, expected: nat, lo: nat, mid: nat, hi: nat)
    requires lo <= mid <= hi <= |lines|
    ensures Mismatches(lines, count, expected, lo, hi) ==
      Mismatches(lines, count, expected, lo, mid) + Mismatches(lines, count, expected, mid, hi)
    decreases hi
  {
    if hi == mid {
      assert Mismatches(lines, count, expected, mid, hi) == [];
      assert Mismatches(lines, count, expected, lo, mid) + [] == Mismatches(lines, count, expected, lo, mid);
    } else {
      MismatchesAppend(lines, count, expected, lo, mid, hi - 1);
      MismatchesSnoc(lines, count, expected, lo, hi);
      MismatchesSnoc(lines, count, expected, mid, hi);
      var actual := count(lines[hi - 1]);
      var tail := if actual != expected then [JaggedRowError(hi, expected, actual, Preview(lines[hi - 1]))] else [];
      var a := Mismatches(lines, count, expected, lo, mid);
      var b := Mismatches(lines, count, expected, mid, hi - 1);
      assert (a + b) + tail == a + (b + tail);
    }
  }

  /** `e` reports a row of `lines[lo..hi]` whose column count is not
      `expected`: its number, both counts and its preview. */
  predicate Reports(lines: seq<string>, count: string -> nat, expected: nat, lo: nat, hi: nat, e: JaggedRowError)
    requires hi <= |lines|
  {
    lo < e.row <= hi && e.expected == expected &&
    e.actual == count(lines[e.row - 1]) && e.actual != expected &&
    e.content == Preview(lines[e.row - 1])
  }

  /** Each entry reports a mismatching row, and the rows increase. */
  lemma {:induction false} MismatchesShape(lines: seq<string>, count: string -> nat, expected: nat, lo: nat, hi: nat)
    requires hi <= |lines|
    ensures forall k :: 0 <= k < |Mismatches(lines, count, expected, lo, hi)| ==>
      Reports(lines, count, expected, lo, hi, Mismatches(lines, count, expected, lo, hi)[k])
    ensures forall j, k :: 0 <= j < k < |Mismatches(lines, count, expected, lo, hi)| ==>
      Mismatches(lines, count, expected, lo, hi)[j].row < Mismatches(lines, count, expected, lo, hi)[k].row
    decreases hi
  {
    if hi > lo {
      MismatchesShape(lines, count, expected, lo, hi - 1);
      var m := Mismatches(lines, count, expected, lo, hi);
      var prev := Mismatches(lines, count, expected, lo, hi - 1);
      assert forall k :: 0 <= k < |prev| ==> m[k] == prev[k];
      forall k | 0 <= k < |m| ensures Reports(lines, count, expected, lo, hi, m[k]) {
        if k < |prev| {
          assert Reports(lines, count, expected, lo, hi - 1, prev[k]);
        }
      }
    }
  }

  /** Some entry of `m` reports row `row`. */
  predicate HasRow(m: seq<JaggedRowError>, row: nat)
  {
    exists k :: 0 <= k < |m| && m[k].row == row
  }

  lemma {:induction false} HasRowAppend(a: seq<JaggedRowError>, b: seq<JaggedRowError>, row: nat)
    ensures HasRow(a + b, row) <==> HasRow(a, row) || HasRow(b, row)
  {
    if HasRow(a + b, row) {
      var k :| 0 <= k < |a + b| && (a + b)[k].row == row;
      if k < |a| {
        assert a[k].row == row;
      } else {
        assert b[k - |a|].row == row;
      }
    }
    if HasRow(a, row) {
      var k :| 0 <= k < |a| && a[k].row == row;
      assert (a + b)[k].row == row;
    }
    if HasRow(b, row) {
      var k :| 0 <= k < |b| && b[k].row == row;
      assert (a + b)[|a| + k].row == row;
    }
  }

  /** One more row appends its mismatch, if any. */
  lemma {:induction false} MismatchesSnoc(lines: seq<string>, count: string -> nat, expected: nat, lo: nat, hi: nat)
    requires lo < hi <= |lines|
    ensures Mismatches(lines, count, expected, lo, hi) ==
      Mismatches(lines, count, expected, lo, hi - 1) +
        (if count(lines[hi - 1]) != expected
         then [JaggedRowError(hi, expected, count(lines[hi - 1]), Preview(lines[hi - 1]))] else [])
  {
  }

  /** The last row of a range is reported exactly when its count differs. */
  lemma {:induction false} LastRowReported(lines: seq<string>, count: string -> nat, expected: nat, lo: nat, hi: nat)
    requires lo < hi <= |lines|
    ensures HasRow(Mismatches(lines, count, expected, lo, hi), hi) <==> count(lines[hi - 1]) != expected
  {
    var prev := Mismatches(lines, count, expected, lo, hi - 1);
    var actual := count(lines[hi - 1]);
    var tail := if actual != expected then [JaggedRowError(hi, expected, actual, Preview(lines[hi - 1]))] else [];
    MismatchesSnoc(lines, count, expected, lo, hi);
    HasRowAppend(prev, tail, hi);
    MismatchesShape(lines, count, expected, lo, hi - 1);
    assert !HasRow(prev, hi) by {
      forall k | 0 <= k < |prev|
        ensures prev[k].row != hi
      {
        assert Reports(lines, count, expected, lo, hi - 1, prev[k]);
      }
    }
    if actual != expected {
      assert tail[0].row == hi;
    } else {
      assert tail == [];
    }
  }

  /** Extending a range by one row does not change whether an earlier row
      is reported. */
  lemma {:induction false} EarlierRowReported(lines: seq<string>, count: string -> nat, expected: nat, lo: nat, hi: nat, row: nat)
    requires lo < row < hi <= |lines|
    ensures HasRow(Mismatches(lines, count, expected, lo, hi), row) <==>
      HasRow(Mismatches(lines, count, expected, lo, hi - 1), row)
  {
    var prev := Mismatches(lines, count, expected, lo, hi - 1);
    var actual := count(lines[hi - 1]);
    var tail := if actual != expected then [JaggedRowError(hi, expected, actual, Preview(lines[hi - 1]))] else [];
    MismatchesSnoc(lines, count, expected, lo, hi);
    HasRowAppend(prev, tail, row);
    assert !HasRow(tail, row);
  }

  /** A row is among the mismatches exactly when its count differs:
      none is left out before the cut at five. */
  lemma {:induction false} MismatchesComplete(lines: seq<string>, count: string -> nat, expected: nat, lo: nat, hi: nat, row: nat)
    requires hi <= |lines| && lo < row <= hi
    ensures HasRow(Mismatches(lines, count, expected, lo, hi), row) <==> count(lines[row - 1]) != expected
    decreases hi
  {
    if row < hi {
      EarlierRowReported(lines, count, expected, lo, hi, row);
      MismatchesComplete(lines, count, expected, lo, hi - 1, row);
    } else {
      LastRowReported(lines, count, expected, lo, hi);
    }
  }

  /** The report is at most five entries, ordered by row, each a row in
      2..1000 whose count differs from the first line's. */
  lemma {:induction false} ReportShape(lines: seq<string>, delimiter: string)
    ensures |ReportFor(lines, delimiter)| <= 5
    ensures |lines| < 2 ==> ReportFor(lines, delimiter) == []
    ensures forall k :: 0 <= k < |ReportFor(lines, delimiter)| ==>
      2 <= ReportFor(lines, delimiter)[k].row <= Limit(lines) &&
      ReportFor(lines, delimiter)[k].actual != ReportFor(lines, delimiter)[k].expected
    ensures forall j, k :: 0 <= j < k < |ReportFor(lines, delimiter)| ==>
      ReportFor(lines, delimiter)[j].row < ReportFor(lines, delimiter)[k].row
  {
    if |lines| >= 2 {
      var d := SafeDelimiter(delimiter, lines[0]);
      var expected := ColCount(lines[0], d);
      var m := Mismatches(lines, ColCountIn(d), expected, 1, Limit(lines));
      MismatchesShape(lines, ColCountIn(d), expected, 1, Limit(lines));
      var r := Take(m, 5);
      TakePrefix(m, 5);
      assert forall k :: 0 <= k < |r| ==> r[k] == m[k];
      assert forall k :: 0 <= k < |m| ==> Reports(lines, ColCountIn(d), expected, 1, Limit(lines), m[k]);
    }
  }

  /** The scan of `detectJaggedRows` over the decoded text. */
  method DetectJaggedRows(text: string, delimiter: string) returns (errors: seq<JaggedRowError>)
    ensures errors == JaggedReport(text, delimiter)
  {
    var lines := SplitLines(text);
    var nonEmpty := NonBlank(lines);
    errors := ReportRows(nonEmpty, delimiter);
  }

  /** `detectJaggedRows` once the non-blank lines are known. */
  method ReportRows(lines: seq<string>, delimiter: string) returns (errors: seq<JaggedRowError>)
    ensures errors == ReportFor(lines, delimiter)
  {
    if |lines| < 2 {
      return [];
    }
    var safeDelimiter := delimiter;
    if safeDelimiter == [] {
      var c := DetectDelimiter(lines[0]);
      safeDelimiter := [c];
    }
    assert safeDelimiter == SafeDelimiter(delimiter, lines[0]);
    var expected := GetColCount(lines[0], safeDelimiter);
    var limit := if |lines| < 1000 then |lines| else 1000;
    errors := ScanRows(lines, safeDelimiter, expected, limit);
  }

  /** The loop of `detectJaggedRows`: rows 1..limit-1 against `expected`,
      stopping at the fifth mismatch. */
  method ScanRows(lines: seq<string>, d: string, expected: nat, limit: nat) returns (errors: seq<JaggedRowError>)
    requires |d| > 0 && limit <= |lines|
    ensures errors == Take(Mismatches(lines, ColCountIn(d), expected, 1, limit), 5)
  {
    errors := [];
    var i := 1;
    if limit < 1 {
      assert Mismatches(lines, ColCountIn(d), expected, 1, limit) == [];
      return;
    }
    while i < limit
      invariant 1 <= i <= limit
      invariant errors == Mismatches(lines, ColCountIn(d), expected, 1, i) && |errors| < 5
      decreases limit - i
    {
      var count := GetColCount(lines[i], d);
      if count != expected {
        errors := errors + [JaggedRowError(i + 1, expected, count, Preview(lines[i]))];
        if |errors| >= 5 {
          MismatchesAppend(lines, ColCountIn(d), expected, 1, i + 1, limit);
          TakeFull(errors, Mismatches(lines, ColCountIn(d), expected, i + 1, limit), 5);
          return;
        }
      }
      i := i + 1;
    }
    TakeShort(errors, 5);
  }

  /** A fixture: the second row agrees with the header, the third has one
      field too many and is reported with its row number. */
  lemma {:induction false} JaggedExample()
    ensures JaggedReport("a,b\n1,2\n3,4,5", ",") == [JaggedRowError(3, 2, 3, "3,4,5")]
  {
    ExampleLines();
    ExampleReport();
  }

  lemma {:induction false} ExampleLines()
    ensures NonBlank(SplitLines("a,b\n1,2\n3,4,5")) == ["a,b", "1,2", "3,4,5"]
  {
    ExampleSplit();
    ExampleKept();
  }

  lemma {:induction false} ExampleSplit()
    ensures SplitLines("a,b\n1,2\n3,4,5") == ["a,b", "1,2", "3,4,5"]
  {
    SplitThree("a,b", "1,2", "3,4,5");
    assert "a,b" + "\n" + ("1,2" + "\n" + "3,4,5") == "a,b\n1,2\n3,4,5";
  }

  lemma {:induction false} SplitThree(a: string, b: string, c: string)
    requires forall k :: 0 <= k < |a| ==> a[k] != '\n'
    requires forall k :: 0 <= k < |b| ==> b[k] != '\n'
    requires forall k :: 0 <= k < |c| ==> c[k] != '\n'
    requires a == [] || a[|a| - 1] != '\r'
    requires b == [] || b[|b| - 1] != '\r'
    ensures SplitLines(a + "\n" + (b + "\n" + c)) == [a, b, c]
  {
    var bc := b + "\n" + c;
    SplitLinesLast(c);
    SplitLinesCons(b, c);
    SplitLinesCons(a, bc);
  }

  lemma {:induction false} ExampleKept()
    ensures NonBlank(["a,b", "1,2", "3,4,5"]) == ["a,b", "1,2", "3,4,5"]
  {
    TrimKeeps("a,b");
    TrimKeeps("1,2");
    TrimKeeps("3,4,5");
    NonBlankKeeps(["a,b", "1,2", "3,4,5"]);
  }

  lemma {:induction false} SplitLinesLast(a: string)
    requires forall k :: 0 <= k < |a| ==> a[k] != '\n'
    ensures SplitLines(a) == [a]
  {
  }

  lemma {:induction false} SplitLinesCons(a: string, rest: string)
    requires forall k :: 0 <= k < |a| ==> a[k] != '\n'
    requires a == [] || a[|a| - 1] != '\r'
    ensures SplitLines(a + "\n" + rest) == [a] + SplitLines(rest)
  {
    var t := a + "\n" + rest;
    assert t[|a|] == '\n';
    assert forall k :: 0 <= k < |a| ==> t[k] == a[k];
    assert IndexOfChar(t, '\n', 0) == |a|;
    assert t[..|a|] == a;
    assert t[|a| + 1..] == rest;
  }

  /** Lines that are all non-blank are all kept. */
  lemma {:induction false} NonBlankKeeps(lines: seq<string>)
    requires forall k :: 0 <= k < |lines| ==> Trim(lines[k]) != []
    ensures NonBlank(lines) == lines
    decreases |lines|
  {
    if lines != [] {
      var rest := lines[1..];
      assert forall k :: 0 <= k < |rest| ==> rest[k] == lines[k + 1];
      NonBlankKeeps(rest);
      assert lines == [lines[0]] + rest;
    }
  }

  lemma {:induction false} TrimKeeps(s: string)
    requires s != [] && !IsJsWhitespace(s[0])
    ensures Trim(s) != []
  {
    TrimFacts(s);
  }

  lemma {:induction false} ExampleReport()
    ensures ReportFor(["a,b", "1,2", "3,4,5"], ",") == [JaggedRowError(3, 2, 3, "3,4,5")]
  {
    var lines := ["a,b", "1,2", "3,4,5"];
    ColsOf("a,b", 2);
    ColsOf("1,2", 2);
    ColsOf3("3,4,5");
    assert Preview("3,4,5") == "3,4,5";
    var count := ColCountIn(",");
    assert count("1,2") == 2 && count("3,4,5") == 3;
    assert Mismatches(lines, count, 2, 1, 1) == [];
    assert Mismatches(lines, count, 2, 1, 2) == [];
    assert Mismatches(lines, count, 2, 1, 3) == [JaggedRowError(3, 2, 3, "3,4,5")];
  }

  lemma {:induction false} ColsOf(s: string, n: nat)
    requires |s| == 3 && s[1] == ',' && s[0] != ',' && s[0] != '"' && s[2] != ',' && s[2] != '"' && n == 2
    ensures ColCount(s, ",") == n
  {
    assert CharsBelow(s, '"', 1) == 0;
    assert HitsBelow(s, ",", 1) == 0 by {
      assert !StartsAt(s, ",", 0) by { assert s[0..1] == [s[0]]; }
    }
    assert HitsBelow(s, ",", 2) == 1 by {
      assert s[1..2] == ",";
    }
    assert HitsBelow(s, ",", 3) == 1 by {
      assert s[2..3] == [s[2]];
    }
  }

  lemma {:induction false} ColsOf3(s: string)
    requires s == "3,4,5"
    ensures ColCount(s, ",") == 3
  {
    ColsOf("3,4", 2);
    assert "3,4" + ",5" == s;
    ColCountConcat("3,4", ",5", ',');
    assert CharsBelow("3,4", '"', 3) == 0;
    assert ColCount(",5", ",") == 2 by {
      assert HitsBelow(",5", ",", 1) == 1 by { assert ",5"[0..1] == ","; }
      assert HitsBelow(",5", ",", 2) == 1 by { assert ",5"[1..2] == "5"; }
    }
  }
}
