/** Delimiter detection: `detectDelimiter` of src/lib/sniffer.ts (the same
    code as `detectDelimiterOptimized` of benchmarks/sniffer_opt_bench.cjs)
    and `detectDelimiterOriginal` of the same benchmark. The score
    `avg * 10 - variance * 100` is kept exact: over n lines whose field
    counts sum to S and whose squares sum to Q, score * n * n is
    10 * S * n - 100 * (Q * n - S * S), and avg <= 1 iff S <= n. */
module DelimiterDetect {
  import opened Strings

  // ---------------------------------------------------------------------
  // Line sampling

  /** Removes one trailing carriage return. */
  function DropCr(s: string): (r: string)
    ensures r == s || (r + "\r" == s)
  {
    if |s| > 0 && s[|s| - 1] == '\r' then s[..|s| - 1] else s
  }

  /** `text.split(/\r?\n/)`: pieces between line feeds, each losing the one
      carriage return that the separator absorbs. */
  function SplitLines(text: string): (r: seq<string>)
    ensures |r| >= 1
    decreases |text|
  {
    var e := IndexOfChar(text, '\n', 0);
    if e == -1 then [text] else [DropCr(text[..e])] + SplitLines(text[e + 1..])
  }

  function Take<T>(xs: seq<T>, n: nat): (r: seq<T>)
    ensures |r| <= n
  {
    if |xs| <= n then xs else xs[..n]
  }

  /** The lines the detectors score: the first ten non-empty lines. This
      is the line list of `detectDelimiterOriginal`,
      `text.split(/\r?\n/).filter(line => line.length > 0).slice(0, 10)`. */
  function SampleLines(text: string): seq<string>
  {
    Take(NonEmpty(SplitLines(text)), 10)
  }

  /** No piece of `SplitLines` holds a line feed. */
  lemma {:induction false} SplitLinesPieces(text: string)
    ensures forall k :: 0 <= k < |SplitLines(text)| ==> '\n' !in SplitLines(text)[k]
    decreases |text|
  {
    var e := IndexOfChar(text, '\n', 0);
    if e == -1 {
      assert forall k :: 0 <= k < |text| ==> text[k] != '\n';
    } else {
      SplitLinesPieces(text[e + 1..]);
      assert forall k :: 0 <= k < e ==> text[..e][k] != '\n';
      assert '\n' !in text[..e];
      assert '\n' !in DropCr(text[..e]);
    }
  }

  /** The line that starts at `start`, without its line break. */
  function LineAt(text: string, start: nat): string
    requires start <= |text|
  {
    var e := IndexOfChar(text, '\n', start);
    if e == -1 then text[start..] else DropCr(text[start..e])
  }

  /** Where the line after the one at `start` begins. */
  function NextStart(text: string, start: nat): (r: nat)
    requires start < |text|
    ensures start < r <= |text|
  {
    var e := IndexOfChar(text, '\n', start);
    if e == -1 then |text| else e + 1
  }

  /** The non-empty lines from `start` on are the line at `start`, when
      it is non-empty, followed by those after it. */
  lemma {:induction false} SplitLinesAt(text: string, start: nat)
    requires start < |text|
    ensures LineAt(text, start) == [] ==>
      NonEmpty(SplitLines(text[start..])) == NonEmpty(SplitLines(text[NextStart(text, start)..]))
    ensures LineAt(text, start) != [] ==>
      NonEmpty(SplitLines(text[start..])) == [LineAt(text, start)] + NonEmpty(SplitLines(text[NextStart(text, start)..]))
  {
    var e := IndexOfChar(text, '\n', start);
    var t := text[start..];
    var q := IndexOfChar(t, '\n', 0);
    if e == -1 {
      assert SplitLines(t) == [t];
      assert text[|text|..] == [];
      assert NonEmpty(SplitLines(text[|text|..])) == [];
      assert [t] + [] == [t];
    } else {
      assert t[e - start] == text[e];
      assert q == e - start;
      assert t[..q] == text[start..e];
      assert t[q + 1..] == text[e + 1..];
      var line := DropCr(text[start..e]);
      NonEmptyAppend([line], SplitLines(text[e + 1..]));
      if line == [] {
        assert NonEmpty([line]) == [];
      } else {
        assert NonEmpty([line]) == [line];
      }
    }
  }

  lemma {:induction false} TakePrefix<T>(xs: seq<T>, n: nat)
    ensures Take(xs, n) == xs[..|Take(xs, n)|]
  {
  }

  lemma {:induction false} TakeShort<T>(xs: seq<T>, n: nat)
    requires |xs| <= n
    ensures Take(xs, n) == xs
  {
  }

  lemma {:induction false} TakeFull<T>(xs: seq<T>, ys: seq<T>, n: nat)
    requires |xs| == n
    ensures Take(xs + ys, n) == xs
  {
    assert (xs + ys)[..n] == xs;
  }

  lemma {:induction false} TakeCons<T>(x: T, xs: seq<T>, n: nat)
    requires n > 0
    ensures Take([x] + xs, n) == [x] + Take(xs, n - 1)
  {
    if |xs| >= n {
      assert ([x] + xs)[..n] == [x] + xs[..n - 1];
    }
  }

  /** The first `k` non-empty lines from `start` on, line by line. */
  ghost function SampleFrom(text: string, start: nat, k: nat): seq<string>
    requires start <= |text|
    decreases |text| - start
  {
    if k == 0 || start == |text| then []
    else if LineAt(text, start) == [] then SampleFrom(text, NextStart(text, start), k)
    else [LineAt(text, start)] + SampleFrom(text, NextStart(text, start), k - 1)
  }

  lemma {:induction false} SampleFromStep(text: string, start: nat, k: nat)
    requires start < |text| && k > 0
    ensures LineAt(text, start) == [] ==> SampleFrom(text, start, k) == SampleFrom(text, NextStart(text, start), k)
    ensures LineAt(text, start) != [] ==>
      SampleFrom(text, start, k) == [LineAt(text, start)] + SampleFrom(text, NextStart(text, start), k - 1)
  {
  }

  lemma {:induction false} SampleFromTake(text: string, start: nat, k: nat)
    requires start <= |text|
    ensures SampleFrom(text, start, k) == Take(NonEmpty(SplitLines(text[start..])), k)
    decreases |text| - start
  {
    if start == |text| {
      assert text[start..] == [];
      assert NonEmpty(SplitLines(text[start..])) == [];
    } else if k > 0 {
      var next := NextStart(text, start);
      var line := LineAt(text, start);
      SplitLinesAt(text, start);
      SampleFromStep(text, start, k);
      if line == [] {
        SampleFromTake(text, next, k);
      } else {
        SampleFromTake(text, next, k - 1);
        TakeLine(SampleFrom(text, start, k), SampleFrom(text, next, k - 1),
          NonEmpty(SplitLines(text[start..])), NonEmpty(SplitLines(text[next..])), line, k);
      }
    }
  }

  lemma {:induction false} TakeLine(sample: seq<string>, sampleNext: seq<string>, lines: seq<string>, later: seq<string>, line: string, k: nat)
    requires k > 0 && sample == [line] + sampleNext && sampleNext == Take(later, k - 1) && lines == [line] + later
    ensures sample == Take(lines, k)
  {
    TakeCons(line, later, k);
  }


  /** `lines` followed by the lines still to be collected from `start`
      is the whole sample. */
  ghost predicate Collected(text: string, start: nat, lines: seq<string>, whole: seq<string>)
    requires start <= |text| && |lines| <= 10
  {
    lines + SampleFrom(text, start, 10 - |lines|) == whole
  }

  lemma {:induction false} CollectStep(text: string, start: nat, lines: seq<string>, whole: seq<string>)
    requires start < |text| && |lines| < 10 && Collected(text, start, lines, whole)
    ensures LineAt(text, start) == [] ==> Collected(text, NextStart(text, start), lines, whole)
    ensures LineAt(text, start) != [] ==> Collected(text, NextStart(text, start), lines + [LineAt(text, start)], whole)
  {
    var line := LineAt(text, start);
    var next := NextStart(text, start);
    var k: nat := 10 - |lines|;
    SampleFromStep(text, start, k);
    if line != [] {
      AppendStep(lines, line, SampleFrom(text, next, k - 1), whole);
    }
  }

  lemma {:induction false} AppendStep(lines: seq<string>, line: string, rest: seq<string>, whole: seq<string>)
    requires lines + ([line] + rest) == whole
    ensures (lines + [line]) + rest == whole
  {
  }

  /** One step of the scan: the line at `start` and where the next begins. */
  method NextLine(text: string, start: nat) returns (line: string, next: nat)
    requires start < |text|
    ensures line == LineAt(text, start) && next == NextStart(text, start)
  {
    var end := IndexOfChar(text, '\n', start);
    if end == -1 {
      line := text[start..];
      next := |text|;
    } else {
      line := text[start..end];
      if |line| > 0 && line[|line| - 1] == '\r' {
        line := line[..|line| - 1];
      }
      next := end + 1;
    }
  }

  /** `detectDelimiter`'s line extraction (also the optimized extraction
      of benchmarks/sniffer_opt_bench.cjs): scans line feed to line feed
      and stops once ten non-empty lines are collected. */
  method CollectLines(text: string) returns (lines: seq<string>)
    ensures lines == SampleLines(text)
  {
    lines := [];
    var start := 0;
    ghost var whole := SampleFrom(text, 0, 10);
    assert Collected(text, 0, [], whole);
    while |lines| < 10 && start < |text|
      invariant 0 <= start <= |text| && |lines| <= 10
      invariant Collected(text, start, lines, whole)
      decreases |text| - start
    {
      var line, next := NextLine(text, start);
      CollectStep(text, start, lines, whole);
      if |line| > 0 {
        lines := lines + [line];
      }
      start := next;
    }
    assert SampleFrom(text, start, 10 - |lines|) == [];
    assert lines + [] == lines;
    SampleFromTake(text, 0, 10);
    assert text[0..] == text;
  }

  // ---------------------------------------------------------------------
  // Scoring

  const Candidates: seq<char> := [',', ';', '\t', '|']

  /** `line.split(delim).length` for every sampled line. */
  function FieldCounts(lines: seq<string>, delim: char): (r: seq<nat>)
    ensures |r| == |lines|
    ensures forall k :: 0 <= k < |lines| ==> r[k] == 1 + CountChar(lines[k], delim)
  {
    var r := seq(|lines|, k requires 0 <= k < |lines| => |Split(lines[k], delim)|);
    assert forall k :: 0 <= k < |lines| ==> r[k] == 1 + CountChar(lines[k], delim) by {
      forall k | 0 <= k < |lines| ensures r[k] == 1 + CountChar(lines[k], delim) {
        SplitLength(lines[k], delim);
      }
    }
    r
  }

  function Sum(xs: seq<nat>): nat
  {
    if xs == [] then 0 else xs[0] + Sum(xs[1..])
  }

  /** The mean field count, `avg` in the source. */
  function Mean(counts: seq<nat>): real
    requires |counts| > 0
  {
    Sum(counts) as real / |counts| as real
  }

  /** Sum of squared deviations from `avg`, the numerator of `variance`. */
  function SquaredDeviations(counts: seq<nat>, avg: real): real
  {
    if counts == [] then 0.0
    else (counts[0] as real - avg) * (counts[0] as real - avg) + SquaredDeviations(counts[1..], avg)
  }

  /** `avg * 10 - variance * 100`, over exact reals. */
  function Score(lines: seq<string>, delim: char): real
    requires |lines| > 0
  {
    var counts := FieldCounts(lines, delim);
    var avg := Mean(counts);
    avg * 10.0 - (SquaredDeviations(counts, avg) / |lines| as real) * 100.0
  }

  /** The candidate survives `avg <= 1` and beats the initial best score 0. */
  predicate Eligible(lines: seq<string>, delim: char)
    requires |lines| > 0
  {
    Mean(FieldCounts(lines, delim)) > 1.0 && Score(lines, delim) > 0.0
  }

  lemma {:induction false} MeanAboveOne(s: nat, n: nat)
    requires n > 0
    ensures s as real / n as real > 1.0 <==> s > n
  {
    var q, d := s as real / n as real, n as real;
    assert q * d == s as real;
    if q > 1.0 {
      assert q * d > 1.0 * d;
    } else {
      assert q * d <= 1.0 * d;
    }
  }

  lemma {:induction false} SumAtLeast(lines: seq<string>, delim: char)
    ensures Sum(FieldCounts(lines, delim)) >= |lines|
    decreases |lines|
  {
    if lines != [] {
      SumAtLeast(lines[1..], delim);
      assert FieldCounts(lines, delim) == [1 + CountChar(lines[0], delim)] + FieldCounts(lines[1..], delim);
    }
  }

  lemma {:induction false} SumAboveCount(lines: seq<string>, delim: char)
    ensures Sum(FieldCounts(lines, delim)) > |lines| <==> exists k :: 0 <= k < |lines| && delim in lines[k]
    decreases |lines|
  {
    if lines != [] {
      SumAboveCount(lines[1..], delim);
      SumStep(lines, delim);
      CountCharZero(lines[0], delim);
      SumAtLeast(lines[1..], delim);
      OccursStep(lines, delim);
    }
  }

  lemma {:induction false} SumStep(lines: seq<string>, delim: char)
    requires lines != []
    ensures Sum(FieldCounts(lines, delim)) == 1 + CountChar(lines[0], delim) + Sum(FieldCounts(lines[1..], delim))
  {
    assert FieldCounts(lines, delim) == [1 + CountChar(lines[0], delim)] + FieldCounts(lines[1..], delim);
  }

  /** A character occurs in some line of a non-empty list exactly when it
      occurs in the first line or in some later one. */
  lemma {:induction false} OccursStep(lines: seq<string>, delim: char)
    requires lines != []
    ensures (exists k :: 0 <= k < |lines| && delim in lines[k])
      <==> delim in lines[0] || exists k :: 0 <= k < |lines[1..]| && delim in lines[1..][k]
  {
    if exists k :: 0 <= k < |lines| && delim in lines[k] {
      var k :| 0 <= k < |lines| && delim in lines[k];
      if k > 0 {
        assert lines[1..][k - 1] == lines[k];
      }
    }
    if exists k :: 0 <= k < |lines[1..]| && delim in lines[1..][k] {
      var k :| 0 <= k < |lines[1..]| && delim in lines[1..][k];
      assert lines[k + 1] == lines[1..][k];
    }
  }

  /** The `avg <= 1` filter drops exactly the candidates that occur in
      none of the sampled lines. */
  lemma {:induction false} MeanAboveOneIff(lines: seq<string>, delim: char)
    requires |lines| > 0
    ensures Mean(FieldCounts(lines, delim)) > 1.0 <==> exists k :: 0 <= k < |lines| && delim in lines[k]
  {
    MeanAboveOne(Sum(FieldCounts(lines, delim)), |lines|);
    SumAboveCount(lines, delim);
  }

  /** The score of a delimiter occurring the same number of times in
      every sampled line: no variance, ten times the field count. */
  lemma {:induction false} UniformDeviations(counts: seq<nat>, c: nat)
    requires forall k :: 0 <= k < |counts| ==> counts[k] == c
    ensures Sum(counts) == |counts| * c
    ensures SquaredDeviations(counts, c as real) == 0.0
    decreases |counts|
  {
    if counts != [] {
      UniformDeviations(counts[1..], c);
    }
  }

  lemma {:induction false} UniformScore(lines: seq<string>, delim: char, c: nat)
    requires |lines| > 0
    requires forall k :: 0 <= k < |lines| ==> CountChar(lines[k], delim) == c
    ensures Score(lines, delim) == 10.0 * (c + 1) as real
    ensures c > 0 ==> Eligible(lines, delim)
  {
    var counts := FieldCounts(lines, delim);
    UniformDeviations(counts, c + 1);
    UniformMean(Sum(counts), |lines|, c + 1);
    if c > 0 {
      MeanAboveOne(Sum(counts), |lines|);
    }
  }

  lemma {:induction false} UniformMean(s: nat, n: nat, c: nat)
    requires n > 0 && s == n * c
    ensures s as real / n as real == c as real
  {
    assert s as real == n as real * c as real;
  }


  /** Candidate `i` is what the scoring loop keeps after the candidates
      before `k`: the earliest strict maximum among the eligible ones,
      or `,` when none is eligible. */
  predicate BestAmong(lines: seq<string>, i: nat, k: nat)
    requires |lines| > 0 && k <= |Candidates|
  {
    i < |Candidates| &&
    ( (i < k && Eligible(lines, Candidates[i]) &&
       forall m :: 0 <= m < k && Eligible(lines, Candidates[m]) ==>
         Score(lines, Candidates[m]) <= Score(lines, Candidates[i]) &&
         (m < i ==> Score(lines, Candidates[m]) < Score(lines, Candidates[i])))
    || (i == 0 && forall m :: 0 <= m < k ==> !Eligible(lines, Candidates[m])))
  }

  /** A candidate that is not eligible, or does not beat the best score
      so far, leaves the best candidate as it is. */
  lemma {:induction false} KeepBest(lines: seq<string>, best: nat, k: nat, bestScore: real)
    requires |lines| > 0 && k < |Candidates| && BestAmong(lines, best, k)
    requires bestScore == if best < k && Eligible(lines, Candidates[best]) then Score(lines, Candidates[best]) else 0.0
    requires !(Eligible(lines, Candidates[k]) && Score(lines, Candidates[k]) > bestScore)
    ensures BestAmong(lines, best, k + 1)
  {
  }

  /** An eligible candidate beating the best score so far becomes the best. */
  lemma {:induction false} NewBest(lines: seq<string>, best: nat, k: nat, bestScore: real)
    requires |lines| > 0 && k < |Candidates| && BestAmong(lines, best, k)
    requires bestScore == if best < k && Eligible(lines, Candidates[best]) then Score(lines, Candidates[best]) else 0.0
    requires Mean(FieldCounts(lines, Candidates[k])) > 1.0 && Score(lines, Candidates[k]) > bestScore
    ensures BestAmong(lines, k, k + 1)
  {
  }

  /** At most one candidate is the best. */
  lemma {:induction false} BestUnique(lines: seq<string>, i: nat, j: nat, k: nat)
    requires |lines| > 0 && k <= |Candidates|
    requires BestAmong(lines, i, k) && BestAmong(lines, j, k)
    ensures i == j
  {
  }

  /** The scoring loop resumed at candidate `k` with best index `best`. */
  function ChoiceFrom(lines: seq<string>, k: nat, best: nat): (i: nat)
    requires |lines| > 0 && k <= |Candidates| && BestAmong(lines, best, k)
    ensures BestAmong(lines, i, |Candidates|)
    decreases |Candidates| - k
  {
    if k == |Candidates| then best
    else
      var bestScore := if best < k && Eligible(lines, Candidates[best]) then Score(lines, Candidates[best]) else 0.0;
      if Eligible(lines, Candidates[k]) && Score(lines, Candidates[k]) > bestScore then ChoiceFrom(lines, k + 1, k)
      else ChoiceFrom(lines, k + 1, best)
  }

  /** The index of the best candidate among all four. */
  function ChoiceIndex(lines: seq<string>): (i: nat)
    requires |lines| > 0
    ensures BestAmong(lines, i, |Candidates|)
  {
    ChoiceFrom(lines, 0, 0)
  }

  /** The delimiter the scoring settles on for a line sample; `,` for
      an empty sample. */
  function ChosenDelimiter(lines: seq<string>): (d: char)
    ensures d in Candidates
    ensures lines == [] ==> d == ','
  {
    if lines == [] then ',' else Candidates[ChoiceIndex(lines)]
  }

  /** The scoring loop shared by both detectors. */
  method PickDelimiter(lines: seq<string>) returns (bestDelimiter: char)
    requires |lines| > 0
    ensures bestDelimiter == ChosenDelimiter(lines)
  {
    bestDelimiter := ',';
    var bestScore := 0.0;
    ghost var best := 0;
    for k := 0 to |Candidates|
      invariant BestAmong(lines, best, k) && bestDelimiter == Candidates[best]
      invariant bestScore == if best < k && Eligible(lines, Candidates[best]) then Score(lines, Candidates[best]) else 0.0
    {
      var delim := Candidates[k];
      var counts := FieldCounts(lines, delim);
      var avg := Sum(counts) as real / |counts| as real;
      if avg <= 1.0 {
        KeepBest(lines, best, k, bestScore);
        continue;
      }
      var variance := SquaredDeviations(counts, avg) / |counts| as real;
      var score := avg * 10.0 - variance * 100.0;
      assert score == Score(lines, delim);
      if score > bestScore {
        NewBest(lines, best, k, bestScore);
        bestScore := score;
        bestDelimiter := delim;
        best := k;
      } else {
        KeepBest(lines, best, k, bestScore);
      }
    }
    BestUnique(lines, best, ChoiceIndex(lines), |Candidates|);
  }

  /** `detectDelimiter` of src/lib/sniffer.ts. */
  method DetectDelimiter(text: string) returns (d: char)
    ensures d == ChosenDelimiter(SampleLines(text))
  {
    var lines := CollectLines(text);
    if |lines| == 0 {
      return ',';
    }
    d := PickDelimiter(lines);
  }

  /** `detectDelimiterOriginal` of benchmarks/sniffer_opt_bench.cjs: the
      same scoring over the split/filter/slice line list. */
  method DetectDelimiterOriginal(text: string) returns (d: char)
    ensures d == ChosenDelimiter(SampleLines(text))
  {
    var lines := Take(NonEmpty(SplitLines(text)), 10);
    if |lines| == 0 {
      return ',';
    }
    d := PickDelimiter(lines);
  }

  /** A candidate that occurs in no sampled line is not eligible. */
  lemma {:induction false} AbsentNotEligible(lines: seq<string>, delim: char)
    requires |lines| > 0
    requires forall k :: 0 <= k < |lines| ==> delim !in lines[k]
    ensures !Eligible(lines, delim)
  {
    MeanAboveOneIff(lines, delim);
  }

  /** A candidate that occurs in no sampled line is never chosen, unless
      it is the fallback `,`. */
  lemma {:induction false} AbsentNeverChosen(lines: seq<string>, delim: char)
    requires delim in Candidates && delim != ','
    requires forall k :: 0 <= k < |lines| ==> delim !in lines[k]
    ensures ChosenDelimiter(lines) != delim
  {
    if lines != [] {
      AbsentNotEligible(lines, delim);
    }
  }

  /** The only eligible candidate is the one chosen. */
  lemma {:induction false} OnlyEligibleChosen(lines: seq<string>, delim: char)
    requires |lines| > 0 && delim in Candidates
    requires Eligible(lines, delim)
    requires forall e :: e in Candidates && e != delim ==> !Eligible(lines, e)
    ensures ChosenDelimiter(lines) == delim
  {
    var j :| 0 <= j < |Candidates| && Candidates[j] == delim;
    assert Eligible(lines, Candidates[j]);
  }

  /** A candidate occurring equally often, and at least once, in every
      sampled line is chosen when the other three occur nowhere. */
  lemma {:induction false} UniformChosen(lines: seq<string>, delim: char, c: nat)
    requires |lines| > 0 && delim in Candidates && c > 0
    requires forall k :: 0 <= k < |lines| ==> CountChar(lines[k], delim) == c
    requires forall e, k :: e in Candidates && e != delim && 0 <= k < |lines| ==> e !in lines[k]
    ensures ChosenDelimiter(lines) == delim
  {
    UniformScore(lines, delim, c);
    forall e | e in Candidates && e != delim ensures !Eligible(lines, e) {
      AbsentNotEligible(lines, e);
    }
    OnlyEligibleChosen(lines, delim);
  }

  /** A two-line semicolon sample is detected as semicolon-separated. */
  lemma {:induction false} SemicolonSample(lines: seq<string>)
    requires lines == ["a;b", "c;d"]
    ensures ChosenDelimiter(lines) == ';'
  {
    SemicolonLine("a;b");
    SemicolonLine("c;d");
    UniformChosen(lines, ';', 1);
  }

  /** `x;y` with letters `x` and `y` holds one semicolon and no other candidate. */
  lemma {:induction false} SemicolonLine(line: string)
    requires |line| == 3 && line[1] == ';'
    requires line[0] !in Candidates && line[2] !in Candidates
    ensures CountChar(line, ';') == 1
    ensures forall e :: e in Candidates && e != ';' ==> e !in line
  {
    assert line[0] != ';' && line[2] != ';';
    assert line[2..][1..] == [];
    assert CountChar(line[2..], ';') == 0;
    assert line[1..][1..] == line[2..];
    assert CountChar(line[1..], ';') == 1;
    forall e | e in Candidates && e != ';'
      ensures e !in line
    {
      assert e != line[0] && e != line[1] && e != line[2];
    }
  }

}
