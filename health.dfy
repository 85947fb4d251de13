/** Data health scoring (`analyzeHealth`): per column a null share, an
    outlier count for numeric columns, a detected value pattern for text
    columns and a score from 50 to 100; overall, the rounded mean score and
    one critical issue per broken row found by the jagged-row scan. The
    engine's query results and the pattern tests are inputs. */
module HealthService {
  import opened Strings
  import Sniffer

  datatype Column = Column(name: string, ty: string)

  /** One column's aggregates from the statistics query:
      `COUNT(col)`, `COUNT(DISTINCT col)` and `STDDEV(col)`. */
  datatype ColumnStats = ColumnStats(count: int, unique: int, std: real)

  /** A sample row's value for a column; `text` is `String(val)`. */
  datatype Cell = NullCell | UndefinedCell | Value(text: string)

  /** The value patterns, in declaration order. */
  datatype Pattern = Email | Siret | Nir | Iban

  const Patterns: seq<Pattern> := [Email, Siret, Nir, Iban]

  /** What the engine answers: the row count, each column's aggregates (by
      name), each checked column's outlier count (by name), the first 1000
      rows, and the test of a value against a pattern's expression. */
  datatype Queries = Queries(
    rowCount: int,
    stats: string -> ColumnStats,
    outlierOf: string -> nat,
    sampleRows: seq<map<string, Cell>>,
    matches: (Pattern, string) -> bool)

  datatype Option<T> = None | Some(value: T)

  datatype ColumnHealth = ColumnHealth(
    name: string, ty: string, nullCount: int, nullPercent: real,
    uniqueCount: int, score: int, outliers: nat, patternMatch: Option<Pattern>)

  /** A warning about a column's outliers. */
  datatype Warning = Outliers(column: string, count: nat)

  /** A critical issue about a broken row. */
  datatype Critical = BrokenRow(row: nat, expected: nat, actual: nat)

  /** `Math.round(total / columns.length)`, which is `NaN` without columns. */
  datatype Overall = NotANumber | Score(value: int)

  /** The file the table came from, if any, and how its scan ended. */
  datatype FileInput = NoFile | File(name: string, scan: ScanOutcome)
  datatype ScanOutcome = Scanned(errors: seq<Sniffer.JaggedRowError>) | ScanFailed

  datatype HealthReport = HealthReport(
    overallScore: Overall, rowCount: int, columnHealth: map<string, ColumnHealth>,
    critical: seq<Critical>, warning: seq<Warning>)

  // ---------------------------------------------------------------------
  // Outlier checks

  const NumericTypeNames: seq<string> := ["DOUBLE", "DECIMAL", "INTEGER", "BIGINT"]

  predicate IsNumeric(col: Column)
  {
    ToUpper(col.ty) in NumericTypeNames
  }

  /** A column gets an outlier check when it is numeric with a positive
      standard deviation. */
  predicate Checked(col: Column, stats: string -> ColumnStats)
  {
    IsNumeric(col) && stats(col.name).std > 0.0
  }

  /** The names of the checked columns, in column order. */
  function OutlierColumns(columns: seq<Column>, stats: string -> ColumnStats): (r: seq<string>)
    ensures |r| <= |columns|
    decreases |columns|
  {
    if columns == [] then []
    else
      var rest := OutlierColumns(columns[..|columns| - 1], stats);
      var col := columns[|columns| - 1];
      if Checked(col, stats) then rest + [col.name] else rest
  }

  /** A name is checked exactly when some column of that name is. */
  lemma {:induction false} OutlierColumnsMembers(columns: seq<Column>, stats: string -> ColumnStats, n: string)
    ensures n in OutlierColumns(columns, stats) <==> exists c :: c in columns && c.name == n && Checked(c, stats)
    decreases |columns|
  {
    if columns != [] {
      var init := columns[..|columns| - 1];
      OutlierColumnsMembers(init, stats, n);
      assert columns == init + [columns[|columns| - 1]];
    }
  }

  /** The loop that prepares the outlier checks, without their SQL text. */
  method CollectOutlierColumns(columns: seq<Column>, stats: string -> ColumnStats) returns (outlierCols: seq<string>)
    ensures outlierCols == OutlierColumns(columns, stats)
  {
    outlierCols := [];
    var i := 0;
    while i < |columns|
      invariant 0 <= i <= |columns|
      invariant outlierCols == OutlierColumns(columns[..i], stats)
    {
      var col := columns[i];
      assert columns[..i + 1][..i] == columns[..i];
      if IsNumeric(col) {
        if stats(col.name).std > 0.0 {
          outlierCols := outlierCols + [col.name];
        }
      }
      i := i + 1;
    }
    assert columns[..i] == columns;
  }

  /** The outlier counts read back for the checked names. */
  function OutlierResults(outlierCols: seq<string>, outlierOf: string -> nat): (r: map<string, nat>)
    ensures forall n :: n in r <==> n in outlierCols
    ensures forall n :: n in r ==> r[n] == outlierOf(n)
  {
    map n | n in outlierCols :: outlierOf(n)
  }

  /** A column's outlier count: its read-back count when it is numeric and
      was checked, zero otherwise. */
  function OutlierCount(col: Column, results: map<string, nat>): nat
  {
    if IsNumeric(col) && col.name in results then results[col.name] else 0
  }

  // ---------------------------------------------------------------------
  // Nulls and score

  /** The share of nulls in percent; zero for an empty table. */
  function NullPercent(rowCount: int, count: int): (r: real)
    ensures rowCount <= 0 ==> r == 0.0
    ensures 0 < rowCount ==> r * rowCount as real == 100.0 * (rowCount - count) as real
  {
    if rowCount > 0 then ((rowCount - count) as real / rowCount as real) * 100.0 else 0.0
  }

  /** A real `x` with `x * d == a` for a positive `d` exceeds `c` exactly
      when `a` exceeds `c * d`. */
  lemma {:induction false} ScaledAbove(x: real, d: real, a: real, c: real)
    requires d > 0.0 && x * d == a
    ensures x > c <==> a > c * d
  {
    if x > c {
      assert x * d > c * d;
    } else {
      assert x * d <= c * d;
    }
  }

  /** The share passes 10% exactly when more than a tenth of the rows are
      null, and 50% exactly when more than half are; with no more nulls
      than rows it lies within 0..100. */
  lemma {:induction false} NullThresholds(rowCount: int, count: int)
    requires rowCount > 0
    ensures NullPercent(rowCount, count) > 10.0 <==> 10 * (rowCount - count) > rowCount
    ensures NullPercent(rowCount, count) > 50.0 <==> 2 * (rowCount - count) > rowCount
    ensures 0 <= count <= rowCount ==> 0.0 <= NullPercent(rowCount, count) <= 100.0
  {
    var x := NullPercent(rowCount, count);
    var d := rowCount as real;
    var a := 100.0 * (rowCount - count) as real;
    ScaledAbove(x, d, a, 10.0);
    ScaledAbove(x, d, a, 50.0);
    ScaledAbove(x, d, a, 100.0);
    ScaledBelow(x, d, a, 0.0);
  }

  /** The mirror of `ScaledAbove`. */
  lemma {:induction false} ScaledBelow(x: real, d: real, a: real, c: real)
    requires d > 0.0 && x * d == a
    ensures x < c <==> a < c * d
  {
    if x < c {
      assert x * d < c * d;
    } else {
      assert x * d >= c * d;
    }
  }

  /** A mean of values within `lo..hi` lies within `lo..hi`. */
  lemma {:induction false} MeanBounds(t: real, n: real, lo: real, hi: real)
    requires n > 0.0 && lo * n <= t <= hi * n
    ensures lo <= t / n <= hi
  {
    var x := t / n;
    ScaledAbove(x, n, t, hi);
    ScaledBelow(x, n, t, lo);
  }

  function Min(a: int, b: int): int
  {
    if a <= b then a else b
  }

  /** A column's score: 100, less 10 past 10% nulls, a further 30 past 50%
      nulls, and less the outlier count capped at 10. */
  function ColumnScore(nullPercent: real, outliers: nat): (r: int)
    ensures 50 <= r <= 100
  {
    100 - (if nullPercent > 10.0 then 10 else 0) - (if nullPercent > 50.0 then 30 else 0)
    - (if outliers > 0 then Min(outliers, 10) else 0)
  }

  /** Full marks exactly when at most 10% are null and there is no outlier. */
  lemma {:induction false} PerfectScore(nullPercent: real, outliers: nat)
    ensures ColumnScore(nullPercent, outliers) == 100 <==> nullPercent <= 10.0 && outliers == 0
  {
  }

  /** The lowest score exactly when more than half are null and there are
      ten outliers or more. */
  lemma {:induction false} LowestScore(nullPercent: real, outliers: nat)
    ensures ColumnScore(nullPercent, outliers) == 50 <==> nullPercent > 50.0 && outliers >= 10
  {
  }

  /** More nulls or more outliers never raise the score. */
  lemma {:induction false} ScoreMonotone(p1: real, p2: real, o1: nat, o2: nat)
    requires p1 <= p2 && o1 <= o2
    ensures ColumnScore(p2, o2) <= ColumnScore(p1, o1)
  {
  }

  // ---------------------------------------------------------------------
  // Pattern sample and detection

  function CellOf(row: map<string, Cell>, name: string): Cell
  {
    if name in row then row[name] else UndefinedCell
  }

  /** The column's non-null values, in row order. */
  function NonNullValues(rows: seq<map<string, Cell>>, name: string): (r: seq<string>)
    ensures |r| <= |rows|
    decreases |rows|
  {
    if rows == [] then []
    else
      var rest := NonNullValues(rows[..|rows| - 1], name);
      var cell := CellOf(rows[|rows| - 1], name);
      if cell.Value? then rest + [cell.text] else rest
  }

  /** The values of a prefix of the rows begin the values of all rows. */
  lemma {:induction false} NonNullPrefix(rows: seq<map<string, Cell>>, name: string, j: nat)
    requires j <= |rows|
    ensures NonNullValues(rows[..j], name) <= NonNullValues(rows, name)
    decreases |rows| - j
  {
    if j < |rows| {
      NonNullPrefix(rows, name, j + 1);
      assert rows[..j + 1][..j] == rows[..j];
    } else {
      assert rows[..j] == rows;
    }
  }

  /** The pattern sample: the first 100 non-null values. */
  function Sample(rows: seq<map<string, Cell>>, name: string): (r: seq<string>)
    ensures |r| <= 100
    ensures r <= NonNullValues(rows, name)
    ensures |r| == 100 || r == NonNullValues(rows, name)
  {
    var all := NonNullValues(rows, name);
    if |all| <= 100 then all else all[..100]
  }

  /** The sampling loop, which stops at the 100th value. */
  method SampleValues(rows: seq<map<string, Cell>>, name: string) returns (values: seq<string>)
    ensures values == Sample(rows, name)
  {
    values := [];
    var i := 0;
    while i < |rows|
      invariant 0 <= i <= |rows|
      invariant values == NonNullValues(rows[..i], name) && |values| < 100
    {
      var val := CellOf(rows[i], name);
      assert rows[..i + 1][..i] == rows[..i];
      if val.Value? {
        values := values + [val.text];
        if |values| >= 100 {
          NonNullPrefix(rows, name, i + 1);
          return;
        }
      }
      i := i + 1;
    }
    assert rows[..i] == rows;
  }

  /** How many values match the pattern. */
  function MatchCount(values: seq<string>, p: Pattern, matches: (Pattern, string) -> bool): (r: nat)
    ensures r <= |values|
    decreases |values|
  {
    if values == [] then 0
    else MatchCount(values[..|values| - 1], p, matches) + (if matches(p, values[|values| - 1]) then 1 else 0)
  }

  /** More than 70% of `n` values match. */
  predicate Qualifies(matchCount: nat, n: nat)
  {
    10 * matchCount > 7 * n
  }

  /** The threshold is exactly the real comparison with 70%. */
  lemma {:induction false} QualifiesIsSeventyPercent(matchCount: nat, n: nat)
    ensures Qualifies(matchCount, n) <==> matchCount as real > 0.7 * n as real
  {
  }

  /** The comparison as the source evaluates it in binary floating point,
      `matchCount > n * 0.7`, for a sample of at most 100 values: the
      product rounds to exactly 70% of `n` except for `n = 90`, where it
      rounds to 62.99999999999999. */
  predicate DoubleQualifies(matchCount: nat, n: nat)
    requires n <= 100
  {
    10 * matchCount > 7 * n || (n == 90 && matchCount == 63)
  }

  /** With 90 values and 63 matches (exactly 70%), the floating-point test
      passes while "more than 70%" does not. */
  lemma {:induction false} NinetyValuesThreshold()
    ensures DoubleQualifies(63, 90) && !Qualifies(63, 90)
  {
  }

  /** The first pattern from position `p` on that qualifies. */
  function FirstPatternFrom(values: seq<string>, matches: (Pattern, string) -> bool, p: nat): (r: Option<Pattern>)
    requires p <= |Patterns|
    ensures r.Some? ==>
      exists k :: (p <= k < |Patterns| && r.value == Patterns[k]
        && Qualifies(MatchCount(values, Patterns[k], matches), |values|)
        && forall j :: p <= j < k ==> !Qualifies(MatchCount(values, Patterns[j], matches), |values|))
    ensures r.None? ==> forall j :: p <= j < |Patterns| ==> !Qualifies(MatchCount(values, Patterns[j], matches), |values|)
    decreases |Patterns| - p
  {
    if p == |Patterns| then None
    else if Qualifies(MatchCount(values, Patterns[p], matches), |values|) then Some(Patterns[p])
    else FirstPatternFrom(values, matches, p + 1)
  }

  /** The detected pattern: none without values, otherwise the first
      pattern in declaration order that more than 70% of the values match. */
  function FirstPattern(values: seq<string>, matches: (Pattern, string) -> bool): (r: Option<Pattern>)
  {
    if |values| == 0 then None else FirstPatternFrom(values, matches, 0)
  }

  /** The detection loops: count each pattern's matches, stop at the first
      that qualifies. */
  method DetectPattern(values: seq<string>, matches: (Pattern, string) -> bool) returns (detected: Option<Pattern>)
    ensures detected == FirstPattern(values, matches)
  {
    detected := None;
    if |values| > 0 {
      var p := 0;
      while p < |Patterns|
        invariant 0 <= p <= |Patterns|
        invariant FirstPatternFrom(values, matches, 0) == FirstPatternFrom(values, matches, p)
      {
        var key := Patterns[p];
        var matchCount := 0;
        var v := 0;
        while v < |values|
          invariant 0 <= v <= |values|
          invariant matchCount == MatchCount(values[..v], key, matches)
        {
          assert values[..v + 1][..v] == values[..v];
          if matches(key, values[v]) {
            matchCount := matchCount + 1;
          }
          v := v + 1;
        }
        assert values[..v] == values;
        if Qualifies(matchCount, |values|) {
          detected := Some(key);
          return;
        }
        p := p + 1;
      }
    }
  }

  // ---------------------------------------------------------------------
  // Column reports and the overall score

  /** The pattern detected for a column: only `VARCHAR` columns are tried. */
  function DetectedPattern(col: Column, q: Queries): Option<Pattern>
  {
    if ToUpper(col.ty) == "VARCHAR" then FirstPattern(Sample(q.sampleRows, col.name), q.matches) else None
  }

  /** The health record of one column. */
  function ColumnReport(col: Column, q: Queries, results: map<string, nat>): (h: ColumnHealth)
    ensures h.name == col.name && h.ty == col.ty
    ensures h.nullCount == q.rowCount - q.stats(col.name).count
    ensures 50 <= h.score <= 100
  {
    var count := q.stats(col.name).count;
    var nullPercent := NullPercent(q.rowCount, count);
    var outliers := OutlierCount(col, results);
    ColumnHealth(col.name, col.ty, q.rowCount - count, nullPercent, q.stats(col.name).unique,
                 ColumnScore(nullPercent, outliers), outliers, DetectedPattern(col, q))
  }

  /** The records by name; a later column of the same name replaces an
      earlier one. */
  function HealthMap(columns: seq<Column>, q: Queries, results: map<string, nat>): (r: map<string, ColumnHealth>)
    decreases |columns|
  {
    if columns == [] then map[]
    else
      var col := columns[|columns| - 1];
      HealthMap(columns[..|columns| - 1], q, results)[col.name := ColumnReport(col, q, results)]
  }

  /** The map has a record for every column name and no other, and the
      record under a name is that of the last column with the name. */
  lemma {:induction false} HealthMapEntries(columns: seq<Column>, q: Queries, results: map<string, nat>, i: nat)
    requires i < |columns|
    requires forall j :: i < j < |columns| ==> columns[j].name != columns[i].name
    ensures columns[i].name in HealthMap(columns, q, results)
    ensures HealthMap(columns, q, results)[columns[i].name] == ColumnReport(columns[i], q, results)
    decreases |columns|
  {
    if i < |columns| - 1 {
      HealthMapEntries(columns[..|columns| - 1], q, results, i);
    }
  }

  lemma {:induction false} HealthMapKeys(columns: seq<Column>, q: Queries, results: map<string, nat>, n: string)
    ensures n in HealthMap(columns, q, results) <==> exists c :: c in columns && c.name == n
    decreases |columns|
  {
    if columns != [] {
      var init := columns[..|columns| - 1];
      HealthMapKeys(init, q, results, n);
      assert columns == init + [columns[|columns| - 1]];
    }
  }

  /** The sum of the column scores. */
  function TotalScore(columns: seq<Column>, q: Queries, results: map<string, nat>): (r: int)
    decreases |columns|
  {
    if columns == [] then 0
    else TotalScore(columns[..|columns| - 1], q, results) + ColumnReport(columns[|columns| - 1], q, results).score
  }

  lemma {:induction false} TotalScoreBounds(columns: seq<Column>, q: Queries, results: map<string, nat>)
    ensures 50 * |columns| <= TotalScore(columns, q, results) <= 100 * |columns|
    decreases |columns|
  {
    if columns != [] {
      TotalScoreBounds(columns[..|columns| - 1], q, results);
    }
  }

  /** The outlier warnings, in column order. */
  function Warnings(columns: seq<Column>, results: map<string, nat>): seq<Warning>
    decreases |columns|
  {
    if columns == [] then []
    else
      Warnings(columns[..|columns| - 1], results) + ColumnWarning(columns[|columns| - 1], results)
  }

  /** A column's warning, when it has outliers. */
  function ColumnWarning(col: Column, results: map<string, nat>): (r: seq<Warning>)
    ensures |r| <= 1
    ensures r != [] <==> OutlierCount(col, results) > 0
  {
    var n := OutlierCount(col, results);
    if n > 0 then [Outliers(col.name, n)] else []
  }

  /** `Math.round`: the nearest integer, halves rounded up. */
  function Round(x: real): (r: int)
    ensures x - 0.5 < r as real <= x + 0.5
  {
    (x + 0.5).Floor
  }

  function OverallScore(total: int, n: nat): (r: Overall)
    ensures n == 0 <==> r.NotANumber?
  {
    if n == 0 then NotANumber else Score(Round(total as real / n as real))
  }

  /** With at least one column the overall score lies within 50..100. */
  lemma {:induction false} OverallBounds(columns: seq<Column>, q: Queries, results: map<string, nat>)
    requires columns != []
    ensures 50 <= OverallScore(TotalScore(columns, q, results), |columns|).value <= 100
  {
    TotalScoreBounds(columns, q, results);
    MeanBounds(TotalScore(columns, q, results) as real, |columns| as real, 50.0, 100.0);
  }

  predicate EndsWith(s: string, suffix: string)
  {
    |suffix| <= |s| && s[|s| - |suffix|..] == suffix
  }

  /** The scan is run for a file that is not an Excel workbook. */
  predicate Scans(file: FileInput)
  {
    file.File? && !EndsWith(file.name, ".xlsx")
  }

  /** The broken-row issues: one per jagged row found, none when the scan
      is skipped or fails. */
  function CriticalIssues(file: FileInput): (r: seq<Critical>)
    ensures !Scans(file) || file.scan.ScanFailed? ==> r == []
    ensures Scans(file) && file.scan.Scanned? ==>
      (|r| == |file.scan.errors|
       && forall i :: 0 <= i < |r| ==> r[i] == BrokenRow(file.scan.errors[i].row, file.scan.errors[i].expected, file.scan.errors[i].actual))
  {
    if Scans(file) && file.scan.Scanned? then BrokenRows(file.scan.errors) else []
  }

  function BrokenRows(errors: seq<Sniffer.JaggedRowError>): (r: seq<Critical>)
    ensures |r| == |errors|
    ensures forall i :: 0 <= i < |r| ==> r[i] == BrokenRow(errors[i].row, errors[i].expected, errors[i].actual)
    decreases |errors|
  {
    if errors == [] then []
    else
      var e := errors[|errors| - 1];
      BrokenRows(errors[..|errors| - 1]) + [BrokenRow(e.row, e.expected, e.actual)]
  }

  /** The read-back of the outlier counts (`outlierCols.forEach`). */
  method ReadOutlierResults(outlierCols: seq<string>, outlierOf: string -> nat) returns (outlierResults: map<string, nat>)
    ensures outlierResults == OutlierResults(outlierCols, outlierOf)
  {
    outlierResults := map[];
    var j := 0;
    while j < |outlierCols|
      invariant 0 <= j <= |outlierCols|
      invariant outlierResults == OutlierResults(outlierCols[..j], outlierOf)
    {
      outlierResults := outlierResults[outlierCols[j] := outlierOf(outlierCols[j])];
      j := j + 1;
    }
    assert outlierCols[..j] == outlierCols;
  }

  /** The body of the column loop: the record, the score added to the total
      and the warning pushed. */
  method AssessColumn(col: Column, q: Queries, outlierResults: map<string, nat>)
    returns (health: ColumnHealth, score: int, warned: seq<Warning>)
    ensures health == ColumnReport(col, q, outlierResults) && score == health.score
    ensures warned == ColumnWarning(col, outlierResults)
  {
    var count := q.stats(col.name).count;
    var unique := q.stats(col.name).unique;
    var nullCount := q.rowCount - count;
    var nullPercent := if q.rowCount > 0 then (nullCount as real / q.rowCount as real) * 100.0 else 0.0;

    score := 100;
    if nullPercent > 10.0 {
      score := score - 10;
    }
    if nullPercent > 50.0 {
      score := score - 30;
    }

    var outlierCount := 0;
    warned := [];
    if IsNumeric(col) {
      if col.name in outlierResults {
        outlierCount := outlierResults[col.name];
        if outlierCount > 0 {
          score := score - Min(outlierCount, 10);
          warned := [Outliers(col.name, outlierCount)];
        }
      }
    }

    var detectedPattern := None;
    if ToUpper(col.ty) == "VARCHAR" {
      var values := SampleValues(q.sampleRows, col.name);
      detectedPattern := DetectPattern(values, q.matches);
    }
    health := ColumnHealth(col.name, col.ty, nullCount, nullPercent, unique, score, outlierCount, detectedPattern);
  }

  /** The structural check: one issue per broken row of a scanned file. */
  method CollectCritical(file: FileInput) returns (critical: seq<Critical>)
    ensures critical == CriticalIssues(file)
  {
    critical := [];
    if file.File? && !EndsWith(file.name, ".xlsx") {
      match file.scan
      case ScanFailed =>
      case Scanned(errors) =>
        var k := 0;
        while k < |errors|
          invariant 0 <= k <= |errors|
          invariant critical == BrokenRows(errors[..k])
        {
          assert errors[..k + 1][..k] == errors[..k];
          critical := critical + [BrokenRow(errors[k].row, errors[k].expected, errors[k].actual)];
          k := k + 1;
        }
        assert errors[..k] == errors;
    }
  }

  /** One more column extends the records, the warnings and the total. */
  lemma {:induction false} ColumnStep(columns: seq<Column>, q: Queries, results: map<string, nat>, i: nat)
    requires i < |columns|
    ensures HealthMap(columns[..i + 1], q, results) == HealthMap(columns[..i], q, results)[columns[i].name := ColumnReport(columns[i], q, results)]
    ensures Warnings(columns[..i + 1], results) == Warnings(columns[..i], results) + ColumnWarning(columns[i], results)
    ensures TotalScore(columns[..i + 1], q, results) == TotalScore(columns[..i], q, results) + ColumnReport(columns[i], q, results).score
  {
    assert columns[..i + 1][..i] == columns[..i];
  }

  /** `analyzeHealth`: the outlier preparation loop, the outlier read-back,
      the column loop, the jagged-row issues and the overall score. */
  method AnalyzeHealth(columns: seq<Column>, q: Queries, file: FileInput) returns (report: HealthReport)
    ensures report.rowCount == q.rowCount
    ensures report.columnHealth == HealthMap(columns, q, OutlierResults(OutlierColumns(columns, q.stats), q.outlierOf))
    ensures report.warning == Warnings(columns, OutlierResults(OutlierColumns(columns, q.stats), q.outlierOf))
    ensures report.critical == CriticalIssues(file)
    ensures report.overallScore
      == OverallScore(TotalScore(columns, q, OutlierResults(OutlierColumns(columns, q.stats), q.outlierOf)), |columns|)
  {
    var outlierCols := CollectOutlierColumns(columns, q.stats);
    var outlierResults := ReadOutlierResults(outlierCols, q.outlierOf);

    var columnHealth: map<string, ColumnHealth> := map[];
    var warning: seq<Warning> := [];
    var totalColumnScore := 0;
    var i := 0;
    while i < |columns|
      invariant 0 <= i <= |columns|
      invariant columnHealth == HealthMap(columns[..i], q, outlierResults)
      invariant warning == Warnings(columns[..i], outlierResults)
      invariant totalColumnScore == TotalScore(columns[..i], q, outlierResults)
    {
      var col := columns[i];
      var health, score, warned := AssessColumn(col, q, outlierResults);
      ColumnStep(columns, q, outlierResults, i);
      warning := warning + warned;
      columnHealth := columnHealth[col.name := health];
      totalColumnScore := totalColumnScore + score;
      i := i + 1;
    }
    assert columns[..i] == columns;

    var critical := CollectCritical(file);
    var overallScore := if |columns| == 0 then NotANumber else Score(Round(totalColumnScore as real / |columns| as real));
    report := HealthReport(overallScore, q.rowCount, columnHealth, critical, warning);
  }
}
