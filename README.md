# Data_Eater core logic in Dafny

Data_Eater is a browser tool for CSV and JSON data. This project models the
deterministic logic at its core and proves properties about that logic:

- **File sniffing** (`src/lib/sniffer.ts`):
  - the byte-level UTF-8 heuristic `isUtf8`;
  - the delimiter scorer `detectDelimiter`;
  - the format, newline and header decisions of `sniffFile`;
  - the quote-aware column counter `getColCount`;
  - the scan of `detectJaggedRows`.
- **The sniffer benchmarks' alternative counters and detectors**:
  - the char-toggle counter (`getColCountCurrent`, `getColCountNew`);
  - the index-jumping counters (`getColCountIndexOf`, `getColCountIndexOfOpt`);
  - the regex strip-and-split counter (`getColCountOld`, `getColCountOriginal`);
  - the span-skipping counter (`getColCountOptimized`);
  - the split/filter/slice detector `detectDelimiterOriginal`.
- **The lazy row view** `LazyArrowResult`. It is an immutable table plus a
  class whose methods materialize rows on request. A row proxy is converted
  to a fresh object on every access, so identity comparison is observable.
- **Export chunk assembly**:
  - `generateExport` dispatch, `normalizeRows` batching, `exportCSV` and
    `exportJSON` (`src/services/exportService.ts`);
  - the CSV export worker (`src/workers/csvExportWorker.ts`);
  - `generateCsv` (`src/lib/csvUtils.ts`) and the CSV worker
    (`src/workers/csvWorker.ts`).
- **Small rules**:
  - search-column relevance (`getRelevantColumns`);
  - unique column names (`generateUniqueNames`);
  - the geocoding TTL cache. Its store is a `map` field of a `Storage` object
    and the clock is a parameter.
  - the per-column health scoring of `analyzeHealth`.

The modules, one per file:

| module | file | models |
|---|---|---|
| `Strings` | strings.dfy | JavaScript string operations used throughout: `split`, `join`, `indexOf`, `trim`, ASCII case mapping, `includes` |
| `Utf8Sniff` | utf8.dfy | `isUtf8`, against the strict grammar of section 4 of RFC 3629 |
| `ColumnCount` | col_count.dfy | the reference column count, the shipped counter, the index-jumping counter and the toggle counter |
| `QuoteStrip` | quote_strip.dfy | the regex strip-and-split counter and the span-skipping counter |
| `DelimiterDetect` | delimiter.dfy | line sampling, exact scoring and the choice loop of both detectors |
| `Sniffer` | sniffer.dfy | `sniffFile`'s decisions and `detectJaggedRows` |
| `LazyView` | lazy_view.dfy | `LazyArrowResult` and its iterator |
| `CsvFields` | csv_fields.dfy | values, row objects, field quoting, batching, blob packaging |
| `ExportService` | export_service.dfy | `generateExport`, `normalizeRows`, `exportCSV`, `exportJSON` |
| `CsvExportWorker` | csv_export_worker.dfy | the CSV export worker |
| `CsvUtils` | csv_utils.dfy | `generateCsv` |
| `CsvWorker` | csv_worker.dfy | the CSV worker |
| `SearchUtils` | search_utils.dfy | `getRelevantColumns` |
| `UniqueNames` | unique_names.dfy | `generateUniqueNames` |
| `GeoCache` | cache.dfy | `getCache`, `setCache`, `clearCache` |
| `HealthService` | health.dfy | the per-column scoring, pattern detection and overall score of `analyzeHealth` |

Three of the shipped counters are proved equal to the reference count
`ColumnCount.ColCount`: the counter in `detectJaggedRows` (the same code as
`getColCountIndexOfOpt`), `getColCountIndexOf`, and the toggle counter
(`getColCountCurrent` and `getColCountNew`). The count is one plus the number
of delimiter occurrences that follow an even number of `"`.

The regex strip-and-split counter differs from the toggle counter by exactly
the number of delimiters that follow the last, unclosed quote. The two
therefore agree on every line with an even number of quotes.

The span-skipping counter equals the strip-and-split counter for every
non-empty delimiter that contains no `"`.

Where the code and its description differ, the model follows the code:

- `detectJaggedRows` keeps lines whose *trimmed* text is non-empty.
  `detectDelimiter`, by contrast, keeps lines of non-zero length.
- `getColCount` moves one character past the start of a delimiter match. For
  a multi-character delimiter it therefore counts overlapping occurrences:
  `a:::b` with `::` counts 3. The strip-and-split counter counts
  non-overlapping occurrences and gives 2. Callers only pass single-character
  delimiters.

## Model

| member | source | states |
|---|---|---|
| Utf8Sniff.IsUtf8 | src/lib/sniffer.ts:23-49 | the loop's answer is the scan predicate `LooksUtf8`, which the lemmas below characterize |
| Utf8Sniff.ContinuationRange | src/lib/sniffer.ts:43 | `b & 0xC0 == 0x80` holds exactly for bytes 0x80–0xBF |
| Utf8Sniff.AsciiAccepted | src/lib/sniffer.ts:26-30 | a byte sequence whose bytes are all at most 0x7F is accepted from every position |
| Utf8Sniff.BadLeadRejected | src/lib/sniffer.ts:33 | after any run of whole characters as the scan reads them (`WholeChars`, which admits overlong forms and surrogates), a byte in 0x80–0xC1 or at least 0xF5 at a sequence start makes the whole input rejected, whatever follows |
| Utf8Sniff.BadContinuationRejected | src/lib/sniffer.ts:42-44 | after any run of whole characters as the scan reads them, a lead byte in 0xC2–0xF4 with its announced bytes present and one of them outside 0x80–0xBF makes the input rejected |
| Utf8Sniff.TruncatedAccepted | src/lib/sniffer.ts:40 | after any run of whole characters as the scan reads them, a lead byte in 0xC2–0xF4 whose sequence runs past the end is accepted without inspecting the remaining bytes |
| Utf8Sniff.ScanOverWhole | src/lib/sniffer.ts:26-46 | the scan steps over whole characters (ASCII, or a lead byte in 0xC2–0xF4 with all its continuation bytes) without reaching a verdict, whatever follows them |
| Utf8Sniff.StrictPrefixWhole | src/lib/sniffer.ts:23-49 | well-formed UTF-8 by section 4 of RFC 3629 is a run of whole characters, so the three verdicts above hold in particular after well-formed text |
| Utf8Sniff.StrayAfterOverlongRejected | src/lib/sniffer.ts:33 | `E0 80 80 80` is rejected: the overlong `E0 80 80` is stepped over and the lone 0x80 after it fails as a lead byte |
| Utf8Sniff.TruncatedExample | src/lib/sniffer.ts:40 | `[0xE0, 0xF5]` is accepted |
| Utf8Sniff.StrictAccepted | src/lib/sniffer.ts:23-49 | every sequence that is well-formed UTF-8 by section 4 of RFC 3629 is accepted |
| Utf8Sniff.StrictPrefixAccepted | src/lib/sniffer.ts:40 | every prefix of well-formed UTF-8 is accepted, so cutting the file at 16 KiB never turns UTF-8 into windows-1252 |
| Utf8Sniff.LighterThanRfc | src/lib/sniffer.ts:36-44 | the overlong `E0 80 80` and the surrogate `ED A0 80` are accepted though RFC 3629 forbids them |
| ColumnCount.CharsBelowCount | benchmarks/sniffer_loop_bench.js:12-18 | the toggle state after a prefix is the parity of the number of quotes in that prefix |
| ColumnCount.SingleCharHit | benchmarks/sniffer_loop_bench.js:13-17 | a position counts iff it holds the delimiter, the delimiter is not `"`, and an even number of quotes precede it |
| ColumnCount.OddQuotesNeverCount | src/lib/sniffer.ts:192-199 | a delimiter that follows an odd number of quotes never counts |
| ColumnCount.EmptyLineOneColumn | src/lib/sniffer.ts:186-191 | the empty line has one column, for every delimiter |
| ColumnCount.ColCountBounds | benchmarks/jagged_rows_bench.js:13-24 | the count lies between 1 and 1 + the number of delimiter characters in the line |
| ColumnCount.ColCountConcat | benchmarks/jagged_rows_bench.js:13-24 | after a prefix with balanced quotes, the counts of the two parts add up, less the shared first column |
| ColumnCount.NoDelimiterLeft | src/lib/sniffer.ts:202-206 | when no delimiter occurs from `i` on, no later position counts |
| ColumnCount.DelimiterFirst | src/lib/sniffer.ts:208-213 | outside quotes, a delimiter before the next quote counts once, and the quote parity after it stays even |
| ColumnCount.QuoteFirst | src/lib/sniffer.ts:214-218 | outside quotes, a quote that comes first opens a quoted stretch without counting anything |
| ColumnCount.NoClosingQuote | src/lib/sniffer.ts:193-197 | inside an unclosed quote nothing later counts |
| ColumnCount.ClosingQuote | src/lib/sniffer.ts:193-199 | inside quotes, jumping past the next quote counts nothing and ends with even parity |
| ColumnCount.CloseStep | src/lib/sniffer.ts:193-199 | leaving quotes at the closing quote keeps the scan state exact: even parity after it and the count unchanged |
| ColumnCount.CountStep | src/lib/sniffer.ts:208-213 | counting a delimiter outside quotes moves the exact scan state one past it with one column more |
| ColumnCount.OpenStep | src/lib/sniffer.ts:214-218 | jumping past an opening quote moves the exact scan state inside quotes without counting |
| ColumnCount.StopEarly | src/lib/sniffer.ts:195-206 | an early return with no closing quote or no delimiter left already holds the final column count |
| ColumnCount.ToggleStep | benchmarks/sniffer_loop_bench.js:12-18 | one character of the toggle scan: a quote flips the quote state, a delimiter outside quotes adds a column, anything else changes neither |
| ColumnCount.GetColCount | src/lib/sniffer.ts:185-222 | the shipped index-jumping counter (also `getColCountIndexOfOpt`) returns the reference count for every non-empty delimiter; the loop terminates because `i` strictly increases |
| ColumnCount.IndexOfCount | benchmarks/sniffer_loop_bench.js:23-60 | `getColCountIndexOf` returns the same reference count, so it equals the toggle counter |
| ColumnCount.ToggleCount | benchmarks/sniffer_loop_bench.js:9-20 | the char-toggle counter (also `getColCountNew`) returns the reference count for every single-character delimiter, so it equals the shipped counter |
| ColumnCount.FixturesPlain | benchmarks/jagged_rows_bench.js:28-37 | `val1,val2,val3` → 3, `""` → 1, `,,` → 3, `"","",""` → 3 |
| ColumnCount.QuotedMiddle | benchmarks/jagged_rows_bench.js:29-30 | a middle field wrapped in quotes holding no quote counts as one field, whatever delimiters it holds |
| ColumnCount.DoubledMiddle | benchmarks/sniffer_loop_bench.js:12-14 | a doubled quote toggles twice, so a field made of two adjacent quoted parts counts as one |
| ColumnCount.FixtureQuotedField | benchmarks/jagged_rows_bench.js:29 | `val1,"val2",val3` → 3 |
| ColumnCount.FixtureDelimiterInQuotes | benchmarks/jagged_rows_bench.js:30 | `val1,"val,2",val3` → 3 |
| ColumnCount.FixtureDoubledQuote | benchmarks/jagged_rows_bench.js:31 | `val1,"val""2",val3` → 3 |
| ColumnCount.FixtureDoubledQuoteDelimiter | benchmarks/jagged_rows_bench.js:32 | `val1,"val""2,val3",val4` → 3 |
| ColumnCount.FixtureUnclosedQuote | benchmarks/jagged_rows_bench.js:33 | `val1,"broken,val2` → 2 |
| ColumnCount.FixtureStrayQuote | benchmarks/jagged_rows_bench.js:34 | `broken",val2,val3` → 1 |
| QuoteStrip.OccurrencesChar | benchmarks/sniffer_bench.js:36-39 | the non-overlapping occurrences of a one-character delimiter are its character count |
| QuoteStrip.SplitCountChar | benchmarks/jagged_rows_bench.js:9 | the field count used for strings is the length of `split` on a character |
| QuoteStrip.StripQuoteFreeLine | benchmarks/jagged_rows_bench.js:8 | a line without quotes is left unchanged by the quote-span replacement |
| QuoteStrip.StripNoQuote | benchmarks/jagged_rows_bench.js:8 | a quote-free tail passes through the replacement unchanged |
| QuoteStrip.StripAtPair | benchmarks/jagged_rows_bench.js:8 | a quote with a later closing quote is replaced, together with the span between them, by `""` |
| QuoteStrip.OneQuoteDangling | benchmarks/jagged_rows_bench.js:8 | in a line with a single quote, the text left after the last unclosed quote is everything after it |
| QuoteStrip.StripCountVersusColCount | benchmarks/jagged_rows_bench.js:7-24 | the strip-and-split count is the toggle count plus the number of delimiters after the last unclosed quote |
| QuoteStrip.EvenQuotesAgree | benchmarks/jagged_rows_bench.js:53-56 | on every line with an even number of quotes the old and new counters agree |
| QuoteStrip.FixtureOldUnclosedQuote | benchmarks/jagged_rows_bench.js:33 | the old counter gives 3 on `val1,"broken,val2`, where the new one gives 2 |
| QuoteStrip.FixtureOldStrayQuote | benchmarks/jagged_rows_bench.js:34 | the old counter gives 3 on `broken",val2,val3`, where the new one gives 1 |
| QuoteStrip.MultiCharDelimiter | benchmarks/sniffer_bench.js:40-45 | on `a:::b` with `::` the strip-and-split count is 2 (non-overlapping) while the shipped counter's reference count is 3 |
| QuoteStrip.SkipClosedSpan | benchmarks/sniffer_bench.js:27-33 | jumping from a quote past its closing quote leaves the remaining count unchanged |
| QuoteStrip.PassUnclosedQuote | benchmarks/sniffer_bench.js:27-34 | an unclosed quote is an ordinary character; later delimiters still count |
| QuoteStrip.PassDelimiter | benchmarks/sniffer_bench.js:40-45 | a delimiter occurrence counts once and the scan resumes after the whole delimiter |
| QuoteStrip.PassPlain | benchmarks/sniffer_bench.js:36-46 | any other character is passed over without counting |
| QuoteStrip.SkipSpanStep | benchmarks/sniffer_bench.js:27-33 | a quote with a closing partner sends the scan to just after the partner without counting |
| QuoteStrip.SkipCharStep | benchmarks/sniffer_bench.js:36-46 | any other position compares one character, or matches the whole multi-character delimiter and steps over it |
| QuoteStrip.PairNoOccurrence | benchmarks/jagged_rows_bench.js:8 | the `""` a quoted span becomes holds no occurrence of a quote-free delimiter |
| QuoteStrip.SpanSkipCount | benchmarks/sniffer_bench.js:15-49 | returns at least 1 and equals the strip-and-split count for every non-empty quote-free delimiter, single- or multi-character |
| DelimiterDetect.DropCr | src/lib/sniffer.ts:67-69 | at most one trailing carriage return is removed |
| DelimiterDetect.SplitLinesPieces | benchmarks/sniffer_opt_bench.cjs:7 | no piece of `split(/\r?\n/)` holds a line feed |
| DelimiterDetect.SplitLinesAt | benchmarks/sniffer_opt_bench.cjs:37-53 | one index-scan step yields the first piece of the regex split, kept iff non-empty, and the rest of the split continues at the next start |
| DelimiterDetect.SampleFromTake | benchmarks/sniffer_opt_bench.cjs:33-54 | the index-scan extraction from any start yields the first non-empty pieces of the regex split, at most 10 |
| DelimiterDetect.NextLine | src/lib/sniffer.ts:59-71 | one loop step yields the text up to the next line feed, less a `\r` before that feed (a last line without a feed keeps its `\r`), and a next start that is always further on |
| DelimiterDetect.CollectLines | src/lib/sniffer.ts:55-76 | the collected lines are exactly `split(/\r?\n/).filter(nonEmpty).slice(0, 10)`; the loop stops at 10 lines |
| DelimiterDetect.FieldCounts | src/lib/sniffer.ts:85 | each line's `split(delim).length` is 1 + the number of delimiter characters in it |
| DelimiterDetect.MeanAboveOne | src/lib/sniffer.ts:86-89 | the average `S / n` exceeds 1 iff `S > n` |
| DelimiterDetect.SumAboveCount | src/lib/sniffer.ts:85-89 | the field counts sum to more than the number of lines iff some line holds the delimiter |
| DelimiterDetect.MeanAboveOneIff | src/lib/sniffer.ts:86-89 | a candidate passes the `avg > 1` test iff it occurs in some sampled line |
| DelimiterDetect.UniformScore | src/lib/sniffer.ts:91-95 | when every line holds the delimiter `c` times the variance is zero and the score is `10·(c+1)`; it is eligible when `c > 0` |
| DelimiterDetect.KeepBest | src/lib/sniffer.ts:89-100 | a candidate that is ineligible or does not beat the best score strictly leaves the best candidate unchanged |
| DelimiterDetect.NewBest | src/lib/sniffer.ts:97-100 | an eligible candidate with a strictly higher score becomes the best |
| DelimiterDetect.BestUnique | src/lib/sniffer.ts:80-101 | at most one candidate is the earliest strict maximum |
| DelimiterDetect.ChoiceFrom | src/lib/sniffer.ts:83-101 | resuming the loop at any candidate ends at the earliest strict maximum among eligible candidates, or at `,` |
| DelimiterDetect.ChoiceIndex | src/lib/sniffer.ts:80-103 | the loop over all four candidates settles on the earliest strict maximum, or on `,` when none is eligible |
| DelimiterDetect.ChosenDelimiter | src/lib/sniffer.ts:52-103 | the result is always one of `,` `;` TAB `\|`, and `,` for an empty sample |
| DelimiterDetect.PickDelimiter | src/lib/sniffer.ts:80-103 | the scoring loop, started at best score 0 with `,`, returns the chosen delimiter |
| DelimiterDetect.DetectDelimiter | src/lib/sniffer.ts:51-104 | `detectDelimiter` returns the delimiter chosen for the sampled lines |
| DelimiterDetect.DetectDelimiterOriginal | benchmarks/sniffer_opt_bench.cjs:5-27 | `detectDelimiterOriginal` returns the same delimiter as the optimized detector on every text |
| DelimiterDetect.AbsentNotEligible | src/lib/sniffer.ts:86-89 | a candidate that occurs in no sampled line is skipped |
| DelimiterDetect.AbsentNeverChosen | src/lib/sniffer.ts:83-103 | a candidate other than `,` that occurs in no sampled line is never returned |
| DelimiterDetect.OnlyEligibleChosen | src/lib/sniffer.ts:83-103 | when exactly one candidate has avg > 1 and a positive score, it is returned |
| DelimiterDetect.UniformChosen | src/lib/sniffer.ts:83-103 | a candidate occurring equally often in every line, with no other candidate present, is returned |
| DelimiterDetect.SemicolonSample | benchmarks/sniffer_opt_bench.cjs:117-122 | a semicolon-separated sample gives `;` |
| Sniffer.JsonProbe | src/lib/sniffer.ts:128 | the text handed to `JSON.parse` is the first 10000 characters plus one closing bracket |
| Sniffer.FormatByFirst | src/lib/sniffer.ts:124-134 | a trimmed text is JSON iff its first character is `[` or `{`, whatever `JSON.parse` answers |
| Sniffer.FormatIgnoresParse | src/lib/sniffer.ts:124-134 | the format does not depend on whether `JSON.parse` succeeds; it is JSON iff the first non-whitespace character is `[` or `{` |
| Sniffer.DetectNewline | src/lib/sniffer.ts:140 | the newline is one of `\r\n`, `\r`, `\n` |
| Sniffer.NewlineOccurs | src/lib/sniffer.ts:140 | the reported newline occurs in the text iff the text holds any line break; `\r` is reported only when `\r\n` does not occur |
| Sniffer.Sniff | src/lib/sniffer.ts:112-151 | encoding from `isUtf8`; format as above; delimiter empty iff the format is JSON, otherwise the detected one; newline as above; `hasHeader` always true |
| Sniffer.Preview | src/lib/sniffer.ts:237 | the content preview is the first 50 characters, plus `...` when the line is longer |
| Sniffer.SafeDelimiter | src/lib/sniffer.ts:181 | the delimiter used is never empty: the given one, or the one detected on the first line |
| Sniffer.Limit | src/lib/sniffer.ts:228 | at most `min(n, 1000)` lines are scanned |
| Sniffer.MismatchesAppend | src/lib/sniffer.ts:230-242 | the mismatches over two adjacent row ranges are the concatenation of each range's mismatches |
| Sniffer.MismatchesShape | src/lib/sniffer.ts:230-238 | each reported error lies in the scanned range, carries that line's actual count and preview, differs from the expected count, and rows strictly increase |
| Sniffer.HasRowAppend | src/lib/sniffer.ts:233-238 | a row is reported in two concatenated report lists iff it is reported in one of them |
| Sniffer.LastRowReported | src/lib/sniffer.ts:230-233 | the last row of a scanned range is reported iff its count differs |
| Sniffer.EarlierRowReported | src/lib/sniffer.ts:230-233 | scanning one more row does not change whether an earlier row is reported |
| Sniffer.MismatchesComplete | src/lib/sniffer.ts:230-233 | every scanned row whose count differs from the first line's is reported, and no other row |
| Sniffer.ReportShape | src/lib/sniffer.ts:175-242 | at most 5 errors; none for fewer than 2 non-blank lines; rows within 2..min(n,1000), strictly increasing, each with actual ≠ expected |
| Sniffer.ScanRows | src/lib/sniffer.ts:224-242 | the scan loop returns the first five mismatches among the first `limit` lines, stopping early |
| Sniffer.ReportRows | src/lib/sniffer.ts:178-244 | the report over the non-blank lines, with the first line's count as the expected count |
| Sniffer.DetectJaggedRows | src/lib/sniffer.ts:173-244 | the errors for a decoded text are the report over its non-blank lines |
| Sniffer.JaggedExample | src/lib/sniffer.ts:224-242 | `a,b`/`1,2`/`3,4,5` reports exactly row 3, expecting 2 and finding 3 |
| LazyView.Relative | src/lib/LazyArrowResult.ts:116-125 | a relative slice index lands in `[0, len]`: negative values count from the end |
| LazyView.OverlongSlice | src/lib/LazyArrowResult.ts:119-124 | `slice(0, N + 100)` on length N spans all N rows |
| LazyView.NegativeSlice | src/lib/LazyArrowResult.ts:116-123 | `-2` on length 5 is index 3, and `-9` clamps to 0 |
| LazyView.LazyArrowResult.RowAt | src/lib/LazyArrowResult.ts:57-63 | an index outside `[0, length)` gives `undefined` |
| LazyView.LazyArrowResult.Rows | src/lib/LazyArrowResult.ts:159-161 | full materialization has one row per index, in index order |
| LazyView.LazyArrowResult.GetRow | src/lib/LazyArrowResult.ts:57-63 | `undefined` out of range; a row proxy becomes a fresh object with its `toJSON()` content; a value without `toJSON` is returned as it is |
| LazyView.LazyArrowResult.Map | src/lib/LazyArrowResult.ts:77-84 | the result has `length` elements, element i being `callback(row i, i)` |
| LazyView.LazyArrowResult.ToJson | src/lib/LazyArrowResult.ts:159-161 | `toJSON()` is every row materialized in index order |
| LazyView.LazyArrowResult.ForEach | src/lib/LazyArrowResult.ts:86-91 | the callback is invoked once per index, in order, with that row |
| LazyView.LazyArrowResult.Filter | src/lib/LazyArrowResult.ts:93-103 | the result is the in-order list of the rows the callback accepts |
| LazyView.LazyArrowResult.FilterSound | src/lib/LazyArrowResult.ts:96-100 | every kept row is a row at some index that the callback accepted |
| LazyView.LazyArrowResult.FilterComplete | src/lib/LazyArrowResult.ts:96-100 | every accepted row is kept |
| LazyView.LazyArrowResult.FilterAll | src/lib/LazyArrowResult.ts:93-103 | a callback that accepts everything returns every row |
| LazyView.LazyArrowResult.Reduce | src/lib/LazyArrowResult.ts:105-112 | `reduce` is the left fold over indices `0..length-1` |
| LazyView.LazyArrowResult.ReduceCounts | src/lib/LazyArrowResult.ts:105-112 | counting with `reduce` gives the length |
| LazyView.LazyArrowResult.Slice | src/lib/LazyArrowResult.ts:114-134 | returns `max(0, end' − start')` rows, row i being the row at `start' + i`, with both ends relative and clamped |
| LazyView.LazyArrowResult.FirstFound | src/lib/LazyArrowResult.ts:141-144 | the first index from `k` whose row is `===` to the element, or −1 when none is |
| LazyView.LazyArrowResult.FirstFoundAt | src/lib/LazyArrowResult.ts:141-144 | an index where the element is found, with no match before it, is the one returned |
| LazyView.LazyArrowResult.IndexOf | src/lib/LazyArrowResult.ts:136-145 | −1 when `fromIndex ≥ length`; otherwise the first identity match from the clamped start |
| LazyView.LazyArrowResult.MaterializedNotFound | src/lib/LazyArrowResult.ts:142 | an object is never found unless the table holds it as a raw value, because row proxies yield fresh objects |
| LazyView.LazyArrowResult.Includes | src/lib/LazyArrowResult.ts:147-149 | true iff `indexOf` would find the element |
| LazyView.LazyArrowResult.Sort | src/lib/LazyArrowResult.ts:151-153 | `sort` always fails with the read-only message; the table is immutable, so it stays untouched |
| LazyView.LazyArrowResult.FirstMatch | src/lib/LazyArrowResult.ts:164-171 | the first index whose row passes the predicate, or −1 |
| LazyView.LazyArrowResult.FirstMatchAt | src/lib/LazyArrowResult.ts:164-171 | the first passing index is the one returned |
| LazyView.LazyArrowResult.Find | src/lib/LazyArrowResult.ts:163-172 | `find` returns the first passing row, or `undefined` |
| LazyView.LazyArrowResult.Every | src/lib/LazyArrowResult.ts:174-182 | true iff every row passes |
| LazyView.LazyArrowResult.Some | src/lib/LazyArrowResult.ts:184-192 | true iff some row passes |
| LazyView.LazyArrowResult.Spread | src/lib/LazyArrowResult.ts:65-75 | draining the iterator yields every row in index order |
| LazyView.RowIterator.Next | src/lib/LazyArrowResult.ts:68-73 | yields the row at the index and advances it while rows remain; afterwards reports done with `undefined` |
| CsvFields.Keys | src/lib/csvUtils.ts:3 | `Object.keys` lists the property names in property order |
| CsvFields.Values | src/lib/csvUtils.ts:4 | `Object.values` lists the property values in property order |
| CsvFields.Lookup | src/services/exportService.ts:291 | `row[name]` is the value of the property with that name, `undefined` when there is none |
| CsvFields.DoubleQuotes | src/workers/csvExportWorker.ts:31 | doubling quotes lengthens the text by its number of quotes |
| CsvFields.SplitJoinDoubles | src/services/exportService.ts:294 | `split('"').join('""')` produces the same text as `replaceAll('"', '""')` |
| CsvFields.FieldRoundTrip | src/services/exportService.ts:294 | a quoted field reads back as its text under RFC 4180 section 2 rule 7 |
| CsvFields.UnquotedDoubled | src/services/exportService.ts:294 | the body of a quoted field, with its quotes doubled, reads back as the text |
| CsvFields.FieldText | src/services/exportService.ts:291-294 | a field reads back as `String(value)`, and as the empty text for `null` or `undefined` |
| CsvFields.HeaderCell | src/services/exportService.ts:279 | a header cell is the column name wrapped in quotes, its inner quotes not escaped |
| CsvFields.Lines | src/services/exportService.ts:289-296 | one line per row, in row order |
| CsvFields.BatchTexts | src/services/exportService.ts:288-296 | one text per batch, in batch order |
| CsvFields.RowLineNotEmpty | src/workers/csvExportWorker.ts:26-33 | with at least one column, every row line is non-empty |
| CsvFields.JoinFirst | src/services/exportService.ts:296 | a `join` starts with its first piece |
| CsvFields.BatchesShape | src/services/exportService.ts:104-107 | batches are non-empty, hold at most `size` rows, all but the last exactly `size`; they concatenate to the input; none for an empty input |
| CsvFields.BatchesStep | src/services/exportService.ts:105-106 | each step slices the next `size` rows, or the rest |
| CsvFields.SlicedEnd | src/services/exportService.ts:105-107 | when the index passes the end, the slices taken are the batches |
| CsvFields.JoinBatchTexts | src/services/exportService.ts:288-311 | joining the batch texts with `\n` gives the same text as joining all row lines with `\n` |
| CsvFields.LinesAppend | src/services/exportService.ts:289-296 | the lines of two row lists concatenate |
| CsvFields.IntersperseAt | src/services/exportService.ts:298-311 | in the chunk list, even positions hold the texts in order and odd positions the separator |
| CsvFields.EncodeAll | src/services/exportService.ts:300-310 | every chunk, separators included, is stored through the chosen encoder |
| CsvFields.Package | src/services/exportService.ts:317-325 | UTF-8 blobs are a BOM followed by the chunks; windows-1252 blobs are the encoded chunks alone |
| CsvFields.PackageStartsWithBom | src/services/exportService.ts:323-324 | a UTF-8 blob's bytes start with EF BB BF |
| ExportService.Dispatch | src/services/exportService.ts:59-100 | `pbip_theme` goes only to the theme export; a table name sends parquet, CSV in UTF-8 and JSON to the database path; CSV in windows-1252 falls through to row CSV; parquet without a table exports `current_dataset` |
| ExportService.NormalizeRows | src/services/exportService.ts:102-113 | the generator yields the array's 2000-row slices, or the async source's chunks as they come |
| ExportService.NormalizedArray | src/services/exportService.ts:102-107 | on an array the batches are non-empty, hold at most 2000 rows, concatenate to the input, and an empty array yields nothing |
| ExportService.AppendBatches | src/services/exportService.ts:288-315 | the batch loop leaves the header and batch texts with a `\n` chunk between any two, each passed through the encoder |
| ExportService.BatchTextsSnoc | src/services/exportService.ts:288-296 | one more batch adds its text at the end |
| ExportService.HeaderBatchesSnoc | src/services/exportService.ts:288-311 | the header and batch texts so far grow by exactly the next batch text |
| ExportService.CsvStep | src/services/exportService.ts:298-311 | a separator is pushed before a batch exactly when some chunk already exists |
| ExportService.ExportCsv | src/services/exportService.ts:267-328 | the blob is the packaged header-and-batch chunks: no leading or trailing separator, BOM only for UTF-8 |
| ExportService.CsvOneShot | src/services/exportService.ts:267-311 | for array input the chunks concatenate to `[header, ...rows].join('\n')` |
| ExportService.CsvHeaderOnly | src/services/exportService.ts:277-285 | a header with no rows is the header alone, with no trailing line feed |
| ExportService.HeaderNotEscaped | src/services/exportService.ts:279 | a column named `a"b` gives the header `"a"b"` |
| ExportService.IndentAll | src/services/exportService.ts:257 | every line gains two leading spaces |
| ExportService.IndentLines | src/services/exportService.ts:256-257 | the indented item's lines are the JSON text's lines, each indented |
| ExportService.JsonItems | src/services/exportService.ts:253-258 | one indented JSON item per row, in row order |
| ExportService.AppendItems | src/services/exportService.ts:252-260 | the row loop pushes `,\n` before every item but the first, and `first` holds until a row is seen |
| ExportService.JsonStep | src/services/exportService.ts:253-259 | one row pushes `,\n` unless it is the first item, then its indented JSON, and `first` becomes false |
| ExportService.FlattenSnoc | src/services/exportService.ts:252-253 | the rows seen so far grow by the next batch |
| ExportService.ExportJson | src/services/exportService.ts:247-265 | the chunks are `[\n`, the items separated by `,\n`, then `\n]` |
| ExportService.JsonText | src/services/exportService.ts:247-265 | for array input the text is `[\n` + the items joined by `,\n` + `\n]` |
| ExportService.GenerateExport | src/services/exportService.ts:59-100 | the request is routed by `Dispatch`; row CSV and row JSON produce the blobs above, with missing rows read as `[]` |
| CsvExportWorker.OnMessage | src/workers/csvExportWorker.ts:9-75 | with its inputs present it posts success with the packaged chunks (BOM only for UTF-8); a missing `columns` array that is mapped, or a missing `rows` array, posts an error |
| CsvExportWorker.AppendBatches | src/workers/csvExportWorker.ts:37-58 | the 5000-row loop leaves the header and the non-empty batch texts with a `\n` chunk between any two |
| CsvExportWorker.PushBatch | src/workers/csvExportWorker.ts:42-57 | an empty batch pushes nothing; otherwise a `\n` is pushed iff `needNewline`, and `needNewline` becomes true |
| CsvExportWorker.KeptSnoc | src/workers/csvExportWorker.ts:50-57 | a batch is kept iff its text is non-empty |
| CsvExportWorker.WorkerStep | src/workers/csvExportWorker.ts:42-57 | a separator precedes a batch exactly when a chunk exists before it and the batch text is non-empty |
| CsvExportWorker.WorkerHeaderOnly | src/workers/csvExportWorker.ts:35-58 | a header with zero rows produces the header alone, with no trailing `\n` |
| CsvExportWorker.WorkerChunksNonEmpty | src/workers/csvExportWorker.ts:50-57 | every pushed chunk except the header is non-empty |
| CsvExportWorker.NonEmptyKeepsAll | src/workers/csvExportWorker.ts:50 | when no batch text is empty, every one is kept |
| CsvExportWorker.WorkerOneShot | src/workers/csvExportWorker.ts:13-58 | with at least one column the chunks concatenate to `[header, ...rows].join('\n')` |
| CsvExportWorker.BuildersAgree | src/workers/csvExportWorker.ts:13-58 | with at least one column the worker's text equals the export service's text |
| CsvExportWorker.BuildersDiffer | src/workers/csvExportWorker.ts:42-50 | with no columns and one row the worker emits `""` while the export service emits `"\n"` |
| CsvUtils.ValueCellReadsBack | src/lib/csvUtils.ts:4 | each value cell reads back, under RFC 4180 section 2 rule 7, as `String(value)` |
| CsvUtils.Cells | src/lib/csvUtils.ts:4 | one quoted cell per value, in the row's own property order |
| CsvUtils.DataLines | src/lib/csvUtils.ts:4 | one line per object, in array order |
| CsvUtils.GenerateCsv | src/lib/csvUtils.ts:1-6 | `''` for `[]`; for a non-empty array it throws iff some element is `null` or `undefined` |
| CsvUtils.CsvLines | src/lib/csvUtils.ts:3-5 | without line feeds in keys and values, the output's lines are the header followed by one line per object |
| CsvUtils.DoubleQuotesAppend | src/lib/csvUtils.ts:4 | quote doubling distributes over concatenation |
| CsvUtils.NoQuotesKept | src/lib/csvUtils.ts:4 | text without quotes is not changed by the doubling |
| CsvUtils.TwoObjects | src/lib/csvUtils.ts:3-5 | two objects give the first's keys joined by `,`, a line feed, and their two value lines |
| CsvUtils.ExampleHeader | benchmarks/csv_logic_test.js:34-44 | the example's header is `name,bio` |
| CsvUtils.ExampleAlice | benchmarks/csv_logic_test.js:35-45 | `{name:'Alice', bio:'Loves "quotes"'}` renders `"Alice","Loves ""quotes"""` |
| CsvUtils.ExampleBob | benchmarks/csv_logic_test.js:36-46 | `{name:'Bob', bio:'Simple guy'}` renders `"Bob","Simple guy"` |
| CsvUtils.TwoRowExample | benchmarks/csv_logic_test.js:34-54 | the whole example text is the header and the two expected lines |
| CsvUtils.NullIsText | src/lib/csvUtils.ts:4 | `null` renders as `"null"` here but as `""` in the export service |
| CsvWorker.OnMessage | src/workers/csvWorker.ts:2-18 | a missing or non-array `data` posts only `Invalid data format`; an array posts the CSV unless an element is `null` or `undefined`, and then the error text |
| CsvWorker.AgreesWithGenerateCsv | src/workers/csvWorker.ts:9-14 | for a non-empty array the posted CSV is `generateCsv`'s text, and it errors exactly when `generateCsv` throws |
| CsvWorker.EmptyArray | src/workers/csvWorker.ts:10-12 | an empty array posts `"\n"`, while `generateCsv([])` returns `''` |
| SearchUtils.FilterOrder | src/lib/searchUtils.ts:21 | the filter keeps an in-order sublist of the columns |
| SearchUtils.FilterMembers | src/lib/searchUtils.ts:21-56 | a column is kept iff it is in the input and relevant |
| SearchUtils.GetRelevantColumns | src/lib/searchUtils.ts:11-57 | `[]` for a blank query; otherwise the in-order sublist of exactly the columns relevant to the trimmed query |
| SearchUtils.BlankQuery | src/lib/searchUtils.ts:12-13 | an empty or whitespace-only query returns `[]` |
| SearchUtils.TextWins | src/lib/searchUtils.ts:25-27 | a type containing CHAR, TEXT or STRING is classed as text, before any other test |
| SearchUtils.AlwaysKept | src/lib/searchUtils.ts:25-27 | text columns and columns of no known category are kept for every non-blank query |
| SearchUtils.NumericRule | src/lib/searchUtils.ts:31-42 | a numeric column is kept iff the query has a digit, `-` or `.`, or its lowercase contains `infinity` or `nan` |
| SearchUtils.BooleanRule | src/lib/searchUtils.ts:45-47 | a BOOL column is kept iff the lowercase query contains true/false or is a substring of one of them |
| SearchUtils.TemporalRule | src/lib/searchUtils.ts:50-52 | a DATE/TIME column is kept iff the query has a digit or one of `- / : .` |
| SearchUtils.PartialBoolean | src/lib/searchUtils.test.ts:31-32 | `fal` is boolean-like and `falsy` is not |
| SearchUtils.ExampleClasses | src/lib/searchUtils.test.ts:4-11 | the test's six column types are numeric, text, boolean, numeric, temporal, text |
| SearchUtils.ExampleKept | src/lib/searchUtils.test.ts:4-11 | on those columns each class is kept by its own rule, in column order |
| SearchUtils.TextOnlyKept | src/lib/searchUtils.test.ts:27 | a query that is neither number-, boolean- nor date-like keeps only the text columns |
| SearchUtils.NumberOnlyKept | src/lib/searchUtils.test.ts:42-43 | a number-like query that is not date-like keeps the numeric and text columns |
| SearchUtils.AllButBooleanKept | src/lib/searchUtils.test.ts:34-40 | a number- and date-like query keeps every column but the boolean one |
| SearchUtils.AliceQuery | src/lib/searchUtils.test.ts:27 | `alice` keeps `name` and `description` |
| SearchUtils.InfinityQuery | src/lib/searchUtils.test.ts:42 | `Infinity` keeps `id`, `name`, `score` and `description` |
| SearchUtils.MinusQuery | src/lib/searchUtils.test.ts:37 | `-` keeps every column except `active` |
| UniqueNames.NameSet | benchmarks/verify_split_logic_prototype.ts:9 | the taken set holds exactly the existing column names |
| UniqueNames.CounterBound | benchmarks/verify_split_logic_prototype.ts:16-19 | the counter cannot pass the size of the taken set, so the inner loop ends |
| UniqueNames.FirstFree | benchmarks/verify_split_logic_prototype.ts:15-19 | the smallest `k` from the start with `name_k` not taken |
| UniqueNames.Resolve | benchmarks/verify_split_logic_prototype.ts:14-19 | the chosen name is not taken; a free name is kept; a taken one becomes `name_k` for the smallest free `k ≥ 1` |
| UniqueNames.UniqueNames | benchmarks/verify_split_logic_prototype.ts:13-22 | one output name per input name |
| UniqueNames.UniqueNamesAt | benchmarks/verify_split_logic_prototype.ts:13-21 | output i is input i resolved against the existing names and the earlier outputs |
| UniqueNames.UniqueNamesFresh | benchmarks/verify_split_logic_prototype.ts:14-21 | no output is already taken, and the outputs are pairwise distinct |
| UniqueNames.SplitNamesFresh | benchmarks/verify_split_logic_prototype.ts:8-24 | no output equals an existing column name, and the outputs are pairwise distinct |
| UniqueNames.GenerateUniqueNames | benchmarks/verify_split_logic_prototype.ts:8-24 | the loops compute the resolved names (same length, position by position) |
| UniqueNames.KeepFree | benchmarks/verify_split_logic_prototype.ts:14-21 | a free first name is kept and then taken |
| UniqueNames.FirstSuffix | benchmarks/verify_split_logic_prototype.ts:16-21 | a taken name with `name_1` free becomes `name_1` |
| UniqueNames.SecondSuffix | benchmarks/verify_split_logic_prototype.ts:16-21 | a taken name with `name_1` taken and `name_2` free becomes `name_2` |
| UniqueNames.ExampleNames | benchmarks/verify_split_logic_prototype.ts:27-32 | the fixture's existing names |
| UniqueNames.NoCollision | benchmarks/verify_split_logic_prototype.ts:35-39 | `first_name`, `last_name` are kept |
| UniqueNames.CollisionWithExisting | benchmarks/verify_split_logic_prototype.ts:40-44 | `name`, `city` → `name_1`, `city` |
| UniqueNames.CollisionWithSuffixed | benchmarks/verify_split_logic_prototype.ts:45-49 | `city`, `city_1` → `city`, `city_1_1` |
| UniqueNames.SelfCollision | benchmarks/verify_split_logic_prototype.ts:50-54 | `tag`, `tag` → `tag`, `tag_1` |
| UniqueNames.DoubleCollision | benchmarks/verify_split_logic_prototype.ts:55-59 | `name`, `name` → `name_1`, `name_2` |
| GeoCache.Lookup | src/services/cacheService.ts:9-22 | null for an absent key; for a present entry null iff it is more than 24 h old, otherwise its data |
| GeoCache.AfterLookup | src/services/cacheService.ts:16-19 | a lookup removes its key exactly when the entry has expired, and changes nothing else |
| GeoCache.Cleared | src/services/cacheService.ts:32-37 | exactly the keys starting with `geocache_` are gone; the rest keep their entries |
| GeoCache.Storage.GetCache | src/services/cacheService.ts:9-22 | returns the lookup and leaves the store as the lookup prescribes |
| GeoCache.Storage.SetCache | src/services/cacheService.ts:24-30 | stores the data stamped with the clock under the prefixed key, and changes nothing else |
| GeoCache.Storage.ClearCache | src/services/cacheService.ts:32-37 | visiting every key removes exactly the prefixed ones |
| GeoCache.SetThenGet | src/services/cacheService.ts:21-29 | a get right after a set at the same clock returns the data and removes nothing |
| GeoCache.TtlBoundary | src/services/cacheService.ts:2-19 | an entry exactly 24 h old is returned; one a millisecond older is null and removed |
| GeoCache.SetKeepsOthers | src/services/cacheService.ts:24-30 | a set under one key does not change what another key reads |
| GeoCache.LookupTwice | src/services/cacheService.ts:9-22 | a second get at the same clock returns what the first did and changes nothing more |
| GeoCache.ClearForgetsAll | src/services/cacheService.ts:32-37 | after a clear every get is null, and a second clear changes nothing |
| HealthService.OutlierColumns | src/services/healthService.ts:65-77 | at most one outlier check per column |
| HealthService.OutlierColumnsMembers | src/services/healthService.ts:65-77 | a column is checked iff its type is DOUBLE, DECIMAL, INTEGER or BIGINT and its std is > 0 |
| HealthService.CollectOutlierColumns | src/services/healthService.ts:65-77 | the loop collects those columns in order |
| HealthService.OutlierResults | src/services/healthService.ts:86-89 | an outlier count is recorded for exactly the checked columns |
| HealthService.ReadOutlierResults | src/services/healthService.ts:80-89 | the loop records each checked column's count |
| HealthService.NullPercent | src/services/healthService.ts:94-97 | `nullPercent` is 0 without rows and otherwise `100 × (rowCount − count) / rowCount` |
| HealthService.NullThresholds | src/services/healthService.ts:99-101 | null% > 10 iff 10 × nulls > rows, > 50 iff 2 × nulls > rows; within 0..100 when `0 ≤ count ≤ rowCount` |
| HealthService.ColumnScore | src/services/healthService.ts:99-115 | every column score lies in 50..100 |
| HealthService.PerfectScore | src/services/healthService.ts:99-115 | the score is 100 iff null% ≤ 10 and there are no outliers |
| HealthService.LowestScore | src/services/healthService.ts:99-115 | the score is 50 iff null% > 50 and there are at least 10 outliers |
| HealthService.ScoreMonotone | src/services/healthService.ts:99-115 | more nulls or more outliers never raise the score |
| HealthService.NonNullValues | src/services/healthService.ts:122-127 | at most one value per sample row |
| HealthService.NonNullPrefix | src/services/healthService.ts:122-127 | the values of a row prefix are a prefix of the values of all rows |
| HealthService.Sample | src/services/healthService.ts:120-128 | the sample is a prefix of the non-null values, in row order: all of them, or exactly 100 |
| HealthService.SampleValues | src/services/healthService.ts:119-128 | the sampling loop with its early break computes that sample |
| HealthService.MatchCount | src/services/healthService.ts:132-135 | no more matches than values |
| HealthService.QualifiesIsSeventyPercent | src/services/healthService.ts:137 | the model's threshold is exactly "more than 70% of the values" |
| HealthService.NinetyValuesThreshold | src/services/healthService.ts:137 | with 90 values and 63 matches the floating-point test passes while "more than 70%" does not |
| HealthService.FirstPatternFrom | src/services/healthService.ts:130-142 | the first qualifying pattern in declared order, or none when none qualifies |
| HealthService.DetectPattern | src/services/healthService.ts:130-142 | the loop returns the first of EMAIL, SIRET, NIR, IBAN that qualifies, none for an empty sample |
| HealthService.ColumnReport | src/services/healthService.ts:145-154 | the column report keeps name and type, has `nullCount = rowCount − count` and a score in 50..100 |
| HealthService.HealthMapEntries | src/services/healthService.ts:145 | each column's report is stored under its name, the last one winning for repeated names |
| HealthService.HealthMapKeys | src/services/healthService.ts:145 | the report map has exactly the column names as keys |
| HealthService.ColumnStep | src/services/healthService.ts:93-157 | one column adds its report, its warning and its score |
| HealthService.TotalScoreBounds | src/services/healthService.ts:156 | the total lies between 50 and 100 times the number of columns |
| HealthService.ColumnWarning | src/services/healthService.ts:107-115 | one warning for a checked column with outliers, none otherwise |
| HealthService.Round | src/services/healthService.ts:176 | rounding lands within half a unit, halves going up |
| HealthService.OverallScore | src/services/healthService.ts:176 | the overall score is NaN exactly when there are no columns |
| HealthService.OverallBounds | src/services/healthService.ts:176 | with columns the overall score lies in 50..100 |
| HealthService.BrokenRows | src/services/healthService.ts:164-166 | one critical issue per jagged-row error, carrying its row, expected and actual counts |
| HealthService.CriticalIssues | src/services/healthService.ts:160-171 | no issues without a file, for `.xlsx` files or when the scan fails; otherwise one per jagged error |
| HealthService.CollectCritical | src/services/healthService.ts:159-171 | the structural check computes those issues |
| HealthService.AssessColumn | src/services/healthService.ts:93-157 | one pass of the per-column loop gives that column's report, score and warning |
| HealthService.AnalyzeHealth | src/services/healthService.ts:36-185 | the report has the row count, the per-column reports, warnings and critical issues, and the rounded mean score |

## Left out

- Reading files (FileReader, Blob slicing, TextDecoder), object URLs and
  download triggering. The sniffer works on the bytes and the decoded text it
  is given. `Sniffer.Sniff` takes the decoder as a parameter and works on the
  bytes already read.
- `JSON.parse` and `JSON.stringify` are parameters. `Sniffer.FormatIgnoresParse`
  shows that the parse result cannot change the format.
- The windows-1252 encoder (iconv-lite) is left abstract: a windows-1252
  chunk is recorded as encoded text. Its bytes are left open, and so are
  encoder errors.
- Strings are sequences of characters, not UTF-16 code units. Case mapping
  in `toUpperCase`/`toLowerCase` covers ASCII letters only. Whitespace for
  `trim` is the set of characters JavaScript trims.
- JavaScript values are abstract: a cell is `null`, `undefined`, or a value
  shown through the text `String(value)` gives.
- The DuckDB-side exports (parquet, CSV and JSON from the database) and the
  Excel export. They are external engines and libraries; only their
  selection in `ExportService.Dispatch` is modelled.
- The event-loop yield `setTimeout(0)` in `exportCSV` is a no-op.
  Worker message transport is a method call.
- An async row source is modelled as its list of chunks, in arrival order.
- `LazyView.LazyArrowResult.Map`: callbacks see a row's content and index,
  not its object identity. The `array` argument (the proxy) is not passed.
  The same holds for `Filter`, `Reduce`, `Find`, `Every` and `Some`.
- `LazyView.LazyArrowResult.Filter`: the result is stated by row content,
  not by which objects are returned.
- The index Proxy is modelled as the explicit `GetRow` method. Property
  forwarding (`Reflect.get`) is not modelled.
- Table rows that are `undefined` or other falsy values are modelled as
  raw values; `null` cells are their own case.
- `DelimiterDetect.PickDelimiter`: scores are exact rationals, not IEEE
  doubles. A tie or near-tie that double rounding would break differently is
  not modelled.
- `HealthService.NullPercent`: exact rationals, not IEEE doubles.
- `HealthService.DetectPattern`: the pattern threshold uses the intended
  "more than 70%". The single sample size up to 100 where the source's
  floating-point comparison differs is a finding below.
- Health SQL text, the engine's query results and the regex engine are
  inputs: aggregates per column, outlier counts per column, the sample rows,
  and `matches` for the pattern test. The AS400 report, `console.warn`, the
  average (used only in SQL text) and the empty `info` list are not
  modelled. Warning and critical issue texts are modelled as datatypes,
  not as their French sentences.
- `GeoCache.Storage.GetCache`: a stored item that is the empty string (falsy)
  and the JSON round trip of entries are not modelled. The JSON round trip is
  taken as the identity. Other stored keys are entries of the same store.
- `QuoteStrip.SpanSkipCount`: for a delimiter containing `"` only
  `count ≥ 1` is stated. Equality with the strip-and-split count is proved
  for quote-free delimiters. An empty delimiter is excluded because the
  counter then never advances.
- `ColumnCount.GetColCount`: the delimiter must be non-empty. The caller
  always supplies one (`Sniffer.SafeDelimiter`).
- `CsvExportWorker.OnMessage`: only missing `rows` or `columns` are
  modelled as exceptions. Rows that are not objects and encoder failures
  are not.
- `QuoteStrip.FixtureOldUnclosedQuote`, `QuoteStrip.FixtureOldStrayQuote`,
  `QuoteStrip.MultiCharDelimiter` and `DelimiterDetect.SemicolonSample` take
  the fixture line as a parameter fixed by their precondition.
- `DelimiterDetect.SemicolonSample`: the benchmark's generated 500-line
  semicolon, comma and CRLF inputs are not modelled. Their random numbers
  contain `.` but none of the candidates. A two-line semicolon sample stands
  in for them.
- `Object.keys` order for integer-like keys is not modelled. Records keep
  their properties in the order given.
- The search test sorts the names before comparing. The lemmas state the
  result in column order, which is stronger.
- Benchmark timing, memory harnesses, mocks and the UI components are not
  part of this model.

## Findings

| source | as written | input that shows it | evidently intended | confidence | as-written member | corrected member |
|---|---|---|---|---|---|---|
| src/services/healthService.ts:137 | `matchCount > values.length * 0.7` in binary floating point | 90 values of which 63 match: `90 * 0.7` is 62.99999999999999, so exactly 70% qualifies | a pattern is detected only when more than 70% of the values match | not executed | HealthService.NinetyValuesThreshold | HealthService.QualifiesIsSeventyPercent |
