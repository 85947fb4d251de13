/** The export service (`generateExport`): which exporter handles the
    request, and the browser-side CSV and JSON builders that assemble the
    downloaded file from 2000-row batches. */
module ExportService {
  import opened Strings
  import opened CsvFields

  datatype Format = Csv | Xlsx | Json | Parquet | PbipTheme

  function FormatName(f: Format): string
  {
    match f
    case Csv => "csv"
    case Xlsx => "xlsx"
    case Json => "json"
    case Parquet => "parquet"
    case PbipTheme => "pbip_theme"
  }

  datatype ExportOptions = ExportOptions(
    filename: string,
    format: Format,
    encoding: TextEncoding,
    delimiter: string,
    includeHeaders: bool,
    tableName: Option<string>)

  /** `if (tableName)`: present and not the empty string. */
  predicate HasTable(o: ExportOptions)
  {
    o.tableName.Some? && o.tableName.value != []
  }

  /** The exporter a request goes to. The database-side and Excel exporters
      are not part of this model; only their selection is. */
  datatype Route =
    | ThemeFile(filename: string)
    | ParquetFromDb(filename: string, table: string)
    | CsvFromDb(table: string, filename: string)
    | JsonFromDb(table: string, filename: string)
    | ExcelFromRows(filename: string)
    | JsonFromRows(filename: string)
    | CsvFromRows(filename: string)

  /** The branch selection of `generateExport`. */
  function Dispatch(o: ExportOptions): (r: Route)
    ensures r.ThemeFile? <==> o.format == PbipTheme
    ensures r.ThemeFile? ==> r.filename == o.filename + ".json"
    ensures var full := o.filename + "." + FormatName(o.format);
      (HasTable(o) && o.format == Parquet ==> r == ParquetFromDb(full, o.tableName.value)) &&
      (HasTable(o) && o.format == Csv && o.encoding == Utf8 ==> r == CsvFromDb(o.tableName.value, full)) &&
      (HasTable(o) && o.format == Json ==> r == JsonFromDb(o.tableName.value, full)) &&
      (o.format == Csv && (!HasTable(o) || o.encoding == Windows1252) ==> r == CsvFromRows(full)) &&
      (!HasTable(o) && o.format == Parquet ==> r == ParquetFromDb(full, "current_dataset")) &&
      (!HasTable(o) && o.format == Json ==> r == JsonFromRows(full)) &&
      (o.format == Xlsx ==> r == ExcelFromRows(full))
  {
    if o.format == PbipTheme then ThemeFile(o.filename + ".json")
    else
      var full := o.filename + "." + FormatName(o.format);
      if HasTable(o) && o.format == Parquet then ParquetFromDb(full, o.tableName.value)
      else if HasTable(o) && o.format == Csv && o.encoding == Utf8 then CsvFromDb(o.tableName.value, full)
      else if HasTable(o) && o.format == Json then JsonFromDb(o.tableName.value, full)
      else if o.format == Xlsx then ExcelFromRows(full)
      else if o.format == Json then JsonFromRows(full)
      else if o.format == Parquet then ParquetFromDb(full, "current_dataset")
      else CsvFromRows(full)
  }

  /** The rows handed to an exporter: an array, or an asynchronous stream of
      row chunks (modelled by the chunks it yields). */
  datatype RowSource = RowArray(rows: seq<Record>) | RowStream(chunks: seq<seq<Record>>)

  /** `rows || []`. */
  function SafeRows(rows: Option<RowSource>): RowSource
  {
    if rows.Some? then rows.value else RowArray([])
  }

  const BatchSize: nat := 2000

  /** What `normalizeRows` yields. */
  function Normalized(source: RowSource): seq<seq<Record>>
  {
    match source
    case RowArray(rows) => Batches(rows, BatchSize)
    case RowStream(chunks) => chunks
  }

  /** `normalizeRows`: an array is cut with `slice(i, i + 2000)` for
      `i = 0, 2000, ...`; a stream's chunks pass through unchanged. */
  method NormalizeRows(source: RowSource) returns (batches: seq<seq<Record>>)
    ensures batches == Normalized(source)
  {
    match source
    case RowStream(chunks) =>
      batches := chunks;
    case RowArray(rows) =>
      batches := [];
      var i := 0;
      SlicedStart(rows, BatchSize);
      while i < |rows|
        invariant Sliced(rows, BatchSize, i, batches)
        decreases |rows| - i
      {
        var j := if i + BatchSize < |rows| then i + BatchSize else |rows|;
        SlicedStep(rows, BatchSize, i, batches);
        batches := batches + [rows[i..j]];
        i := i + BatchSize;
      }
      SlicedEnd(rows, BatchSize, i, batches);
  }

  /** An array always yields non-empty batches that together are the array;
      an empty array yields none. */
  lemma {:induction false} NormalizedArray(rows: seq<Record>)
    ensures Flatten(Normalized(RowArray(rows))) == rows
    ensures forall k :: 0 <= k < |Normalized(RowArray(rows))| ==> 0 < |Normalized(RowArray(rows))[k]| <= 2000
    ensures rows == [] <==> Normalized(RowArray(rows)) == []
  {
    BatchesShape(rows, BatchSize);
  }

  // ---------------------------------------------------------------------
  // CSV

  /** The header chunk, when there is one. */
  function HeaderChunk(columns: seq<string>, delimiter: string, includeHeaders: bool): seq<string>
  {
    if includeHeaders then [HeaderLine(columns, delimiter)] else []
  }

  /** The chunks of `exportCSV`, as text: the header, then each batch,
      with a line feed between any two. */
  function CsvChunks(columns: seq<string>, delimiter: string, includeHeaders: bool, batches: seq<seq<Record>>): seq<string>
  {
    Intersperse(HeaderChunk(columns, delimiter, includeHeaders) + BatchTexts(batches, columns, delimiter), "\n")
  }

  /** `exportCSV` up to the download: the blob's parts. */
  method ExportCsv(source: RowSource, columns: seq<string>, encoding: TextEncoding, delimiter: string, includeHeaders: bool)
    returns (blob: seq<BlobPart>)
    ensures blob == Package(encoding, CsvChunks(columns, delimiter, includeHeaders, Normalized(source)))
  {
    var parts: seq<BlobPart> := [];
    var header := HeaderChunk(columns, delimiter, includeHeaders);
    if includeHeaders {
      var headerRow := HeaderLine(columns, delimiter);
      parts := parts + [Encoded(encoding, headerRow)];
    }
    assert parts == EncodeAll(encoding, Intersperse(header, "\n"));
    var batches := NormalizeRows(source);
    parts := AppendBatches(parts, header, batches, columns, encoding, delimiter);
    if encoding == Windows1252 {
      blob := parts;
    } else {
      blob := [ByteOrderMark] + parts;
    }
  }

  /** The batch loop of `exportCSV`: a line feed chunk before each batch
      when some chunk exists, then the batch text. */
  method AppendBatches(parts0: seq<BlobPart>, header: seq<string>, batches: seq<seq<Record>>,
                       columns: seq<string>, encoding: TextEncoding, delimiter: string)
    returns (parts: seq<BlobPart>)
    requires parts0 == EncodeAll(encoding, Intersperse(header, "\n"))
    ensures parts == EncodeAll(encoding, Intersperse(header + BatchTexts(batches, columns, delimiter), "\n"))
  {
    parts := parts0;
    assert header + BatchTexts(batches[..0], columns, delimiter) == header;
    for k := 0 to |batches|
      invariant parts == EncodeAll(encoding, Intersperse(header + BatchTexts(batches[..k], columns, delimiter), "\n"))
    {
      var chunkStr := BatchText(batches[k], columns, delimiter);
      ghost var before := header + BatchTexts(batches[..k], columns, delimiter);
      CsvStep(encoding, before, chunkStr, parts);
      HeaderBatchesSnoc(header, batches, k, columns, delimiter);
      if |parts| > 0 {
        parts := parts + [Encoded(encoding, "\n")];
      }
      parts := parts + [Encoded(encoding, chunkStr)];
    }
    assert batches[..|batches|] == batches;
  }

  lemma {:induction false} BatchTextsSnoc(batches: seq<seq<Record>>, k: nat, columns: seq<string>, delimiter: string)
    requires k < |batches|
    ensures BatchTexts(batches[..k + 1], columns, delimiter) ==
      BatchTexts(batches[..k], columns, delimiter) + [BatchText(batches[k], columns, delimiter)]
  {
  }

  /** The header and the batch texts so far grow by the next batch text. */
  lemma {:induction false} HeaderBatchesSnoc(header: seq<string>, batches: seq<seq<Record>>, k: nat,
                                             columns: seq<string>, delimiter: string)
    requires k < |batches|
    ensures header + BatchTexts(batches[..k + 1], columns, delimiter) ==
      (header + BatchTexts(batches[..k], columns, delimiter)) + [BatchText(batches[k], columns, delimiter)]
  {
    BatchTextsSnoc(batches, k, columns, delimiter);
    var b := BatchTexts(batches[..k], columns, delimiter);
    assert header + (b + [BatchText(batches[k], columns, delimiter)]) ==
      (header + b) + [BatchText(batches[k], columns, delimiter)];
  }

  /** One batch of the CSV loop: a separator exactly when a chunk exists. */
  lemma {:induction false} CsvStep(encoding: TextEncoding, before: seq<string>, text: string, parts: seq<BlobPart>)
    requires parts == EncodeAll(encoding, Intersperse(before, "\n"))
    ensures (|parts| > 0) == (before != [])
    ensures EncodeAll(encoding, Intersperse(before + [text], "\n")) ==
      (if |parts| > 0 then parts + [Encoded(encoding, "\n")] else parts) + [Encoded(encoding, text)]
  {
    IntersperseSnoc(before, text, "\n");
    var mid := Intersperse(before, "\n") + (if before == [] then [] else ["\n"]);
    assert EncodeAll(encoding, mid + [text]) == EncodeAll(encoding, mid) + [Encoded(encoding, text)];
    if before != [] {
      assert EncodeAll(encoding, mid) == parts + [Encoded(encoding, "\n")];
    } else {
      assert mid == [];
    }
  }

  /** For an array, the chunks read in order are the one-shot
      `[header, ...rows].join('\n')` of the synchronous exporter. */
  lemma {:induction false} CsvOneShot(rows: seq<Record>, columns: seq<string>, delimiter: string, includeHeaders: bool)
    ensures Concat(CsvChunks(columns, delimiter, includeHeaders, Normalized(RowArray(rows)))) ==
      Join(HeaderChunk(columns, delimiter, includeHeaders) + Lines(rows, columns, delimiter), "\n")
  {
    var header := HeaderChunk(columns, delimiter, includeHeaders);
    var batches := Batches(rows, BatchSize);
    var texts := BatchTexts(batches, columns, delimiter);
    var lines := Lines(rows, columns, delimiter);
    ConcatIntersperse(header + texts, "\n");
    JoinBatchTexts(rows, columns, delimiter, BatchSize);
    BatchesShape(rows, BatchSize);
    if header == [] {
      assert header + texts == texts && header + lines == lines;
    } else if rows == [] {
      assert texts == [] && lines == [];
      assert header + texts == header + lines;
    } else {
      JoinAppend(header, texts, "\n");
      JoinAppend(header, lines, "\n");
    }
  }

  /** With headers and no rows the file is the header alone, with no line feed. */
  lemma {:induction false} CsvHeaderOnly(columns: seq<string>, delimiter: string)
    ensures CsvChunks(columns, delimiter, true, Normalized(RowArray([]))) == [HeaderLine(columns, delimiter)]
  {
    var none: seq<Record> := [];
    assert Batches(none, BatchSize) == [];
  }

  /** A header cell keeps the column name's quotes as they are: `a"b` gives `"a"b"`. */
  lemma {:induction false} HeaderNotEscaped()
    ensures HeaderLine(["a\"b"], ",") == "\"a\"b\""
  {
  }

  // ---------------------------------------------------------------------
  // JSON

  /** Each line of `JSON.stringify(row, null, 2)` indented by two spaces. */
  function Indent(json: string): string
  {
    Join(IndentAll(Split(json, '\n')), "\n")
  }

  function IndentAll(lines: seq<string>): (r: seq<string>)
    ensures |r| == |lines| && forall i :: 0 <= i < |lines| ==> r[i] == "  " + lines[i]
  {
    seq(|lines|, i requires 0 <= i < |lines| => "  " + lines[i])
  }

  /** The indented text has the same lines, each behind two spaces. */
  lemma {:induction false} IndentLines(json: string)
    ensures Split(Indent(json), '\n') == IndentAll(Split(json, '\n'))
  {
    var ls := Split(json, '\n');
    SplitPiecesFree(json, '\n');
    var ind := IndentAll(ls);
    forall k | 0 <= k < |ind| ensures '\n' !in ind[k] {
      assert ind[k] == "  " + ls[k];
    }
    SplitJoin(ind, '\n');
  }

  function JsonItems(rows: seq<Record>, stringify: Record -> string): (items: seq<string>)
    ensures |items| == |rows| && forall i :: 0 <= i < |rows| ==> items[i] == Indent(stringify(rows[i]))
  {
    seq(|rows|, i requires 0 <= i < |rows| => Indent(stringify(rows[i])))
  }

  /** The chunks of `exportJSON`: `[` and a line feed, the items separated
      by a comma and line feed, then a line feed and `]`. */
  function JsonChunks(items: seq<string>): seq<string>
  {
    ["[\n"] + Intersperse(items, ",\n") + ["\n]"]
  }

  /** `exportJSON` up to the download, `JSON.stringify(row, null, 2)`
      given as `stringify`. */
  method ExportJson(source: RowSource, stringify: Record -> string) returns (chunks: seq<string>)
    ensures chunks == JsonChunks(JsonItems(Flatten(Normalized(source)), stringify))
  {
    chunks := ["[\n"];
    var first := true;
    var batches := NormalizeRows(source);
    for k := 0 to |batches|
      invariant chunks == ["[\n"] + Intersperse(JsonItems(Flatten(batches[..k]), stringify), ",\n")
      invariant first <==> Flatten(batches[..k]) == []
    {
      ghost var done := Flatten(batches[..k]);
      chunks, first := AppendItems(chunks, first, batches[k], stringify, done);
      FlattenSnoc(batches[..k], batches[k]);
      assert batches[..k + 1] == batches[..k] + [batches[k]];
    }
    assert batches[..|batches|] == batches;
    chunks := chunks + ["\n]"];
  }

  /** The inner loop of `exportJSON` over one batch's rows. */
  method AppendItems(chunks0: seq<string>, first0: bool, batch: seq<Record>, stringify: Record -> string, ghost done: seq<Record>)
    returns (chunks: seq<string>, first: bool)
    requires chunks0 == ["[\n"] + Intersperse(JsonItems(done, stringify), ",\n")
    requires first0 <==> done == []
    ensures chunks == ["[\n"] + Intersperse(JsonItems(done + batch, stringify), ",\n")
    ensures first <==> done + batch == []
  {
    chunks, first := chunks0, first0;
    assert done + batch[..0] == done;
    for j := 0 to |batch|
      invariant chunks == ["[\n"] + Intersperse(JsonItems(done + batch[..j], stringify), ",\n")
      invariant first <==> done + batch[..j] == []
    {
      var json := Indent(stringify(batch[j]));
      JsonStep(chunks, first, done, batch, j, stringify);
      if !first {
        chunks := chunks + [",\n"];
      }
      chunks := chunks + [json];
      first := false;
    }
    assert batch[..|batch|] == batch;
  }

  /** One row of the JSON loop: a separator before every item but the first. */
  lemma {:induction false} JsonStep(chunks: seq<string>, first: bool, done: seq<Record>, batch: seq<Record>, j: nat,
                                    stringify: Record -> string)
    requires j < |batch|
    requires chunks == ["[\n"] + Intersperse(JsonItems(done + batch[..j], stringify), ",\n")
    requires first <==> done + batch[..j] == []
    ensures (if !first then chunks + [",\n"] else chunks) + [Indent(stringify(batch[j]))] ==
      ["[\n"] + Intersperse(JsonItems(done + batch[..j + 1], stringify), ",\n")
    ensures done + batch[..j + 1] != []
  {
    var json := Indent(stringify(batch[j]));
    var sofar := done + batch[..j];
    assert done + batch[..j + 1] == sofar + [batch[j]];
    assert JsonItems(sofar + [batch[j]], stringify) == JsonItems(sofar, stringify) + [json];
    IntersperseSnoc(JsonItems(sofar, stringify), json, ",\n");
  }

  lemma {:induction false} FlattenSnoc<T>(bs: seq<seq<T>>, b: seq<T>)
    ensures Flatten(bs + [b]) == Flatten(bs) + b
    decreases |bs|
  {
    if bs == [] {
      assert Flatten([b]) == b + Flatten([]);
    } else {
      assert (bs + [b])[1..] == bs[1..] + [b];
      FlattenSnoc(bs[1..], b);
    }
  }

  /** The JSON file read in order: the items, in row order, inside the array brackets. */
  lemma {:induction false} JsonText(rows: seq<Record>, stringify: Record -> string)
    ensures Concat(JsonChunks(JsonItems(Flatten(Normalized(RowArray(rows))), stringify))) ==
      "[\n" + Join(JsonItems(rows, stringify), ",\n") + "\n]"
  {
    BatchesShape(rows, BatchSize);
    var items := JsonItems(rows, stringify);
    ConcatIntersperse(items, ",\n");
    ConcatAppend(["[\n"] + Intersperse(items, ",\n"), ["\n]"]);
    ConcatAppend(["[\n"], Intersperse(items, ",\n"));
    assert Concat(["\n]"]) == "\n]" + Concat([]);
    assert Concat(["[\n"]) == "[\n" + Concat([]);
  }

  // ---------------------------------------------------------------------
  // The whole request

  /** What the request ends in: the blob of the CSV builder, the chunks of
      the JSON builder, or another exporter, which this model does not run. */
  datatype Outcome =
    | CsvDownload(filename: string, blob: seq<BlobPart>)
    | JsonDownload(filename: string, chunks: seq<string>)
    | Delegated(route: Route)

  /** `generateExport`, the download itself left out. */
  method GenerateExport(rows: Option<RowSource>, columns: seq<string>, o: ExportOptions, stringify: Record -> string)
    returns (out: Outcome)
    ensures var r := Dispatch(o);
      (r.CsvFromRows? ==> out == CsvDownload(r.filename,
         Package(o.encoding, CsvChunks(columns, o.delimiter, o.includeHeaders, Normalized(SafeRows(rows)))))) &&
      (r.JsonFromRows? ==> out == JsonDownload(r.filename,
         JsonChunks(JsonItems(Flatten(Normalized(SafeRows(rows))), stringify)))) &&
      (!r.CsvFromRows? && !r.JsonFromRows? ==> out == Delegated(r))
  {
    var route := Dispatch(o);
    var safeRows := SafeRows(rows);
    match route
    case CsvFromRows(f) =>
      var blob := ExportCsv(safeRows, columns, o.encoding, o.delimiter, o.includeHeaders);
      out := CsvDownload(f, blob);
    case JsonFromRows(f) =>
      var chunks := ExportJson(safeRows, stringify);
      out := JsonDownload(f, chunks);
    case _ =>
      out := Delegated(route);
  }
}
