/** The CSV export worker (`csvExportWorker` message handler): the header,
    5000-row batches, a `needNewline` flag that places the line feeds, and
    the reply it posts. */
module CsvExportWorker {
  import opened Strings
  import opened CsvFields
  import ExportService

  const WorkerBatchSize: nat := 5000

  /** What makes the handler's `try` block throw: a missing `rows` array
      (reading its `length`) or missing `columns` (mapping over them). */
  datatype Failure = RowsMissing | ColumnsMissing

  /** `{status: 'success', blob}` or `{status: 'error', error}`. */
  datatype Reply = Success(blob: seq<BlobPart>) | Error(failure: Failure)

  /** `join(delimiter)` with the delimiter left out joins with a comma. */
  function DelimiterOf(delimiter: Option<string>): string
  {
    if delimiter.Some? then delimiter.value else ","
  }

  function HeaderChunk(columns: seq<string>, delimiter: string, includeHeaders: bool): seq<string>
  {
    if includeHeaders then [HeaderLine(columns, delimiter)] else []
  }

  /** The chunks the worker pushes, as text: the header, then every batch
      whose text is not empty, with a line feed between any two. */
  function WorkerChunks(columns: seq<string>, delimiter: string, includeHeaders: bool, rows: seq<Record>): seq<string>
  {
    Intersperse(HeaderChunk(columns, delimiter, includeHeaders) +
      NonEmpty(BatchTexts(Batches(rows, WorkerBatchSize), columns, delimiter)), "\n")
  }

  /** The message handler. */
  method OnMessage(rows: Option<seq<Record>>, columns: Option<seq<string>>, delimiter: Option<string>,
                   encoding: TextEncoding, includeHeaders: bool)
    returns (reply: Reply)
    ensures includeHeaders && columns.None? ==> reply == Error(ColumnsMissing)
    ensures !(includeHeaders && columns.None?) && rows.None? ==> reply == Error(RowsMissing)
    ensures rows.Some? && rows.value != [] && columns.None? ==> reply == Error(ColumnsMissing)
    ensures rows.Some? && (columns.Some? || (!includeHeaders && rows.value == [])) ==>
      reply == Success(Package(encoding, WorkerChunks(if columns.Some? then columns.value else [],
        DelimiterOf(delimiter), includeHeaders, rows.value)))
  {
    var d := DelimiterOf(delimiter);
    var parts: seq<BlobPart> := [];
    if includeHeaders {
      if columns.None? {
        return Error(ColumnsMissing);
      }
      var headerRow := HeaderLine(columns.value, d);
      parts := parts + [Encoded(encoding, headerRow)];
    }
    if rows.None? {
      return Error(RowsMissing);
    }
    if rows.value != [] && columns.None? {
      return Error(ColumnsMissing);
    }
    var cols := if columns.Some? then columns.value else [];
    var header := HeaderChunk(cols, d, includeHeaders);
    assert parts == EncodeAll(encoding, Intersperse(header, "\n"));
    parts := AppendBatches(parts, header, rows.value, cols, encoding, d);
    if encoding == Windows1252 {
      reply := Success(parts);
    } else {
      reply := Success([ByteOrderMark] + parts);
    }
  }

  /** The batch loop: `rows.slice(i, i + 5000)`; an empty batch text is
      skipped, and a line feed goes before a batch only when `needNewline`. */
  method AppendBatches(parts0: seq<BlobPart>, header: seq<string>, rows: seq<Record>,
                       columns: seq<string>, encoding: TextEncoding, delimiter: string)
    returns (parts: seq<BlobPart>)
    requires parts0 == EncodeAll(encoding, Intersperse(header, "\n"))
    ensures parts == EncodeAll(encoding, Intersperse(header +
      NonEmpty(BatchTexts(Batches(rows, WorkerBatchSize), columns, delimiter)), "\n"))
  {
    parts := parts0;
    var needNewline := header != [];
    ghost var done: seq<seq<Record>> := [];
    assert header + NonEmpty(BatchTexts(done, columns, delimiter)) == header;
    var i := 0;
    SlicedStart(rows, WorkerBatchSize);
    while i < |rows|
      invariant Sliced(rows, WorkerBatchSize, i, done)
      invariant parts == EncodeAll(encoding, Intersperse(header + NonEmpty(BatchTexts(done, columns, delimiter)), "\n"))
      invariant needNewline <==> header + NonEmpty(BatchTexts(done, columns, delimiter)) != []
      decreases |rows| - i
    {
      var j := if i + WorkerBatchSize < |rows| then i + WorkerBatchSize else |rows|;
      SlicedStep(rows, WorkerBatchSize, i, done);
      var chunkRows := rows[i..j];
      var chunkStr := BatchText(chunkRows, columns, delimiter);
      KeptSnoc(done, chunkRows, columns, delimiter, header);
      parts, needNewline := PushBatch(parts, needNewline, chunkStr, encoding,
        header + NonEmpty(BatchTexts(done, columns, delimiter)));
      done := done + [chunkRows];
      i := i + WorkerBatchSize;
    }
    SlicedEnd(rows, WorkerBatchSize, i, done);
  }

  /** The body of the batch loop for one batch text. */
  method PushBatch(parts0: seq<BlobPart>, needNewline0: bool, chunkStr: string, encoding: TextEncoding, ghost before: seq<string>)
    returns (parts: seq<BlobPart>, needNewline: bool)
    requires parts0 == EncodeAll(encoding, Intersperse(before, "\n"))
    requires needNewline0 <==> before != []
    ensures var after := before + (if chunkStr != [] then [chunkStr] else []);
      parts == EncodeAll(encoding, Intersperse(after, "\n")) && (needNewline <==> after != [])
  {
    WorkerStep(encoding, before, chunkStr, parts0);
    parts, needNewline := parts0, needNewline0;
    if needNewline && |chunkStr| > 0 {
      parts := parts + [Encoded(encoding, "\n")];
    }
    if |chunkStr| > 0 {
      parts := parts + [Encoded(encoding, chunkStr)];
      needNewline := true;
    }
  }

  lemma {:induction false} KeptSnoc(done: seq<seq<Record>>, batch: seq<Record>, columns: seq<string>, delimiter: string, header: seq<string>)
    ensures var t := BatchText(batch, columns, delimiter);
      header + NonEmpty(BatchTexts(done + [batch], columns, delimiter)) ==
      header + NonEmpty(BatchTexts(done, columns, delimiter)) + (if t != [] then [t] else [])
  {
    var t := BatchText(batch, columns, delimiter);
    assert BatchTexts(done + [batch], columns, delimiter) == BatchTexts(done, columns, delimiter) + [t];
    NonEmptyAppend(BatchTexts(done, columns, delimiter), [t]);
    assert NonEmpty([t]) == (if t != [] then [t] else []) + NonEmpty([]);
  }

  /** One batch: nothing for an empty text, else a separator when a chunk
      exists, then the text. */
  lemma {:induction false} WorkerStep(encoding: TextEncoding, before: seq<string>, text: string, parts: seq<BlobPart>)
    requires parts == EncodeAll(encoding, Intersperse(before, "\n"))
    ensures EncodeAll(encoding, Intersperse(before + (if text != [] then [text] else []), "\n")) ==
      (if before != [] && text != [] then parts + [Encoded(encoding, "\n")] else parts) +
      (if text != [] then [Encoded(encoding, text)] else [])
  {
    if text != [] {
      IntersperseSnoc(before, text, "\n");
      var mid := Intersperse(before, "\n") + (if before == [] then [] else ["\n"]);
      assert EncodeAll(encoding, mid + [text]) == EncodeAll(encoding, mid) + [Encoded(encoding, text)];
      if before != [] {
        assert EncodeAll(encoding, mid) == parts + [Encoded(encoding, "\n")];
      } else {
        assert mid == [];
      }
    } else {
      assert before + [] == before;
    }
  }

  /** With headers and no rows the file is the header alone. */
  lemma {:induction false} WorkerHeaderOnly(columns: seq<string>, delimiter: string)
    ensures WorkerChunks(columns, delimiter, true, []) == [HeaderLine(columns, delimiter)]
  {
    var none: seq<Record> := [];
    assert Batches(none, WorkerBatchSize) == [];
  }

  /** Only the header can be an empty chunk: an empty batch text is never pushed. */
  lemma {:induction false} WorkerChunksNonEmpty(columns: seq<string>, delimiter: string, includeHeaders: bool, rows: seq<Record>, k: nat)
    requires k < |WorkerChunks(columns, delimiter, includeHeaders, rows)|
    requires k > 0 || !includeHeaders
    ensures WorkerChunks(columns, delimiter, includeHeaders, rows)[k] != []
  {
    var header := HeaderChunk(columns, delimiter, includeHeaders);
    var kept := NonEmpty(BatchTexts(Batches(rows, WorkerBatchSize), columns, delimiter));
    var xs := header + kept;
    IntersperseAt(xs, "\n", k);
    if k % 2 == 0 {
      var m := k / 2;
      assert m >= |header|;
      assert xs[m] == kept[m - |header|];
      NonEmptyMembers(BatchTexts(Batches(rows, WorkerBatchSize), columns, delimiter), kept[m - |header|]);
    }
  }

  /** When there is at least one column no batch text is empty, and the
      worker's file reads the same as the service's one-shot text. */
  lemma {:induction false} WorkerOneShot(rows: seq<Record>, columns: seq<string>, delimiter: string, includeHeaders: bool)
    requires columns != []
    ensures Concat(WorkerChunks(columns, delimiter, includeHeaders, rows)) ==
      Join(HeaderChunk(columns, delimiter, includeHeaders) + Lines(rows, columns, delimiter), "\n")
  {
    var header := HeaderChunk(columns, delimiter, includeHeaders);
    var batches := Batches(rows, WorkerBatchSize);
    var texts := BatchTexts(batches, columns, delimiter);
    var lines := Lines(rows, columns, delimiter);
    BatchesShape(rows, WorkerBatchSize);
    forall k | 0 <= k < |texts| ensures texts[k] != [] {
      RowLineNotEmpty(batches[k][0], columns, delimiter);
      JoinFirst(Lines(batches[k], columns, delimiter), "\n");
    }
    NonEmptyKeepsAll(texts);
    ConcatIntersperse(header + texts, "\n");
    JoinBatchTexts(rows, columns, delimiter, WorkerBatchSize);
    if header == [] {
      assert header + texts == texts && header + lines == lines;
    } else if rows == [] {
      assert texts == [] && lines == [];
      assert header + texts == header + lines;
    } else {
      JoinAppend(header, texts, "\n");
      JoinAppend(header, lines, "\n");
    }
  }

  lemma {:induction false} NonEmptyKeepsAll(xs: seq<string>)
    requires forall k :: 0 <= k < |xs| ==> xs[k] != []
    ensures NonEmpty(xs) == xs
    decreases |xs|
  {
    if xs != [] {
      var rest := xs[1..];
      assert forall k :: 0 <= k < |rest| ==> rest[k] == xs[k + 1];
      NonEmptyKeepsAll(rest);
      assert xs == [xs[0]] + rest;
    }
  }

  /** With at least one column the worker and the export service produce
      the same text for the same rows. */
  lemma {:induction false} BuildersAgree(rows: seq<Record>, columns: seq<string>, delimiter: string, includeHeaders: bool)
    requires columns != []
    ensures Concat(WorkerChunks(columns, delimiter, includeHeaders, rows)) ==
      Concat(ExportService.CsvChunks(columns, delimiter, includeHeaders, ExportService.Normalized(ExportService.RowArray(rows))))
  {
    WorkerOneShot(rows, columns, delimiter, includeHeaders);
    ExportService.CsvOneShot(rows, columns, delimiter, includeHeaders);
  }

  /** With no columns they differ: a header and one row give a lone line
      feed from the service and nothing from the worker, which skips the
      empty batch text. */
  lemma {:induction false} BuildersDiffer()
    ensures Concat(WorkerChunks([], ",", true, [Record([])])) == ""
    ensures Concat(ExportService.CsvChunks([], ",", true, ExportService.Normalized(ExportService.RowArray([Record([])])))) == "\n"
  {
    var rows := [Record([])];
    assert Batches(rows, WorkerBatchSize) == [rows];
    assert Batches(rows, ExportService.BatchSize) == [rows];
    assert HeaderLine([], ",") == "";
    assert RowLine(Record([]), [], ",") == "";
    assert BatchText(rows, [], ",") == "";
    assert BatchTexts([rows], [], ",") == [""];
    assert NonEmpty([""]) == [];
    var both := [HeaderLine([], ",")] + BatchTexts([rows], [], ",");
    assert both == ["", ""];
    assert Intersperse(both, "\n") == ["", "\n", ""];
    assert Concat(["", "\n", ""]) == "\n";
  }
}
