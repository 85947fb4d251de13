/** Values, row objects, field quoting, row batching and output packaging
    shared by the CSV and JSON builders (`exportService`, `csvExportWorker`,
    `csvUtils`, `csvWorker`). */
module CsvFields {
  import opened Strings

  /** A cell as JavaScript sees it: `null`, `undefined`, or any other value,
      given by the text `String(value)` renders for it. */
  datatype JsValue = JsNull | JsUndefined | Shown(text: string)

  /** `String(value)`. */
  function ToText(v: JsValue): string
  {
    match v
    case JsNull => "null"
    case JsUndefined => "undefined"
    case Shown(t) => t
  }

  /** A row object: its own properties in property order. */
  datatype Record = Record(entries: seq<(string, JsValue)>)

  /** `Object.keys(record)`. */
  function Keys(r: Record): (ks: seq<string>)
    ensures |ks| == |r.entries| && forall i :: 0 <= i < |ks| ==> ks[i] == r.entries[i].0
  {
    seq(|r.entries|, i requires 0 <= i < |r.entries| => r.entries[i].0)
  }

  /** `Object.values(record)`. */
  function Values(r: Record): (vs: seq<JsValue>)
    ensures |vs| == |r.entries| && forall i :: 0 <= i < |vs| ==> vs[i] == r.entries[i].1
  {
    seq(|r.entries|, i requires 0 <= i < |r.entries| => r.entries[i].1)
  }

  /** `record[name]`: the first property with that name, else `undefined`. */
  function Lookup(entries: seq<(string, JsValue)>, name: string): (v: JsValue)
    ensures (forall i :: 0 <= i < |entries| ==> entries[i].0 != name) ==> v == JsUndefined
    ensures (exists i :: 0 <= i < |entries| && entries[i].0 == name) ==>
      exists i :: 0 <= i < |entries| && entries[i] == (name, v) &&
        forall j :: 0 <= j < i ==> entries[j].0 != name
    decreases |entries|
  {
    if entries == [] then JsUndefined
    else if entries[0].0 == name then entries[0].1
    else
      var v := Lookup(entries[1..], name);
      assert forall i :: 1 <= i < |entries| ==> entries[i] == entries[1..][i - 1];
      v
  }

  // ---------------------------------------------------------------------
  // Quoting (section 2, rule 7 of RFC 4180)

  /** Every `"` doubled: `s.replaceAll('"', '""')`, also `s.replace(/"/g, '""')`. */
  function DoubleQuotes(s: string): (r: string)
    ensures |r| == |s| + CountChar(s, '"')
    decreases |s|
  {
    if s == [] then [] else (if s[0] == '"' then "\"\"" else [s[0]]) + DoubleQuotes(s[1..])
  }

  /** `s.split('"').join('""')` doubles quotes exactly as `replaceAll` does. */
  lemma {:induction false} SplitJoinDoubles(s: string)
    ensures Join(Split(s, '"'), "\"\"") == DoubleQuotes(s)
    decreases |s|
  {
    if s != [] {
      SplitJoinDoubles(s[1..]);
      var rest := Split(s[1..], '"');
      if s[0] == '"' {
        assert Split(s, '"') == [[]] + rest;
        assert ([[]] + rest)[1..] == rest;
      } else {
        var r := [[s[0]] + rest[0]] + rest[1..];
        assert Split(s, '"') == r;
        assert r[1..] == rest[1..];
        if |rest| > 1 {
          assert Join(rest, "\"\"") == rest[0] + "\"\"" + Join(rest[1..], "\"\"");
        }
      }
    }
  }

  /** `"` + s with its quotes doubled + `"`. */
  function Quote(s: string): string
  {
    "\"" + DoubleQuotes(s) + "\""
  }

  /** Reading a quoted field back: the text after the opening quote, with
      `""` read as one quote, up to a closing quote that ends the input. */
  function Unquoted(t: string): (r: Option<string>)
    decreases |t|
  {
    if t == [] then None
    else if t[0] == '"' then
      (if |t| == 1 then Some([])
       else if t[1] == '"' then
         (match Unquoted(t[2..]) case None => None case Some(u) => Some("\"" + u))
       else None)
    else
      (match Unquoted(t[1..]) case None => None case Some(u) => Some([t[0]] + u))
  }

  function ParseField(t: string): Option<string>
  {
    if t != [] && t[0] == '"' then Unquoted(t[1..]) else None
  }

  /** A quoted field reads back as the original text. */
  lemma {:induction false} FieldRoundTrip(s: string)
    ensures ParseField(Quote(s)) == Some(s)
  {
    UnquotedDoubled(s);
    assert Quote(s)[1..] == DoubleQuotes(s) + "\"";
  }

  lemma {:induction false} UnquotedDoubled(s: string)
    ensures Unquoted(DoubleQuotes(s) + "\"") == Some(s)
    decreases |s|
  {
    if s == [] {
      assert DoubleQuotes(s) + "\"" == "\"";
    } else {
      UnquotedDoubled(s[1..]);
      var t := DoubleQuotes(s) + "\"";
      if s[0] == '"' {
        assert t == "\"\"" + (DoubleQuotes(s[1..]) + "\"");
        assert t[2..] == DoubleQuotes(s[1..]) + "\"";
        assert "\"" + s[1..] == s;
      } else {
        assert t == [s[0]] + (DoubleQuotes(s[1..]) + "\"");
        assert t[1..] == DoubleQuotes(s[1..]) + "\"";
        assert [s[0]] + s[1..] == s;
      }
    }
  }

  /** The quoted field of the export builders: `null` and `undefined`
      render as an empty field. */
  function FieldText(v: JsValue): (r: string)
    ensures ParseField(r) == Some(if v.JsNull? || v.JsUndefined? then "" else ToText(v))
  {
    var s := if v.JsNull? || v.JsUndefined? then "" else ToText(v);
    FieldRoundTrip(s);
    Quote(s)
  }

  /** The header cell of the export builders: quoted, inner quotes kept as they are. */
  function HeaderCell(name: string): (r: string)
    ensures |r| == |name| + 2 && r[0] == '"' && r[|r| - 1] == '"' && r[1..|r| - 1] == name
  {
    "\"" + name + "\""
  }

  /** The header line: `columns.map(c => `"${c.name}"`).join(delimiter)`. */
  function HeaderLine(columns: seq<string>, delimiter: string): string
  {
    Join(seq(|columns|, i requires 0 <= i < |columns| => HeaderCell(columns[i])), delimiter)
  }

  /** One data line: each column's field, looked up by name, joined by the delimiter. */
  function RowLine(row: Record, columns: seq<string>, delimiter: string): string
  {
    Join(seq(|columns|, i requires 0 <= i < |columns| => FieldText(Lookup(row.entries, columns[i]))), delimiter)
  }

  /** The data lines of a run of rows. */
  function Lines(rows: seq<Record>, columns: seq<string>, delimiter: string): (ls: seq<string>)
    ensures |ls| == |rows| && forall i :: 0 <= i < |rows| ==> ls[i] == RowLine(rows[i], columns, delimiter)
  {
    seq(|rows|, i requires 0 <= i < |rows| => RowLine(rows[i], columns, delimiter))
  }

  /** The text of one batch: its lines joined by line feeds. */
  function BatchText(batch: seq<Record>, columns: seq<string>, delimiter: string): string
  {
    Join(Lines(batch, columns, delimiter), "\n")
  }

  function BatchTexts(batches: seq<seq<Record>>, columns: seq<string>, delimiter: string): (ts: seq<string>)
    ensures |ts| == |batches| &&
      forall k :: 0 <= k < |batches| ==> ts[k] == BatchText(batches[k], columns, delimiter)
  {
    seq(|batches|, k requires 0 <= k < |batches| => BatchText(batches[k], columns, delimiter))
  }

  /** A line with at least one column is never empty: each field is quoted. */
  lemma {:induction false} RowLineNotEmpty(row: Record, columns: seq<string>, delimiter: string)
    requires columns != []
    ensures RowLine(row, columns, delimiter) != []
  {
    var cells := seq(|columns|, i requires 0 <= i < |columns| => FieldText(Lookup(row.entries, columns[i])));
    JoinFirst(cells, delimiter);
    assert |cells[0]| >= 2;
  }

  /** A join starts with its first piece. */
  lemma {:induction false} JoinFirst(xs: seq<string>, sep: string)
    requires xs != []
    ensures |Join(xs, sep)| >= |xs[0]| && Join(xs, sep)[..|xs[0]|] == xs[0]
  {
    if |xs| > 1 {
      assert Join(xs, sep) == xs[0] + (sep + Join(xs[1..], sep));
    }
  }

  // ---------------------------------------------------------------------
  // Batching

  /** `rows.slice(i, i + size)` for `i = 0, size, 2*size, ...` below `rows.length`. */
  function Batches<T>(rows: seq<T>, size: nat): (bs: seq<seq<T>>)
    requires size > 0
    decreases |rows|
  {
    if rows == [] then [] else if |rows| <= size then [rows] else [rows[..size]] + Batches(rows[size..], size)
  }

  function Flatten<T>(bs: seq<seq<T>>): seq<T>
    decreases |bs|
  {
    if bs == [] then [] else bs[0] + Flatten(bs[1..])
  }

  /** The batches are non-empty, at most `size` long, all but the last
      exactly `size` long, and together they are the rows in order. */
  lemma {:induction false} BatchesShape<T>(rows: seq<T>, size: nat)
    requires size > 0
    ensures Flatten(Batches(rows, size)) == rows
    ensures forall k :: 0 <= k < |Batches(rows, size)| ==>
      0 < |Batches(rows, size)[k]| <= size
    ensures forall k :: 0 <= k < |Batches(rows, size)| - 1 ==> |Batches(rows, size)[k]| == size
    ensures rows == [] <==> Batches(rows, size) == []
    decreases |rows|
  {
    if |rows| > size {
      BatchesShape(rows[size..], size);
      var rest := Batches(rows[size..], size);
      assert Batches(rows, size) == [rows[..size]] + rest;
      assert ([rows[..size]] + rest)[1..] == rest;
      assert rows[..size] + rows[size..] == rows;
    } else if rows != [] {
      assert Batches(rows, size) == [rows];
      assert Flatten([rows]) == rows + Flatten([]);
    }
  }

  /** One step of the slicing loop. */
  lemma {:induction false} BatchesStep<T>(rows: seq<T>, size: nat, i: nat)
    requires size > 0 && i < |rows|
    ensures var j := if i + size < |rows| then i + size else |rows|;
      Batches(rows[i..], size) == [rows[i..j]] + Batches(rows[j..], size)
  {
    var j := if i + size < |rows| then i + size else |rows|;
    if i + size < |rows| {
      assert rows[i..][..size] == rows[i..j];
      assert rows[i..][size..] == rows[j..];
    } else {
      assert rows[i..] == rows[i..j];
      assert rows[j..] == [];
    }
  }

  /** The slicing loop's progress: `done` are the batches of the rows before `i`. */
  ghost predicate Sliced<T>(rows: seq<T>, size: nat, i: nat, done: seq<seq<T>>)
    requires size > 0
  {
    if i <= |rows| then done + Batches(rows[i..], size) == Batches(rows, size)
    else done == Batches(rows, size)
  }

  lemma {:induction false} SlicedStart<T>(rows: seq<T>, size: nat)
    requires size > 0
    ensures Sliced(rows, size, 0, [])
  {
    assert rows[0..] == rows;
  }

  /** One step of the slicing loop: `rows.slice(i, i + size)`, then `i += size`. */
  lemma {:induction false} SlicedStep<T>(rows: seq<T>, size: nat, i: nat, done: seq<seq<T>>)
    requires size > 0 && i < |rows| && Sliced(rows, size, i, done)
    ensures var j := if i + size < |rows| then i + size else |rows|;
      Sliced(rows, size, i + size, done + [rows[i..j]])
  {
    var j := if i + size < |rows| then i + size else |rows|;
    BatchesStep(rows, size, i);
    if j == |rows| {
      assert rows[j..] == [];
    }
  }

  lemma {:induction false} SlicedEnd<T>(rows: seq<T>, size: nat, i: nat, done: seq<seq<T>>)
    requires size > 0 && i >= |rows| && Sliced(rows, size, i, done)
    ensures done == Batches(rows, size)
  {
    if i == |rows| {
      assert rows[i..] == [];
    }
  }

  /** Joining the batch texts gives the join of all lines, because no batch is empty. */
  lemma {:induction false} JoinBatchTexts(rows: seq<Record>, columns: seq<string>, delimiter: string, size: nat)
    requires size > 0
    ensures Join(BatchTexts(Batches(rows, size), columns, delimiter), "\n") == Join(Lines(rows, columns, delimiter), "\n")
    decreases |rows|
  {
    if |rows| > size {
      BatchTextsSplit(rows, columns, delimiter, size);
      LinesSplit(rows, columns, delimiter, size);
      JoinBatchTexts(rows[size..], columns, delimiter, size);
      JoinCons(BatchText(rows[..size], columns, delimiter), BatchTexts(Batches(rows[size..], size), columns, delimiter),
        Lines(rows[..size], columns, delimiter), Lines(rows[size..], columns, delimiter), "\n");
    } else if rows != [] {
      assert BatchTexts(Batches(rows, size), columns, delimiter) == [BatchText(rows, columns, delimiter)];
    }
  }

  /** The batch texts of more than one batch: the first batch's text, then the rest's. */
  lemma {:induction false} BatchTextsSplit(rows: seq<Record>, columns: seq<string>, delimiter: string, size: nat)
    requires 0 < size < |rows|
    ensures BatchTexts(Batches(rows, size), columns, delimiter)
      == [BatchText(rows[..size], columns, delimiter)] + BatchTexts(Batches(rows[size..], size), columns, delimiter)
    ensures |BatchTexts(Batches(rows[size..], size), columns, delimiter)| > 0
  {
    var bs := Batches(rows[size..], size);
    assert Batches(rows, size) == [rows[..size]] + bs;
    BatchesShape(rows[size..], size);
  }

  /** The lines of the rows: those of the first `size`, then the rest. */
  lemma {:induction false} LinesSplit(rows: seq<Record>, columns: seq<string>, delimiter: string, size: nat)
    requires 0 < size < |rows|
    ensures Lines(rows, columns, delimiter) == Lines(rows[..size], columns, delimiter) + Lines(rows[size..], columns, delimiter)
    ensures |Lines(rows[..size], columns, delimiter)| > 0 && |Lines(rows[size..], columns, delimiter)| > 0
  {
    LinesAppend(rows[..size], rows[size..], columns, delimiter);
    assert rows[..size] + rows[size..] == rows;
  }

  /** Joining a joined head in front of a non-empty joined rest. */
  lemma {:induction false} JoinCons(x: string, rest: seq<string>, xs: seq<string>, ys: seq<string>, sep: string)
    requires |rest| > 0 && |xs| > 0 && |ys| > 0
    requires x == Join(xs, sep) && Join(rest, sep) == Join(ys, sep)
    ensures Join([x] + rest, sep) == Join(xs + ys, sep)
  {
    JoinAppend([x], rest, sep);
    JoinAppend(xs, ys, sep);
  }

  lemma {:induction false} LinesAppend(a: seq<Record>, b: seq<Record>, columns: seq<string>, delimiter: string)
    ensures Lines(a + b, columns, delimiter) == Lines(a, columns, delimiter) + Lines(b, columns, delimiter)
  {
  }

  // ---------------------------------------------------------------------
  // Chunk lists

  /** Appending to an interleaved list adds a separator only after a
      non-empty list. */
  lemma {:induction false} IntersperseSnoc(xs: seq<string>, x: string, sep: string)
    ensures Intersperse(xs + [x], sep) == Intersperse(xs, sep) + (if xs == [] then [] else [sep]) + [x]
    decreases |xs|
  {
    if |xs| == 1 {
      assert Intersperse(xs + [x], sep) == [xs[0], sep] + Intersperse([x], sep);
    } else if |xs| > 1 {
      assert (xs + [x])[1..] == xs[1..] + [x];
      IntersperseSnoc(xs[1..], x, sep);
    } else {
      assert xs + [x] == [x];
    }
  }

  /** Pieces sit at even positions and separators at odd ones, so the list
      never starts or ends with a separator. */
  lemma {:induction false} IntersperseAt(xs: seq<string>, sep: string, i: nat)
    requires i < |Intersperse(xs, sep)|
    ensures i % 2 == 0 ==> Intersperse(xs, sep)[i] == xs[i / 2]
    ensures i % 2 == 1 ==> Intersperse(xs, sep)[i] == sep
    decreases |xs|
  {
    if |xs| > 1 && i >= 2 {
      IntersperseAt(xs[1..], sep, i - 2);
      assert Intersperse(xs, sep)[i] == Intersperse(xs[1..], sep)[i - 2];
    }
  }

  /** The output encodings of the CSV export. */
  datatype TextEncoding = Utf8 | Windows1252

  /** A part of the output blob: the UTF-8 byte order mark, a string (which
      the blob stores as UTF-8), or a string passed through the
      windows-1252 encoder (iconv-lite), which is not itself modelled. */
  datatype BlobPart = ByteOrderMark | Text(s: string) | Win1252(s: string)

  /** The byte order mark's bytes, U+FEFF in UTF-8 (section 6 of RFC 3629). */
  const BomBytes: seq<bv8> := [0xEF, 0xBB, 0xBF]

  /** How a chunk is stored: encoded as it is pushed for windows-1252, kept
      as a string otherwise. */
  function Encoded(encoding: TextEncoding, s: string): BlobPart
  {
    if encoding == Windows1252 then Win1252(s) else Text(s)
  }

  function EncodeAll(encoding: TextEncoding, chunks: seq<string>): (ps: seq<BlobPart>)
    ensures |ps| == |chunks| && forall i :: 0 <= i < |chunks| ==> ps[i] == Encoded(encoding, chunks[i])
  {
    seq(|chunks|, i requires 0 <= i < |chunks| => Encoded(encoding, chunks[i]))
  }

  /** The blob's parts: a byte order mark before the UTF-8 chunks; the
      encoded chunks alone for windows-1252. */
  function Package(encoding: TextEncoding, chunks: seq<string>): (ps: seq<BlobPart>)
    ensures encoding == Utf8 ==> (|ps| == |chunks| + 1 && ps[0] == ByteOrderMark &&
      forall i :: 0 <= i < |chunks| ==> ps[i + 1] == Text(chunks[i]))
    ensures encoding == Windows1252 ==> (|ps| == |chunks| &&
      forall i :: 0 <= i < |chunks| ==> ps[i] == Win1252(chunks[i]))
  {
    if encoding == Utf8 then [ByteOrderMark] + EncodeAll(encoding, chunks) else EncodeAll(encoding, chunks)
  }

  /** The bytes of a blob, given the two string encoders. */
  function BlobBytes(ps: seq<BlobPart>, utf8: string -> seq<bv8>, win1252: string -> seq<bv8>): seq<bv8>
    decreases |ps|
  {
    if ps == [] then []
    else
      (match ps[0]
       case ByteOrderMark => BomBytes
       case Text(s) => utf8(s)
       case Win1252(s) => win1252(s)) + BlobBytes(ps[1..], utf8, win1252)
  }

  /** A UTF-8 blob starts with EF BB BF. */
  lemma {:induction false} PackageStartsWithBom(chunks: seq<string>, utf8: string -> seq<bv8>, win1252: string -> seq<bv8>)
    ensures BlobBytes(Package(Utf8, chunks), utf8, win1252)[..3] == [0xEF, 0xBB, 0xBF]
  {
  }

  datatype Option<T> = None | Some(value: T)
}
