/** `generateCsv`: a header of the first object's keys and one line of
    quoted values per object. */
module CsvUtils {
  import opened Strings
  import opened CsvFields

  /** An element of the data array: an object, or `null`/`undefined`. */
  datatype Element = Absent | Object(record: Record)

  /** `generateCsv` returns its text, or throws: `Object.values` rejects
      `null` and `undefined` with a TypeError. */
  datatype Outcome = Returned(csv: string) | Threw

  /** `"${String(v).replace(/"/g, '""')}"`: `null` renders as `"null"`. */
  function ValueCell(v: JsValue): string
  {
    Quote(ToText(v))
  }

  /** Each cell reads back as `String(value)`. */
  lemma {:induction false} ValueCellReadsBack(v: JsValue)
    ensures ParseField(ValueCell(v)) == Some(ToText(v))
  {
    FieldRoundTrip(ToText(v));
  }

  /** One object's values, in its own property order, joined by commas. */
  function ValuesLine(r: Record): string
  {
    Join(Cells(r), ",")
  }

  function Cells(r: Record): (cs: seq<string>)
    ensures |cs| == |r.entries| && forall i :: 0 <= i < |cs| ==> cs[i] == ValueCell(r.entries[i].1)
  {
    seq(|r.entries|, i requires 0 <= i < |r.entries| => ValueCell(r.entries[i].1))
  }

  /** `Object.keys(data[0] || {}).join(',')`: the names are not quoted. */
  function HeaderOf(first: Element): string
  {
    if first.Object? then Join(Keys(first.record), ",") else ""
  }

  predicate AllObjects(data: seq<Element>)
  {
    forall i | 0 <= i < |data| :: data[i].Object?
  }

  function DataLines(data: seq<Element>): (ls: seq<string>)
    requires AllObjects(data)
    ensures |ls| == |data| && forall i :: 0 <= i < |data| ==> ls[i] == ValuesLine(data[i].record)
  {
    seq(|data|, i requires 0 <= i < |data| => ValuesLine(data[i].record))
  }

  /** `generateCsv(data)`. */
  function GenerateCsv(data: seq<Element>): (r: Outcome)
    ensures data == [] ==> r == Returned("")
    ensures data != [] ==> (r.Threw? <==> !AllObjects(data))
  {
    if data == [] then Returned("")
    else if !AllObjects(data) then Threw
    else Returned(HeaderOf(data[0]) + "\n" + Join(DataLines(data), "\n"))
  }

  /** Without line feeds in the names and values, the text splits into the
      header line and one line per object, in order. */
  lemma {:induction false} CsvLines(data: seq<Element>)
    requires data != [] && AllObjects(data)
    requires forall k :: 0 <= k < |data[0].record.entries| ==> '\n' !in data[0].record.entries[k].0
    requires forall i, k :: 0 <= i < |data| && 0 <= k < |data[i].record.entries| ==>
      '\n' !in ToText(data[i].record.entries[k].1)
    ensures GenerateCsv(data).Returned?
    ensures Split(GenerateCsv(data).csv, '\n') == [HeaderOf(data[0])] + DataLines(data)
  {
    var header := HeaderOf(data[0]);
    var lines := DataLines(data);
    JoinFree(Keys(data[0].record), ",", '\n');
    forall i | 0 <= i < |data| ensures '\n' !in lines[i] {
      var r := data[i].record;
      var cells := Cells(r);
      forall k | 0 <= k < |cells| ensures '\n' !in cells[k] {
        DoubledFree(ToText(r.entries[k].1), '\n');
      }
      JoinFree(cells, ",", '\n');
    }
    var all := [header] + lines;
    forall k | 0 <= k < |all| ensures '\n' !in all[k] {
      if k > 0 {
        assert all[k] == lines[k - 1];
      }
    }
    assert Join(all, "\n") == header + "\n" + Join(lines, "\n") by {
      assert all[1..] == lines;
    }
    SplitJoin(all, '\n');
  }

  /** A character other than `"` occurs in the doubled text only if it
      occurs in the text. */
  lemma {:induction false} DoubledFree(s: string, c: char)
    requires c != '"' && c !in s
    ensures c !in Quote(s)
    decreases |s|
  {
    DoubledFreeCore(s, c);
  }

  lemma {:induction false} DoubledFreeCore(s: string, c: char)
    requires c != '"' && c !in s
    ensures c !in DoubleQuotes(s)
    decreases |s|
  {
    if s != [] {
      assert c !in s[1..];
      DoubledFreeCore(s[1..], c);
    }
  }

  /** A join of pieces free of `c` with a separator free of `c` is free of `c`. */
  lemma {:induction false} JoinFree(xs: seq<string>, sep: string, c: char)
    requires forall k :: 0 <= k < |xs| ==> c !in xs[k]
    requires c !in sep
    ensures c !in Join(xs, sep)
    decreases |xs|
  {
    if |xs| > 1 {
      JoinFree(xs[1..], sep, c);
    }
  }

  // ---------------------------------------------------------------------
  // The repository's example. The texts are bound by preconditions, which
  // keeps the solver from evaluating the quoting of literals eagerly.

  lemma {:induction false} DoubleQuotesAppend(a: string, b: string)
    ensures DoubleQuotes(a + b) == DoubleQuotes(a) + DoubleQuotes(b)
    decreases |a|
  {
    if a == [] {
      assert a + b == b;
    } else {
      assert (a + b)[0] == a[0];
      assert (a + b)[1..] == a[1..] + b;
      DoubleQuotesAppend(a[1..], b);
    }
  }

  lemma {:induction false} NoQuotesKept(s: string)
    requires '"' !in s
    ensures DoubleQuotes(s) == s
    decreases |s|
  {
    if s != [] {
      assert '"' !in s[1..];
      NoQuotesKept(s[1..]);
    }
  }

  /** A two-property object's line. */
  lemma {:induction false} ValuesLineTwo(a: (string, JsValue), b: (string, JsValue))
    ensures ValuesLine(Record([a, b])) == ValueCell(a.1) + "," + ValueCell(b.1)
  {
    var cells := Cells(Record([a, b]));
    assert cells == [ValueCell(a.1), ValueCell(b.1)];
    assert Join(cells[1..], ",") == ValueCell(b.1);
  }

  /** A text without quotes is only wrapped in quotes. */
  lemma {:induction false} PlainCell(s: string)
    requires '"' !in s
    ensures ValueCell(Shown(s)) == "\"" + s + "\""
  {
    NoQuotesKept(s);
  }

  lemma {:induction false} QuoteDoubled()
    ensures DoubleQuotes("\"") == "\"\""
  {
  }

  /** The doubling of `a"w"` for quote-free `a` and `w`. */
  lemma {:induction false} QuotedWordDoubled(a: string, w: string)
    requires '"' !in a && '"' !in w
    ensures DoubleQuotes(a + ("\"" + (w + "\""))) == a + ("\"\"" + (w + "\"\""))
  {
    QuoteDoubled();
    NoQuotesKept(a);
    NoQuotesKept(w);
    DoubleQuotesAppend(w, "\"");
    DoubleQuotesAppend("\"", w + "\"");
    DoubleQuotesAppend(a, "\"" + (w + "\""));
  }

  /** A text ending in a quoted word has both of that word's quotes doubled. */
  lemma {:induction false} QuotedWordCell(a: string, w: string, s: string)
    requires '"' !in a && '"' !in w && s == a + ("\"" + (w + "\""))
    ensures ValueCell(Shown(s)) == "\"" + (a + ("\"\"" + (w + "\"\""))) + "\""
  {
    QuotedWordDoubled(a, w);
  }

  /** The line of two quote-free values. */
  lemma {:induction false} PlainLine(k1: string, v1: string, k2: string, v2: string)
    requires '"' !in v1 && '"' !in v2
    ensures ValuesLine(Record([(k1, Shown(v1)), (k2, Shown(v2))])) == ("\"" + v1 + "\"") + "," + ("\"" + v2 + "\"")
  {
    ValuesLineTwo((k1, Shown(v1)), (k2, Shown(v2)));
    PlainCell(v1);
    PlainCell(v2);
  }

  /** The line of a quote-free value and a value `a"w"`. */
  lemma {:induction false} QuotedLine(k1: string, v1: string, k2: string, a: string, w: string)
    requires '"' !in v1 && '"' !in a && '"' !in w
    ensures ValuesLine(Record([(k1, Shown(v1)), (k2, Shown(a + ("\"" + (w + "\""))))])) ==
      ("\"" + v1 + "\"") + "," + ("\"" + (a + ("\"\"" + (w + "\"\""))) + "\"")
  {
    ValuesLineTwo((k1, Shown(v1)), (k2, Shown(a + ("\"" + (w + "\"")))));
    PlainCell(v1);
    QuotedWordCell(a, w, a + ("\"" + (w + "\"")));
  }

  lemma {:induction false} AliceText(name: string, a: string, w: string)
    requires name == "Alice" && a == "Loves " && w == "quotes"
    ensures ("\"" + name + "\"") + "," + ("\"" + (a + ("\"\"" + (w + "\"\""))) + "\"") ==
      "\"Alice\",\"Loves \"\"quotes\"\"\""
  {
  }

  lemma {:induction false} BobText(name: string, bio: string)
    requires name == "Bob" && bio == "Simple guy"
    ensures ("\"" + name + "\"") + "," + ("\"" + bio + "\"") == "\"Bob\",\"Simple guy\""
  {
  }

  /** `{name: 'Alice', bio: 'Loves "quotes"'}` renders `"Alice","Loves ""quotes"""`. */
  lemma {:induction false} AliceLine(name: string, bio: string)
    requires name == "Alice" && bio == "Loves \"quotes\""
    ensures ValuesLine(Record([("name", Shown(name)), ("bio", Shown(bio))])) ==
      "\"Alice\",\"Loves \"\"quotes\"\"\""
  {
    var a, w := "Loves ", "quotes";
    assert bio == a + ("\"" + (w + "\""));
    QuotedLine("name", name, "bio", a, w);
    AliceText(name, a, w);
  }

  lemma {:induction false} BobLine(name: string, bio: string)
    requires name == "Bob" && bio == "Simple guy"
    ensures ValuesLine(Record([("name", Shown(name)), ("bio", Shown(bio))])) == "\"Bob\",\"Simple guy\""
  {
    PlainLine("name", name, "bio", bio);
    BobText(name, bio);
  }

  /** Two objects: the header, then both lines. */
  lemma {:induction false} TwoObjects(r1: Record, r2: Record)
    ensures GenerateCsv([Object(r1), Object(r2)]) ==
      Returned(Join(Keys(r1), ",") + "\n" + (ValuesLine(r1) + "\n" + ValuesLine(r2)))
  {
    var data := [Object(r1), Object(r2)];
    assert DataLines(data) == [ValuesLine(r1), ValuesLine(r2)];
    assert Join([ValuesLine(r1), ValuesLine(r2)], "\n") == ValuesLine(r1) + "\n" + ValuesLine(r2) by {
      assert [ValuesLine(r1), ValuesLine(r2)][1..] == [ValuesLine(r2)];
    }
  }

  /** The header of two property names. */
  lemma {:induction false} TwoKeys(r: Record, k1: string, k2: string)
    requires |r.entries| == 2 && r.entries[0].0 == k1 && r.entries[1].0 == k2
    ensures Join(Keys(r), ",") == k1 + "," + k2
  {
    assert Keys(r) == [k1, k2];
    assert [k1, k2][1..] == [k2];
  }

  /** The two-object example with a quote inside a value. */
  lemma {:induction false} TwoRowExample(alice: Record, bob: Record)
    requires alice == Record([("name", Shown("Alice")), ("bio", Shown("Loves \"quotes\""))])
    requires bob == Record([("name", Shown("Bob")), ("bio", Shown("Simple guy"))])
    ensures GenerateCsv([Object(alice), Object(bob)]) ==
      Returned("name,bio" + "\n" + ("\"Alice\",\"Loves \"\"quotes\"\"\"" + "\n" + "\"Bob\",\"Simple guy\""))
  {
    TwoObjects(alice, bob);
    ExampleHeader(alice);
    ExampleAlice(alice);
    ExampleBob(bob);
  }

  lemma {:induction false} ExampleHeader(alice: Record)
    requires alice == Record([("name", Shown("Alice")), ("bio", Shown("Loves \"quotes\""))])
    ensures Join(Keys(alice), ",") == "name,bio"
  {
    TwoKeys(alice, "name", "bio");
  }

  lemma {:induction false} ExampleAlice(alice: Record)
    requires alice == Record([("name", Shown("Alice")), ("bio", Shown("Loves \"quotes\""))])
    ensures ValuesLine(alice) == "\"Alice\",\"Loves \"\"quotes\"\"\""
  {
    AliceLine(alice.entries[0].1.text, alice.entries[1].1.text);
  }

  lemma {:induction false} ExampleBob(bob: Record)
    requires bob == Record([("name", Shown("Bob")), ("bio", Shown("Simple guy"))])
    ensures ValuesLine(bob) == "\"Bob\",\"Simple guy\""
  {
    BobLine(bob.entries[0].1.text, bob.entries[1].1.text);
  }

  /** A `null` value renders as the text `null`, unlike the export builders'
      empty field. */
  lemma {:induction false} NullIsText()
    ensures ValueCell(JsNull) == "\"null\"" && FieldText(JsNull) == "\"\""
  {
  }
}
