/** Search-column relevance (`getRelevantColumns`): which columns a text
    search should look into, judged from each column's declared type. */
module SearchUtils {
  import opened Strings

  /** A column: its name and its engine type name. */
  datatype Column = Column(name: string, ty: string)

  /** The heuristic's type classes, tested in this order. */
  datatype TypeClass = TextType | NumericType | BooleanType | TemporalType | OtherType

  /** `/\d/.test(q)`. */
  predicate HasDigit(q: string)
  {
    exists k :: 0 <= k < |q| && IsDigit(q[k])
  }

  /** A character class test such as `/[\-\.]/.test(q)`. */
  predicate HasCharIn(q: string, cs: string)
  {
    exists k :: 0 <= k < |q| && q[k] in cs
  }

  /** The class of a type name, from its upper case: text markers first,
      then numeric, boolean and date/time markers; anything else is other. */
  function Classify(ty: string): TypeClass
  {
    var t := ToUpper(ty);
    if TextMarker(t) then TextType
    else if NumericMarker(t) then NumericType
    else if BooleanMarker(t) then BooleanType
    else if TemporalMarker(t) then TemporalType
    else OtherType
  }

  predicate TextMarker(t: string)
  {
    Contains(t, "CHAR") || Contains(t, "TEXT") || Contains(t, "STRING")
  }

  predicate NumericMarker(t: string)
  {
    Contains(t, "INT") || Contains(t, "DOUBLE") || Contains(t, "FLOAT") || Contains(t, "DECIMAL")
    || Contains(t, "REAL") || Contains(t, "NUMERIC")
  }

  predicate BooleanMarker(t: string)
  {
    Contains(t, "BOOL")
  }

  predicate TemporalMarker(t: string)
  {
    Contains(t, "DATE") || Contains(t, "TIME")
  }

  /** A query that may be a number: a digit, a sign or point, or the words
      `infinity` or `nan` in any case. */
  predicate NumberLike(q: string)
  {
    HasDigit(q) || HasCharIn(q, "-.") || Contains(ToLower(q), "infinity") || Contains(ToLower(q), "nan")
  }

  /** A lower-cased query that overlaps `true` or `false`: it contains one
      of them, or is part of one. */
  predicate BooleanLike(lower: string)
  {
    Contains(lower, "true") || Contains(lower, "false") || Contains("true", lower) || Contains("false", lower)
  }

  /** A query that may be part of a date or time. */
  predicate DateLike(q: string)
  {
    HasDigit(q) || HasCharIn(q, "-/:.")
  }

  /** The filter's verdict on a column of class `cls` for the trimmed query `q`. */
  predicate Verdict(cls: TypeClass, q: string)
  {
    match cls
    case TextType => true
    case NumericType => NumberLike(q)
    case BooleanType => BooleanLike(ToLower(q))
    case TemporalType => DateLike(q)
    case OtherType => true
  }

  /** The filter's verdict on one column. */
  predicate Relevant(col: Column, q: string)
  {
    Verdict(Classify(col.ty), q)
  }

  /** `xs` is `ys` with some elements dropped, order kept. */
  predicate Subsequence<T(==)>(xs: seq<T>, ys: seq<T>)
    decreases |ys|
  {
    if xs == [] then true
    else if ys == [] then false
    else if xs[0] == ys[0] then Subsequence(xs[1..], ys[1..])
    else Subsequence(xs, ys[1..])
  }

  /** `columns.filter(col => Relevant(col, q))`. */
  function FilterColumns(columns: seq<Column>, q: string): seq<Column>
    decreases |columns|
  {
    if columns == [] then []
    else
      var rest := FilterColumns(columns[1..], q);
      if Relevant(columns[0], q) then [columns[0]] + rest else rest
  }

  /** The filter keeps the order of the columns it keeps. */
  lemma {:induction false} FilterOrder(columns: seq<Column>, q: string)
    ensures Subsequence(FilterColumns(columns, q), columns)
    decreases |columns|
  {
    if columns != [] {
      FilterOrder(columns[1..], q);
      var rest := FilterColumns(columns[1..], q);
      if Relevant(columns[0], q) {
        assert ([columns[0]] + rest)[1..] == rest;
      } else {
        SubsequenceSkip(rest, columns);
      }
    }
  }

  /** Dropping the first element of the longer sequence keeps a subsequence. */
  lemma {:induction false} SubsequenceSkip<T>(xs: seq<T>, ys: seq<T>)
    requires ys != [] && Subsequence(xs, ys[1..])
    ensures Subsequence(xs, ys)
    decreases |ys|, |xs|
  {
    if xs != [] && xs[0] == ys[0] {
      SubsequenceTail(xs, ys[1..]);
    }
  }

  /** A subsequence stays one when its first element is dropped. */
  lemma {:induction false} SubsequenceTail<T>(xs: seq<T>, ys: seq<T>)
    requires xs != [] && Subsequence(xs, ys)
    ensures Subsequence(xs[1..], ys)
    decreases |ys|, |xs|
  {
    if xs[0] == ys[0] {
      SubsequenceSkip(xs[1..], ys);
    } else {
      SubsequenceTail(xs, ys[1..]);
      SubsequenceSkip(xs[1..], ys);
    }
  }

  /** A column is kept exactly when it is present and relevant. */
  lemma {:induction false} FilterMembers(columns: seq<Column>, q: string)
    ensures forall c :: c in FilterColumns(columns, q) <==> c in columns && Relevant(c, q)
    decreases |columns|
  {
    if columns != [] {
      FilterMembers(columns[1..], q);
      assert columns == [columns[0]] + columns[1..];
    }
  }

  /** `getRelevantColumns(columns, query)`. */
  function GetRelevantColumns(columns: seq<Column>, query: string): (r: seq<Column>)
    ensures Trim(query) == [] ==> r == []
    ensures Subsequence(r, columns)
    ensures Trim(query) != [] ==> forall c :: c in r <==> c in columns && Relevant(c, Trim(query))
  {
    var q := Trim(query);
    if q == [] then []
    else
      FilterOrder(columns, q);
      FilterMembers(columns, q);
      FilterColumns(columns, q)
  }

  // ---------------------------------------------------------------------
  // The rules, one per type class

  /** Text columns and columns of no known class are always searched. */
  lemma {:induction false} AlwaysKept(columns: seq<Column>, query: string, c: Column)
    requires c in columns && Trim(query) != []
    requires Classify(c.ty) == TextType || Classify(c.ty) == OtherType
    ensures c in GetRelevantColumns(columns, query)
  {
  }

  /** A column whose type names a text marker is text, whatever else it names. */
  lemma {:induction false} TextWins(ty: string)
    requires TextMarker(ToUpper(ty))
    ensures Classify(ty) == TextType
  {
  }

  /** A numeric column is searched exactly when the query may be a number. */
  lemma {:induction false} NumericRule(columns: seq<Column>, query: string, c: Column)
    requires c in columns && Trim(query) != [] && Classify(c.ty) == NumericType
    ensures c in GetRelevantColumns(columns, query) <==> NumberLike(Trim(query))
  {
  }

  /** A boolean column is searched exactly when the query overlaps `true`
      or `false`. */
  lemma {:induction false} BooleanRule(columns: seq<Column>, query: string, c: Column)
    requires c in columns && Trim(query) != [] && Classify(c.ty) == BooleanType
    ensures c in GetRelevantColumns(columns, query) <==> BooleanLike(ToLower(Trim(query)))
  {
  }

  /** A date or time column is searched exactly when the query has a digit
      or a date separator. */
  lemma {:induction false} TemporalRule(columns: seq<Column>, query: string, c: Column)
    requires c in columns && Trim(query) != [] && Classify(c.ty) == TemporalType
    ensures c in GetRelevantColumns(columns, query) <==> DateLike(Trim(query))
  {
  }

  /** A query with no text keeps no column. */
  lemma {:induction false} BlankQuery(columns: seq<Column>, query: string)
    requires forall k :: 0 <= k < |query| ==> IsJsWhitespace(query[k])
    ensures GetRelevantColumns(columns, query) == []
  {
    TrimFacts(query);
  }

  // ---------------------------------------------------------------------
  // Partial words

  /** `fal` is part of `false`, so boolean columns are searched for it;
      `falsy` contains neither word nor is part of one. */
  lemma {:induction false} PartialBoolean(fal: string, falsy: string)
    requires fal == "fal" && falsy == "falsy"
    ensures BooleanLike(fal) && !BooleanLike(falsy)
  {
    ContainsAt("false", fal, 0);
    assert !Contains(falsy, "true") by { MissingChar(falsy, "true", 't'); }
    assert !Contains(falsy, "false") by { MissingChar(falsy, "false", 'e'); }
    assert !Contains("true", falsy) && !Contains("false", falsy);
  }

  // ---------------------------------------------------------------------
  // The repository's example table: id INTEGER, name VARCHAR,
  // active BOOLEAN, score DOUBLE, created TIMESTAMP, description TEXT.

  lemma {:induction false} IntegerClass(t: string)
    requires t == "INTEGER"
    ensures Classify(t) == NumericType
  {
    IntegerNotText(t);
    ContainsAt(t, "INT", 0);
  }

  lemma {:induction false} IntegerNotText(t: string)
    requires t == "INTEGER"
    ensures ToUpper(t) == t && !TextMarker(t)
  {
    assert ToUpper(t) == t by { UpperKeeps(t); }
    assert !Contains(t, "CHAR") by { MissingChar(t, "CHAR", 'C'); }
    assert !Contains(t, "TEXT") by { MissingChar(t, "TEXT", 'X'); }
    assert !Contains(t, "STRING") by { MissingChar(t, "STRING", 'S'); }
  }

  lemma {:induction false} VarcharClass(t: string)
    requires t == "VARCHAR"
    ensures Classify(t) == TextType
  {
    assert ToUpper(t) == t by { UpperKeeps(t); }
    assert TextMarker(t) by {
      ContainsAt(t, "CHAR", 3);
    }
  }

  lemma {:induction false} BooleanClass(t: string)
    requires t == "BOOLEAN"
    ensures Classify(t) == BooleanType
  {
    assert ToUpper(t) == t by { UpperKeeps(t); }
    BooleanNotText(t);
    BooleanNotNumeric(t);
    assert BooleanMarker(t) by {
      ContainsAt(t, "BOOL", 0);
    }
  }

  lemma {:induction false} BooleanNotText(t: string)
    requires t == "BOOLEAN"
    ensures !TextMarker(t)
  {
    assert !Contains(t, "CHAR") by { MissingChar(t, "CHAR", 'C'); }
    assert !Contains(t, "TEXT") by { MissingChar(t, "TEXT", 'X'); }
    assert !Contains(t, "STRING") by { MissingChar(t, "STRING", 'S'); }
  }

  lemma {:induction false} BooleanNotNumeric(t: string)
    requires t == "BOOLEAN"
    ensures !NumericMarker(t)
  {
    assert !Contains(t, "INT") by { MissingChar(t, "INT", 'I'); }
    assert !Contains(t, "DOUBLE") by { MissingChar(t, "DOUBLE", 'D'); }
    assert !Contains(t, "FLOAT") by { MissingChar(t, "FLOAT", 'F'); }
    assert !Contains(t, "DECIMAL") by { MissingChar(t, "DECIMAL", 'D'); }
    assert !Contains(t, "REAL") by { MissingChar(t, "REAL", 'R'); }
    assert !Contains(t, "NUMERIC") by { MissingChar(t, "NUMERIC", 'M'); }
  }

  lemma {:induction false} DoubleNotText(t: string)
    requires t == "DOUBLE"
    ensures !TextMarker(t)
  {
    assert !Contains(t, "CHAR") by { MissingChar(t, "CHAR", 'C'); }
    assert !Contains(t, "TEXT") by { MissingChar(t, "TEXT", 'X'); }
    assert !Contains(t, "STRING") by { MissingChar(t, "STRING", 'S'); }
  }

  lemma {:induction false} DoubleClass(t: string)
    requires t == "DOUBLE"
    ensures Classify(t) == NumericType
  {
    assert ToUpper(t) == t by { UpperKeeps(t); }
    DoubleNotText(t);
    assert NumericMarker(t) by {
      ContainsAt(t, "DOUBLE", 0);
    }
  }

  lemma {:induction false} TimestampClass(t: string)
    requires t == "TIMESTAMP"
    ensures Classify(t) == TemporalType
  {
    TimestampNotText(t);
    TimestampNotNumeric(t);
    TimestampTemporal(t);
  }

  lemma {:induction false} TimestampTemporal(t: string)
    requires t == "TIMESTAMP"
    ensures !BooleanMarker(t) && TemporalMarker(t)
  {
    assert !Contains(t, "BOOL") by { MissingChar(t, "BOOL", 'B'); }
    ContainsAt(t, "TIME", 0);
  }

  lemma {:induction false} TimestampNotText(t: string)
    requires t == "TIMESTAMP"
    ensures ToUpper(t) == t && !TextMarker(t)
  {
    assert ToUpper(t) == t by { UpperKeeps(t); }
    assert !Contains(t, "CHAR") by { MissingChar(t, "CHAR", 'C'); }
    assert !Contains(t, "TEXT") by { MissingChar(t, "TEXT", 'X'); }
    assert !Contains(t, "STRING") by { MissingChar(t, "STRING", 'R'); }
  }

  lemma {:induction false} TimestampNotNumeric(t: string)
    requires t == "TIMESTAMP"
    ensures !NumericMarker(t)
  {
    assert !Contains(t, "INT") by { MissingChar(t, "INT", 'N'); }
    assert !Contains(t, "DOUBLE") by { MissingChar(t, "DOUBLE", 'D'); }
    assert !Contains(t, "FLOAT") by { MissingChar(t, "FLOAT", 'F'); }
    assert !Contains(t, "DECIMAL") by { MissingChar(t, "DECIMAL", 'D'); }
    assert !Contains(t, "REAL") by { MissingChar(t, "REAL", 'R'); }
    assert !Contains(t, "NUMERIC") by { MissingChar(t, "NUMERIC", 'N'); }
  }

  lemma {:induction false} TextClass(t: string)
    requires t == "TEXT"
    ensures Classify(t) == TextType
  {
    assert ToUpper(t) == t by { UpperKeeps(t); }
    assert TextMarker(t) by {
      ContainsAt(t, "TEXT", 0);
    }
  }

  /** The class of each column, in order. */
  function ClassesOf(cols: seq<Column>): (cs: seq<TypeClass>)
    ensures |cs| == |cols|
    decreases |cols|
  {
    if cols == [] then [] else [Classify(cols[0].ty)] + ClassesOf(cols[1..])
  }

  const ExampleClassList := [NumericType, TextType, BooleanType, NumericType, TemporalType, TextType]

  /** Six columns of the example's classes give the example's class list. */
  lemma {:induction false} ClassesOfSix(cols: seq<Column>)
    requires |cols| == 6
    requires Classify(cols[0].ty) == NumericType && Classify(cols[1].ty) == TextType
    requires Classify(cols[2].ty) == BooleanType && Classify(cols[3].ty) == NumericType
    requires Classify(cols[4].ty) == TemporalType && Classify(cols[5].ty) == TextType
    ensures ClassesOf(cols) == ExampleClassList
  {
    assert ClassesOf(cols[6..]) == [];
    assert cols[5..][1..] == cols[6..];
    assert ClassesOf(cols[5..]) == ExampleClassList[5..];
    assert cols[4..][1..] == cols[5..];
    assert ClassesOf(cols[4..]) == ExampleClassList[4..];
    assert cols[3..][1..] == cols[4..];
    assert ClassesOf(cols[3..]) == ExampleClassList[3..];
    assert cols[2..][1..] == cols[3..];
    assert ClassesOf(cols[2..]) == ExampleClassList[2..];
    assert cols[1..][1..] == cols[2..];
    assert ClassesOf(cols[1..]) == ExampleClassList[1..];
  }

  /** The example table's column types have the example's classes. */
  lemma {:induction false} ExampleClasses(cols: seq<Column>)
    requires |cols| == 6
    requires cols[0].ty == "INTEGER" && cols[1].ty == "VARCHAR" && cols[2].ty == "BOOLEAN"
    requires cols[3].ty == "DOUBLE" && cols[4].ty == "TIMESTAMP" && cols[5].ty == "TEXT"
    ensures ClassesOf(cols) == ExampleClassList
  {
    IntegerClass(cols[0].ty);
    VarcharClass(cols[1].ty);
    BooleanClass(cols[2].ty);
    DoubleClass(cols[3].ty);
    TimestampClass(cols[4].ty);
    TextClass(cols[5].ty);
    ClassesOfSix(cols);
  }

  /** The columns whose class's verdict is true, in order. */
  function Kept(cols: seq<Column>, classes: seq<TypeClass>, q: string): seq<Column>
    requires |classes| == |cols|
    decreases |cols|
  {
    if cols == [] then [] else (if Verdict(classes[0], q) then [cols[0]] else []) + Kept(cols[1..], classes[1..], q)
  }

  /** The filter decides column by column from the classes alone. */
  lemma {:induction false} FilterByClasses(cols: seq<Column>, q: string)
    ensures FilterColumns(cols, q) == Kept(cols, ClassesOf(cols), q)
    decreases |cols|
  {
    if cols != [] {
      FilterByClasses(cols[1..], q);
      assert ClassesOf(cols)[1..] == ClassesOf(cols[1..]);
    }
  }

  // The three queries' verdicts, one small fact at a time.

  lemma {:induction false} AliceNoNumberWord(q: string)
    requires q == "alice"
    ensures !Contains(ToLower(q), "infinity") && !Contains(ToLower(q), "nan")
  {
    assert ToLower(q) == q by { LowerKeeps(q); }
    assert !Contains(q, "infinity") by { MissingChar(q, "infinity", 'y'); }
    assert !Contains(q, "nan") by { MissingChar(q, "nan", 'n'); }
  }

  lemma {:induction false} AliceNoBooleanWord(q: string)
    requires q == "alice"
    ensures !Contains(ToLower(q), "true") && !Contains(ToLower(q), "false")
  {
    assert ToLower(q) == q by { LowerKeeps(q); }
    assert !Contains(q, "true") by { MissingChar(q, "true", 't'); }
    assert !Contains(q, "false") by { MissingChar(q, "false", 'f'); }
  }

  lemma {:induction false} AliceNotPartOfBoolean(q: string)
    requires q == "alice"
    ensures !Contains("true", ToLower(q)) && !Contains("false", ToLower(q))
  {
    assert ToLower(q) == q by { LowerKeeps(q); }
    assert !Contains("true", q) by { MissingChar("true", q, 'a'); }
    assert !Contains("false", q) by { MissingChar("false", q, 'i'); }
  }

  lemma {:induction false} AliceNoDigitOrSign(q: string)
    requires q == "alice"
    ensures !HasDigit(q) && !HasCharIn(q, "-.") && !HasCharIn(q, "-/:.")
  {
  }

  /** `alice` is neither a number, a boolean nor a date. */
  lemma {:induction false} AliceVerdicts(q: string)
    requires q == "alice"
    ensures Trim(q) == q && !NumberLike(q) && !BooleanLike(ToLower(q)) && !DateLike(q)
  {
    TrimKept(q);
    AliceNoNumberWord(q);
    AliceNoBooleanWord(q);
    AliceNotPartOfBoolean(q);
    AliceNoDigitOrSign(q);
  }

  lemma {:induction false} InfinityLower(q: string)
    requires q == "Infinity"
    ensures ToLower(q) == "infinity"
  {
    var t := q[1..];
    assert t == "nfinity";
    LowerKeeps(t);
    LowerCons(q[0], t);
    assert q == [q[0]] + t;
    assert LowerChar(q[0]) == 'i';
    InfinityTail(t);
  }

  /** Lower-casing a first character in front of an already lower tail. */
  lemma {:induction false} LowerCons(c: char, t: string)
    requires ToLower(t) == t
    ensures ToLower([c] + t) == [LowerChar(c)] + t
  {
    assert ([c] + t)[1..] == t;
  }

  lemma {:induction false} InfinityTail(t: string)
    requires t == "nfinity"
    ensures ['i'] + t == "infinity"
  {
  }

  lemma {:induction false} InfinityNumberWord(q: string)
    requires q == "Infinity"
    ensures Contains(ToLower(q), "infinity")
  {
    InfinityLower(q);
    ContainsAt(ToLower(q), "infinity", 0);
  }

  lemma {:induction false} InfinityNoBooleanWord(q: string)
    requires q == "Infinity"
    ensures !Contains(ToLower(q), "true") && !Contains(ToLower(q), "false")
  {
    InfinityLower(q);
    assert !Contains(ToLower(q), "true") by { MissingChar(ToLower(q), "true", 'r'); }
    assert !Contains(ToLower(q), "false") by { MissingChar(ToLower(q), "false", 'l'); }
  }

  lemma {:induction false} InfinityNotPartOfBoolean(q: string)
    requires q == "Infinity"
    ensures !Contains("true", ToLower(q)) && !Contains("false", ToLower(q))
  {
  }

  lemma {:induction false} InfinityNoDigitOrSeparator(q: string)
    requires q == "Infinity"
    ensures !HasDigit(q) && !HasCharIn(q, "-/:.")
  {
  }

  /** `Infinity` may be a number, but not a boolean or a date. */
  lemma {:induction false} InfinityVerdicts(q: string)
    requires q == "Infinity"
    ensures Trim(q) == q && NumberLike(q) && !BooleanLike(ToLower(q)) && !DateLike(q)
  {
    TrimKept(q);
    InfinityNumberWord(q);
    InfinityNoBooleanWord(q);
    InfinityNotPartOfBoolean(q);
    InfinityNoDigitOrSeparator(q);
  }

  lemma {:induction false} MinusNotBoolean(q: string)
    requires q == "-"
    ensures !BooleanLike(ToLower(q))
  {
    assert ToLower(q) == q by { LowerKeeps(q); }
    assert !Contains("true", q) by { MissingChar("true", q, '-'); }
    assert !Contains("false", q) by { MissingChar("false", q, '-'); }
  }

  /** `-` may be a number or a date, but overlaps no boolean word. */
  lemma {:induction false} MinusVerdicts(q: string)
    requires q == "-"
    ensures Trim(q) == q && NumberLike(q) && !BooleanLike(ToLower(q)) && DateLike(q)
  {
    TrimKept(q);
    assert q[0] in "-." && q[0] in "-/:.";
    MinusNotBoolean(q);
  }

  // The example table's filter for each combination of verdicts the three
  // queries produce.

  lemma {:induction false} KeptStep(cols: seq<Column>, cs: seq<TypeClass>, q: string, i: nat)
    requires |cs| == |cols| && i < |cols|
    ensures Kept(cols[i..], cs[i..], q) == (if Verdict(cs[i], q) then [cols[i]] else []) + Kept(cols[i + 1..], cs[i + 1..], q)
  {
    assert cols[i..][1..] == cols[i + 1..] && cs[i..][1..] == cs[i + 1..];
  }

  /** The text columns' tail of the example table. */
  lemma {:induction false} ExampleTail(cols: seq<Column>, q: string)
    requires ClassesOf(cols) == ExampleClassList
    ensures Kept(cols[4..], ExampleClassList[4..], q) == (if DateLike(q) then [cols[4]] else []) + [cols[5]]
  {
    var cs := ExampleClassList;
    assert Kept(cols[6..], cs[6..], q) == [];
    KeptStep(cols, cs, q, 5);
    KeptStep(cols, cs, q, 4);
  }

  /** On the example table the filter keeps name and description, the
      two numeric columns when the query may be a number, the boolean
      column when it may be a boolean and the timestamp when it may be a
      date. */
  lemma {:induction false} ExampleKept(cols: seq<Column>, q: string)
    requires ClassesOf(cols) == ExampleClassList
    ensures FilterColumns(cols, q) ==
      (if NumberLike(q) then [cols[0]] else []) + ([cols[1]]
      + ((if BooleanLike(ToLower(q)) then [cols[2]] else [])
      + ((if NumberLike(q) then [cols[3]] else [])
      + ((if DateLike(q) then [cols[4]] else []) + [cols[5]]))))
  {
    FilterByClasses(cols, q);
    var cs := ExampleClassList;
    ExampleTail(cols, q);
    var k4 := Kept(cols[4..], cs[4..], q);
    KeptStep(cols, cs, q, 3);
    var k3 := Kept(cols[3..], cs[3..], q);
    assert k3 == (if NumberLike(q) then [cols[3]] else []) + k4;
    KeptStep(cols, cs, q, 2);
    var k2 := Kept(cols[2..], cs[2..], q);
    assert k2 == (if BooleanLike(ToLower(q)) then [cols[2]] else []) + k3;
    KeptStep(cols, cs, q, 1);
    var k1 := Kept(cols[1..], cs[1..], q);
    assert k1 == [cols[1]] + k2;
    KeptStep(cols, cs, q, 0);
    assert cols[0..] == cols && cs[0..] == cs;
  }

  /** A query that is neither a number, a boolean nor a date searches
      name and description. */
  lemma {:induction false} TextOnlyKept(cols: seq<Column>, q: string)
    requires ClassesOf(cols) == ExampleClassList
    requires !NumberLike(q) && !BooleanLike(ToLower(q)) && !DateLike(q)
    ensures FilterColumns(cols, q) == [cols[1], cols[5]]
  {
    ExampleKept(cols, q);
  }

  /** A query that may be a number but not a boolean or a date searches
      id, name, score and description. */
  lemma {:induction false} NumberOnlyKept(cols: seq<Column>, q: string)
    requires ClassesOf(cols) == ExampleClassList
    requires NumberLike(q) && !BooleanLike(ToLower(q)) && !DateLike(q)
    ensures FilterColumns(cols, q) == [cols[0], cols[1], cols[3], cols[5]]
  {
    ExampleKept(cols, q);
  }

  /** A query that may be a number or a date but not a boolean searches
      every column except the boolean one. */
  lemma {:induction false} AllButBooleanKept(cols: seq<Column>, q: string)
    requires ClassesOf(cols) == ExampleClassList
    requires NumberLike(q) && !BooleanLike(ToLower(q)) && DateLike(q)
    ensures FilterColumns(cols, q) == [cols[0], cols[1], cols[3], cols[4], cols[5]]
  {
    ExampleKept(cols, q);
  }

  /** `alice` searches only the text columns: name and description. */
  lemma {:induction false} AliceQuery(cols: seq<Column>, q: string)
    requires ClassesOf(cols) == ExampleClassList && q == "alice"
    ensures GetRelevantColumns(cols, q) == [cols[1], cols[5]]
  {
    AliceVerdicts(q);
    TextOnlyKept(cols, q);
  }

  /** `Infinity` searches id, name, score and description. */
  lemma {:induction false} InfinityQuery(cols: seq<Column>, q: string)
    requires ClassesOf(cols) == ExampleClassList && q == "Infinity"
    ensures GetRelevantColumns(cols, q) == [cols[0], cols[1], cols[3], cols[5]]
  {
    InfinityVerdicts(q);
    NumberOnlyKept(cols, q);
  }

  /** `-` searches every column except `active`. */
  lemma {:induction false} MinusQuery(cols: seq<Column>, q: string)
    requires ClassesOf(cols) == ExampleClassList && q == "-"
    ensures GetRelevantColumns(cols, q) == [cols[0], cols[1], cols[3], cols[4], cols[5]]
  {
    MinusVerdicts(q);
    AllButBooleanKept(cols, q);
  }
}
