/** The read-only, array-like view over a columnar query result
    (`LazyArrowResult`): rows are materialized one at a time, on request,
    from an immutable table. */
module LazyView {

  /** A value as the view hands it out. `Obj` is an object with identity;
      every other value compares by value. */
  datatype Value<T> = Undefined | Null | Plain(p: T) | Obj(o: RowObject<T>)

  /** A plain object built by a row proxy's `toJSON()`. */
  class RowObject<T> {
    const content: T

    constructor (content: T)
      ensures this.content == content
    {
      this.content := content;
    }
  }

  /** A row once its identity is forgotten. */
  datatype Data<T> = UndefinedData | NullData | Content(t: T)

  function Erase<T>(v: Value<T>): (d: Data<T>)
    ensures d.UndefinedData? <==> v.Undefined?
    ensures d.NullData? <==> v.Null?
  {
    match v
    case Undefined => UndefinedData
    case Null => NullData
    case Plain(p) => Content(p)
    case Obj(o) => Content(o.content)
  }

  function EraseAll<T>(vs: seq<Value<T>>): (ds: seq<Data<T>>)
    ensures |ds| == |vs| && forall i :: 0 <= i < |vs| ==> ds[i] == Erase(vs[i])
  {
    if vs == [] then [] else [Erase(vs[0])] + EraseAll(vs[1..])
  }

  /** What `table.get(i)` gives: null, a row proxy whose `toJSON()` builds a
      new plain object with the given content, or a value without a `toJSON`
      function, which the view hands out unchanged. */
  datatype Cell<T> = NullCell | RowProxy(json: T) | Raw(v: Value<T>)

  /** The table: `numRows` cells. Nothing ever writes to it. */
  class ArrowTable<T> {
    const cells: seq<Cell<T>>

    constructor (cells: seq<Cell<T>>)
      ensures this.cells == cells
    {
      this.cells := cells;
    }
  }

  function CellData<T>(c: Cell<T>): Data<T>
  {
    match c
    case NullCell => NullData
    case RowProxy(j) => Content(j)
    case Raw(v) => Erase(v)
  }

  /** The error `sort` throws. */
  datatype ReadOnlyError = ReadOnlyError(message: string)

  /** `Math.max(0, ...)`-style relative index of `Array.prototype.slice`
      (ECMAScript 2023, section 23.1.3.28): a negative index counts from the
      end, and the result is clamped into `[0, len]`. */
  function Relative(rel: int, len: nat): (r: nat)
    ensures r <= len
  {
    if rel < 0 then (if len + rel < 0 then 0 else len + rel)
    else if rel < len then rel else len
  }

  class LazyArrowResult<T(==)> {
    const table: ArrowTable<T>

    constructor (table: ArrowTable<T>)
      ensures this.table == table
    {
      this.table := table;
    }

    /** `length`: read from the table on every use. */
    function Length(): nat
    {
      |table.cells|
    }

    /** The content `getRow(i)` materializes; `undefined` out of range. */
    function RowAt(i: int): (d: Data<T>)
      ensures (i < 0 || i >= Length()) ==> d == UndefinedData
    {
      if i < 0 || i >= Length() then UndefinedData else CellData(table.cells[i])
    }

    /** Every row in index order: what full materialization produces. */
    function Rows(): (r: seq<Data<T>>)
      ensures |r| == Length() && forall i :: 0 <= i < |r| ==> r[i] == RowAt(i)
    {
      seq(Length(), i requires 0 <= i < Length() => RowAt(i))
    }

    /** `getRow(index)`, also what a numeric property access on the view
        returns. A row proxy is converted to a new object on every call. */
    method GetRow(index: int) returns (v: Value<T>)
      ensures Erase(v) == RowAt(index)
      ensures (index < 0 || index >= Length()) ==> v == Undefined
      ensures 0 <= index < Length() && table.cells[index].Raw? ==> v == table.cells[index].v
      ensures 0 <= index < Length() && table.cells[index].RowProxy? ==> v.Obj? && fresh(v.o)
    {
      if index < 0 || index >= Length() {
        return Undefined;
      }
      var row := table.cells[index];
      match row
      case NullCell =>
        v := Null;
      case RowProxy(j) =>
        var o := new RowObject(j);
        v := Obj(o);
      case Raw(x) =>
        v := x;
    }

    /** `map(callback)`: one result per row, in index order. */
    method Map<U>(callback: (Data<T>, nat) -> U) returns (result: seq<U>)
      ensures |result| == Length()
      ensures forall i :: 0 <= i < Length() ==> result[i] == callback(RowAt(i), i)
    {
      var len := Length();
      result := [];
      for i := 0 to len
        invariant |result| == i
        invariant forall j :: 0 <= j < i ==> result[j] == callback(RowAt(j), j)
      {
        var row := GetRow(i);
        result := result + [callback(Erase(row), i)];
      }
    }

    /** `toJSON()`, which is `map(r => r)`: every row materialized, in order. */
    method ToJson() returns (rows: seq<Data<T>>)
      ensures rows == Rows()
    {
      rows := Map((d: Data<T>, i: nat) => d);
    }

    /** `forEach(callback)`: the arguments of the calls it makes, in order. */
    method ForEach() returns (calls: seq<(Data<T>, nat)>)
      ensures |calls| == Length()
      ensures forall i :: 0 <= i < Length() ==> calls[i] == (RowAt(i), i)
    {
      var len := Length();
      calls := [];
      for i := 0 to len
        invariant |calls| == i
        invariant forall j :: 0 <= j < i ==> calls[j] == (RowAt(j), j)
      {
        var row := GetRow(i);
        calls := calls + [(Erase(row), i)];
      }
    }

    /** The rows among the first `n` that pass `keep`, in index order. */
    function FilterRows(keep: (Data<T>, nat) -> bool, n: nat): (r: seq<Data<T>>)
      requires n <= Length()
      ensures |r| <= n
    {
      if n == 0 then []
      else FilterRows(keep, n - 1) + (if keep(RowAt(n - 1), n - 1) then [RowAt(n - 1)] else [])
    }

    /** `filter(callback)`. */
    method Filter(keep: (Data<T>, nat) -> bool) returns (result: seq<Value<T>>)
      ensures EraseAll(result) == FilterRows(keep, Length())
    {
      var len := Length();
      result := [];
      for i := 0 to len
        invariant EraseAll(result) == FilterRows(keep, i)
      {
        var val := GetRow(i);
        if keep(Erase(val), i) {
          EraseAllAppend(result, val);
          result := result + [val];
        }
      }
    }

    /** A kept row passes the test at its own index. */
    lemma {:induction false} FilterSound(keep: (Data<T>, nat) -> bool, n: nat, d: Data<T>)
      requires n <= Length()
      requires d in FilterRows(keep, n)
      ensures exists i :: 0 <= i < n && RowAt(i) == d && keep(d, i)
    {
      if d in FilterRows(keep, n - 1) {
        FilterSound(keep, n - 1, d);
      } else {
        assert RowAt(n - 1) == d;
      }
    }

    /** Every row that passes the test is kept. */
    lemma {:induction false} FilterComplete(keep: (Data<T>, nat) -> bool, n: nat, i: nat)
      requires i < n <= Length()
      requires keep(RowAt(i), i)
      ensures RowAt(i) in FilterRows(keep, n)
    {
      if i < n - 1 {
        FilterComplete(keep, n - 1, i);
      }
    }

    /** Filtering with a test that always passes gives `toJSON()`. */
    lemma {:induction false} FilterAll(keep: (Data<T>, nat) -> bool, n: nat)
      requires n <= Length()
      requires forall i :: 0 <= i < n ==> keep(RowAt(i), i)
      ensures FilterRows(keep, n) == Rows()[..n]
    {
      if n > 0 {
        FilterAll(keep, n - 1);
        assert Rows()[..n] == Rows()[..n - 1] + [RowAt(n - 1)];
      }
    }

    /** The left fold of `step` over the first `n` rows. */
    function FoldRows<U>(step: (U, Data<T>, nat) -> U, init: U, n: nat): U
      requires n <= Length()
    {
      if n == 0 then init else step(FoldRows(step, init, n - 1), RowAt(n - 1), n - 1)
    }

    /** `reduce(callback, initialValue)`. */
    method Reduce<U>(step: (U, Data<T>, nat) -> U, init: U) returns (acc: U)
      ensures acc == FoldRows(step, init, Length())
    {
      var len := Length();
      acc := init;
      for i := 0 to len
        invariant acc == FoldRows(step, init, i)
      {
        var row := GetRow(i);
        acc := step(acc, Erase(row), i);
      }
    }

    /** Counting rows with `reduce` gives `length`. */
    lemma {:induction false} ReduceCounts(n: nat)
      requires n <= Length()
      ensures FoldRows((acc: int, d: Data<T>, i: nat) => acc + 1, 0, n) == n
    {
      if n > 0 {
        ReduceCounts(n - 1);
      }
    }

    /** `slice(start, end)`, `None` standing for an omitted argument (and
        also for a `start` that is 0 or not a number). */
    method Slice(start: Option<int>, end: Option<int>) returns (result: seq<Value<T>>)
      ensures var k := Relative(if start.Some? then start.value else 0, Length());
        var e := Relative(if end.Some? then end.value else Length(), Length());
        |result| == (if e > k then e - k else 0) &&
        forall i :: 0 <= i < |result| ==> Erase(result[i]) == RowAt(k + i)
    {
      var len := Length();
      var k := if start.Some? then start.value else 0;
      if k < 0 {
        k := k + len;
      }
      var final := if end.None? then len else end.value;
      if final < 0 {
        final := final + len;
      }
      if k < 0 {
        k := 0;
      }
      if final > len {
        final := len;
      }
      if k > len {
        k := len;
      }
      var size := if final - k > 0 then final - k else 0;
      result := [];
      for i := 0 to size
        invariant |result| == i
        invariant forall j :: 0 <= j < i ==> Erase(result[j]) == RowAt(k + j)
      {
        var row := GetRow(k + i);
        result := result + [row];
      }
    }

    /** Whether `getRow(i)` can be `===` to `x`: a fresh object never is. */
    predicate Found(x: Value<T>, i: nat)
      requires i < Length()
    {
      match table.cells[i]
      case NullCell => x == Null
      case RowProxy(_) => false
      case Raw(v) => v == x
    }

    /** The first index at or after `k` where `x` is found, or -1. */
    function FirstFound(x: Value<T>, k: nat): (r: int)
      ensures r == -1 || (k <= r < Length() && Found(x, r))
      ensures forall j :: k <= j < Length() && (r == -1 || j < r) ==> !Found(x, j)
      decreases Length() - k
    {
      if k >= Length() then -1 else if Found(x, k) then k else FirstFound(x, k + 1)
    }

    /** Where `indexOf(x, fromIndex)` starts scanning. */
    function SearchStart(fromIndex: int): nat
    {
      var k := if fromIndex >= 0 then fromIndex else Length() + fromIndex;
      if k < 0 then 0 else k
    }

    /** `indexOf(searchElement, fromIndex)`, comparing by identity. */
    method IndexOf(x: Value<T>, fromIndex: int) returns (r: int)
      ensures fromIndex >= Length() ==> r == -1
      ensures fromIndex < Length() ==> r == FirstFound(x, SearchStart(fromIndex))
    {
      var len := Length();
      if fromIndex >= len {
        return -1;
      }
      var k := SearchStart(fromIndex);
      var i: int := k;
      while i < len
        invariant k <= i
        invariant forall j :: k <= j < i && j < len ==> !Found(x, j)
        decreases len - i
      {
        var row := GetRow(i);
        assert row == x <==> Found(x, i);
        if row == x {
          FirstFoundAt(x, k, i);
          return i;
        }
        i := i + 1;
      }
      return -1;
    }

    lemma {:induction false} FirstFoundAt(x: Value<T>, k: nat, i: nat)
      requires k <= i < Length() && Found(x, i)
      requires forall j :: k <= j < i ==> !Found(x, j)
      ensures FirstFound(x, k) == i
      decreases i - k
    {
      if k < i {
        FirstFoundAt(x, k + 1, i);
      }
    }

    /** `includes(searchElement, fromIndex)`. */
    method Includes(x: Value<T>, fromIndex: int) returns (r: bool)
      ensures r <==> (fromIndex < Length() &&
        exists j :: SearchStart(fromIndex) <= j < Length() && Found(x, j))
    {
      var i := IndexOf(x, fromIndex);
      r := i != -1;
    }

    /** A row object obtained earlier is never found again: each row proxy
        yields a new object on every access. */
    lemma {:induction false} MaterializedNotFound(x: Value<T>, fromIndex: int)
      requires x.Obj?
      requires forall j :: 0 <= j < Length() ==> table.cells[j] != Raw(x)
      ensures FirstFound(x, SearchStart(fromIndex)) == -1
    {
    }

    /** `sort(compareFn)`: always throws; the table is left as it is. */
    method Sort() returns (error: ReadOnlyError)
      ensures error.message == "LazyArrowResult is read-only. Use .slice().sort() to sort a copy."
    {
      error := ReadOnlyError("LazyArrowResult is read-only. Use .slice().sort() to sort a copy.");
    }

    /** The first index at or after `k` whose row passes `test`, or -1. */
    function FirstMatch(test: (Data<T>, nat) -> bool, k: nat): (r: int)
      ensures r == -1 || (k <= r < Length() && test(RowAt(r), r))
      ensures forall j :: k <= j < Length() && (r == -1 || j < r) ==> !test(RowAt(j), j)
      decreases Length() - k
    {
      if k >= Length() then -1 else if test(RowAt(k), k) then k else FirstMatch(test, k + 1)
    }

    /** `find(predicate)`: the first passing row, or `undefined`. */
    method Find(test: (Data<T>, nat) -> bool) returns (r: Value<T>)
      ensures var m := FirstMatch(test, 0);
        Erase(r) == if m == -1 then UndefinedData else RowAt(m)
    {
      var len := Length();
      for i := 0 to len
        invariant forall j :: 0 <= j < i ==> !test(RowAt(j), j)
      {
        var val := GetRow(i);
        if test(Erase(val), i) {
          FirstMatchAt(test, 0, i);
          return val;
        }
      }
      r := Undefined;
    }

    lemma {:induction false} FirstMatchAt(test: (Data<T>, nat) -> bool, k: nat, i: nat)
      requires k <= i < Length() && test(RowAt(i), i)
      requires forall j :: k <= j < i ==> !test(RowAt(j), j)
      ensures FirstMatch(test, k) == i
      decreases i - k
    {
      if k < i {
        FirstMatchAt(test, k + 1, i);
      }
    }

    /** `every(predicate)`, stopping at the first failing row. */
    method Every(test: (Data<T>, nat) -> bool) returns (r: bool)
      ensures r <==> forall i :: 0 <= i < Length() ==> test(RowAt(i), i)
    {
      var len := Length();
      for i := 0 to len
        invariant forall j :: 0 <= j < i ==> test(RowAt(j), j)
      {
        var row := GetRow(i);
        if !test(Erase(row), i) {
          return false;
        }
      }
      return true;
    }

    /** `some(predicate)`, stopping at the first passing row. */
    method Some(test: (Data<T>, nat) -> bool) returns (r: bool)
      ensures r <==> exists i :: 0 <= i < Length() && test(RowAt(i), i)
    {
      var len := Length();
      for i := 0 to len
        invariant forall j :: 0 <= j < i ==> !test(RowAt(j), j)
      {
        var row := GetRow(i);
        if test(Erase(row), i) {
          return true;
        }
      }
      return false;
    }

    /** `[...view]`: draining the iterator yields every row in order. */
    method Spread() returns (rows: seq<Data<T>>)
      ensures rows == Rows()
    {
      var it := new RowIterator(this);
      rows := [];
      while true
        invariant it.view == this && it.index <= Length()
        invariant rows == Rows()[..it.index]
        decreases Length() - it.index
      {
        var value, done := it.Next();
        if done {
          return;
        }
        rows := rows + [Erase(value)];
      }
    }
  }

  /** The iterator `[Symbol.iterator]()` returns, with its running index. */
  class RowIterator<T(==)> {
    const view: LazyArrowResult<T>
    var index: nat

    constructor (view: LazyArrowResult<T>)
      ensures this.view == view && index == 0
    {
      this.view := view;
      index := 0;
    }

    /** `next()`: the row at the index and a step forward, or done. */
    method Next() returns (value: Value<T>, done: bool)
      modifies this
      ensures done <==> old(index) >= view.Length()
      ensures !done ==> index == old(index) + 1 && Erase(value) == view.RowAt(old(index))
      ensures done ==> index == old(index) && value == Undefined
    {
      if index < view.Length() {
        value := view.GetRow(index);
        index := index + 1;
        done := false;
      } else {
        value := Undefined;
        done := true;
      }
    }
  }

  datatype Option<T> = None | Some(value: T)

  lemma {:induction false} EraseAllAppend<T>(vs: seq<Value<T>>, v: Value<T>)
    ensures EraseAll(vs + [v]) == EraseAll(vs) + [Erase(v)]
  {
  }

  /** `slice(0, N + 100)` on `N` rows gives all `N`. */
  lemma {:induction false} OverlongSlice(len: nat)
    ensures Relative(0, len) == 0 && Relative(len + 100, len) == len
  {
  }

  /** Negative indices count from the end: `slice(-2)` on five rows starts at 3. */
  lemma {:induction false} NegativeSlice()
    ensures Relative(-2, 5) == 3 && Relative(-9, 5) == 0
  {
  }
}
