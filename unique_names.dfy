/** Unique names for split columns (`generateUniqueNames`): each requested
    name is kept when it is free, and otherwise gets the first free
    `_1`, `_2`, ... suffix; every chosen name is then taken. */
module UniqueNames {
  import opened Strings

  /** A column: its name and its engine type name. */
  datatype Column = Column(name: string, ty: string)

  /** `new Set(columns.map(c => c.name))`. */
  function NameSet(columns: seq<Column>): (r: set<string>)
    ensures forall c :: c in columns ==> c.name in r
    ensures forall s :: s in r ==> exists c :: c in columns && c.name == s
  {
    set c | c in columns :: c.name
  }

  /** `${name}_${k}`. */
  function Suffixed(name: string, k: nat): string
  {
    name + "_" + NatToString(k)
  }

  /** Different counters give different names. */
  lemma {:induction false} SuffixedInjective(name: string, a: nat, b: nat)
    requires Suffixed(name, a) == Suffixed(name, b)
    ensures a == b
  {
    assert Suffixed(name, a)[|name| + 1..] == NatToString(a);
    assert Suffixed(name, b)[|name| + 1..] == NatToString(b);
    NatToStringInjective(a, b);
  }

  /** The names `name_1` ... `name_k`. */
  function SuffixedUpTo(name: string, k: nat): (r: set<string>)
    ensures forall j :: 1 <= j <= k ==> Suffixed(name, j) in r
    decreases k
  {
    if k == 0 then {} else SuffixedUpTo(name, k - 1) + {Suffixed(name, k)}
  }

  /** `name_1` ... `name_k` are `k` different names. */
  lemma {:induction false} SuffixedUpToSize(name: string, k: nat)
    ensures |SuffixedUpTo(name, k)| == k
    decreases k
  {
    if k > 0 {
      SuffixedUpToSize(name, k - 1);
      if Suffixed(name, k) in SuffixedUpTo(name, k - 1) {
        var j := SuffixedUpToMember(name, k - 1, Suffixed(name, k));
        SuffixedInjective(name, j, k);
      }
    }
  }

  lemma {:induction false} SuffixedUpToMember(name: string, k: nat, s: string) returns (j: nat)
    requires s in SuffixedUpTo(name, k)
    ensures 1 <= j <= k && s == Suffixed(name, j)
    decreases k
  {
    if s == Suffixed(name, k) {
      j := k;
    } else {
      j := SuffixedUpToMember(name, k - 1, s);
    }
  }

  lemma {:induction false} SubsetSize<T>(a: set<T>, b: set<T>)
    requires a <= b
    ensures |a| <= |b|
    decreases |b|
  {
    if a != {} {
      var x :| x in a;
      SubsetSize(a - {x}, b - {x});
    }
  }

  /** When `name_1` ... `name_k` are all taken, there are at least `k`
      taken names: the counter cannot run past the number of taken
      names plus one. */
  lemma {:induction false} CounterBound(taken: set<string>, name: string, k: nat)
    requires forall j :: 1 <= j <= k ==> Suffixed(name, j) in taken
    ensures k <= |taken|
  {
    SuffixedUpToSize(name, k);
    forall s | s in SuffixedUpTo(name, k)
      ensures s in taken
    {
      var j := SuffixedUpToMember(name, k, s);
    }
    SubsetSize(SuffixedUpTo(name, k), taken);
  }

  /** The first counter from `k` on whose suffixed name is free, given
      that those below `k` are taken. */
  function FirstFree(taken: set<string>, name: string, k: nat): (r: nat)
    requires k >= 1
    requires forall j :: 1 <= j < k ==> Suffixed(name, j) in taken
    ensures r >= k && Suffixed(name, r) !in taken
    ensures forall j :: 1 <= j < r ==> Suffixed(name, j) in taken
    decreases |taken| + 1 - k
  {
    if Suffixed(name, k) !in taken then k
    else
      CounterBound(taken, name, k);
      FirstFree(taken, name, k + 1)
  }

  /** The name chosen for `name` when `taken` are taken: `name` itself when
      it is free, otherwise `name_k` for the smallest free `k >= 1`. */
  function Resolve(taken: set<string>, name: string): (r: string)
    ensures r !in taken
    ensures name !in taken ==> r == name
    ensures name in taken ==>
      exists k :: k >= 1 && r == Suffixed(name, k) && forall j :: 1 <= j < k ==> Suffixed(name, j) in taken
  {
    if name !in taken then name else Suffixed(name, FirstFree(taken, name, 1))
  }

  /** The names chosen for `names` in order, each one taken before the next
      is chosen. */
  function UniqueNames(taken: set<string>, names: seq<string>): (r: seq<string>)
    ensures |r| == |names|
    decreases |names|
  {
    if names == [] then []
    else
      var u := Resolve(taken, names[0]);
      [u] + UniqueNames(taken + {u}, names[1..])
  }

  /** The names in a sequence. */
  function Elements(xs: seq<string>): (r: set<string>)
    ensures forall x :: x in r <==> x in xs
  {
    set x | x in xs
  }

  /** Position `i` of the result is resolved from `names[i]` against the
      taken names and the names chosen before it. */
  lemma {:induction false} UniqueNamesAt(taken: set<string>, names: seq<string>, i: nat)
    requires i < |names|
    ensures UniqueNames(taken, names)[i] == Resolve(taken + Elements(UniqueNames(taken, names)[..i]), names[i])
    decreases i
  {
    if i > 0 {
      var r := UniqueNames(taken, names);
      var u := r[0];
      var rest := UniqueNames(taken + {u}, names[1..]);
      UniqueNamesAt(taken + {u}, names[1..], i - 1);
      assert r[..i] == [u] + rest[..i - 1];
      assert taken + Elements(r[..i]) == (taken + {u}) + Elements(rest[..i - 1]);
    }
  }

  /** No chosen name is taken, and no two chosen names are equal. */
  lemma {:induction false} UniqueNamesFresh(taken: set<string>, names: seq<string>)
    ensures forall i :: 0 <= i < |names| ==> UniqueNames(taken, names)[i] !in taken
    ensures forall i, j :: 0 <= i < j < |names| ==> UniqueNames(taken, names)[i] != UniqueNames(taken, names)[j]
    decreases |names|
  {
    if names != [] {
      var r := UniqueNames(taken, names);
      var u := r[0];
      var rest := UniqueNames(taken + {u}, names[1..]);
      UniqueNamesFresh(taken + {u}, names[1..]);
      assert r == [u] + rest;
      forall i, j | 0 <= i < j < |names|
        ensures r[i] != r[j]
      {
        if i > 0 {
          assert r[i] == rest[i - 1] && r[j] == rest[j - 1];
        } else {
          assert r[j] == rest[j - 1];
        }
      }
    }
  }

  /** The split columns' names against the table's columns: never an
      existing name, never a repeat. */
  lemma {:induction false} SplitNamesFresh(columns: seq<Column>, names: seq<string>)
    ensures forall i, c :: 0 <= i < |names| && c in columns ==> UniqueNames(NameSet(columns), names)[i] != c.name
    ensures forall i, j :: 0 <= i < j < |names| ==> UniqueNames(NameSet(columns), names)[i] != UniqueNames(NameSet(columns), names)[j]
  {
    UniqueNamesFresh(NameSet(columns), names);
  }

  /** `generateUniqueNames`: a working set of taken names, an outer loop
      over the requested names and an inner loop over the counter. */
  method GenerateUniqueNames(columns: seq<Column>, newColNames: seq<string>) returns (finalNames: seq<string>)
    ensures finalNames == UniqueNames(NameSet(columns), newColNames)
  {
    var existingNames := NameSet(columns);
    finalNames := [];
    var i := 0;
    while i < |newColNames|
      invariant 0 <= i <= |newColNames|
      invariant finalNames + UniqueNames(existingNames, newColNames[i..]) == UniqueNames(NameSet(columns), newColNames)
    {
      var name := newColNames[i];
      var uniqueName := name;
      var counter := 1;
      while uniqueName in existingNames
        invariant counter >= 1
        invariant counter == 1 ==> uniqueName == name
        invariant counter > 1 ==> name in existingNames && uniqueName == Suffixed(name, counter - 1)
        invariant forall j :: 1 <= j < counter - 1 ==> Suffixed(name, j) in existingNames
        decreases |existingNames| + 2 - counter
      {
        CounterBound(existingNames, name, counter - 1);
        uniqueName := Suffixed(name, counter);
        counter := counter + 1;
      }
      assert uniqueName == Resolve(existingNames, name) by {
        if counter > 1 {
          assert FirstFree(existingNames, name, 1) == counter - 1;
        }
      }
      assert newColNames[i..][1..] == newColNames[i + 1..];
      existingNames := existingNames + {uniqueName};
      finalNames := finalNames + [uniqueName];
      i := i + 1;
    }
    assert newColNames[i..] == [];
  }

  // The repository's example table has the columns id, name, email and
  // city_1.

  lemma {:induction false} SuffixedOne(name: string)
    ensures Suffixed(name, 1) == name + "_1"
  {
  }

  lemma {:induction false} SuffixedTwo(name: string)
    ensures Suffixed(name, 2) == name + "_2"
  {
  }

  lemma {:induction false} ExampleNames(columns: seq<Column>)
    requires columns == [Column("id", "INTEGER"), Column("name", "VARCHAR"), Column("email", "VARCHAR"), Column("city_1", "VARCHAR")]
    ensures NameSet(columns) == {"id", "name", "email", "city_1"}
  {
    assert columns[0].name == "id" && columns[1].name == "name";
    assert columns[2].name == "email" && columns[3].name == "city_1";
  }

  /** A free name is kept; the next request sees it taken. */
  lemma {:induction false} KeepFree(taken: set<string>, a: string, rest: seq<string>)
    requires a !in taken
    ensures UniqueNames(taken, [a] + rest) == [a] + UniqueNames(taken + {a}, rest)
  {
    assert ([a] + rest)[1..] == rest;
  }

  /** A taken name whose `_1` is free becomes `name_1`. */
  lemma {:induction false} FirstSuffix(taken: set<string>, a: string, rest: seq<string>)
    requires a in taken && a + "_1" !in taken
    ensures UniqueNames(taken, [a] + rest) == [a + "_1"] + UniqueNames(taken + {a + "_1"}, rest)
  {
    SuffixedOne(a);
    assert FirstFree(taken, a, 1) == 1;
    assert ([a] + rest)[1..] == rest;
  }

  /** A taken name whose `_1` is taken and `_2` free becomes `name_2`. */
  lemma {:induction false} SecondSuffix(taken: set<string>, a: string, rest: seq<string>)
    requires a in taken && a + "_1" in taken && a + "_2" !in taken
    ensures UniqueNames(taken, [a] + rest) == [a + "_2"] + UniqueNames(taken + {a + "_2"}, rest)
  {
    SuffixedOne(a);
    SuffixedTwo(a);
    assert FirstFree(taken, a, 2) == 2;
    assert FirstFree(taken, a, 1) == 2;
    assert ([a] + rest)[1..] == rest;
  }

  lemma {:induction false} NoCollision(taken: set<string>, a: string, b: string)
    requires taken == {"id", "name", "email", "city_1"} && a == "first_name" && b == "last_name"
    ensures UniqueNames(taken, [a, b]) == [a, b]
  {
    KeepFree(taken, a, [b]);
    KeepFree(taken + {a}, b, []);
  }

  lemma {:induction false} CollisionWithExisting(taken: set<string>, a: string, b: string)
    requires taken == {"id", "name", "email", "city_1"} && a == "name" && b == "city"
    ensures UniqueNames(taken, [a, b]) == ["name_1", b]
  {
    assert a + "_1" == "name_1";
    FirstSuffix(taken, a, [b]);
    KeepFree(taken + {a + "_1"}, b, []);
  }

  lemma {:induction false} CollisionWithSuffixed(taken: set<string>, a: string, b: string)
    requires taken == {"id", "name", "email", "city_1"} && a == "city" && b == "city_1"
    ensures UniqueNames(taken, [a, b]) == [a, "city_1_1"]
  {
    assert b + "_1" == "city_1_1";
    KeepFree(taken, a, [b]);
    FirstSuffix(taken + {a}, b, []);
  }

  lemma {:induction false} SelfCollision(taken: set<string>, a: string)
    requires taken == {"id", "name", "email", "city_1"} && a == "tag"
    ensures UniqueNames(taken, [a, a]) == [a, "tag_1"]
  {
    assert a + "_1" == "tag_1";
    KeepFree(taken, a, [a]);
    FirstSuffix(taken + {a}, a, []);
  }

  lemma {:induction false} DoubleCollision(taken: set<string>, a: string)
    requires taken == {"id", "name", "email", "city_1"} && a == "name"
    ensures UniqueNames(taken, [a, a]) == ["name_1", "name_2"]
  {
    assert a + "_1" == "name_1" && a + "_2" == "name_2";
    FirstSuffix(taken, a, [a]);
    SecondSuffix(taken + {a + "_1"}, a, []);
  }
}
