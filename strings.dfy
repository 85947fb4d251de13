/** String operations of JavaScript that the modelled code relies on
    (`split`, `join`, `trim`, `includes`, `toUpperCase`, template
    interpolation of integers), each stated once over `seq<char>`. */
module Strings {

  /** Number of occurrences of `c` in `s`. */
  function CountChar(s: string, c: char): nat
    decreases |s|
  {
    if s == [] then 0 else (if s[0] == c then 1 else 0) + CountChar(s[1..], c)
  }

  lemma {:induction false} CountCharAppend(a: string, b: string, c: char)
    ensures CountChar(a + b, c) == CountChar(a, c) + CountChar(b, c)
    decreases |a|
  {
    if a == [] {
      assert a + b == b;
    } else {
      assert (a + b)[1..] == a[1..] + b;
      CountCharAppend(a[1..], b, c);
    }
  }

  lemma {:induction false} CountCharZero(s: string, c: char)
    ensures CountChar(s, c) == 0 <==> c !in s
    decreases |s|
  {
    if s != [] {
      CountCharZero(s[1..], c);
      assert s == [s[0]] + s[1..];
    }
  }

  /** `s` starts with `p` (JavaScript `s.startsWith(p)`). */
  predicate StartsWith(s: string, p: string)
  {
    |p| <= |s| && s[..|p|] == p
  }

  /** `p` occurs in `s` at position `i` (JavaScript `s.startsWith(p, i)`). */
  predicate StartsAt(s: string, p: string, i: nat)
  {
    i + |p| <= |s| && s[i..i + |p|] == p
  }

  /** A one-character pattern starts at `i` exactly when `s[i]` is it. */
  lemma {:induction false} StartsAtChar(s: string, c: char, i: nat)
    requires i < |s|
    ensures StartsAt(s, [c], i) <==> s[i] == c
  {
    assert s[i..i + 1] == [s[i]];
  }

  /** JavaScript `s.includes(p)`, searched from position `i` on. */
  predicate ContainsFrom(s: string, p: string, i: nat)
    decreases |s| - i
  {
    i + |p| <= |s| && (s[i..i + |p|] == p || ContainsFrom(s, p, i + 1))
  }

  /** JavaScript `s.includes(p)`. */
  predicate Contains(s: string, p: string)
  {
    ContainsFrom(s, p, 0)
  }

  lemma {:induction false} ContainsFromIff(s: string, p: string, i: nat)
    ensures ContainsFrom(s, p, i) <==> exists k :: i <= k && StartsAt(s, p, k)
    decreases |s| - i
  {
    if i + |p| <= |s| {
      ContainsFromIff(s, p, i + 1);
      if !StartsAt(s, p, i) {
        forall k | i <= k && StartsAt(s, p, k) ensures i + 1 <= k { }
      }
    }
  }

  /** `Contains` is the textbook notion: some occurrence of `p` in `s`. */
  lemma {:induction false} ContainsIff(s: string, p: string)
    ensures Contains(s, p) <==> exists k :: StartsAt(s, p, k)
  {
    ContainsFromIff(s, p, 0);
  }

  /** A pattern holding a character the text lacks does not occur in it. */
  lemma {:induction false} MissingChar(s: string, p: string, c: char)
    requires c in p && c !in s
    ensures !Contains(s, p)
  {
    ContainsIff(s, p);
  }

  /** An occurrence at a known position. */
  lemma {:induction false} ContainsAt(s: string, p: string, k: nat)
    requires StartsAt(s, p, k)
    ensures Contains(s, p)
  {
    ContainsIff(s, p);
  }

  /** Index of the first `c` in `s` at or after `from`, or -1
      (JavaScript `s.indexOf(c, from)` for a one-character `c`). */
  function IndexOfChar(s: string, c: char, from: nat): (r: int)
    ensures r == -1 || (from <= r < |s| && s[r] == c)
    ensures forall k :: from <= k < |s| && (r == -1 || k < r) ==> s[k] != c
    decreases |s| - from
  {
    if from >= |s| then -1 else if s[from] == c then from else IndexOfChar(s, c, from + 1)
  }

  /** Index of the first occurrence of `p` in `s` at or after `from`,
      or -1 (JavaScript `s.indexOf(p, from)` for a non-empty `p`). */
  function IndexOf(s: string, p: string, from: nat): (r: int)
    requires |p| > 0
    ensures r == -1 || (from <= r < |s| && StartsAt(s, p, r))
    ensures forall k :: from <= k < |s| && (r == -1 || k < r) ==> !StartsAt(s, p, k)
    decreases |s| - from
  {
    if from >= |s| then -1 else if StartsAt(s, p, from) then from else IndexOf(s, p, from + 1)
  }

  /** JavaScript `s.split(c)` for a one-character separator. */
  function Split(s: string, c: char): (r: seq<string>)
    ensures |r| >= 1
    decreases |s|
  {
    if s == [] then [[]]
    else
      var rest := Split(s[1..], c);
      if s[0] == c then [[]] + rest else [[s[0]] + rest[0]] + rest[1..]
  }

  /** JavaScript `xs.join(sep)`. */
  function Join(xs: seq<string>, sep: string): string
    decreases |xs|
  {
    if |xs| == 0 then [] else if |xs| == 1 then xs[0] else xs[0] + sep + Join(xs[1..], sep)
  }

  /** The separator-interleaved chunk list `[x0, sep, x1, sep, ..., xn]`. */
  function Intersperse(xs: seq<string>, sep: string): (r: seq<string>)
    ensures |xs| > 0 ==> |r| == 2 * |xs| - 1
    ensures |xs| == 0 ==> r == []
    decreases |xs|
  {
    if |xs| <= 1 then xs else [xs[0], sep] + Intersperse(xs[1..], sep)
  }

  /** Concatenation of a list of chunks, as a `Blob` built from them reads. */
  function Concat(xs: seq<string>): string
    decreases |xs|
  {
    if xs == [] then [] else xs[0] + Concat(xs[1..])
  }

  lemma {:induction false} ConcatAppend(xs: seq<string>, ys: seq<string>)
    ensures Concat(xs + ys) == Concat(xs) + Concat(ys)
    decreases |xs|
  {
    if xs == [] {
      assert xs + ys == ys;
    } else {
      assert (xs + ys)[1..] == xs[1..] + ys;
      ConcatAppend(xs[1..], ys);
    }
  }

  /** Reading the interleaved chunks in order gives the joined string. */
  lemma {:induction false} ConcatIntersperse(xs: seq<string>, sep: string)
    ensures Concat(Intersperse(xs, sep)) == Join(xs, sep)
    decreases |xs|
  {
    if |xs| > 1 {
      ConcatIntersperse(xs[1..], sep);
      var tail := Intersperse(xs[1..], sep);
      assert Intersperse(xs, sep) == [xs[0], sep] + tail;
      ConcatAppend([xs[0], sep], tail);
      assert Concat([xs[0], sep]) == xs[0] + sep by {
        assert [xs[0], sep][1..] == [sep];
        assert [sep][1..] == [];
      }
    } else if |xs| == 1 {
      assert Concat(xs) == xs[0] + Concat(xs[1..]);
      assert xs[0] + [] == xs[0];
    }
  }

  lemma {:induction false} JoinAppend(xs: seq<string>, ys: seq<string>, sep: string)
    requires |xs| > 0 && |ys| > 0
    ensures Join(xs + ys, sep) == Join(xs, sep) + sep + Join(ys, sep)
    decreases |xs|
  {
    if |xs| == 1 {
      assert (xs + ys)[1..] == ys;
    } else {
      assert (xs + ys)[1..] == xs[1..] + ys;
      JoinAppend(xs[1..], ys, sep);
    }
  }

  /** A split has one piece more than there are separators. */
  lemma {:induction false} SplitLength(s: string, c: char)
    ensures |Split(s, c)| == 1 + CountChar(s, c)
    decreases |s|
  {
    if s != [] {
      SplitLength(s[1..], c);
    }
  }

  /** No piece of a split contains the separator. */
  lemma {:induction false} SplitPiecesFree(s: string, c: char)
    ensures forall k :: 0 <= k < |Split(s, c)| ==> c !in Split(s, c)[k]
    decreases |s|
  {
    if s != [] {
      SplitPiecesFree(s[1..], c);
    }
  }

  /** Joining the pieces of a split with the separator gives back the string. */
  lemma {:induction false} JoinSplit(s: string, c: char)
    ensures Join(Split(s, c), [c]) == s
    decreases |s|
  {
    if s != [] {
      JoinSplit(s[1..], c);
      var rest := Split(s[1..], c);
      if s[0] == c {
        assert Split(s, c) == [[]] + rest;
        assert ([[]] + rest)[1..] == rest;
        assert s == [] + [c] + s[1..];
      } else {
        var r := [[s[0]] + rest[0]] + rest[1..];
        assert Split(s, c) == r;
        if |rest| == 1 {
          assert Join(rest, [c]) == rest[0];
          assert s == [s[0]] + s[1..];
        } else {
          assert Join(rest, [c]) == rest[0] + [c] + Join(rest[1..], [c]);
          assert r[1..] == rest[1..];
          assert s == [s[0]] + s[1..];
        }
      }
    }
  }

  /** Splitting a join of separator-free pieces gives back the pieces. */
  lemma {:induction false} SplitJoin(xs: seq<string>, c: char)
    requires |xs| >= 1
    requires forall k :: 0 <= k < |xs| ==> c !in xs[k]
    ensures Split(Join(xs, [c]), c) == xs
    decreases |xs|, |xs[0]|
  {
    if xs[0] == [] {
      if |xs| == 1 {
      } else {
        assert Join(xs, [c]) == [c] + Join(xs[1..], [c]);
        assert ([c] + Join(xs[1..], [c]))[1..] == Join(xs[1..], [c]);
        SplitJoin(xs[1..], c);
        assert [[]] + xs[1..] == xs;
      }
    } else {
      var ys := [xs[0][1..]] + xs[1..];
      assert ys[1..] == xs[1..];
      assert ys[0] == xs[0][1..];
      forall k | 0 <= k < |ys| ensures c !in ys[k] {
        if k == 0 {
          assert forall x :: x in xs[0][1..] ==> x in xs[0];
        } else {
          assert ys[k] == xs[k];
        }
      }
      var j := Join(xs, [c]);
      if |xs| == 1 {
        assert Join(ys, [c]) == xs[0][1..];
        assert j == xs[0];
      } else {
        assert j == xs[0] + [c] + Join(xs[1..], [c]);
        assert Join(ys, [c]) == xs[0][1..] + [c] + Join(xs[1..], [c]);
      }
      assert j[0] == xs[0][0];
      assert j[1..] == Join(ys, [c]);
      SplitJoin(ys, c);
      assert xs[0][0] != c;
      assert [xs[0][0]] + xs[0][1..] == xs[0];
      assert [[xs[0][0]] + ys[0]] + ys[1..] == xs;
    }
  }

  /** `xs.filter(s => s.length > 0)`. */
  function NonEmpty(xs: seq<string>): (r: seq<string>)
    ensures |r| <= |xs|
  {
    if xs == [] then [] else (if xs[0] != [] then [xs[0]] else []) + NonEmpty(xs[1..])
  }

  lemma {:induction false} NonEmptyAppend(a: seq<string>, b: seq<string>)
    ensures NonEmpty(a + b) == NonEmpty(a) + NonEmpty(b)
    decreases |a|
  {
    if a == [] {
      assert a + b == b;
    } else {
      assert (a + b)[1..] == a[1..] + b;
      NonEmptyAppend(a[1..], b);
    }
  }

  /** `NonEmpty` keeps exactly the non-empty elements, in order. */
  lemma {:induction false} NonEmptyMembers(xs: seq<string>, s: string)
    ensures s in NonEmpty(xs) <==> s in xs && s != []
    decreases |xs|
  {
    if xs != [] {
      NonEmptyMembers(xs[1..], s);
      assert xs == [xs[0]] + xs[1..];
    }
  }

  // ---------------------------------------------------------------------
  // Whitespace and `trim`

  /** The characters ECMAScript's `String.prototype.trim` removes
      (WhiteSpace and LineTerminator). */
  predicate IsJsWhitespace(c: char)
  {
    c == ' ' || c == '\t' || c == '\n' || c == '\r' || c == '\U{000B}' || c == '\U{000C}'
    || c == '\U{00A0}' || c == '\U{1680}' || ('\U{2000}' <= c <= '\U{200A}')
    || c == '\U{2028}' || c == '\U{2029}' || c == '\U{202F}' || c == '\U{205F}'
    || c == '\U{3000}' || c == '\U{FEFF}'
  }

  function TrimStart(s: string): (r: string)
    ensures |r| <= |s| && r == s[|s| - |r|..]
    ensures r == [] || !IsJsWhitespace(r[0])
    ensures forall k :: 0 <= k < |s| - |r| ==> IsJsWhitespace(s[k])
    decreases |s|
  {
    if s != [] && IsJsWhitespace(s[0]) then TrimStart(s[1..]) else s
  }

  function TrimEnd(s: string): (r: string)
    ensures |r| <= |s| && r == s[..|r|]
    ensures r == [] || !IsJsWhitespace(r[|r| - 1])
    ensures forall k :: |r| <= k < |s| ==> IsJsWhitespace(s[k])
    decreases |s|
  {
    if s != [] && IsJsWhitespace(s[|s| - 1]) then TrimEnd(s[..|s| - 1]) else s
  }

  /** JavaScript `s.trim()`. */
  function Trim(s: string): string
  {
    TrimEnd(TrimStart(s))
  }

  /** A text with no whitespace at either end is its own trim. */
  lemma {:induction false} TrimKept(s: string)
    requires s != [] && !IsJsWhitespace(s[0]) && !IsJsWhitespace(s[|s| - 1])
    ensures Trim(s) == s
  {
  }

  /** `k` is the position of the first non-whitespace character of `s`. */
  predicate FirstNonSpace(s: string, k: nat)
  {
    k < |s| && !IsJsWhitespace(s[k]) && forall j :: 0 <= j < k ==> IsJsWhitespace(s[j])
  }

  /** A trimmed string is empty exactly when the input is all whitespace,
      and otherwise starts at the first non-whitespace character. */
  lemma {:induction false} TrimFacts(s: string)
    ensures Trim(s) == [] <==> forall k :: 0 <= k < |s| ==> IsJsWhitespace(s[k])
    ensures Trim(s) != [] ==>
      exists k: nat :: FirstNonSpace(s, k) && Trim(s)[0] == s[k]
  {
    var t := TrimStart(s);
    var r := TrimEnd(t);
    if r == [] {
      assert t == [];
    } else {
      var k := |s| - |t|;
      assert t[0] == s[k];
      assert r[0] == t[0];
    }
  }

  // ---------------------------------------------------------------------
  // Case conversion (ASCII letters only)

  function UpperChar(c: char): char
  {
    if 'a' <= c <= 'z' then (c as int - 32) as char else c
  }

  function LowerChar(c: char): char
  {
    if 'A' <= c <= 'Z' then (c as int + 32) as char else c
  }

  /** JavaScript `s.toUpperCase()` restricted to ASCII letters. */
  function ToUpper(s: string): (r: string)
    ensures |r| == |s|
    decreases |s|
  {
    if s == [] then [] else [UpperChar(s[0])] + ToUpper(s[1..])
  }

  /** JavaScript `s.toLowerCase()` restricted to ASCII letters. */
  function ToLower(s: string): (r: string)
    ensures |r| == |s|
    decreases |s|
  {
    if s == [] then [] else [LowerChar(s[0])] + ToLower(s[1..])
  }

  /** Case conversion works character by character. */
  lemma {:induction false} CaseAt(s: string, k: nat)
    requires k < |s|
    ensures ToUpper(s)[k] == UpperChar(s[k]) && ToLower(s)[k] == LowerChar(s[k])
    decreases k
  {
    if k > 0 {
      CaseAt(s[1..], k - 1);
    }
  }

  /** A text without lower-case ASCII letters is its own upper case. */
  lemma {:induction false} UpperKeeps(s: string)
    requires forall k :: 0 <= k < |s| ==> !('a' <= s[k] <= 'z')
    ensures ToUpper(s) == s
    decreases |s|
  {
    if s != [] {
      UpperKeeps(s[1..]);
    }
  }

  /** A text without upper-case ASCII letters is its own lower case. */
  lemma {:induction false} LowerKeeps(s: string)
    requires forall k :: 0 <= k < |s| ==> !('A' <= s[k] <= 'Z')
    ensures ToLower(s) == s
    decreases |s|
  {
    if s != [] {
      LowerKeeps(s[1..]);
    }
  }

  // ---------------------------------------------------------------------
  // Decimal rendering of integers (template interpolation `${n}`)

  function DigitChar(d: nat): char
    requires d < 10
  {
    ('0' as int + d) as char
  }

  predicate IsDigit(c: char)
  {
    '0' as int <= c as int <= '9' as int
  }

  /** `${n}` for a non-negative integer `n`. */
  function NatToString(n: nat): (r: string)
    ensures |r| >= 1 && forall k :: 0 <= k < |r| ==> IsDigit(r[k])
    decreases n
  {
    if n < 10 then [DigitChar(n)] else NatToString(n / 10) + [DigitChar(n % 10)]
  }

  /** The value of a string of decimal digits. */
  function ParseDecimal(s: string): nat
    requires forall k :: 0 <= k < |s| ==> IsDigit(s[k])
    decreases |s|
  {
    if s == [] then 0
    else
      assert IsDigit(s[|s| - 1]);
      10 * ParseDecimal(s[..|s| - 1]) + (s[|s| - 1] as int - '0' as int)
  }

  /** Reading back a rendered number gives the number. */
  lemma {:induction false} ParseNatToString(n: nat)
    ensures ParseDecimal(NatToString(n)) == n
    decreases n
  {
    if n >= 10 {
      ParseNatToString(n / 10);
      var s := NatToString(n);
      assert s[..|s| - 1] == NatToString(n / 10);
    }
  }

  /** Distinct numbers are rendered as distinct strings. */
  lemma {:induction false} NatToStringInjective(a: nat, b: nat)
    requires NatToString(a) == NatToString(b)
    ensures a == b
  {
    ParseNatToString(a);
    ParseNatToString(b);
  }
}
