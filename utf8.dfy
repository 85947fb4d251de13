/** Encoding sniffing: the byte-level UTF-8 check `isUtf8` of
    src/lib/sniffer.ts, and how it relates to the UTF-8 syntax of
    section 4 of RFC 3629. */
module Utf8Sniff {

  /** The continuation-byte test `(b & 0xC0) === 0x80`. */
  predicate IsContinuation(b: bv8)
  {
    b & 0xC0 == 0x80
  }

  /** Number of continuation bytes a lead byte announces: 1 for
      C2..DF, 2 for E0..EF, 3 for F0..F4. */
  function Following(lead: bv8): nat
  {
    if 0xC2 <= lead <= 0xDF then 1
    else if 0xE0 <= lead <= 0xEF then 2
    else if 0xF0 <= lead <= 0xF4 then 3
    else 0
  }

  /** The bytes after the lead byte at `i`, up to `i + f`, are all
      continuation bytes. */
  predicate ContinuationsOk(bytes: seq<bv8>, i: nat, f: nat)
    requires i + f < |bytes|
  {
    forall k :: i < k <= i + f ==> IsContinuation(bytes[k])
  }

  /** `IsContinuation` is the range 80..BF. */
  lemma {:induction false} ContinuationRange(b: bv8)
    ensures IsContinuation(b) <==> 0x80 <= b <= 0xBF
  {
  }

  /** The verdict of the scan when it stands at position `i`. */
  predicate ScanFrom(bytes: seq<bv8>, i: nat)
    decreases |bytes| - i
  {
    if i >= |bytes| then true
    else if bytes[i] <= 0x7F then ScanFrom(bytes, i + 1)
    else if bytes[i] >= 0xF5 || bytes[i] <= 0xC1 then false
    else
      var f := Following(bytes[i]);
      if i + f >= |bytes| then true
      else if !ContinuationsOk(bytes, i, f) then false
      else ScanFrom(bytes, i + f + 1)
  }

  /** What `isUtf8` answers for a whole buffer. */
  predicate LooksUtf8(bytes: seq<bv8>)
  {
    ScanFrom(bytes, 0)
  }

  /** `isUtf8`: walks the buffer one encoded character at a time. */
  method IsUtf8(bytes: seq<bv8>) returns (ok: bool)
    ensures ok == LooksUtf8(bytes)
  {
    var i := 0;
    while i < |bytes|
      invariant 0 <= i <= |bytes|
      invariant ScanFrom(bytes, i) == LooksUtf8(bytes)
      decreases |bytes| - i
    {
      if bytes[i] <= 0x7F {
        i := i + 1;
        continue;
      }
      if bytes[i] >= 0xF5 || bytes[i] <= 0xC1 {
        return false;
      }
      var following := 0;
      if 0xC2 <= bytes[i] <= 0xDF {
        following := 1;
      } else if 0xE0 <= bytes[i] <= 0xEF {
        following := 2;
      } else if 0xF0 <= bytes[i] <= 0xF4 {
        following := 3;
      }
      assert following == Following(bytes[i]);
      if i + following >= |bytes| {
        return true;
      }
      var j := 1;
      while j <= following
        invariant 1 <= j <= following + 1
        invariant forall k :: i < k < i + j ==> IsContinuation(bytes[k])
      {
        if bytes[i + j] & 0xC0 != 0x80 {
          return false;
        }
        j := j + 1;
      }
      i := i + following + 1;
    }
    return true;
  }

  // ---------------------------------------------------------------------
  // The syntax of section 4 of RFC 3629

  predicate InRange(b: bv8, lo: bv8, hi: bv8)
  {
    lo <= b <= hi
  }

  /** `s[i + k]` exists and is a continuation byte (80..BF). */
  predicate TailAt(s: seq<bv8>, i: nat, k: nat)
  {
    i + k < |s| && InRange(s[i + k], 0x80, 0xBF)
  }

  /** Length of the well-formed encoded character at `s[i..]`
      (section 4 of RFC 3629), or 0 when there is none. */
  function CharLenAt(s: seq<bv8>, i: nat): (n: nat)
    ensures n <= 4 && (n > 0 ==> i + n <= |s|)
    ensures n == 1 ==> s[i] <= 0x7F
    ensures n > 1 ==> 0xC2 <= s[i] <= 0xF4 && Following(s[i]) == n - 1
    ensures n > 1 ==> ContinuationsOk(s, i, n - 1)
  {
    if i >= |s| then 0
    else
      var b := s[i];
      if b <= 0x7F then 1
      else if InRange(b, 0xC2, 0xDF) && TailAt(s, i, 1) then 2
      else if b == 0xE0 && i + 2 < |s| && InRange(s[i + 1], 0xA0, 0xBF) && TailAt(s, i, 2) then
        ContinuationRange(s[i + 1]); 3
      else if (InRange(b, 0xE1, 0xEC) || InRange(b, 0xEE, 0xEF)) && TailAt(s, i, 1) && TailAt(s, i, 2) then 3
      else if b == 0xED && i + 2 < |s| && InRange(s[i + 1], 0x80, 0x9F) && TailAt(s, i, 2) then
        ContinuationRange(s[i + 1]); 3
      else if b == 0xF0 && i + 3 < |s| && InRange(s[i + 1], 0x90, 0xBF) && TailAt(s, i, 2) && TailAt(s, i, 3) then
        ContinuationRange(s[i + 1]); 4
      else if InRange(b, 0xF1, 0xF3) && TailAt(s, i, 1) && TailAt(s, i, 2) && TailAt(s, i, 3) then 4
      else if b == 0xF4 && i + 3 < |s| && InRange(s[i + 1], 0x80, 0x8F) && TailAt(s, i, 2) && TailAt(s, i, 3) then
        ContinuationRange(s[i + 1]); 4
      else 0
  }

  /** `s[i..]` is a sequence of well-formed UTF-8 characters. */
  predicate StrictFrom(s: seq<bv8>, i: nat)
    requires i <= |s|
    decreases |s| - i
  {
    i == |s| || (CharLenAt(s, i) > 0 && StrictFrom(s, i + CharLenAt(s, i)))
  }

  /** `s` is well-formed UTF-8 (RFC 3629, section 4). */
  predicate StrictUtf8(s: seq<bv8>)
  {
    StrictFrom(s, 0)
  }

  // ---------------------------------------------------------------------
  // Properties of the check

  /** Pure ASCII always passes. */
  lemma {:induction false} AsciiAccepted(bytes: seq<bv8>, i: nat)
    requires forall k :: 0 <= k < |bytes| ==> bytes[k] <= 0x7F
    ensures ScanFrom(bytes, i)
    decreases |bytes| - i
  {
    if i < |bytes| {
      AsciiAccepted(bytes, i + 1);
    }
  }

  /** One well-formed character is skipped by the scan as a unit. */
  lemma {:induction false} ScanOverChar(b: seq<bv8>, p: seq<bv8>, i: nat)
    requires i <= |p| <= |b| && b[..|p|] == p
    requires CharLenAt(p, i) > 0
    ensures ScanFrom(b, i) == ScanFrom(b, i + CharLenAt(p, i))
  {
    var n := CharLenAt(p, i);
    assert forall k :: i <= k < i + n ==> b[k] == p[k] by {
      forall k | i <= k < i + n ensures b[k] == p[k] {
        assert b[..|p|][k] == b[k];
      }
    }
    if n > 1 {
      assert ContinuationsOk(b, i, n - 1);
    }
  }

  /** `s[i..]` is a sequence of whole characters as the scan reads
      them: ASCII bytes, and lead bytes C2..F4 with every announced
      continuation byte present and of the form 10xxxxxx. Unlike
      RFC 3629 this admits overlong forms and encoded surrogates. */
  predicate WholeFrom(s: seq<bv8>, i: nat)
    decreases |s| - i
  {
    if i >= |s| then i == |s|
    else if s[i] <= 0x7F then WholeFrom(s, i + 1)
    else if 0xC2 <= s[i] <= 0xF4 then
      var f := Following(s[i]);
      i + f < |s| && ContinuationsOk(s, i, f) && WholeFrom(s, i + f + 1)
    else false
  }

  /** `s` consists of whole characters as the scan reads them. */
  predicate WholeChars(s: seq<bv8>)
  {
    WholeFrom(s, 0)
  }

  /** Well-formed UTF-8 consists of whole characters. */
  lemma {:induction false} StrictIsWhole(s: seq<bv8>, i: nat)
    requires i <= |s| && StrictFrom(s, i)
    ensures WholeFrom(s, i)
    decreases |s| - i
  {
    if i < |s| {
      StrictIsWhole(s, i + CharLenAt(s, i));
    }
  }

  /** The scan passes over whole characters without deciding anything. */
  lemma {:induction false} ScanOverWhole(b: seq<bv8>, p: seq<bv8>, i: nat)
    requires i <= |p| <= |b| && b[..|p|] == p
    requires WholeFrom(p, i)
    ensures ScanFrom(b, i) == ScanFrom(b, |p|)
    decreases |p| - i
  {
    if i < |p| {
      assert b[i] == p[i] by { assert b[..|p|][i] == b[i]; }
      if p[i] <= 0x7F {
        ScanOverWhole(b, p, i + 1);
      } else {
        var f := Following(p[i]);
        assert ContinuationsOk(b, i, f) by {
          forall k | i < k <= i + f ensures IsContinuation(b[k]) {
            assert b[..|p|][k] == b[k];
          }
        }
        ScanOverWhole(b, p, i + f + 1);
      }
    }
  }

  /** A lead byte in 80..C1 or F5..FF at a character boundary fails the check. */
  lemma {:induction false} BadLeadRejected(p: seq<bv8>, lead: bv8, rest: seq<bv8>)
    requires WholeChars(p)
    requires 0x80 <= lead <= 0xC1 || lead >= 0xF5
    ensures !LooksUtf8(p + [lead] + rest)
  {
    var b := p + [lead] + rest;
    assert b[..|p|] == p;
    ScanOverWhole(b, p, 0);
    assert b[|p|] == lead;
  }

  /** A character boundary followed by a lead byte, its announced
      continuation bytes all present and one of them not of the form
      10xxxxxx, fails the check. */
  lemma {:induction false} BadContinuationRejected(p: seq<bv8>, lead: bv8, rest: seq<bv8>, j: nat)
    requires WholeChars(p)
    requires 0xC2 <= lead <= 0xF4
    requires Following(lead) <= |rest|
    requires 1 <= j <= Following(lead) && !IsContinuation(rest[j - 1])
    ensures !LooksUtf8(p + [lead] + rest)
  {
    var b := p + [lead] + rest;
    assert b[..|p|] == p;
    ScanOverWhole(b, p, 0);
    assert b[|p| + j] == rest[j - 1];
  }

  /** A character cut off by the end of the buffer is accepted,
      whatever its trailing bytes are. */
  lemma {:induction false} TruncatedAccepted(p: seq<bv8>, lead: bv8, rest: seq<bv8>)
    requires WholeChars(p)
    requires 0xC2 <= lead <= 0xF4
    requires |rest| < Following(lead)
    ensures LooksUtf8(p + [lead] + rest)
  {
    var b := p + [lead] + rest;
    assert b[..|p|] == p;
    ScanOverWhole(b, p, 0);
    assert b[|p|] == lead;
  }

  /** Well-formed text is whole, so each of the three verdicts holds in
      particular after a prefix that is well-formed by RFC 3629. */
  lemma {:induction false} StrictPrefixWhole(p: seq<bv8>)
    requires StrictUtf8(p)
    ensures WholeChars(p)
  {
    StrictIsWhole(p, 0);
  }

  /** `[E0 80 80 80]`: the overlong `E0 80 80` is stepped over, and the
      lone 80 after it, at a sequence start, fails the check. */
  lemma {:induction false} StrayAfterOverlongRejected()
    ensures !LooksUtf8([0xE0, 0x80, 0x80, 0x80])
  {
    var p: seq<bv8> := [0xE0, 0x80, 0x80];
    assert ContinuationsOk(p, 0, 2);
    assert WholeFrom(p, 3);
    BadLeadRejected(p, 0x80, []);
    assert p + [0x80 as bv8] + [] == [0xE0, 0x80, 0x80, 0x80];
  }

  /** `[0xE0, 0xF5]`: the 0xF5 is never examined. */
  lemma {:induction false} TruncatedExample()
    ensures LooksUtf8([0xE0, 0xF5])
  {
    TruncatedAccepted([], 0xE0, [0xF5]);
    assert [] + [0xE0 as bv8] + [0xF5 as bv8] == [0xE0, 0xF5];
  }

  /** Every prefix of well-formed UTF-8 passes the check: a bounded read
      that cuts a character in two is still classified as UTF-8. */
  lemma {:induction false} StrictPrefixFrom(s: seq<bv8>, n: nat, i: nat)
    requires i <= n <= |s|
    requires StrictFrom(s, i)
    ensures ScanFrom(s[..n], i)
    decreases |s| - i
  {
    var b := s[..n];
    if i < n {
      var m := CharLenAt(s, i);
      assert b[i] == s[i];
      if i + m <= n {
        assert forall k :: i <= k < i + m ==> b[k] == s[k];
        if m > 1 {
          assert ContinuationsOk(b, i, m - 1);
        }
        assert ScanFrom(b, i) == ScanFrom(b, i + m);
        StrictPrefixFrom(s, n, i + m);
      }
    }
  }

  lemma {:induction false} StrictPrefixAccepted(s: seq<bv8>, n: nat)
    requires StrictUtf8(s) && n <= |s|
    ensures LooksUtf8(s[..n])
  {
    StrictPrefixFrom(s, n, 0);
  }

  /** Well-formed UTF-8 passes the check. */
  lemma {:induction false} StrictAccepted(s: seq<bv8>)
    requires StrictUtf8(s)
    ensures LooksUtf8(s)
  {
    StrictPrefixAccepted(s, |s|);
    assert s[..|s|] == s;
  }

  /** The check is lighter than RFC 3629: it accepts an overlong
      three-byte form and an encoded surrogate, both ill-formed. */
  lemma {:induction false} LighterThanRfc()
    ensures LooksUtf8([0xE0, 0x80, 0x80]) && !StrictUtf8([0xE0, 0x80, 0x80])
    ensures LooksUtf8([0xED, 0xA0, 0x80]) && !StrictUtf8([0xED, 0xA0, 0x80])
  {
    var a: seq<bv8> := [0xE0, 0x80, 0x80];
    var s: seq<bv8> := [0xED, 0xA0, 0x80];
    assert ScanFrom(a, 3);
    assert ScanFrom(s, 3);
    assert ContinuationsOk(a, 0, 2);
    assert ContinuationsOk(s, 0, 2);
    assert CharLenAt(a, 0) == 0;
    assert CharLenAt(s, 0) == 0;
  }
}
