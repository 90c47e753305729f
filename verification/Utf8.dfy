/**
 UTF-8 as section 4 of RFC 3629 defines it, and the cuts `log.rs` and
 `health/mod.rs` make in text without splitting a character.
 */
module Utf8 {
  type Byte = x: int | 0 <= x < 256

  type Bytes = seq<Byte>

  predicate Tail(b: Byte) { 0x80 <= b <= 0xBF }

  /** How many bytes the well-formed character at the start of `s` takes; 0 if there is none. */
  function CharLen(s: Bytes): (n: nat)
    ensures n <= 4 && n <= |s|
  {
    if |s| == 0 then 0
    else if s[0] <= 0x7F then 1
    else if 0xC2 <= s[0] <= 0xDF then
      if |s| >= 2 && Tail(s[1]) then 2 else 0
    else if 0xE0 <= s[0] <= 0xEF then
      if |s| >= 3 && Tail(s[1]) && Tail(s[2]) && (s[0] == 0xE0 ==> 0xA0 <= s[1]) && (s[0] == 0xED ==> s[1] <= 0x9F)
      then 3 else 0
    else if 0xF0 <= s[0] <= 0xF4 then
      if |s| >= 4 && Tail(s[1]) && Tail(s[2]) && Tail(s[3])
         && (s[0] == 0xF0 ==> 0x90 <= s[1]) && (s[0] == 0xF4 ==> s[1] <= 0x8F)
      then 4 else 0
    else 0
  }

  predicate ValidUtf8(s: Bytes) {
    s == [] || (CharLen(s) > 0 && ValidUtf8(s[CharLen(s)..]))
  }

  /** A character depends on its own bytes only. */
  lemma CharLenLocal(s: Bytes, t: Bytes)
    requires CharLen(s) > 0
    ensures CharLen(s + t) == CharLen(s)
    ensures s[0] > 0x7F ==> forall k :: 0 <= k < CharLen(s) ==> s[k] >= 0x80
    ensures s[0] <= 0x7F ==> CharLen(s) == 1
    ensures forall k :: 1 <= k < CharLen(s) ==> Tail(s[k])
  {
  }

  lemma {:induction false} ValidConcat(a: Bytes, b: Bytes)
    requires ValidUtf8(a)
    ensures ValidUtf8(a + b) <==> ValidUtf8(b)
  {
    if a == [] {
      assert a + b == b;
    } else {
      var n := CharLen(a);
      CharLenLocal(a, b);
      hide CharLen;
      assert (a + b)[n..] == a[n..] + b;
      ValidConcat(a[n..], b);
    }
  }

  /** `str::is_char_boundary`. */
  predicate Boundary(s: Bytes, i: nat) { i == 0 || i == |s| || (i < |s| && !Tail(s[i])) }

  /** A boundary lies beyond the first character, and is a boundary of the rest. */
  lemma BoundaryOfRest(s: Bytes, i: nat)
    requires CharLen(s) > 0 && 0 < i <= |s| && Boundary(s, i)
    ensures CharLen(s) <= i && Boundary(s[CharLen(s)..], i - CharLen(s))
  {
    CharLenLocal(s, []);
  }

  lemma Slices(s: Bytes, n: nat, i: nat)
    requires n <= i <= |s|
    ensures s[..i] == s[..n] + s[n..][..i - n] && s[i..] == s[n..][i - n..]
  {
  }

  /** Cutting valid text at a boundary gives two valid texts. */
  lemma {:induction false} CutAtBoundary(s: Bytes, i: nat)
    requires ValidUtf8(s) && i <= |s| && Boundary(s, i)
    ensures ValidUtf8(s[..i]) && ValidUtf8(s[i..])
  {
    if i == 0 {
      assert s[0..] == s;
    } else {
      var n := CharLen(s);
      BoundaryOfRest(s, i);
      FirstChar(s);
      var head, rest := s[..n], s[n..];
      assert ValidUtf8(rest);
      hide ValidUtf8, CharLen, Boundary;
      CutAtBoundary(rest, i - n);
      ValidConcat(head, rest[..i - n]);
      Slices(s, n, i);
    }
  }

  lemma FirstChar(s: Bytes)
    requires CharLen(s) > 0
    ensures CharLen(s[..CharLen(s)]) == CharLen(s) && ValidUtf8(s[..CharLen(s)])
  {
    var n := CharLen(s);
    assert s[..n][n..] == [];
  }

  /** Within any four bytes of valid text there is a boundary. */
  lemma {:induction false} BoundaryNearby(s: Bytes, i: nat)
    requires ValidUtf8(s) && i <= |s|
    ensures exists k :: 0 <= k <= i && i < k + 4 && Boundary(s, k)
  {
    if s == [] {
      assert Boundary(s, 0);
    } else {
      var n := CharLen(s);
      if i < n {
        assert Boundary(s, 0);
      } else {
        BoundaryNearby(s[n..], i - n);
        var k :| 0 <= k <= i - n && i - n < k + 4 && Boundary(s[n..], k);
        if k == 0 { BoundaryAfterChar(s); }
        assert Boundary(s, n + k);
      }
    }
  }

  lemma BoundaryAfterChar(s: Bytes)
    requires ValidUtf8(s) && s != []
    ensures Boundary(s, CharLen(s))
  {
    var n := CharLen(s);
    if n < |s| { assert s[n] == s[n..][0] && CharLen(s[n..]) > 0; }
  }

  /** `e` is the largest boundary at or below `limit`. */
  ghost predicate Floor(s: Bytes, limit: nat, e: nat) {
    e <= limit && Boundary(s, e) && forall k :: e < k <= limit ==> !Boundary(s, k)
  }

  /** `char_boundary_at_or_below`; it also bounds how much a cut can lose. */
  method CharBoundaryAtOrBelow(s: Bytes, limit: nat) returns (end: nat)
    requires ValidUtf8(s) && limit <= |s|
    ensures Floor(s, limit, end) && limit < end + 4
    ensures ValidUtf8(s[..end]) && ValidUtf8(s[end..])
  {
    end := limit;
    while !Boundary(s, end)
      invariant end <= limit && forall k :: end < k <= limit ==> !Boundary(s, k)
      decreases end
    {
      end := end - 1;
    }
    BoundaryNearby(s, limit);
    CutAtBoundary(s, end);
  }

  /** The value of that method, for specifications. */
  function FloorOf(s: Bytes, limit: nat): (e: nat)
    requires limit <= |s|
    ensures Floor(s, limit, e)
  {
    if Boundary(s, limit) then limit else FloorOf(s, limit - 1)
  }

  lemma FloorUnique(s: Bytes, limit: nat, e: nat)
    requires limit <= |s| && Floor(s, limit, e)
    ensures e == FloorOf(s, limit)
  {
  }

  /** Text cut to a cap: the longest prefix of whole characters that fits. */
  function Cut(s: Bytes, cap: nat): (t: Bytes)
    ensures t <= s && |t| <= cap
    ensures |s| <= cap ==> t == s
  {
    if |s| <= cap then s else s[..FloorOf(s, cap)]
  }

  lemma CutIsValid(s: Bytes, cap: nat)
    requires ValidUtf8(s)
    ensures ValidUtf8(Cut(s, cap)) && (|s| > cap ==> cap < |Cut(s, cap)| + 4)
  {
    if |s| > cap {
      CutAtBoundary(s, FloorOf(s, cap));
      BoundaryNearby(s, cap);
    }
  }

  /** `truncate_text`, and `cap_detail` of the health tracker: both cut in place at a cap. */
  method Truncate(s: Bytes, cap: nat) returns (t: Bytes, cut: bool)
    requires ValidUtf8(s)
    ensures t == Cut(s, cap) && cut == (|s| > cap) && cut == (t != s)
    ensures ValidUtf8(t)
  {
    if |s| <= cap { return s, false; }
    var end := CharBoundaryAtOrBelow(s, cap);
    FloorUnique(s, cap, end);
    t, cut := s[..end], true;
  }
}
