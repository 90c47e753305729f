/** Removing terminal escapes: `strip_ansi`. A CSI sequence is that of section 5.4 of ECMA-48. */
module Ansi {
  import opened Utf8

  const ESC: Byte := 0x1b
  const BRACKET: Byte := 0x5b

  predicate Final(b: Byte) { 0x40 <= b <= 0x7e }

  /** What follows the first final byte. */
  function SkipCsi(s: Bytes): Bytes {
    if s == [] then [] else if Final(s[0]) then s[1..] else SkipCsi(s[1..])
  }

  lemma {:induction false} SkipShrinks(s: Bytes)
    ensures |SkipCsi(s)| <= |s|
  {
    if s != [] && !Final(s[0]) { SkipShrinks(s[1..]); }
  }

  function Strip(s: Bytes): Bytes
    decreases |s|
  {
    if s == [] then []
    else if s[0] != ESC then [s[0]] + Strip(s[1..])
    else if |s| > 1 && s[1] == BRACKET then
      SkipShrinks(s[2..]);
      Strip(SkipCsi(s[2..]))
    else Strip(s[1..])
  }

  /** The loop of `strip_ansi`. */
  method StripAnsi(line: Bytes) returns (output: Bytes)
    ensures output == Strip(line)
  {
    if ESC !in line {
      StripText(line, []);
      assert line + [] == line;
      return line;
    }
    var index := 0;
    output := [];
    while index < |line|
      invariant index <= |line|
      invariant output + Strip(line[index..]) == Strip(line)
    {
      var rest := line[index..];
      if line[index] != ESC {
        assert rest[1..] == line[index + 1..];
        assert output + ([line[index]] + Strip(rest[1..])) == output + [line[index]] + Strip(rest[1..]);
        output := output + [line[index]];
        index := index + 1;
      } else if !(index + 1 < |line| && line[index + 1] == BRACKET) {
        assert rest[1..] == line[index + 1..];
        index := index + 1;
      } else {
        assert rest[2..] == line[index + 2..];
        ghost var csi := line[index + 2..];
        index := index + 2;
        while index < |line| && !Final(line[index])
          invariant index <= |line|
          invariant SkipCsi(line[index..]) == SkipCsi(csi)
        {
          assert line[index..][1..] == line[index + 1..];
          index := index + 1;
        }
        assert index < |line| ==> line[index..][1..] == line[index + 1..];
        index := if index + 1 < |line| then index + 1 else |line|;
      }
    }
    assert line[index..] == [];
  }

  /** Text without an escape passes through. */
  lemma {:induction false} StripText(a: Bytes, b: Bytes)
    requires ESC !in a
    ensures Strip(a + b) == a + Strip(b)
  {
    if a == [] {
      assert a + b == b;
    } else {
      assert (a + b)[1..] == a[1..] + b;
      StripText(a[1..], b);
    }
  }

  lemma {:induction false} SkipParams(params: Bytes, b: Bytes)
    requires forall k :: 0 <= k < |params| ==> !Final(params[k])
    ensures SkipCsi(params + b) == SkipCsi(b)
  {
    if params == [] {
      assert params + b == b;
    } else {
      assert (params + b)[1..] == params[1..] + b;
      SkipParams(params[1..], b);
    }
  }

  lemma CsiStep(csi: Bytes)
    ensures Strip([ESC, BRACKET] + csi) == Strip(SkipCsi(csi))
  {
    assert ([ESC, BRACKET] + csi)[2..] == csi;
  }

  /** A complete CSI sequence, up to the first byte from `@` to `~`, disappears, whatever surrounds it. */
  lemma StripRemovesCsi(text: Bytes, params: Bytes, final: Byte, rest: Bytes)
    requires 0x1b !in text && 0x40 <= final <= 0x7e
    requires forall k :: 0 <= k < |params| ==> params[k] < 0x40 || 0x7e < params[k]
    ensures Strip(text + ([0x1b, 0x5b] + (params + ([final] + rest)))) == text + Strip(rest)
  {
    var after := [final] + rest;
    assert SkipCsi(after) == rest by { assert after[1..] == rest; }
    hide Strip, SkipCsi;
    StripText(text, [ESC, BRACKET] + (params + after));
    CsiStep(params + after);
    SkipParams(params, after);
  }

  /** One that is not completed swallows the rest of the line. */
  lemma StripUnfinishedCsi(text: Bytes, params: Bytes)
    requires 0x1b !in text && forall k :: 0 <= k < |params| ==> params[k] < 0x40 || 0x7e < params[k]
    ensures Strip(text + ([0x1b, 0x5b] + params)) == text
  {
    StripText(text, [ESC, BRACKET] + params);
    CsiStep(params);
    SkipParams(params, []);
    assert params + [] == params && text + [] == text;
  }

  /** A lone escape disappears. */
  lemma StripRemovesEscape(text: Bytes, rest: Bytes)
    requires 0x1b !in text && (rest == [] || rest[0] != 0x5b)
    ensures Strip(text + ([0x1b] + rest)) == text + Strip(rest)
  {
    StripText(text, [ESC] + rest);
    assert ([ESC] + rest)[1..] == rest;
  }

  lemma {:induction false} StripHasNoEscape(s: Bytes)
    ensures ESC !in Strip(s)
    decreases |s|
  {
    if s != [] {
      if s[0] == ESC && |s| > 1 && s[1] == BRACKET {
        SkipShrinks(s[2..]);
        StripHasNoEscape(SkipCsi(s[2..]));
      } else {
        StripHasNoEscape(s[1..]);
      }
    }
  }

  /** Skipping to a final byte, which is ASCII, never splits a character. */
  lemma {:induction false} SkipKeepsValid(s: Bytes)
    requires ValidUtf8(s)
    ensures ValidUtf8(SkipCsi(s))
    decreases |s|
  {
    if s != [] && !Final(s[0]) {
      var n := CharLen(s);
      CharLenLocal(s, []);
      assert s[..n] + s[n..] == s;
      SkipParams(s[..n], s[n..]);
      SkipKeepsValid(s[n..]);
    }
  }

  lemma {:induction false} StripKeepsValid(s: Bytes)
    requires ValidUtf8(s)
    ensures ValidUtf8(Strip(s))
    decreases |s|
  {
    if s == [] {
    } else if s[0] != ESC {
      var n := CharLen(s);
      CharLenLocal(s, []);
      assert s[..n] + s[n..] == s;
      StripText(s[..n], s[n..]);
      StripKeepsValid(s[n..]);
      FirstChar(s);
      ValidConcat(s[..n], Strip(s[n..]));
    } else if |s| > 1 && s[1] == BRACKET {
      assert s[1..][1..] == s[2..];
      SkipShrinks(s[2..]);
      SkipKeepsValid(s[2..]);
      StripKeepsValid(SkipCsi(s[2..]));
    } else {
      StripKeepsValid(s[1..]);
    }
  }

  /**
   Stripping a valid line gives a valid line without an escape byte, so the
   conversion back to text cannot fail, and stripping again changes nothing.
   */
  lemma StripIsClean(s: Bytes)
    requires ValidUtf8(s)
    ensures ValidUtf8(Strip(s)) && ESC !in Strip(s) && Strip(Strip(s)) == Strip(s) && |Strip(s)| <= |s|
  {
    StripKeepsValid(s);
    StripHasNoEscape(s);
    StripText(Strip(s), []);
    assert Strip(s) + [] == Strip(s);
    StripShrinks(s);
  }

  lemma {:induction false} StripShrinks(s: Bytes)
    ensures |Strip(s)| <= |s|
    decreases |s|
  {
    if s != [] {
      if s[0] == ESC && |s| > 1 && s[1] == BRACKET {
        SkipShrinks(s[2..]);
        StripShrinks(SkipCsi(s[2..]));
      } else {
        StripShrinks(s[1..]);
      }
    }
  }
}
