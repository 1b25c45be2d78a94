/**
 * The string primitives the sources rely on, with the exact character classes of
 * JavaScript (`String.prototype.trim`, regex `\s`, `\w`, `.`) and of Python
 * (`str.strip`, `str.isspace`, `re` `.`).  Strings are sequences of Unicode scalar values.
 */
module Text {

  /** JavaScript WhiteSpace and LineTerminator: what `trim` removes and what regex `\s` matches. */
  predicate IsJsSpace(c: char) {
    var n := c as int;
    || (0x09 <= n <= 0x0D) || n == 0x20 || n == 0xA0 || n == 0x1680 || (0x2000 <= n <= 0x200A)
    || n == 0x2028 || n == 0x2029 || n == 0x202F || n == 0x205F || n == 0x3000 || n == 0xFEFF
  }

  /** JavaScript LineTerminator: the characters regex `.` does not match. */
  predicate IsJsLineTerminator(c: char) {
    var n := c as int;
    n == 0x0A || n == 0x0D || n == 0x2028 || n == 0x2029
  }

  /** Python `str.isspace` for a single character. */
  predicate IsPySpace(c: char) {
    var n := c as int;
    || (0x09 <= n <= 0x0D) || (0x1C <= n <= 0x20) || n == 0x85 || n == 0xA0 || n == 0x1680
    || (0x2000 <= n <= 0x200A) || n == 0x2028 || n == 0x2029 || n == 0x202F || n == 0x205F || n == 0x3000
  }

  /** Regex `\w` (JavaScript without the `u` flag, and the ASCII class it shares with `[A-Za-z0-9_]`). */
  predicate IsWordChar(c: char) {
    ('a' <= c <= 'z') || ('A' <= c <= 'Z') || ('0' <= c <= '9') || c == '_'
  }

  predicate IsDigit(c: char) {
    '0' <= c <= '9'
  }

  predicate AllWordChars(s: string) {
    forall i :: 0 <= i < |s| ==> IsWordChar(s[i])
  }

  /** `p` occurs in `s` starting at index `i`. */
  predicate OccursAt(s: string, p: string, i: int) {
    0 <= i && i + |p| <= |s| && s[i..i + |p|] == p
  }

  /** `s.includes(p)`. */
  predicate Contains(s: string, p: string) {
    exists i :: 0 <= i <= |s| - |p| && OccursAt(s, p, i)
  }

  predicate StartsWith(s: string, p: string) {
    |p| <= |s| && s[..|p|] == p
  }

  predicate EndsWith(s: string, p: string) {
    |p| <= |s| && s[|s| - |p|..] == p
  }

  /** Drops the leading characters that satisfy `space`. */
  function TrimStart(s: string, space: char -> bool): (r: string)
    ensures |r| <= |s|
  {
    if s != [] && space(s[0]) then TrimStart(s[1..], space) else s
  }

  /** `TrimStart` keeps a suffix: what it drops are spaces, and what it keeps does not start with one. */
  lemma {:induction false} TrimStartSpaces(s: string, space: char -> bool)
    ensures var r := TrimStart(s, space);
      r == s[|s| - |r|..] && (forall i :: 0 <= i < |s| - |r| ==> space(s[i])) && (r != [] ==> !space(r[0]))
  {
    if s != [] && space(s[0]) {
      TrimStartSpaces(s[1..], space);
      var r := TrimStart(s, space);
      assert s[1..][|s| - 1 - |r|..] == s[|s| - |r|..];
      forall i | 1 <= i < |s| - |r|
        ensures space(s[i])
      {
        assert s[i] == s[1..][i - 1];
      }
    }
  }

  /** Drops the trailing characters that satisfy `space`. */
  function TrimEnd(s: string, space: char -> bool): (r: string)
    ensures |r| <= |s|
  {
    if s != [] && space(s[|s| - 1]) then TrimEnd(s[..|s| - 1], space) else s
  }

  /** `TrimEnd` keeps a prefix: what it drops are spaces, and what it keeps does not end with one. */
  lemma {:induction false} TrimEndSpaces(s: string, space: char -> bool)
    ensures var r := TrimEnd(s, space);
      r == s[..|r|] && (forall i :: |r| <= i < |s| ==> space(s[i])) && (r != [] ==> !space(r[|r| - 1]))
  {
    if s != [] && space(s[|s| - 1]) {
      TrimEndSpaces(s[..|s| - 1], space);
      var r := TrimEnd(s, space);
      assert s[..|s| - 1][..|r|] == s[..|r|];
      forall i | |r| <= i < |s| - 1
        ensures space(s[i])
      {
        assert s[i] == s[..|s| - 1][i];
      }
    }
  }

  /**
   * `r` is `s` with the characters before index `i` and after `r` removed, all of them spaces,
   * and `r` neither starts nor ends with a space.
   */
  ghost predicate IsStripOf(s: string, r: string, i: int, space: char -> bool) {
    && 0 <= i <= |s| - |r| && r == s[i..i + |r|]
    && (forall k :: 0 <= k < i ==> space(s[k]))
    && (forall k :: i + |r| <= k < |s| ==> space(s[k]))
    && (r != [] ==> !space(r[0]) && !space(r[|r| - 1]))
  }

  /** Both ends stripped: the longest slice of `s` that neither starts nor ends with a space. */
  function Strip(s: string, space: char -> bool): string {
    TrimEnd(TrimStart(s, space), space)
  }

  /** Stripping leaves the middle slice, with spaces on both sides of it. */
  lemma StripIsStrip(s: string, space: char -> bool)
    ensures IsStripOf(s, Strip(s, space), |s| - |TrimStart(s, space)|, space)
  {
    var a := TrimStart(s, space);
    TrimStartSpaces(s, space);
    TrimEndSpaces(a, space);
    SliceStrip(s, a, TrimEnd(a, space), space);
  }

  /** A suffix with leading spaces cut off, then a prefix of it with trailing spaces cut off, is a strip. */
  lemma SliceStrip(s: string, a: string, r: string, space: char -> bool)
    requires |a| <= |s| && a == s[|s| - |a|..]
    requires forall i :: 0 <= i < |s| - |a| ==> space(s[i])
    requires a != [] ==> !space(a[0])
    requires |r| <= |a| && r == a[..|r|]
    requires forall i :: |r| <= i < |a| ==> space(a[i])
    requires r != [] ==> !space(r[|r| - 1])
    ensures IsStripOf(s, r, |s| - |a|, space)
  {
    var i := |s| - |a|;
    assert r == s[i..i + |r|];
    forall k | i + |r| <= k < |s|
      ensures space(s[k])
    {
      assert s[k] == a[k - i];
    }
    if r != [] {
      assert r[0] == a[0];
    }
  }

  /** JavaScript `s.trim()`. */
  function JsTrim(s: string): string {
    Strip(s, IsJsSpace)
  }

  /** Python `s.strip()`. */
  function PyStrip(s: string): string {
    Strip(s, IsPySpace)
  }

  /** Stripping a string that has no space at either end changes nothing. */
  lemma StripUnchanged(s: string, space: char -> bool)
    requires s != [] ==> !space(s[0]) && !space(s[|s| - 1])
    ensures Strip(s, space) == s
  {
  }

  /** A stripped string is its own stripped form. */
  lemma StripIdempotent(s: string, space: char -> bool)
    ensures Strip(Strip(s, space), space) == Strip(s, space)
  {
    StripIsStrip(s, space);
    StripUnchanged(Strip(s, space), space);
  }

  /** ASCII lower-casing: `A`-`Z` become `a`-`z`, every other character is kept. */
  function AsciiLower(s: string): (r: string)
    ensures |r| == |s|
    ensures forall i :: 0 <= i < |s| ==> r[i] == if 'A' <= s[i] <= 'Z' then (s[i] as int + 32) as char else s[i]
  {
    if s == [] then [] else
      var c := s[0];
      [if 'A' <= c <= 'Z' then (c as int + 32) as char else c] + AsciiLower(s[1..])
  }

  /** The length JavaScript reports: UTF-16 code units, two for a character outside the BMP. */
  function Utf16Length(s: string): (n: nat)
    ensures |s| <= n <= 2 * |s|
  {
    if s == [] then 0 else (if s[0] as int > 0xFFFF then 2 else 1) + Utf16Length(s[1..])
  }
}
