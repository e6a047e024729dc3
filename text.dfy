/** `String.prototype.trim`, which the schema's `trim: true` option applies to
    every email assigned to a user. */
module Text {

  /** ECMAScript WhiteSpace and LineTerminator code points: tab, line feed,
      vertical tab, form feed, carriage return, the Unicode space separators,
      the line and paragraph separators and the byte order mark. */
  predicate IsWhitespace(c: char) {
    c == '\t' || c == '\n' || c == '\U{B}' || c == '\U{C}' || c == '\r' ||
    c == ' ' || c == '\U{A0}' || c == '\U{1680}' ||
    ('\U{2000}' <= c <= '\U{200A}') ||
    c == '\U{2028}' || c == '\U{2029}' || c == '\U{202F}' || c == '\U{205F}' ||
    c == '\U{3000}' || c == '\U{FEFF}'
  }

  predicate AllWhitespace(s: string) {
    forall i :: 0 <= i < |s| ==> IsWhitespace(s[i])
  }

  /** Neither end of `s` is whitespace. */
  predicate IsTrimmed(s: string) {
    s == [] || (!IsWhitespace(s[0]) && !IsWhitespace(s[|s| - 1]))
  }

  /** How many whitespace characters open `s`. */
  function LeadingSpace(s: string): (n: nat)
    ensures n <= |s|
    ensures AllWhitespace(s[..n])
    ensures n < |s| ==> !IsWhitespace(s[n])
  {
    if s != [] && IsWhitespace(s[0]) then 1 + LeadingSpace(s[1..]) else 0
  }

  /** How many whitespace characters close `s`. */
  function TrailingSpace(s: string): (n: nat)
    ensures n <= |s|
    ensures AllWhitespace(s[|s| - n..])
    ensures n < |s| ==> !IsWhitespace(s[|s| - 1 - n])
  {
    if s != [] && IsWhitespace(s[|s| - 1]) then 1 + TrailingSpace(s[..|s| - 1]) else 0
  }

  /** `s.trim()`: `s` without its leading and trailing whitespace. The result
      is the part of `s` after its leading whitespace, and everything after the
      result is whitespace. */
  function Trim(s: string): (r: string)
    ensures IsTrimmed(r)
    ensures LeadingSpace(s) + |r| <= |s|
    ensures r == s[LeadingSpace(s) .. LeadingSpace(s) + |r|]
    ensures AllWhitespace(s[LeadingSpace(s) + |r| ..])
    ensures r == [] <==> AllWhitespace(s)
    ensures IsTrimmed(s) ==> r == s
  {
    var lo := LeadingSpace(s);
    var rest := s[lo..];
    var hi := |rest| - TrailingSpace(rest);
    TrimmedSlice(s, lo, rest, hi);
    rest[..hi]
  }

  lemma TrimmedSlice(s: string, lo: nat, rest: string, hi: nat)
    requires lo == LeadingSpace(s) && rest == s[lo..]
    requires hi == |rest| - TrailingSpace(rest)
    ensures IsTrimmed(rest[..hi])
    ensures rest[..hi] == [] <==> AllWhitespace(s)
    ensures IsTrimmed(s) ==> rest[..hi] == s
    ensures lo + hi <= |s| && rest[..hi] == s[lo .. lo + hi]
    ensures AllWhitespace(s[lo + hi ..])
  {
    assert rest[hi..] == s[lo + hi ..];
    if hi > 0 {
      SliceEnds(s, lo, rest, hi);
    } else {
      SliceEmpty(s, lo, rest, hi);
    }
    if IsTrimmed(s) && s != [] {
      assert lo == 0;
      assert TrailingSpace(rest) == 0;
    }
  }

  /** A non-empty trim starts and ends with the first and last non-whitespace characters. */
  lemma SliceEnds(s: string, lo: nat, rest: string, hi: nat)
    requires lo == LeadingSpace(s) && rest == s[lo..]
    requires hi == |rest| - TrailingSpace(rest) && hi > 0
    ensures IsTrimmed(rest[..hi]) && !AllWhitespace(s)
  {
    var r := rest[..hi];
    assert r[0] == s[lo];
    assert r[|r| - 1] == rest[|rest| - 1 - TrailingSpace(rest)];
    assert !IsWhitespace(s[lo]);
  }

  /** An empty trim leaves nothing after the leading whitespace. */
  lemma SliceEmpty(s: string, lo: nat, rest: string, hi: nat)
    requires lo == LeadingSpace(s) && rest == s[lo..]
    requires hi == |rest| - TrailingSpace(rest) && hi == 0
    ensures AllWhitespace(s)
  {
    assert rest[hi..] == rest;
    assert lo == |s|;
    assert s[..lo] == s;
  }

  /** JavaScript's `.length`, which `minlength` compares: the number of UTF-16
      code units, where a code point above U+FFFF takes two. */
  function Utf16Length(s: string): (n: nat)
    ensures |s| <= n <= 2 * |s|
    ensures n == 0 <==> s == []
  {
    if s == [] then 0
    else (if s[0] >= '\U{10000}' then 2 else 1) + Utf16Length(s[1..])
  }

  /** Four emoji outside the Basic Multilingual Plane measure eight units. */
  lemma Utf16LengthOfAstral()
    ensures Utf16Length(['\U{1F600}', '\U{1F600}', '\U{1F600}', '\U{1F600}']) == 8
  {
  }

  /** Trimming twice is trimming once. */
  lemma TrimIdempotent(s: string)
    ensures Trim(Trim(s)) == Trim(s)
  {
  }
}
