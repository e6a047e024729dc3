/** Lowercase hexadecimal text of a byte buffer, as `Buffer.toString("hex")`
    produces it: two characters per byte, high nibble first, digits `0-9a-f`. */
module Hex {
  import opened Wrappers

  newtype byte = x: int | 0 <= x < 256

  predicate IsHexChar(c: char) {
    '0' <= c <= '9' || 'a' <= c <= 'f'
  }

  predicate IsHexString(s: string) {
    forall i :: 0 <= i < |s| ==> IsHexChar(s[i])
  }

  /** The digit for a nibble value. */
  function Digit(n: int): (c: char)
    requires 0 <= n < 16
    ensures IsHexChar(c)
  {
    if n < 10 then '0' + n as char else 'a' + (n - 10) as char
  }

  /** The nibble value of a lowercase hex digit. */
  function DigitValue(c: char): (n: int)
    requires IsHexChar(c)
    ensures 0 <= n < 16
    ensures Digit(n) == c
  {
    if c <= '9' then (c - '0') as int else (c - 'a') as int + 10
  }

  lemma DigitValueOfDigit(n: int)
    requires 0 <= n < 16
    ensures DigitValue(Digit(n)) == n
  {
  }

  /** `buf.toString("hex")`. */
  function Encode(buf: seq<byte>): (s: string)
    ensures |s| == 2 * |buf|
    ensures IsHexString(s)
  {
    if buf == [] then []
    else [Digit(buf[0] as int / 16), Digit(buf[0] as int % 16)] + Encode(buf[1..])
  }

  /** The inverse of `Encode`: `None` for odd length or a character outside `0-9a-f`. */
  function Decode(s: string): (r: Option<seq<byte>>)
    ensures r.Some? ==> 2 * |r.value| == |s|
  {
    if s == [] then Some([])
    else if |s| < 2 || !IsHexChar(s[0]) || !IsHexChar(s[1]) then None
    else
      match Decode(s[2..])
      case None => None
      case Some(rest) => Some([(DigitValue(s[0]) * 16 + DigitValue(s[1])) as byte] + rest)
  }

  /** Decoding the encoding gives back the buffer. */
  lemma {:induction false} DecodeEncode(buf: seq<byte>)
    ensures Decode(Encode(buf)) == Some(buf)
  {
    if buf != [] {
      var b := buf[0] as int;
      DigitValueOfDigit(b / 16);
      DigitValueOfDigit(b % 16);
      DecodeEncode(buf[1..]);
      var s := Encode(buf);
      assert s[2..] == Encode(buf[1..]);
      assert [buf[0]] + buf[1..] == buf;
    }
  }

  /** Whatever decodes successfully is the encoding of what it decodes to. */
  lemma {:induction false} EncodeDecode(s: string)
    requires Decode(s).Some?
    ensures Encode(Decode(s).value) == s
  {
    if s != [] {
      EncodeDecode(s[2..]);
      var buf := Decode(s).value;
      var b := buf[0] as int;
      assert b == DigitValue(s[0]) * 16 + DigitValue(s[1]);
      assert buf[1..] == Decode(s[2..]).value;
      assert [s[0], s[1]] + s[2..] == s;
    }
  }

  /** The encoding and the decoding are the same relation, read both ways. */
  lemma EncodeIffDecode(buf: seq<byte>, s: string)
    ensures Encode(buf) == s <==> Decode(s) == Some(buf)
  {
    DecodeEncode(buf);
    if Decode(s) == Some(buf) {
      EncodeDecode(s);
    }
  }

  /** Distinct buffers give distinct text. */
  lemma EncodeInjective(a: seq<byte>, b: seq<byte>)
    requires Encode(a) == Encode(b)
    ensures a == b
  {
    DecodeEncode(a);
    DecodeEncode(b);
  }
}
