/**
 * Base 16 encoding of binary data as in section 8 of RFC 4648, with the
 * lower-case alphabet that Python's `bytes.hex()` writes: each byte becomes
 * two digits, the high half first.
 */
module Hex {
  import opened Wrappers

  newtype byte = x: int | 0 <= x < 256

  /** A character of the lower-case alphabet `0123456789abcdef`. */
  predicate IsHexDigit(c: char) {
    '0' <= c <= '9' || 'a' <= c <= 'f'
  }

  /** The digit for a value below 16. */
  function Digit(n: int): (c: char)
    requires 0 <= n < 16
    ensures IsHexDigit(c)
  {
    if n < 10 then ('0' as int + n) as char else ('a' as int + n - 10) as char
  }

  /** The value of a lower-case hex digit, or `None` for any other character. */
  function DigitValue(c: char): (r: Option<int>)
    ensures r.Some? <==> IsHexDigit(c)
    ensures r.Some? ==> 0 <= r.value < 16 && Digit(r.value) == c
  {
    if '0' <= c <= '9' then Some(c as int - '0' as int)
    else if 'a' <= c <= 'f' then Some(c as int - 'a' as int + 10)
    else None
  }

  lemma DigitRoundTrip(n: int)
    requires 0 <= n < 16
    ensures DigitValue(Digit(n)) == Some(n)
  {
  }

  /** `blob.hex()`. */
  function Encode(bs: seq<byte>): (r: string)
    ensures |r| == 2 * |bs|
    ensures forall i :: 0 <= i < |r| ==> IsHexDigit(r[i])
    ensures forall i :: 0 <= i < |bs| ==> r[2 * i] == Digit(bs[i] as int / 16) && r[2 * i + 1] == Digit(bs[i] as int % 16)
  {
    if bs == [] then ""
    else
      var tail := bs[1..];
      var rest := Encode(tail);
      var r := [Digit(bs[0] as int / 16), Digit(bs[0] as int % 16)] + rest;
      assert forall i :: 2 <= i < |r| ==> r[i] == rest[i - 2];
      assert forall i :: 1 <= i < |bs| ==> bs[i] == tail[i - 1];
      r
  }

  /** The bytes a lower-case hex text stands for; `None` for an odd length or a character outside the alphabet. */
  function Decode(s: string): (r: Option<seq<byte>>)
    ensures r.Some? ==> 2 * |r.value| == |s|
    decreases |s|
  {
    if s == [] then Some([])
    else if |s| == 1 then None
    else
      match (DigitValue(s[0]), DigitValue(s[1]), Decode(s[2..]))
      case (Some(hi), Some(lo), Some(rest)) => Some([(hi * 16 + lo) as byte] + rest)
      case _ => None
  }

  // ---------------------------------------------------------------------------
  // What the encoding promises
  // ---------------------------------------------------------------------------

  /** Decoding the encoding gives back the bytes. */
  lemma {:induction false} DecodeEncode(bs: seq<byte>)
    ensures Decode(Encode(bs)) == Some(bs)
    decreases |bs|
  {
    if bs != [] {
      var b := bs[0] as int;
      var s := Encode(bs);
      var rest := Encode(bs[1..]);
      assert s == [Digit(b / 16), Digit(b % 16)] + rest;
      assert s[2..] == rest;
      DecodeEncode(bs[1..]);
      DigitRoundTrip(b / 16);
      DigitRoundTrip(b % 16);
      assert DigitValue(s[0]) == Some(b / 16) && DigitValue(s[1]) == Some(b % 16);
      assert ((b / 16) * 16 + b % 16) as byte == bs[0];
      assert Decode(s) == Some([bs[0]] + bs[1..]);
      assert bs == [bs[0]] + bs[1..];
    }
  }

  /** Encoding what a text decodes to gives back the text: the text was already in canonical form. */
  lemma {:induction false} EncodeDecode(s: string)
    requires Decode(s).Some?
    ensures Encode(Decode(s).value) == s
    decreases |s|
  {
    if s != [] {
      EncodeDecode(s[2..]);
      var hi := DigitValue(s[0]).value;
      var lo := DigitValue(s[1]).value;
      var b := (hi * 16 + lo) as byte;
      assert b as int / 16 == hi && b as int % 16 == lo;
      assert s == [s[0], s[1]] + s[2..];
    }
  }

  /** Different byte strings have different encodings. */
  lemma EncodeInjective(a: seq<byte>, b: seq<byte>)
    requires Encode(a) == Encode(b)
    ensures a == b
  {
    DecodeEncode(a);
    DecodeEncode(b);
  }
}
