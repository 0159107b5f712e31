/**
 * Hexadecimal text for byte strings, as the `hex` crate's `encode` writes it
 * (two lower-case digits per byte, high nibble first), and its inverse,
 * which, like the UUID parser, accepts digits of either case.
 */
module Hex {
  import opened Base

  const Digits: string := "0123456789abcdef"

  predicate IsLowerHexDigit(c: char) { c in Digits }

  /** The digit for a nibble. */
  function DigitOf(n: nat): (c: char)
    requires n < 16
    ensures IsLowerHexDigit(c)
  {
    Digits[n]
  }

  /** The value of a hexadecimal digit of either case, or None. */
  function ValueOf(c: char): (r: Option<nat>)
    ensures r.Some? ==> r.value < 16
  {
    if '0' <= c <= '9' then Some(c as int - '0' as int)
    else if 'a' <= c <= 'f' then Some(c as int - 'a' as int + 10)
    else if 'A' <= c <= 'F' then Some(c as int - 'A' as int + 10)
    else None
  }

  function Encode(bytes: seq<byte>): seq<char>
  {
    if bytes == [] then []
    else [DigitOf(bytes[0] as int / 16), DigitOf(bytes[0] as int % 16)] + Encode(bytes[1..])
  }

  function Decode(s: string): Option<seq<byte>>
    decreases |s|
  {
    if s == [] then Some([])
    else if |s| == 1 then None
    else
      var hi, lo, rest := ValueOf(s[0]), ValueOf(s[1]), Decode(s[2..]);
      if hi.None? || lo.None? || rest.None? then None
      else Some([(hi.value * 16 + lo.value) as byte] + rest.value)
  }

  lemma ValueOfDigit(n: nat)
    requires n < 16
    ensures ValueOf(DigitOf(n)) == Some(n)
  {
  }

  /** Two lower-case digits per byte. */
  lemma {:induction false} EncodeShape(bytes: seq<byte>)
    ensures |Encode(bytes)| == 2 * |bytes|
    ensures forall i :: 0 <= i < |Encode(bytes)| ==> IsLowerHexDigit(Encode(bytes)[i])
  {
    if bytes != [] {
      EncodeShape(bytes[1..]);
    }
  }

  /** `Decode` inverts `Encode`. */
  lemma {:induction false} DecodeEncode(bytes: seq<byte>)
    ensures Decode(Encode(bytes)) == Some(bytes)
  {
    if bytes != [] {
      var b := bytes[0] as int;
      var hi, lo := b / 16, b % 16;
      ValueOfDigit(hi);
      ValueOfDigit(lo);
      var tail := Encode(bytes[1..]);
      assert Encode(bytes) == [DigitOf(hi), DigitOf(lo)] + tail;
      DecodeEncode(bytes[1..]);
      DecodePair(DigitOf(hi), DigitOf(lo), tail);
      assert (hi * 16 + lo) as byte == bytes[0];
      assert [bytes[0]] + bytes[1..] == bytes;
    }
  }

  /** Two digits in front of a decodable string decode to one more byte. */
  lemma DecodePair(x: char, y: char, rest: string)
    requires ValueOf(x).Some? && ValueOf(y).Some? && Decode(rest).Some?
    ensures Decode([x, y] + rest) == Some([(ValueOf(x).value * 16 + ValueOf(y).value) as byte] + Decode(rest).value)
  {
    var e := [x, y] + rest;
    assert e[0] == x && e[1] == y && e[2..] == rest;
  }

  /** Distinct byte strings have distinct hexadecimal spellings. */
  lemma EncodeInjective(a: seq<byte>, b: seq<byte>)
    requires Encode(a) == Encode(b)
    ensures a == b
  {
    DecodeEncode(a);
    DecodeEncode(b);
  }
}
