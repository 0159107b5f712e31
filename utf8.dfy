/**
 * UTF-8 as defined by section 4 of RFC 3629 ("Syntax of UTF-8 Byte Sequences").
 *
 * `WellFormed` transcribes the ABNF of that section; `Decode` is a scanner
 * in the style of a string library's validator (the lead byte fixes the
 * width and the range of the second byte); `Encode` is the inverse mapping
 * from Unicode scalar values to octets. The lemmas tie the three together.
 */
module Utf8 {
  import opened Base

  /** UTF8-tail = %x80-BF */
  predicate Tail(b: byte) { 0x80 <= b <= 0xBF }

  /** One UTF8-char: the alternatives UTF8-1 / UTF8-2 / UTF8-3 / UTF8-4. */
  predicate IsChar(s: seq<byte>)
  {
    if |s| == 1 then
      s[0] <= 0x7F
    else if |s| == 2 then
      0xC2 <= s[0] <= 0xDF && Tail(s[1])
    else if |s| == 3 then
      && (|| (s[0] == 0xE0 && 0xA0 <= s[1] <= 0xBF)
          || (0xE1 <= s[0] <= 0xEC && Tail(s[1]))
          || (s[0] == 0xED && 0x80 <= s[1] <= 0x9F)
          || (0xEE <= s[0] <= 0xEF && Tail(s[1])))
      && Tail(s[2])
    else if |s| == 4 then
      && (|| (s[0] == 0xF0 && 0x90 <= s[1] <= 0xBF)
          || (0xF1 <= s[0] <= 0xF3 && Tail(s[1]))
          || (s[0] == 0xF4 && 0x80 <= s[1] <= 0x8F))
      && Tail(s[2]) && Tail(s[3])
    else
      false
  }

  /** UTF8-octets = *( UTF8-char ) */
  predicate WellFormed(s: seq<byte>)
    decreases |s|
  {
    || s == []
    || (1 <= |s| && IsChar(s[..1]) && WellFormed(s[1..]))
    || (2 <= |s| && IsChar(s[..2]) && WellFormed(s[2..]))
    || (3 <= |s| && IsChar(s[..3]) && WellFormed(s[3..]))
    || (4 <= |s| && IsChar(s[..4]) && WellFormed(s[4..]))
  }

  /** Number of octets announced by a lead byte, 0 when it cannot start a character. */
  function Width(b0: byte): nat
  {
    if b0 <= 0x7F then 1
    else if 0xC2 <= b0 <= 0xDF then 2
    else if 0xE0 <= b0 <= 0xEF then 3
    else if 0xF0 <= b0 <= 0xF4 then 4
    else 0
  }

  /** Lowest admissible second byte after a multi-byte lead. */
  function SecondLow(b0: byte): byte
  {
    if b0 == 0xE0 then 0xA0 else if b0 == 0xF0 then 0x90 else 0x80
  }

  /** Highest admissible second byte after a multi-byte lead. */
  function SecondHigh(b0: byte): byte
  {
    if b0 == 0xED then 0x9F else if b0 == 0xF4 then 0x8F else 0xBF
  }

  /**
   * Decodes the character at the head of `s`: its scalar value and width,
   * or None when the head is not a well-formed character.
   */
  function DecodeChar(s: seq<byte>): (r: Option<(char, nat)>)
    requires |s| > 0
    ensures r.Some? ==> 1 <= r.value.1 <= 4 && r.value.1 <= |s|
  {
    var b0 := s[0];
    var w := Width(b0);
    if w == 0 || |s| < w then None
    else if w == 1 then Some(((b0 as int) as char, 1))
    else if !(SecondLow(b0) <= s[1] <= SecondHigh(b0)) then None
    else if w == 2 then
      Some((((b0 as int - 0xC0) * 64 + (s[1] as int - 0x80)) as char, 2))
    else if !Tail(s[2]) then None
    else if w == 3 then
      Some((((b0 as int - 0xE0) * 4096 + (s[1] as int - 0x80) * 64 + (s[2] as int - 0x80)) as char, 3))
    else if !Tail(s[3]) then None
    else
      Some((((b0 as int - 0xF0) * 262144 + (s[1] as int - 0x80) * 4096
             + (s[2] as int - 0x80) * 64 + (s[3] as int - 0x80)) as char, 4))
  }

  /** The string a byte sequence spells, or None when it is not well formed. */
  function Decode(s: seq<byte>): Option<string>
    decreases |s|
  {
    if s == [] then Some([])
    else match DecodeChar(s)
      case None => None
      case Some((c, n)) =>
        match Decode(s[n..])
        case None => None
        case Some(rest) => Some([c] + rest)
  }

  /** The octets that encode one scalar value (shortest form). */
  function EncodeChar(c: char): (r: seq<byte>)
    ensures 1 <= |r| <= 4
  {
    var v := c as int;
    if v < 0x80 then [v as byte]
    else if v < 0x800 then [(0xC0 + v / 64) as byte, (0x80 + v % 64) as byte]
    else if v < 0x1_0000 then
      [(0xE0 + v / 4096) as byte, (0x80 + (v / 64) % 64) as byte, (0x80 + v % 64) as byte]
    else
      [(0xF0 + v / 262144) as byte, (0x80 + (v / 4096) % 64) as byte,
       (0x80 + (v / 64) % 64) as byte, (0x80 + v % 64) as byte]
  }

  /** The octets that encode a string. */
  function Encode(t: string): seq<byte>
  {
    if t == [] then [] else EncodeChar(t[0]) + Encode(t[1..])
  }

  // ---------------------------------------------------------------------------
  // The scanner accepts exactly the characters of the grammar.

  /** A character the scanner accepts is a UTF8-char of the grammar. */
  lemma DecodeCharIsChar(s: seq<byte>)
    requires |s| > 0 && DecodeChar(s).Some?
    ensures IsChar(s[..DecodeChar(s).value.1])
  {
  }

  /** A UTF8-char of the grammar at the head of `s` is what the scanner reads there. */
  lemma IsCharDecodes(s: seq<byte>, k: nat)
    requires 1 <= k <= |s| && IsChar(s[..k])
    ensures DecodeChar(s).Some? && DecodeChar(s).value.1 == k
  {
    assert s[..k][0] == s[0];
    if k >= 2 { assert s[..k][1] == s[1]; }
    if k >= 3 { assert s[..k][2] == s[2]; }
    if k >= 4 { assert s[..k][3] == s[3]; }
  }

  /** Decoding succeeds exactly on the well-formed sequences of section 4 of RFC 3629. */
  lemma {:induction false} DecodeSucceedsIffWellFormed(s: seq<byte>)
    ensures Decode(s).Some? <==> WellFormed(s)
    decreases |s|
  {
    if s != [] {
      if WellFormed(s) {
        var k :| 1 <= k <= 4 && k <= |s| && IsChar(s[..k]) && WellFormed(s[k..]);
        IsCharDecodes(s, k);
        DecodeSucceedsIffWellFormed(s[k..]);
      } else if DecodeChar(s).Some? {
        var n := DecodeChar(s).value.1;
        DecodeCharIsChar(s);
        DecodeSucceedsIffWellFormed(s[n..]);
      }
    }
  }

  // ---------------------------------------------------------------------------
  // Encoding and decoding are inverse.

  lemma DecodeEncodeChar(c: char, rest: seq<byte>)
    ensures DecodeChar(EncodeChar(c) + rest) == Some((c, |EncodeChar(c)|))
  {
    var v := c as int;
    var e := EncodeChar(c) + rest;
    if v < 0x80 {
    } else if v < 0x800 {
      assert v == (v / 64) * 64 + v % 64;
    } else if v < 0x1_0000 {
      assert v / 64 == (v / 4096) * 64 + (v / 64) % 64;
      assert v == (v / 64) * 64 + v % 64;
    } else {
      assert v / 4096 == (v / 262144) * 64 + (v / 4096) % 64;
      assert v / 64 == (v / 4096) * 64 + (v / 64) % 64;
      assert v == (v / 64) * 64 + v % 64;
    }
  }

  /** Every string is recovered from its encoding. */
  lemma {:induction false} DecodeEncode(t: string)
    ensures Decode(Encode(t)) == Some(t)
  {
    if t != [] {
      var e := EncodeChar(t[0]);
      DecodeEncodeChar(t[0], Encode(t[1..]));
      assert (e + Encode(t[1..]))[|e|..] == Encode(t[1..]);
      DecodeEncode(t[1..]);
      assert [t[0]] + t[1..] == t;
    }
  }

  lemma EncodeTwo(b0: int, b1: int)
    requires 0xC2 <= b0 <= 0xDF && 0x80 <= b1 <= 0xBF
    ensures var v := (b0 - 0xC0) * 64 + (b1 - 0x80);
      0x80 <= v < 0x800 && 0xC0 + v / 64 == b0 && 0x80 + v % 64 == b1
  {
  }

  lemma EncodeThree(b0: int, b1: int, b2: int)
    requires 0xE0 <= b0 <= 0xEF && 0x80 <= b1 <= 0xBF && 0x80 <= b2 <= 0xBF
    requires b0 == 0xE0 ==> b1 >= 0xA0
    ensures var v := (b0 - 0xE0) * 4096 + (b1 - 0x80) * 64 + (b2 - 0x80);
      && 0x800 <= v < 0x1_0000
      && 0xE0 + v / 4096 == b0 && 0x80 + (v / 64) % 64 == b1 && 0x80 + v % 64 == b2
  {
    var v := (b0 - 0xE0) * 4096 + (b1 - 0x80) * 64 + (b2 - 0x80);
    assert v / 64 == (b0 - 0xE0) * 64 + (b1 - 0x80);
  }

  lemma EncodeFour(b0: int, b1: int, b2: int, b3: int)
    requires 0xF0 <= b0 <= 0xF4 && 0x80 <= b1 <= 0xBF && 0x80 <= b2 <= 0xBF && 0x80 <= b3 <= 0xBF
    requires b0 == 0xF0 ==> b1 >= 0x90
    ensures var v := (b0 - 0xF0) * 262144 + (b1 - 0x80) * 4096 + (b2 - 0x80) * 64 + (b3 - 0x80);
      && 0x1_0000 <= v
      && 0xF0 + v / 262144 == b0 && 0x80 + (v / 4096) % 64 == b1
      && 0x80 + (v / 64) % 64 == b2 && 0x80 + v % 64 == b3
  {
    var v := (b0 - 0xF0) * 262144 + (b1 - 0x80) * 4096 + (b2 - 0x80) * 64 + (b3 - 0x80);
    assert v / 64 == (b0 - 0xF0) * 4096 + (b1 - 0x80) * 64 + (b2 - 0x80);
    assert v / 4096 == (b0 - 0xF0) * 64 + (b1 - 0x80);
  }

  lemma EncodeDecodeChar(s: seq<byte>)
    requires |s| > 0 && DecodeChar(s).Some?
    ensures EncodeChar(DecodeChar(s).value.0) == s[..DecodeChar(s).value.1]
  {
    var n := DecodeChar(s).value.1;
    if n == 2 {
      EncodeTwo(s[0] as int, s[1] as int);
    } else if n == 3 {
      EncodeThree(s[0] as int, s[1] as int, s[2] as int);
    } else if n == 4 {
      EncodeFour(s[0] as int, s[1] as int, s[2] as int, s[3] as int);
    }
  }

  /** A decoded string encodes back to exactly the octets it came from. */
  lemma {:induction false} EncodeDecode(s: seq<byte>)
    requires Decode(s).Some?
    ensures Encode(Decode(s).value) == s
    decreases |s|
  {
    if s != [] {
      var c, n := DecodeHead(s);
      EncodeDecode(s[n..]);
      EncodeCons(c, Decode(s[n..]).value);
      assert s[..n] + s[n..] == s;
    }
  }

  /** The first character decoded from `s`, its width, and its encoding. */
  lemma DecodeHead(s: seq<byte>) returns (c: char, n: nat)
    requires s != [] && Decode(s).Some?
    ensures 0 < n <= |s| && Decode(s[n..]).Some?
    ensures Decode(s).value == [c] + Decode(s[n..]).value
    ensures EncodeChar(c) == s[..n]
  {
    c := DecodeChar(s).value.0;
    n := DecodeChar(s).value.1;
    EncodeDecodeChar(s);
  }

  lemma EncodeCons(c: char, t: string)
    ensures Encode([c] + t) == EncodeChar(c) + Encode(t)
  {
    assert ([c] + t)[1..] == t;
  }

  /** Every encoding is well formed. */
  lemma EncodeWellFormed(t: string)
    ensures WellFormed(Encode(t))
  {
    DecodeEncode(t);
    DecodeSucceedsIffWellFormed(Encode(t));
  }
}
