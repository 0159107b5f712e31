/**
 * UUIDs as the `uuid` crate prints and parses them: printed as 36
 * lower-case hyphenated characters (8-4-4-4-12 digits); parsed from the
 * hyphenated form, the 32-digit simple form or the `urn:uuid:` form, with
 * hexadecimal digits of either case.
 */
module Uuid {
  import opened Base
  import Hex

  type Uuid = b: seq<byte> | |b| == 16 witness [0, 0, 0, 0, 0, 0, 0, 0, 0, 0, 0, 0, 0, 0, 0, 0]

  const UrnPrefix: string := "urn:uuid:"

  /** `Display` for `Uuid`: the hyphenated form. */
  function ToString(u: Uuid): (s: string)
    ensures |s| == 36
  {
    Hex.EncodeShape(u);
    var h := Hex.Encode(u);
    h[..8] + "-" + h[8..12] + "-" + h[12..16] + "-" + h[16..20] + "-" + h[20..]
  }

  predicate HyphensAtGroups(s: string)
    requires |s| == 36
  {
    s[8] == '-' && s[13] == '-' && s[18] == '-' && s[23] == '-'
  }

  /** The 32 digits of a hyphenated UUID. */
  function Digits(s: string): (d: string)
    requires |s| == 36
    ensures |d| == 32
  {
    s[..8] + s[9..13] + s[14..18] + s[19..23] + s[24..]
  }

  function ParseSimple(s: string): Option<Uuid>
  {
    match Hex.Decode(s)
    case Some(b) => if |b| == 16 then Some(b) else None
    case None => None
  }

  function ParseHyphenated(s: string): Option<Uuid>
  {
    if |s| == 36 && HyphensAtGroups(s) then ParseSimple(Digits(s)) else None
  }

  /** `Uuid::parse_str`. */
  function Parse(s: string): Option<Uuid>
  {
    if |s| == 32 then ParseSimple(s)
    else if |s| == 36 then ParseHyphenated(s)
    else if |s| == 45 && s[..9] == UrnPrefix then ParseHyphenated(s[9..])
    else None
  }

  /** Joining five groups with hyphens and taking the digits back out. */
  lemma GroupsRoundTrip(a: string, b: string, c: string, d: string, e: string)
    requires |a| == 8 && |b| == 4 && |c| == 4 && |d| == 4 && |e| == 12
    ensures |a + "-" + b + "-" + c + "-" + d + "-" + e| == 36
    ensures HyphensAtGroups(a + "-" + b + "-" + c + "-" + d + "-" + e)
    ensures Digits(a + "-" + b + "-" + c + "-" + d + "-" + e) == a + b + c + d + e
  {
    var s := a + "-" + b + "-" + c + "-" + d + "-" + e;
    assert s[..8] == a;
    assert s[9..13] == b;
    assert s[14..18] == c;
    assert s[19..23] == d;
    assert s[24..] == e;
  }

  lemma SplitGroups(h: string)
    requires |h| == 32
    ensures h[..8] + h[8..12] + h[12..16] + h[16..20] + h[20..] == h
  {
    assert h[..8] + h[8..12] == h[..12];
    assert h[..12] + h[12..16] == h[..16];
    assert h[..16] + h[16..20] == h[..20];
    assert h[..20] + h[20..] == h;
  }

  /** The printed form is the hex encoding with hyphens between the groups. */
  lemma ToStringDigits(u: Uuid)
    ensures HyphensAtGroups(ToString(u))
    ensures Digits(ToString(u)) == Hex.Encode(u)
  {
    Hex.EncodeShape(u);
    var h := Hex.Encode(u);
    GroupsRoundTrip(h[..8], h[8..12], h[12..16], h[16..20], h[20..]);
    SplitGroups(h);
  }

  /** Every UUID is read back from its printed form. */
  lemma ParseToString(u: Uuid)
    ensures Parse(ToString(u)) == Some(u)
  {
    ToStringDigits(u);
    Hex.DecodeEncode(u);
    assert ParseSimple(Hex.Encode(u)) == Some(u);
  }

  /** Distinct UUIDs print differently. */
  lemma ToStringInjective(u: Uuid, v: Uuid)
    requires ToString(u) == ToString(v)
    ensures u == v
  {
    ParseToString(u);
    ParseToString(v);
  }
}
