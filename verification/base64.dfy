/** `btoa`: the base64 encoding of section 4 of RFC 4648 applied to a
    string whose characters are all Latin-1 (code points below 256), as the
    Basic authentication scheme of section 2 of RFC 7617 requires for the
    credentials. A string with any other character is rejected, as `btoa`
    rejects it with an `InvalidCharacterError`. */
module Base64 {
  import opened Js

  type Byte = b: int | 0 <= b < 256
  type Sextet = s: int | 0 <= s < 64

  /** The character of a 6-bit group, from the alphabet of Table 1 of RFC 4648:
      `A`-`Z`, `a`-`z`, `0`-`9`, `+`, `/`. */
  function SextetChar(i: Sextet): (c: char)
    ensures c != '='
  {
    if i < 26 then ('A' as int + i) as char
    else if i < 52 then ('a' as int + (i - 26)) as char
    else if i < 62 then ('0' as int + (i - 52)) as char
    else if i == 62 then '+'
    else '/'
  }

  /** The 6-bit group a character stands for, or -1 outside the alphabet. */
  function CharSextet(c: char): (r: int)
    ensures -1 <= r < 64
  {
    if 'A' <= c <= 'Z' then c as int - 'A' as int
    else if 'a' <= c <= 'z' then c as int - 'a' as int + 26
    else if '0' <= c <= '9' then c as int - '0' as int + 52
    else if c == '+' then 62
    else if c == '/' then 63
    else -1
  }

  lemma SextetRoundTrip(i: Sextet)
    ensures CharSextet(SextetChar(i)) == i
  {
  }

  /** Three bytes as four 6-bit groups, most significant bits first. */
  function Split3(a: Byte, b: Byte, c: Byte): (r: seq<Sextet>)
    ensures |r| == 4
  {
    [a / 4, (a % 4) * 16 + b / 16, (b % 16) * 4 + c / 64, c % 64]
  }

  /** Four 6-bit groups back to three bytes. */
  function Join3(s0: Sextet, s1: Sextet, s2: Sextet, s3: Sextet): (r: seq<Byte>)
    ensures |r| == 3
  {
    [s0 * 4 + s1 / 16, (s1 % 16) * 16 + s2 / 4, (s2 % 4) * 64 + s3]
  }

  lemma JoinSplit3(a: Byte, b: Byte, c: Byte)
    ensures var g := Split3(a, b, c); Join3(g[0], g[1], g[2], g[3]) == [a, b, c]
  {
    var g := Split3(a, b, c);
    assert g[1] / 16 == a % 4 && g[1] % 16 == b / 16;
    assert g[2] / 4 == b % 16 && g[2] % 4 == c / 64;
  }

  /** The four characters of a full group. */
  function Quad(a: Byte, b: Byte, c: Byte): (r: string)
    ensures |r| == 4
  {
    var g := Split3(a, b, c);
    [SextetChar(g[0]), SextetChar(g[1]), SextetChar(g[2]), SextetChar(g[3])]
  }

  /** The base64 text of a byte sequence: four characters for each three
      bytes, the last group padded with `=`. */
  function Encode(bytes: seq<Byte>): (r: string)
    decreases |bytes|
  {
    if |bytes| == 0 then ""
    else if |bytes| == 1 then
      var a := bytes[0];
      [SextetChar(a / 4), SextetChar((a % 4) * 16)] + "=="
    else if |bytes| == 2 then
      var a, b := bytes[0], bytes[1];
      [SextetChar(a / 4), SextetChar((a % 4) * 16 + b / 16), SextetChar((b % 16) * 4)] + "="
    else Quad(bytes[0], bytes[1], bytes[2]) + Encode(bytes[3..])
  }

  /** The bytes one four-character group stands for; `last` says whether
      it ends the text, the only place `=` padding may appear. */
  function DecodeQuad(q: string, last: bool): (r: Option<seq<Byte>>)
    requires |q| == 4
    ensures r.Some? ==> 1 <= |r.value| <= 3
  {
    var c0, c1, c2, c3 := CharSextet(q[0]), CharSextet(q[1]), CharSextet(q[2]), CharSextet(q[3]);
    if c0 < 0 || c1 < 0 then None
    else if last && q[2] == '=' && q[3] == '=' then Some([c0 * 4 + c1 / 16])
    else if last && q[3] == '=' then
      if c2 < 0 then None else Some(Join3(c0, c1, c2, 0)[..2])
    else if c2 < 0 || c3 < 0 then None
    else Some(Join3(c0, c1, c2, c3))
  }

  /** The bytes a base64 text stands for, or `None` for a malformed text. */
  function Decode(s: string): (r: Option<seq<Byte>>)
    decreases |s|
  {
    if |s| == 0 then Some([])
    else if |s| < 4 then None
    else
      match DecodeQuad(s[..4], |s| == 4)
      case None => None
      case Some(head) =>
        match Decode(s[4..])
        case None => None
        case Some(rest) => Some(head + rest)
  }

  lemma DecodeOneByte(a: Byte)
    ensures Decode([SextetChar(a / 4), SextetChar((a % 4) * 16)] + "==") == Some([a])
  {
    var e := [SextetChar(a / 4), SextetChar((a % 4) * 16)] + "==";
    SextetRoundTrip(a / 4);
    SextetRoundTrip((a % 4) * 16);
    assert e[..4] == e && e[2] == '=' && e[3] == '=';
    assert DecodeQuad(e, true) == Some([a]);
    assert e[4..] == "";
    assert Decode(e[4..]) == Some([]);
    assert [a] + [] == [a];
  }

  lemma DecodeTwoBytes(a: Byte, b: Byte)
    ensures Decode([SextetChar(a / 4), SextetChar((a % 4) * 16 + b / 16), SextetChar((b % 16) * 4)] + "=")
         == Some([a, b])
  {
    var e := [SextetChar(a / 4), SextetChar((a % 4) * 16 + b / 16), SextetChar((b % 16) * 4)] + "=";
    SextetRoundTrip(a / 4);
    SextetRoundTrip((a % 4) * 16 + b / 16);
    SextetRoundTrip((b % 16) * 4);
    JoinSplit3(a, b, 0);
    assert e[..4] == e && e[3] == '=' && e[2] != '=';
    var c0, c1, c2 := CharSextet(e[0]), CharSextet(e[1]), CharSextet(e[2]);
    assert c0 == a / 4 && c1 == (a % 4) * 16 + b / 16 && c2 == (b % 16) * 4;
    assert Join3(c0, c1, c2, 0) == Join3(a / 4, (a % 4) * 16 + b / 16, (b % 16) * 4 + 0 / 64, 0 % 64);
    assert [a, b, 0][..2] == [a, b];
    assert DecodeQuad(e, true) == Some([a, b]);
    assert e[4..] == "";
    assert Decode(e[4..]) == Some([]);
    assert [a, b] + [] == [a, b];
  }

  /** A full group decodes to its three bytes wherever it stands. */
  lemma DecodeFullQuad(a: Byte, b: Byte, c: Byte, last: bool)
    ensures DecodeQuad(Quad(a, b, c), last) == Some([a, b, c])
  {
    var g := Split3(a, b, c);
    SextetRoundTrip(g[0]);
    SextetRoundTrip(g[1]);
    SextetRoundTrip(g[2]);
    SextetRoundTrip(g[3]);
    JoinSplit3(a, b, c);
  }

  /** The encoding of three bytes and more: a full group, then the
      encoding of the rest. */
  lemma EncodeCons(a: Byte, b: Byte, c: Byte, rest: seq<Byte>)
    ensures Encode([a, b, c] + rest) == Quad(a, b, c) + Encode(rest)
  {
    assert ([a, b, c] + rest)[3..] == rest;
  }

  /** Decoding an encoding gives the bytes back. */
  lemma {:induction false} DecodeEncode(bytes: seq<Byte>)
    ensures Decode(Encode(bytes)) == Some(bytes)
    decreases |bytes|
  {
    if |bytes| == 1 {
      DecodeOneByte(bytes[0]);
      assert bytes == [bytes[0]];
    } else if |bytes| == 2 {
      DecodeTwoBytes(bytes[0], bytes[1]);
      assert bytes == [bytes[0], bytes[1]];
    } else if |bytes| >= 3 {
      DecodeEncode(bytes[3..]);
      SplitHead3(bytes);
      DecodeEncodeStep(bytes[0], bytes[1], bytes[2], bytes[3..]);
    }
  }

  lemma SplitHead3(bytes: seq<Byte>)
    requires |bytes| >= 3
    ensures [bytes[0], bytes[1], bytes[2]] + bytes[3..] == bytes
  {
  }

  lemma DecodeEncodeStep(a: Byte, b: Byte, c: Byte, rest: seq<Byte>)
    requires Decode(Encode(rest)) == Some(rest)
    ensures Decode(Encode([a, b, c] + rest)) == Some([a, b, c] + rest)
  {
    var e := Quad(a, b, c) + Encode(rest);
    EncodeCons(a, b, c, rest);
    assert e[..4] == Quad(a, b, c) && e[4..] == Encode(rest);
    DecodeFullQuad(a, b, c, |e| == 4);
  }

  lemma EncodeLengthStep(bytes: seq<Byte>)
    ensures |bytes| == 0 ==> |Encode(bytes)| == 0
    ensures 1 <= |bytes| <= 2 ==> |Encode(bytes)| == 4
    ensures |bytes| >= 3 ==> |Encode(bytes)| == 4 + |Encode(bytes[3..])|
  {
  }

  /** Four characters for every started group of three bytes. */
  lemma {:induction false} EncodeLength(bytes: seq<Byte>)
    ensures |Encode(bytes)| == 4 * ((|bytes| + 2) / 3)
    decreases |bytes|
  {
    EncodeLengthStep(bytes);
    if |bytes| >= 3 {
      var m := |bytes| - 3;
      EncodeLength(bytes[3..]);
      assert (m + 5) / 3 == (m + 2) / 3 + 1;
    }
  }

  lemma MultipleOfFour(q: int)
    ensures (4 * q) % 4 == 0
  {
  }

  /** The test vectors of section 10 of RFC 4648: "f", "fo" and "foo"
      encode to `Zg==`, `Zm8=` and `Zm9v`, which pins the alphabet, the bit
      order and the padding. */
  lemma KnownAnswers()
    ensures Encode([102]) == "Zg=="
    ensures Encode([102, 111]) == "Zm8="
    ensures Encode([102, 111, 111]) == "Zm9v"
    ensures Encode([102, 111, 111, 98, 97, 114]) == "Zm9vYmFy"
  {
    assert Encode([98, 97, 114]) == "YmFy";
    assert [102, 111, 111, 98, 97, 114][3..] == [98, 97, 114];
  }

  /** Every character is a Latin-1 code point. */
  predicate IsLatin1(s: string) {
    forall k :: 0 <= k < |s| ==> s[k] as int < 256
  }

  /** The code points of a Latin-1 string as bytes. */
  function Latin1Bytes(s: string): (r: seq<Byte>)
    requires IsLatin1(s)
    ensures |r| == |s|
    ensures forall k :: 0 <= k < |s| ==> r[k] == s[k] as int
  {
    seq(|s|, k requires 0 <= k < |s| => s[k] as int)
  }

  /** `btoa(s)`: the base64 text of a Latin-1 string; any other string is
      rejected. */
  function Btoa(s: string): (r: Option<string>)
    ensures r.Some? <==> IsLatin1(s)
    ensures r.Some? ==> |r.value| % 4 == 0 && Decode(r.value) == Some(Latin1Bytes(s))
    ensures r.Some? ==> r.value == Encode(Latin1Bytes(s))
  {
    if IsLatin1(s) then
      DecodeEncode(Latin1Bytes(s));
      EncodeLength(Latin1Bytes(s));
      MultipleOfFour((|s| + 2) / 3);
      Some(Encode(Latin1Bytes(s)))
    else None
  }
}
