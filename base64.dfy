/**
 * The base64 encoding of section 4 of RFC 4648 (standard alphabet, '='
 * padding, no line breaks), as Convert.ToBase64String produces it, and a
 * decoder that inverts it.
 */
module Base64 {
  import opened Wrappers

  type byte = b: int | 0 <= b < 256

  const Padding: char := '='

  /** The character for a 6-bit value: A-Z, a-z, 0-9, '+', '/'. */
  function SextetChar(v: int): (c: char)
    requires 0 <= v < 64
    ensures c != Padding
  {
    if v < 26 then ('A' as int + v) as char
    else if v < 52 then ('a' as int + (v - 26)) as char
    else if v < 62 then ('0' as int + (v - 52)) as char
    else if v == 62 then '+'
    else '/'
  }

  /** The 6-bit value of an alphabet character; None for any other character. */
  function CharSextet(c: char): (r: Option<int>)
    ensures r.Some? ==> 0 <= r.value < 64 && SextetChar(r.value) == c
    ensures r.None? ==> forall v :: 0 <= v < 64 ==> SextetChar(v) != c
  {
    if 'A' <= c <= 'Z' then Some(c as int - 'A' as int)
    else if 'a' <= c <= 'z' then Some(c as int - 'a' as int + 26)
    else if '0' <= c <= '9' then Some(c as int - '0' as int + 52)
    else if c == '+' then Some(62)
    else if c == '/' then Some(63)
    else None
  }

  lemma SextetRoundTrip(v: int)
    requires 0 <= v < 64
    ensures CharSextet(SextetChar(v)) == Some(v)
  {
  }

  predicate IsBase64Char(c: char) {
    CharSextet(c).Some? || c == Padding
  }

  /** Three bytes as four characters. */
  function EncodeGroup(b0: byte, b1: byte, b2: byte): string {
    [SextetChar(b0 / 4), SextetChar(b0 % 4 * 16 + b1 / 16), SextetChar(b1 % 16 * 4 + b2 / 64), SextetChar(b2 % 64)]
  }

  /**
   * Convert.ToBase64String: every three bytes become four characters; a final
   * group of one or two bytes is padded with '=' to four characters.
   */
  function Encode(bytes: seq<byte>): (s: string)
    ensures |s| == 4 * ((|bytes| + 2) / 3)
    ensures forall i :: 0 <= i < |s| ==> IsBase64Char(s[i])
    decreases |bytes|
  {
    if |bytes| == 0 then ""
    else if |bytes| == 1 then
      [SextetChar(bytes[0] / 4), SextetChar(bytes[0] % 4 * 16), Padding, Padding]
    else if |bytes| == 2 then
      [SextetChar(bytes[0] / 4), SextetChar(bytes[0] % 4 * 16 + bytes[1] / 16), SextetChar(bytes[1] % 16 * 4), Padding]
    else
      EncodeGroup(bytes[0], bytes[1], bytes[2]) + Encode(bytes[3..])
  }

  /** Four characters back to one, two or three bytes, honouring '=' padding. */
  function DecodeQuad(q: string, final: bool): Option<seq<byte>>
    requires |q| == 4
  {
    match (CharSextet(q[0]), CharSextet(q[1]), CharSextet(q[2]), CharSextet(q[3]))
    case (Some(v0), Some(v1), _, _) =>
      var b0 := v0 * 4 + v1 / 16;
      if final && q[2] == Padding && q[3] == Padding then Some([b0])
      else if CharSextet(q[2]).None? then None
      else
        var v2 := CharSextet(q[2]).value;
        var b1 := v1 % 16 * 16 + v2 / 4;
        if final && q[3] == Padding then Some([b0, b1])
        else if CharSextet(q[3]).None? then None
        else Some([b0, b1, v2 % 4 * 64 + CharSextet(q[3]).value])
    case _ => None
  }

  /** Decodes a padded base64 string; None when it is not one. */
  function Decode(s: string): Option<seq<byte>>
    decreases |s|
  {
    if |s| == 0 then Some([])
    else if |s| < 4 then None
    else
      match DecodeQuad(s[..4], |s| == 4)
      case None => None
      case Some(head) =>
        if |s| == 4 then Some(head)
        else if |head| != 3 then None
        else match Decode(s[4..])
          case None => None
          case Some(tail) => Some(head + tail)
  }

  lemma GroupRoundTrip(b0: byte, b1: byte, b2: byte, final: bool)
    ensures DecodeQuad(EncodeGroup(b0, b1, b2), final) == Some([b0, b1, b2])
  {
    var v0, v1, v2, v3 := b0 / 4, b0 % 4 * 16 + b1 / 16, b1 % 16 * 4 + b2 / 64, b2 % 64;
    SextetRoundTrip(v0);
    SextetRoundTrip(v1);
    SextetRoundTrip(v2);
    SextetRoundTrip(v3);
    var q := EncodeGroup(b0, b1, b2);
    assert q == [SextetChar(v0), SextetChar(v1), SextetChar(v2), SextetChar(v3)];
    assert v0 * 4 + v1 / 16 == b0;
    assert v1 % 16 * 16 + v2 / 4 == b1;
    assert v2 % 4 * 64 + v3 == b2;
    assert q[2] != Padding && q[3] != Padding;
  }

  lemma OneByteRoundTrip(b0: byte)
    ensures Decode(Encode([b0])) == Some([b0])
  {
    var s := Encode([b0]);
    SextetRoundTrip(b0 / 4);
    SextetRoundTrip(b0 % 4 * 16);
    assert s[..4] == s;
    assert DecodeQuad(s, true) == Some([b0]);
  }

  lemma TwoByteRoundTrip(b0: byte, b1: byte)
    ensures Decode(Encode([b0, b1])) == Some([b0, b1])
  {
    var s := Encode([b0, b1]);
    var v0, v1, v2 := b0 / 4, b0 % 4 * 16 + b1 / 16, b1 % 16 * 4;
    SextetRoundTrip(v0);
    SextetRoundTrip(v1);
    SextetRoundTrip(v2);
    assert s == [SextetChar(v0), SextetChar(v1), SextetChar(v2), Padding];
    assert s[..4] == s;
    assert v0 * 4 + v1 / 16 == b0;
    assert v1 % 16 * 16 + v2 / 4 == b1;
    assert DecodeQuad(s, true) == Some([b0, b1]);
  }

  /** Decoding undoes encoding, for every byte sequence. */
  lemma {:induction false} DecodeEncode(bytes: seq<byte>)
    ensures Decode(Encode(bytes)) == Some(bytes)
    decreases |bytes|
  {
    if |bytes| == 1 {
      assert bytes == [bytes[0]];
      OneByteRoundTrip(bytes[0]);
    } else if |bytes| == 2 {
      assert bytes == [bytes[0], bytes[1]];
      TwoByteRoundTrip(bytes[0], bytes[1]);
    } else if |bytes| >= 3 {
      var s := Encode(bytes);
      var rest := bytes[3..];
      var q := EncodeGroup(bytes[0], bytes[1], bytes[2]);
      assert s == q + Encode(rest);
      GroupRoundTrip(bytes[0], bytes[1], bytes[2], |rest| == 0);
      assert s[..4] == q;
      assert bytes == [bytes[0], bytes[1], bytes[2]] + rest;
      if |rest| > 0 {
        assert s[4..] == Encode(rest);
        DecodeEncode(rest);
        assert |s| > 4 && DecodeQuad(s[..4], false) == Some([bytes[0], bytes[1], bytes[2]]);
        assert Decode(s) == Some([bytes[0], bytes[1], bytes[2]] + rest);
      } else {
        assert |s| == 4 && DecodeQuad(s[..4], true) == Some([bytes[0], bytes[1], bytes[2]]);
        assert Decode(s) == Some([bytes[0], bytes[1], bytes[2]]);
        assert bytes == [bytes[0], bytes[1], bytes[2]];
      }
    }
  }

  /** Distinct byte sequences have distinct encodings. */
  lemma EncodeInjective(a: seq<byte>, b: seq<byte>)
    requires Encode(a) == Encode(b)
    ensures a == b
  {
    DecodeEncode(a);
    DecodeEncode(b);
  }
}
