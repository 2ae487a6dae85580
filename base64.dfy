/**
 * The base64 encoding of section 4 of RFC 4648: standard alphabet, with '='
 * padding, no line breaks. This is what Python's `base64.b64encode` produces,
 * and the decoder is its inverse on everything the encoder can produce.
 */
module Base64 {
  import opened Wrappers

  newtype byte = x: int | 0 <= x < 256

  const Pad: byte := 61  // '='

  /** Membership of a byte in the 64-character alphabet of RFC 4648, table 1. */
  predicate IsAlphabetByte(c: byte) {
    (65 <= c <= 90) || (97 <= c <= 122) || (48 <= c <= 57) || c == 43 || c == 47
  }

  /** A byte the encoder may emit: an alphabet character or the pad. */
  predicate IsEncodedByte(c: byte) {
    IsAlphabetByte(c) || c == Pad
  }

  /** The character for a 6-bit value; table 1 of RFC 4648. */
  function Char(v: int): (c: byte)
    requires 0 <= v < 64
    ensures IsAlphabetByte(c) && c < 128
    ensures Value(c) == Some(v)
  {
    if v < 26 then (65 + v) as byte
    else if v < 52 then (71 + v) as byte
    else if v < 62 then (v - 4) as byte
    else if v == 62 then 43
    else 47
  }

  /** The 6-bit value of an alphabet character, None for any other byte. */
  function Value(c: byte): (r: Option<int>)
    ensures r.Some? <==> IsAlphabetByte(c)
    ensures r.Some? ==> 0 <= r.value < 64
  {
    if 65 <= c <= 90 then Some(c as int - 65)
    else if 97 <= c <= 122 then Some(c as int - 71)
    else if 48 <= c <= 57 then Some(c as int + 4)
    else if c == 43 then Some(62)
    else if c == 47 then Some(63)
    else None
  }

  /** Three input bytes become four characters. */
  function EncodeGroup(b0: byte, b1: byte, b2: byte): seq<byte> {
    [Char(b0 as int / 4), Char((b0 as int % 4) * 16 + b1 as int / 16),
     Char((b1 as int % 16) * 4 + b2 as int / 64), Char(b2 as int % 64)]
  }

  /** A final single byte, padded with "==". */
  function EncodeOne(b0: byte): seq<byte> {
    [Char(b0 as int / 4), Char((b0 as int % 4) * 16), Pad, Pad]
  }

  /** A final pair of bytes, padded with "=". */
  function EncodeTwo(b0: byte, b1: byte): seq<byte> {
    [Char(b0 as int / 4), Char((b0 as int % 4) * 16 + b1 as int / 16), Char((b1 as int % 16) * 4), Pad]
  }

  /** Four characters for every started group of three bytes: 4 * ceil(n / 3). */
  function EncodedLength(n: nat): nat {
    4 * ((n + 2) / 3)
  }

  /** Section 4 of RFC 4648: the whole input, three bytes at a time. */
  function Encode(s: seq<byte>): (r: seq<byte>)
    ensures |r| == EncodedLength(|s|)
    ensures forall i :: 0 <= i < |r| ==> IsEncodedByte(r[i])
    decreases |s|
  {
    if |s| == 0 then []
    else if |s| == 1 then EncodeOne(s[0])
    else if |s| == 2 then EncodeTwo(s[0], s[1])
    else EncodeGroup(s[0], s[1], s[2]) + Encode(s[3..])
  }

  /** Four alphabet characters give back three bytes. */
  function DecodeGroup(c0: byte, c1: byte, c2: byte, c3: byte): Option<seq<byte>> {
    match (Value(c0), Value(c1), Value(c2), Value(c3))
    case (Some(v0), Some(v1), Some(v2), Some(v3)) =>
      Some([(v0 * 4 + v1 / 16) as byte, ((v1 % 16) * 16 + v2 / 4) as byte, ((v2 % 4) * 64 + v3) as byte])
    case _ => None
  }

  /** The last quantum may carry one or two pad characters. */
  function DecodeLast(c0: byte, c1: byte, c2: byte, c3: byte): Option<seq<byte>> {
    if c3 == Pad && c2 == Pad then
      match (Value(c0), Value(c1))
      case (Some(v0), Some(v1)) => Some([(v0 * 4 + v1 / 16) as byte])
      case _ => None
    else if c3 == Pad then
      match (Value(c0), Value(c1), Value(c2))
      case (Some(v0), Some(v1), Some(v2)) => Some([(v0 * 4 + v1 / 16) as byte, ((v1 % 16) * 16 + v2 / 4) as byte])
      case _ => None
    else DecodeGroup(c0, c1, c2, c3)
  }

  /**
   * Decoding of section 4 of RFC 4648. A length that is not a multiple of
   * four, a byte outside the alphabet, or a pad anywhere but at the end is
   * rejected with None. Non-zero pad bits are ignored (section 3.5 of RFC 4648 allows it).
   */
  function Decode(s: seq<byte>): Option<seq<byte>>
    decreases |s|
  {
    if |s| == 0 then Some([])
    else if |s| < 4 then None
    else if |s| == 4 then DecodeLast(s[0], s[1], s[2], s[3])
    else match DecodeGroup(s[0], s[1], s[2], s[3])
      case None => None
      case Some(g) =>
        match Decode(s[4..])
        case None => None
        case Some(rest) => Some(g + rest)
  }

  lemma Split16(q: int, r: int)
    requires 0 <= q < 16 && 0 <= r < 16
    ensures (q * 16 + r) / 16 == q && (q * 16 + r) % 16 == r
  {
  }

  lemma Split4(q: int, r: int)
    requires 0 <= q < 16 && 0 <= r < 4
    ensures (q * 4 + r) / 4 == q && (q * 4 + r) % 4 == r
  {
  }

  lemma GroupRoundTrip(b0: byte, b1: byte, b2: byte)
    ensures var e := EncodeGroup(b0, b1, b2); DecodeGroup(e[0], e[1], e[2], e[3]) == Some([b0, b1, b2])
  {
    var x0, x1, x2 := b0 as int, b1 as int, b2 as int;
    var v0, v1, v2, v3 := x0 / 4, (x0 % 4) * 16 + x1 / 16, (x1 % 16) * 4 + x2 / 64, x2 % 64;
    Split16(x0 % 4, x1 / 16);
    Split4(x1 % 16, x2 / 64);
    assert v0 * 4 + v1 / 16 == x0;
    assert (v1 % 16) * 16 + v2 / 4 == x1;
    assert (v2 % 4) * 64 + v3 == x2;
    var e := EncodeGroup(b0, b1, b2);
    assert e == [Char(v0), Char(v1), Char(v2), Char(v3)];
  }

  lemma OneRoundTrip(b0: byte)
    ensures var e := EncodeOne(b0); DecodeLast(e[0], e[1], e[2], e[3]) == Some([b0])
  {
    var x0 := b0 as int;
    Split16(x0 % 4, 0);
    assert (x0 / 4) * 4 + ((x0 % 4) * 16) / 16 == x0;
  }

  lemma TwoRoundTrip(b0: byte, b1: byte)
    ensures var e := EncodeTwo(b0, b1); DecodeLast(e[0], e[1], e[2], e[3]) == Some([b0, b1])
  {
    var x0, x1 := b0 as int, b1 as int;
    Split16(x0 % 4, x1 / 16);
    Split4(x1 % 16, 0);
    assert (x0 / 4) * 4 + ((x0 % 4) * 16 + x1 / 16) / 16 == x0;
    assert (((x0 % 4) * 16 + x1 / 16) % 16) * 16 + ((x1 % 16) * 4) / 4 == x1;
  }

  /** Decoding the encoding of any byte string gives it back. */
  lemma {:induction false} DecodeEncode(s: seq<byte>)
    ensures Decode(Encode(s)) == Some(s)
    decreases |s|
  {
    if |s| == 1 {
      OneRoundTrip(s[0]);
      assert Encode(s) == EncodeOne(s[0]);
      assert s == [s[0]];
    } else if |s| == 2 {
      TwoRoundTrip(s[0], s[1]);
      assert Encode(s) == EncodeTwo(s[0], s[1]);
      assert s == [s[0], s[1]];
    } else if |s| >= 3 {
      var g := EncodeGroup(s[0], s[1], s[2]);
      var rest := Encode(s[3..]);
      GroupRoundTrip(s[0], s[1], s[2]);
      DecodeEncode(s[3..]);
      var e := g + rest;
      assert Encode(s) == e;
      assert e[0] == g[0] && e[1] == g[1] && e[2] == g[2] && e[3] == g[3];
      if |s| == 3 {
        assert rest == [] && e == g;
        assert s == [s[0], s[1], s[2]];
      } else {
        assert e[4..] == rest;
        assert s == [s[0], s[1], s[2]] + s[3..];
      }
    }
  }
}
