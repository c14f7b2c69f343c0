/** Byte-level encodings the archiver uses: the length of a text's UTF-8 encoding
    (Python's `len(s.encode('utf-8'))`) and `base64.b64encode`, the base 64
    encoding with padding of section 4 of RFC 4648, with its decoding as the
    inverse. */
module Codec {

  /** An octet. */
  newtype byte = x: int | 0 <= x < 256

  /** The number of bytes UTF-8 uses for one Unicode scalar value. */
  function Utf8CharLength(c: char): (n: nat)
    ensures 1 <= n <= 4
    ensures n == 1 <==> (c as int) < 0x80
  {
    if (c as int) < 0x80 then 1
    else if (c as int) < 0x800 then 2
    else if (c as int) < 0x1_0000 then 3
    else 4
  }

  /** `len(s.encode('utf-8'))`. */
  function Utf8Length(s: string): (n: nat)
    ensures |s| <= n <= 4 * |s|
  {
    if s == [] then 0 else Utf8CharLength(s[0]) + Utf8Length(s[1..])
  }

  /** The encoded length of a concatenation is the sum of the encoded lengths. */
  lemma {:induction false} Utf8LengthAppend(a: string, b: string)
    ensures Utf8Length(a + b) == Utf8Length(a) + Utf8Length(b)
    decreases |a|
  {
    if a != [] {
      assert (a + b)[0] == a[0] && (a + b)[1..] == a[1..] + b;
      Utf8LengthAppend(a[1..], b);
    } else {
      assert a + b == b;
    }
  }

  /** The UTF-8 bytes of one Unicode scalar value. */
  function Utf8Char(c: char): (r: seq<byte>)
    ensures |r| == Utf8CharLength(c)
  {
    var v := c as int;
    if v < 0x80 then [v as byte]
    else if v < 0x800 then [(0xC0 + v / 64) as byte, (0x80 + v % 64) as byte]
    else if v < 0x1_0000 then [(0xE0 + v / 4096) as byte, (0x80 + v / 64 % 64) as byte, (0x80 + v % 64) as byte]
    else [(0xF0 + v / 262144) as byte, (0x80 + v / 4096 % 64) as byte, (0x80 + v / 64 % 64) as byte, (0x80 + v % 64) as byte]
  }

  /** `s.encode('utf-8')`. */
  function Utf8Encode(s: string): (r: seq<byte>)
    ensures |r| == Utf8Length(s)
  {
    if s == [] then [] else Utf8Char(s[0]) + Utf8Encode(s[1..])
  }

  /** For ASCII text the byte count is the character count, and only then. */
  lemma {:induction false} Utf8LengthAscii(s: string)
    ensures Utf8Length(s) == |s| <==> forall i :: 0 <= i < |s| ==> (s[i] as int) < 0x80
    decreases |s|
  {
    if s != [] {
      Utf8LengthAscii(s[1..]);
      assert forall i :: 1 <= i < |s| ==> s[i] == s[1..][i - 1];
    }
  }

  /** A value that one base 64 character carries. */
  type sextet = x: int | 0 <= x < 64

  /** The base 64 alphabet of Table 1 of RFC 4648. */
  function Digit(v: sextet): (c: char)
    ensures c != '='
  {
    if v < 26 then ('A' as int + v) as char
    else if v < 52 then ('a' as int + (v - 26)) as char
    else if v < 62 then ('0' as int + (v - 52)) as char
    else if v == 62 then '+'
    else '/'
  }

  predicate IsDigit(c: char) {
    ('A' <= c <= 'Z') || ('a' <= c <= 'z') || ('0' <= c <= '9') || c == '+' || c == '/'
  }

  /** The value of an alphabet character. */
  function DigitValue(c: char): (v: sextet)
    requires IsDigit(c)
  {
    if 'A' <= c <= 'Z' then (c as int) - ('A' as int)
    else if 'a' <= c <= 'z' then (c as int) - ('a' as int) + 26
    else if '0' <= c <= '9' then (c as int) - ('0' as int) + 52
    else if c == '+' then 62
    else 63
  }

  /** Every value has its own character, and the character gives the value back. */
  lemma DigitRoundTrip(v: sextet)
    ensures IsDigit(Digit(v)) && DigitValue(Digit(v)) == v
  {
  }

  /** The four characters of a full group of three bytes. */
  function EncodeGroup(b0: byte, b1: byte, b2: byte): (r: string)
    ensures |r| == 4
  {
    var x0, x1, x2 := b0 as int, b1 as int, b2 as int;
    [Digit(x0 / 4), Digit((x0 % 4) * 16 + x1 / 16), Digit((x1 % 16) * 4 + x2 / 64), Digit(x2 % 64)]
  }

  /** `b64encode`: each group of three bytes becomes four characters; a final
      group of one byte becomes two characters and "==", of two bytes three
      characters and "=". */
  function Encode(data: seq<byte>): (r: string)
    ensures |r| == 4 * ((|data| + 2) / 3)
    decreases |data|
  {
    if |data| == 0 then ""
    else if |data| == 1 then
      var x0 := data[0] as int;
      [Digit(x0 / 4), Digit((x0 % 4) * 16), '=', '=']
    else if |data| == 2 then
      var x0, x1 := data[0] as int, data[1] as int;
      [Digit(x0 / 4), Digit((x0 % 4) * 16 + x1 / 16), Digit((x1 % 16) * 4), '=']
    else EncodeGroup(data[0], data[1], data[2]) + Encode(data[3..])
  }

  /** Text made of whole groups of alphabet characters, with '=' only as padding at the end. */
  predicate IsEncoded(s: string) {
    && |s| % 4 == 0
    && (forall i :: 0 <= i < |s| - 2 ==> IsDigit(s[i]))
    && (|s| >= 4 ==> IsDigit(s[|s| - 2]) || (s[|s| - 2] == '=' && s[|s| - 1] == '='))
    && (|s| >= 4 ==> IsDigit(s[|s| - 1]) || s[|s| - 1] == '=')
  }

  /** The bytes of four characters with no padding. */
  function DecodeGroup(c0: char, c1: char, c2: char, c3: char): (r: seq<byte>)
    requires IsDigit(c0) && IsDigit(c1) && IsDigit(c2) && IsDigit(c3)
    ensures |r| == 3
  {
    var v0, v1, v2, v3 := DigitValue(c0), DigitValue(c1), DigitValue(c2), DigitValue(c3);
    [(v0 * 4 + v1 / 16) as byte, ((v1 % 16) * 16 + v2 / 4) as byte, ((v2 % 4) * 64 + v3) as byte]
  }

  /** Base 64 decoding of well-formed text; the padded last group gives one or two
      bytes. */
  function Decode(s: string): (r: seq<byte>)
    requires IsEncoded(s)
    decreases |s|
  {
    if |s| == 0 then []
    else if |s| == 4 && s[2] == '=' then
      var v0, v1 := DigitValue(s[0]), DigitValue(s[1]);
      [(v0 * 4 + v1 / 16) as byte]
    else if |s| == 4 && s[3] == '=' then
      var v0, v1, v2 := DigitValue(s[0]), DigitValue(s[1]), DigitValue(s[2]);
      [(v0 * 4 + v1 / 16) as byte, ((v1 % 16) * 16 + v2 / 4) as byte]
    else
      assert IsEncoded(s[4..]) by {
        var t := s[4..];
        assert forall i :: 0 <= i < |t| - 2 ==> t[i] == s[i + 4];
      }
      DecodeGroup(s[0], s[1], s[2], s[3]) + Decode(s[4..])
  }

  /** Two fields packed into one value by `hi * 16 + lo` come apart again. */
  lemma Unpack16(hi: int, lo: int)
    requires 0 <= lo < 16
    ensures (hi * 16 + lo) / 16 == hi && (hi * 16 + lo) % 16 == lo
  {
  }

  lemma Unpack4(hi: int, lo: int)
    requires 0 <= lo < 4
    ensures (hi * 4 + lo) / 4 == hi && (hi * 4 + lo) % 4 == lo
  {
  }

  lemma Unpack64(hi: int, lo: int)
    requires 0 <= lo < 64
    ensures (hi * 64 + lo) / 64 == hi && (hi * 64 + lo) % 64 == lo
  {
  }

  /** The first byte comes back from its first six and last two bits. */
  lemma FirstByteBack(x0: int, x1: int)
    requires 0 <= x0 < 256 && 0 <= x1 < 256
    ensures var v1 := (x0 % 4) * 16 + x1 / 16; (x0 / 4) * 4 + v1 / 16 == x0 && v1 % 16 == x1 / 16
  {
    Unpack16(x0 % 4, x1 / 16);
  }

  /** The second byte comes back from its first four and last four bits. */
  lemma SecondByteBack(x1: int, x2: int)
    requires 0 <= x1 < 256 && 0 <= x2 < 256
    ensures var v2 := (x1 % 16) * 4 + x2 / 64; (x1 / 16) * 16 + v2 / 4 == x1 && v2 % 4 == x2 / 64
  {
    Unpack4(x1 % 16, x2 / 64);
  }

  lemma ThirdByteBack(x2: int)
    requires 0 <= x2 < 256
    ensures (x2 / 64) * 64 + x2 % 64 == x2
  {
  }

  /** The three-byte group comes back from its four characters. */
  lemma GroupRoundTrip(b0: byte, b1: byte, b2: byte)
    ensures var g := EncodeGroup(b0, b1, b2);
      IsDigit(g[0]) && IsDigit(g[1]) && IsDigit(g[2]) && IsDigit(g[3])
      && DecodeGroup(g[0], g[1], g[2], g[3]) == [b0, b1, b2]
  {
    var x0, x1, x2 := b0 as int, b1 as int, b2 as int;
    var v0, v1, v2, v3 := x0 / 4, (x0 % 4) * 16 + x1 / 16, (x1 % 16) * 4 + x2 / 64, x2 % 64;
    DigitRoundTrip(v0);
    DigitRoundTrip(v1);
    DigitRoundTrip(v2);
    DigitRoundTrip(v3);
    FirstByteBack(x0, x1);
    SecondByteBack(x1, x2);
    ThirdByteBack(x2);
  }

  /** The padded groups come back too. */
  lemma OneByteRoundTrip(b0: byte)
    ensures IsEncoded(Encode([b0])) && Decode(Encode([b0])) == [b0]
  {
    var x0 := b0 as int;
    DigitRoundTrip(x0 / 4);
    DigitRoundTrip((x0 % 4) * 16);
    FirstByteBack(x0, 0);
  }

  /** A group with one '=' of padding decodes to two bytes. */
  lemma DecodeOnePad(c0: char, c1: char, c2: char)
    requires IsDigit(c0) && IsDigit(c1) && IsDigit(c2)
    ensures IsEncoded([c0, c1, c2, '='])
    ensures Decode([c0, c1, c2, '=']) ==
      [(DigitValue(c0) * 4 + DigitValue(c1) / 16) as byte, ((DigitValue(c1) % 16) * 16 + DigitValue(c2) / 4) as byte]
  {
  }

  lemma TwoBytesRoundTrip(b0: byte, b1: byte)
    ensures IsEncoded(Encode([b0, b1])) && Decode(Encode([b0, b1])) == [b0, b1]
  {
    var x0, x1 := b0 as int, b1 as int;
    var v0, v1, v2 := x0 / 4, (x0 % 4) * 16 + x1 / 16, (x1 % 16) * 4;
    assert Encode([b0, b1]) == [Digit(v0), Digit(v1), Digit(v2), '='];
    DigitRoundTrip(v0);
    DigitRoundTrip(v1);
    DigitRoundTrip(v2);
    DecodeOnePad(Digit(v0), Digit(v1), Digit(v2));
    FirstByteBack(x0, x1);
    SecondByteBack(x1, 0);
  }

  /** Decoding undoes `b64encode`: the encoding is well formed and gives the
      bytes back. */
  lemma {:induction false} DecodeEncode(data: seq<byte>)
    ensures IsEncoded(Encode(data)) && Decode(Encode(data)) == data
    decreases |data|
  {
    if |data| < 3 {
      DecodeEncodeShort(data);
    } else {
      DecodeEncode(data[3..]);
      DecodeEncodeStep(data);
    }
  }

  lemma DecodeEncodeShort(data: seq<byte>)
    requires |data| < 3
    ensures IsEncoded(Encode(data)) && Decode(Encode(data)) == data
  {
    if |data| == 1 {
      assert data == [data[0]];
      OneByteRoundTrip(data[0]);
    } else if |data| == 2 {
      assert data == [data[0], data[1]];
      TwoBytesRoundTrip(data[0], data[1]);
    }
  }

  /** One more full group in front keeps the round trip. */
  lemma DecodeEncodeStep(data: seq<byte>)
    requires |data| >= 3
    requires IsEncoded(Encode(data[3..])) && Decode(Encode(data[3..])) == data[3..]
    ensures IsEncoded(Encode(data)) && Decode(Encode(data)) == data
  {
    var g := EncodeGroup(data[0], data[1], data[2]);
    var rest := Encode(data[3..]);
    assert Encode(data) == g + rest;
    GroupRoundTrip(data[0], data[1], data[2]);
    DecodeCons(g, rest);
    FirstThree(data);
  }

  lemma FirstThree(data: seq<byte>)
    requires |data| >= 3
    ensures [data[0], data[1], data[2]] + data[3..] == data
  {
  }

  /** A full group of four alphabet characters in front of an encoding decodes
      to the group's bytes in front of the rest. */
  lemma DecodeCons(g: string, rest: string)
    requires |g| == 4 && IsDigit(g[0]) && IsDigit(g[1]) && IsDigit(g[2]) && IsDigit(g[3])
    requires IsEncoded(rest)
    ensures IsEncoded(g + rest)
    ensures Decode(g + rest) == DecodeGroup(g[0], g[1], g[2], g[3]) + Decode(rest)
  {
    var s := g + rest;
    forall i | 0 <= i < |s| - 2
      ensures IsDigit(s[i])
    {
      if i >= 4 {
        assert s[i] == rest[i - 4];
      }
    }
    assert s[..4] == g && s[4..] == rest;
    if rest == [] {
      assert s == g;
    }
  }

  /** The data URI of section 3 of RFC 2397 for base 64 content. */
  function DataUri(mime: string, data: seq<byte>): (r: string)
    ensures |r| == 5 + |mime| + 8 + 4 * ((|data| + 2) / 3)
  {
    "data:" + mime + ";base64," + Encode(data)
  }
}
