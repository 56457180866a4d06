/** Go strings are byte sequences. `Bytes` holds one character per byte (code points 0 to 255), so ASCII text
    is its own encoding; `string` holds text, one character per code point. */
module Utf8 {
  type Byte = c: char | c < '\U{0100}'
  type Bytes = seq<Byte>

  const REPLACEMENT: char := '\U{FFFD}'

  function EncodeChar(c: char): (bytes: Bytes)
    ensures bytes != []
  {
    var n := c as int;
    if n < 0x80 then [c]
    else if n < 0x800 then [ByteOf(0xC0 + n / 0x40), ByteOf(0x80 + n % 0x40)]
    else if n < 0x1_0000 then
      [ByteOf(0xE0 + n / 0x1000), ByteOf(0x80 + n / 0x40 % 0x40), ByteOf(0x80 + n % 0x40)]
    else
      [ByteOf(0xF0 + n / 0x4_0000), ByteOf(0x80 + n / 0x1000 % 0x40), ByteOf(0x80 + n / 0x40 % 0x40), ByteOf(0x80 + n % 0x40)]
  }

  function ByteOf(n: int): Byte
    requires 0 <= n < 0x100
  {
    n as char
  }

  function Encode(text: string): Bytes {
    if text == [] then [] else EncodeChar(text[0]) + Encode(text[1..])
  }

  predicate Continues(s: Bytes, i: nat) {
    i < |s| && 0x80 <= s[i] as int < 0xC0
  }

  function Payload(s: Bytes, i: nat): int
    requires Continues(s, i)
  {
    s[i] as int - 0x80
  }

  /** The first code point of a non-empty byte string and its width. A byte that starts no shortest-form
      encoding of a code point counts as one replacement character. */
  function DecodeChar(s: Bytes): (r: (char, nat))
    requires s != []
    ensures 1 <= r.1 <= |s|
  {
    var b := s[0] as int;
    if b < 0x80 then (s[0], 1)
    else if 0xC2 <= b < 0xE0 && Continues(s, 1) then
      Checked((b - 0xC0) * 0x40 + Payload(s, 1), 0x80, 2)
    else if 0xE0 <= b < 0xF0 && Continues(s, 1) && Continues(s, 2) then
      Checked((b - 0xE0) * 0x1000 + Payload(s, 1) * 0x40 + Payload(s, 2), 0x800, 3)
    else if 0xF0 <= b < 0xF5 && Continues(s, 1) && Continues(s, 2) && Continues(s, 3) then
      Checked((b - 0xF0) * 0x4_0000 + Payload(s, 1) * 0x1000 + Payload(s, 2) * 0x40 + Payload(s, 3), 0x1_0000, 4)
    else (REPLACEMENT, 1)
  }

  /** Overlong forms, surrogates and values beyond the last code point are not encodings. */
  function Checked(n: int, least: int, width: nat): (r: (char, nat))
    requires 1 <= width && 0 <= least
    ensures r.1 == width || r.1 == 1
  {
    if least <= n < 0xD800 || (least <= n && 0xE000 <= n < 0x11_0000) then (n as char, width) else (REPLACEMENT, 1)
  }

  function Decode(s: Bytes): string
    decreases |s|
  {
    if s == [] then [] else
      var (c, width) := DecodeChar(s);
      [c] + Decode(s[width..])
  }

  lemma DecodeEncodedChar(c: char, rest: Bytes)
    ensures DecodeChar(EncodeChar(c) + rest) == (c, |EncodeChar(c)|)
  {
    var n := c as int;
    if 0x80 <= n < 0x800 {
      assert Continues(EncodeChar(c) + rest, 1);
    } else if 0x800 <= n < 0x1_0000 {
      DecodeThree(c, rest);
    } else if 0x1_0000 <= n {
      DecodeFour(c, rest);
    }
  }

  lemma DecodeThree(c: char, rest: Bytes)
    requires 0x800 <= c as int < 0x1_0000
    ensures DecodeChar(EncodeChar(c) + rest) == (c, 3)
  {
    var n, s := c as int, EncodeChar(c) + rest;
    assert Continues(s, 1) && Continues(s, 2);
    assert n == n / 0x1000 * 0x1000 + n / 0x40 % 0x40 * 0x40 + n % 0x40;
  }

  lemma DecodeFour(c: char, rest: Bytes)
    requires 0x1_0000 <= c as int
    ensures DecodeChar(EncodeChar(c) + rest) == (c, 4)
  {
    var n, s := c as int, EncodeChar(c) + rest;
    SixBitDigits(n);
    assert s[0] as int == 0xF0 + n / 0x4_0000;
    assert Continues(s, 1) && Continues(s, 2) && Continues(s, 3);
  }

  lemma SixBitDigits(n: nat)
    ensures n == n / 0x4_0000 * 0x4_0000 + n / 0x1000 % 0x40 * 0x1000 + n / 0x40 % 0x40 * 0x40 + n % 0x40
  {
    assert n / 0x40 / 0x40 == n / 0x1000;
    assert n / 0x1000 / 0x40 == n / 0x4_0000;
  }

  /** Every text survives encoding and decoding. */
  lemma {:induction false} DecodeEncode(text: string)
    ensures Decode(Encode(text)) == text
  {
    if text != [] {
      var rest := Encode(text[1..]);
      DecodeEncodedChar(text[0], rest);
      assert (EncodeChar(text[0]) + rest)[|EncodeChar(text[0])|..] == rest;
      DecodeEncode(text[1..]);
    }
  }

  lemma {:induction false} EncodeConcat(a: string, b: string)
    ensures Encode(a + b) == Encode(a) + Encode(b)
  {
    if a == [] {
      assert a + b == b;
    } else {
      assert (a + b)[1..] == a[1..] + b;
      EncodeConcat(a[1..], b);
      assert EncodeChar(a[0]) + (Encode(a[1..]) + Encode(b)) == EncodeChar(a[0]) + Encode(a[1..]) + Encode(b);
    }
  }

  predicate IsAscii(text: string) {
    forall i :: 0 <= i < |text| ==> text[i] < '\U{80}'
  }

  lemma {:induction false} EncodeAscii(text: string)
    requires IsAscii(text)
    ensures Encode(text) == text
  {
    if text != [] {
      EncodeAscii(text[1..]);
      assert text == [text[0]] + text[1..];
    }
  }

  /** An ASCII byte occurs in an encoding only where its character occurs in the text. */
  lemma {:induction false} AsciiByteOfText(text: string, b: char)
    requires b < '\U{80}' && b !in text
    ensures b !in Encode(text)
  {
    if text != [] {
      AsciiByteOfText(text[1..], b);
      assert b !in EncodeChar(text[0]);
    }
  }

  /** A code point is decoded only from its own encoding; whatever starts no encoding is one replacement
      character of width 1. */
  lemma DecodedFromEncoding(s: Bytes)
    requires s != []
    ensures var (c, width) := DecodeChar(s);
            (c == REPLACEMENT && width == 1) || (EncodeChar(c) <= s && width == |EncodeChar(c)|)
  {
    var (c, width) := DecodeChar(s);
    if width == 2 {
      TwoDigits(s[0] as int - 0xC0, Payload(s, 1));
      assert EncodeChar(c) == s[..2];
    } else if width == 3 {
      ThreeDigits(s[0] as int - 0xE0, Payload(s, 1), Payload(s, 2));
      assert EncodeChar(c) == s[..3];
    } else if width == 4 {
      FourDigits(s[0] as int - 0xF0, Payload(s, 1), Payload(s, 2), Payload(s, 3));
      assert EncodeChar(c) == s[..4];
    }
  }

  lemma TwoDigits(a: int, b: int)
    requires 0 <= a && 0 <= b < 0x40
    ensures (a * 0x40 + b) / 0x40 == a && (a * 0x40 + b) % 0x40 == b
  {
  }

  lemma ThreeDigits(a: int, b: int, c: int)
    requires 0 <= a && 0 <= b < 0x40 && 0 <= c < 0x40
    ensures var n := a * 0x1000 + b * 0x40 + c;
            n / 0x1000 == a && n / 0x40 % 0x40 == b && n % 0x40 == c
  {
    TwoDigits(a * 0x40 + b, c);
    TwoDigits(a, b);
  }

  lemma FourDigits(a: int, b: int, c: int, d: int)
    requires 0 <= a && 0 <= b < 0x40 && 0 <= c < 0x40 && 0 <= d < 0x40
    ensures var n := a * 0x4_0000 + b * 0x1000 + c * 0x40 + d;
            n / 0x4_0000 == a && n / 0x1000 % 0x40 == b && n / 0x40 % 0x40 == c && n % 0x40 == d
  {
    ThreeDigits(a * 0x40 + b, c, d);
    TwoDigits(a, b);
  }
}
