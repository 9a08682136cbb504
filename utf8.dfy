/**
  UTF-8 (RFC 3629) between Dafny strings and bytes, as Go's `unicode/utf8`
  package does it: `EncodeRune` writes the shortest form of a scalar value, and
  `DecodeRune` accepts only well-formed sequences (no overlong forms, no
  surrogates, nothing above U+10FFFF). On anything else it yields U+FFFD and
  consumes exactly one byte, which is how `encoding/json` decodes the bytes inside
  a JSON string.
 */
module Utf8 {
  import opened Prelude

  /** The replacement character U+FFFD. */
  const REPLACEMENT: char := 0xFFFD as char

  /** The bytes of one character, shortest form. */
  function EncodeRune(c: char): (r: seq<byte>)
    ensures 1 <= |r| <= 4
    ensures (|r| == 1) == (c as int < 0x80)
  {
    var v := c as int;
    if v < 0x80 then [v]
    else if v < 0x800 then [0xC0 + v / 64, 0x80 + v % 64]
    else if v < 0x10000 then [0xE0 + v / 4096, 0x80 + v / 64 % 64, 0x80 + v % 64]
    else [0xF0 + v / 262144, 0x80 + v / 4096 % 64, 0x80 + v / 64 % 64, 0x80 + v % 64]
  }

  /** The UTF-8 bytes of a string. */
  function Encode(s: string): (r: seq<byte>)
    ensures |r| >= |s|
  {
    if |s| == 0 then [] else EncodeRune(s[0]) + Encode(s[1..])
  }

  predicate IsContinuation(b: byte) { 0x80 <= b < 0xC0 }

  /**
    The first character of a non-empty byte sequence and the number of bytes it
    takes; on an ill-formed or truncated sequence, U+FFFD and one byte.
   */
  function DecodeRune(bs: seq<byte>): (r: (char, nat))
    requires |bs| > 0
    ensures 1 <= r.1 <= |bs| && r.1 <= 4
    ensures bs[0] < 0x80 ==> r == (bs[0] as char, 1)
  {
    var b0: int := bs[0];
    if b0 < 0x80 then (b0 as char, 1)
    else if 0xC2 <= b0 < 0xE0 && |bs| >= 2 && IsContinuation(bs[1]) then
      var b1: int := bs[1];
      (((b0 - 0xC0) * 64 + (b1 - 0x80)) as char, 2)
    else if 0xE0 <= b0 < 0xF0 && |bs| >= 3 && IsContinuation(bs[1]) && IsContinuation(bs[2])
      && (b0 != 0xE0 || bs[1] >= 0xA0) && (b0 != 0xED || bs[1] < 0xA0) then
      var b1: int, b2: int := bs[1], bs[2];
      (((b0 - 0xE0) * 4096 + (b1 - 0x80) * 64 + (b2 - 0x80)) as char, 3)
    else if 0xF0 <= b0 < 0xF5 && |bs| >= 4 && IsContinuation(bs[1]) && IsContinuation(bs[2]) && IsContinuation(bs[3])
      && (b0 != 0xF0 || bs[1] >= 0x90) && (b0 != 0xF4 || bs[1] < 0x90) then
      var b1: int, b2: int, b3: int := bs[1], bs[2], bs[3];
      (((b0 - 0xF0) * 262144 + (b1 - 0x80) * 4096 + (b2 - 0x80) * 64 + (b3 - 0x80)) as char, 4)
    else (REPLACEMENT, 1)
  }

  /** The characters of a byte sequence, ill-formed bytes becoming U+FFFD one by one. */
  function Decode(bs: seq<byte>): (s: string)
    ensures |s| <= |bs|
    decreases |bs|
  {
    if |bs| == 0 then ""
    else
      var (c, n) := DecodeRune(bs);
      [c] + Decode(bs[n..])
  }

  lemma DecodeTwo(c: char, rest: seq<byte>)
    requires 0x80 <= c as int < 0x800
    ensures DecodeRune(EncodeRune(c) + rest) == (c, 2)
  {
    var v := c as int;
    var bs := EncodeRune(c) + rest;
    assert bs[0] == 0xC0 + v / 64 && bs[1] == 0x80 + v % 64;
    assert (bs[0] as int - 0xC0) * 64 + (bs[1] as int - 0x80) == v;
  }

  lemma DecodeThree(c: char, rest: seq<byte>)
    requires 0x800 <= c as int < 0x10000
    ensures DecodeRune(EncodeRune(c) + rest) == (c, 3)
  {
    var v := c as int;
    var bs := EncodeRune(c) + rest;
    assert bs[0] == 0xE0 + v / 4096 && bs[1] == 0x80 + v / 64 % 64 && bs[2] == 0x80 + v % 64;
    assert v / 4096 * 4096 + v / 64 % 64 * 64 + v % 64 == v;
    assert bs[0] == 0xE0 ==> bs[1] >= 0xA0;
    assert bs[0] == 0xED ==> bs[1] < 0xA0;
  }

  lemma DecodeFour(c: char, rest: seq<byte>)
    requires 0x10000 <= c as int
    ensures DecodeRune(EncodeRune(c) + rest) == (c, 4)
  {
    var v := c as int;
    var bs := EncodeRune(c) + rest;
    var a, b, x, d := v / 262144, v / 4096 % 64, v / 64 % 64, v % 64;
    SplitFour(v);
    assert bs[0] == 0xF0 + a && bs[1] == 0x80 + b && bs[2] == 0x80 + x && bs[3] == 0x80 + d;
  }

  /** The four groups of a supplementary code point: 3 + 6 + 6 + 6 bits. */
  lemma SplitFour(v: int)
    requires 0x10000 <= v < 0x110000
    ensures var a, b, c, d := v / 262144, v / 4096 % 64, v / 64 % 64, v % 64;
      0 <= a <= 4 && 0 <= b < 64 && 0 <= c < 64 && 0 <= d < 64
      && v == a * 262144 + b * 4096 + c * 64 + d
      && (a == 0 ==> b >= 16) && (a == 4 ==> b < 16)
  {
    var q := v / 64;
    var p := q / 64;
    assert v == q * 64 + v % 64;
    assert q == p * 64 + q % 64;
    assert v / 4096 == p;
    assert p / 64 == v / 262144;
    assert p == p / 64 * 64 + p % 64;
  }

  /** `DecodeRune` reads back exactly the character `EncodeRune` wrote, whatever follows it. */
  lemma DecodeRuneEncodeRune(c: char, rest: seq<byte>)
    ensures DecodeRune(EncodeRune(c) + rest) == (c, |EncodeRune(c)|)
  {
    var v := c as int;
    if v < 0x80 {
    } else if v < 0x800 {
      DecodeTwo(c, rest);
    } else if v < 0x10000 {
      DecodeThree(c, rest);
    } else {
      DecodeFour(c, rest);
    }
  }

  /** Decoding the UTF-8 form of a string gives the string back. */
  lemma {:induction false} DecodeEncode(s: string)
    ensures Decode(Encode(s)) == s
  {
    if |s| > 0 {
      var head, tail := EncodeRune(s[0]), Encode(s[1..]);
      EncodeCons(s);
      DecodeRuneEncodeRune(s[0], tail);
      DecodeCons(head + tail, s[0], |head|);
      assert (head + tail)[|head|..] == tail;
      DecodeEncode(s[1..]);
      assert s == [s[0]] + s[1..];
    }
  }

  lemma EncodeCons(s: string)
    requires |s| > 0
    ensures Encode(s) == EncodeRune(s[0]) + Encode(s[1..])
  {
  }

  /** `Decode` takes the first character and goes on after the bytes it used. */
  lemma DecodeCons(bs: seq<byte>, c: char, n: nat)
    requires |bs| > 0 && DecodeRune(bs) == (c, n)
    ensures n <= |bs| && Decode(bs) == [c] + Decode(bs[n..])
  {
  }

  /** Pure ASCII text is its own encoding, byte for character. */
  lemma {:induction false} EncodeAscii(s: string)
    requires forall i :: 0 <= i < |s| ==> s[i] < 0x80 as char
    ensures |Encode(s)| == |s|
    ensures forall i :: 0 <= i < |s| ==> Encode(s)[i] == s[i] as int
  {
    if |s| > 0 {
      EncodeAscii(s[1..]);
    }
  }
}
