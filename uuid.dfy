/**
  The text of a random (version 4) UUID as `uuid.New().String()` writes it
  (RFC 4122): sixteen random bytes with the version and variant bits set,
  written as 32 lower-case hexadecimal digits grouped 8-4-4-4-12 by dashes.
  The random bytes are a parameter.
 */
module Uuid {
  import opened Prelude
  import opened JsonText

  /** Two lower-case hexadecimal digits per byte. */
  function Hex(bs: seq<byte>): (r: string)
    ensures |r| == 2 * |bs|
    ensures forall i :: 0 <= i < |r| ==> r[i] != '-'
  {
    if |bs| == 0 then ""
    else [HexDigit(bs[0] / 16), HexDigit(bs[0] % 16)] + Hex(bs[1..])
  }

  /** The bytes with version 4 in the high nibble of byte 6 and variant 10 in the top bits of byte 8. */
  function SetVersion(random: seq<byte>): (b: seq<byte>)
    requires |random| == 16
    ensures |b| == 16
    ensures b[6] / 16 == 4 && b[8] / 64 == 2
    ensures forall i :: 0 <= i < 16 && i != 6 && i != 8 ==> b[i] == random[i]
  {
    random[6 := random[6] % 16 + 0x40][8 := random[8] % 64 + 0x80]
  }

  /** `uuid.New().String()` for the given random bytes. */
  function NewString(random: seq<byte>): (r: string)
    requires |random| == 16
    ensures |r| == 36
    ensures r[8] == '-' && r[13] == '-' && r[18] == '-' && r[23] == '-'
    ensures r[14] == '4'
  {
    var b := SetVersion(random);
    var s := Hex(b[..4]) + "-" + Hex(b[4..6]) + "-" + Hex(b[6..8]) + "-" + Hex(b[8..10]) + "-" + Hex(b[10..]);
    assert Hex(b[6..8])[0] == HexDigit(b[6] / 16);
    s
  }

  /** Every UUID text is non-empty and has the same shape, so it can serve as a task id. */
  lemma NewStringShape(random: seq<byte>)
    requires |random| == 16
    ensures NewString(random) != ""
    ensures forall i :: 0 <= i < 36 ==> (NewString(random)[i] == '-' <==> i in {8, 13, 18, 23})
  {
    var b := SetVersion(random);
    var parts := [Hex(b[..4]), Hex(b[4..6]), Hex(b[6..8]), Hex(b[8..10]), Hex(b[10..])];
    var r := NewString(random);
    assert r == parts[0] + "-" + parts[1] + "-" + parts[2] + "-" + parts[3] + "-" + parts[4];
    forall i | 0 <= i < 36
      ensures r[i] == '-' <==> i in {8, 13, 18, 23}
    {
      if i < 8 { assert r[i] == parts[0][i]; }
      else if 8 < i < 13 { assert r[i] == parts[1][i - 9]; }
      else if 13 < i < 18 { assert r[i] == parts[2][i - 14]; }
      else if 18 < i < 23 { assert r[i] == parts[3][i - 19]; }
      else if 23 < i { assert r[i] == parts[4][i - 24]; }
    }
  }
}
