/**
  The standard base64 encoding with padding (section 4 of RFC 4648), as Go's
  `base64.StdEncoding` performs it: `EncodeToString` always pads to a multiple of
  four characters; `DecodeString` skips carriage returns and line feeds, demands
  padding, accepts '=' only in the last quantum, and (the encoding is not strict)
  ignores the unused low bits of a padded final quantum.
 */
module Base64 {
  import opened Prelude

  /** A six-bit group, the value one base64 character carries. */
  type sextet = x: int | 0 <= x < 64

  /** The position of a character in the standard alphabet (Table 1 of RFC 4648). */
  function IndexOf(c: char): Option<sextet>
  {
    if 'A' <= c <= 'Z' then Some(c as int - 'A' as int)
    else if 'a' <= c <= 'z' then Some(c as int - 'a' as int + 26)
    else if '0' <= c <= '9' then Some(c as int - '0' as int + 52)
    else if c == '+' then Some(62)
    else if c == '/' then Some(63)
    else None
  }

  /** The alphabet character for a six-bit group. */
  function CharOf(x: sextet): (c: char)
    ensures c != '=' && c != '\n' && c != '\r'
  {
    if x < 26 then ('A' as int + x) as char
    else if x < 52 then ('a' as int + (x - 26)) as char
    else if x < 62 then ('0' as int + (x - 52)) as char
    else if x == 62 then '+'
    else '/'
  }

  /** `IndexOf` inverts `CharOf`. */
  lemma IndexOfCharOf(x: sextet)
    ensures IndexOf(CharOf(x)) == Some(x)
  {
  }

  /** Encodes three bytes as four characters (the big-endian 24-bit group split in four). */
  function Quantum(b0: byte, b1: byte, b2: byte): string
  {
    [CharOf(b0 / 4), CharOf(b0 % 4 * 16 + b1 / 16), CharOf(b1 % 16 * 4 + b2 / 64), CharOf(b2 % 64)]
  }

  /** `EncodeToString`: full quanta first, then one padded quantum for a remainder of one or two bytes. */
  function Encode(bs: seq<byte>): (s: string)
    ensures |s| % 4 == 0
    ensures forall i :: 0 <= i < |s| ==> s[i] != '\n' && s[i] != '\r'
    decreases |bs|
  {
    if |bs| == 0 then ""
    else if |bs| == 1 then [CharOf(bs[0] / 4), CharOf(bs[0] % 4 * 16), '=', '=']
    else if |bs| == 2 then [CharOf(bs[0] / 4), CharOf(bs[0] % 4 * 16 + bs[1] / 16), CharOf(bs[1] % 16 * 4), '=']
    else Quantum(bs[0], bs[1], bs[2]) + Encode(bs[3..])
  }

  /** Four characters for every started group of three bytes. */
  lemma {:induction false} EncodedLength(bs: seq<byte>)
    ensures |Encode(bs)| == 4 * ((|bs| + 2) / 3)
    decreases |bs|
  {
    if |bs| >= 3 {
      EncodedLength(bs[3..]);
    }
  }

  /** The input with every '\n' and '\r' removed (the decoder skips them wherever they occur). */
  function StripNewlines(s: string): (t: string)
    ensures |t| <= |s|
    ensures forall i :: 0 <= i < |t| ==> t[i] != '\n' && t[i] != '\r'
  {
    if |s| == 0 then ""
    else if s[0] == '\n' || s[0] == '\r' then StripNewlines(s[1..])
    else [s[0]] + StripNewlines(s[1..])
  }

  /**
    Decodes one quantum of four characters. Padding is accepted only in the last
    quantum, as "xx==" (one byte) or "xxx=" (two bytes); the bits that the padded
    form leaves over are ignored.
   */
  function DecodeQuantum(q: string, last: bool): (r: Option<seq<byte>>)
    requires |q| == 4
    ensures r.Some? ==> 1 <= |r.value| <= 3
    ensures r.Some? && |r.value| < 3 ==> last && q[3] == '='
    ensures r.Some? ==> forall i :: 0 <= i < 4 ==> IndexOf(q[i]).Some? || (q[i] == '=' && last && i >= 2)
  {
    var a, b, c, d := IndexOf(q[0]), IndexOf(q[1]), IndexOf(q[2]), IndexOf(q[3]);
    if a.None? || b.None? then None
    else if c.Some? && d.Some? then
      Some([a.value * 4 + b.value / 16, b.value % 16 * 16 + c.value / 4, c.value % 4 * 64 + d.value])
    else if last && c.Some? && q[3] == '=' then
      Some([a.value * 4 + b.value / 16, b.value % 16 * 16 + c.value / 4])
    else if last && q[2] == '=' && q[3] == '=' then
      Some([a.value * 4 + b.value / 16])
    else None
  }

  /** Decodes a newline-free text whose length is a multiple of four, quantum by quantum. */
  function DecodeQuanta(t: string): (r: Option<seq<byte>>)
    requires |t| % 4 == 0
    ensures r.Some? ==> forall i :: 0 <= i < |t| ==> IndexOf(t[i]).Some? || (t[i] == '=' && i >= |t| - 2)
    decreases |t|
  {
    if |t| == 0 then Some([])
    else
      match DecodeQuantum(t[..4], |t| == 4)
      case None => None
      case Some(head) =>
        match DecodeQuanta(t[4..])
        case None => None
        case Some(tail) => Some(head + tail)
  }

  /**
    `DecodeString`: `None` is Go's `CorruptInputError`. Apart from the line
    breaks it skips, the decoder accepts only alphabet characters and the
    padding '=' in the last two places.
   */
  function Decode(s: string): (r: Option<seq<byte>>)
    ensures |StripNewlines(s)| % 4 != 0 ==> r.None?
    ensures StripNewlines(s) == "" ==> r == Some([])
    ensures var t := StripNewlines(s);
      r.Some? ==> forall i :: 0 <= i < |t| ==> IndexOf(t[i]).Some? || (t[i] == '=' && i >= |t| - 2)
  {
    var t := StripNewlines(s);
    if |t| % 4 != 0 then None else DecodeQuanta(t)
  }

  lemma {:induction false} StripNewlinesNone(s: string)
    requires forall i :: 0 <= i < |s| ==> s[i] != '\n' && s[i] != '\r'
    ensures StripNewlines(s) == s
  {
    if |s| > 0 {
      StripNewlinesNone(s[1..]);
      assert s == [s[0]] + s[1..];
    }
  }

  /** The three bytes of a group are recovered from its four six-bit groups. */
  lemma Regroup(b0: byte, b1: byte, b2: byte)
    ensures var a, b, c, d := b0 / 4, b0 % 4 * 16 + b1 / 16, b1 % 16 * 4 + b2 / 64, b2 % 64;
      a * 4 + b / 16 == b0 && b % 16 * 16 + c / 4 == b1 && c % 4 * 64 + d == b2
  {
  }

  lemma QuantumDecodes(b0: byte, b1: byte, b2: byte, last: bool)
    ensures DecodeQuantum(Quantum(b0, b1, b2), last) == Some([b0, b1, b2])
  {
    var a, b, c, d := b0 / 4, b0 % 4 * 16 + b1 / 16, b1 % 16 * 4 + b2 / 64, b2 % 64;
    var q := Quantum(b0, b1, b2);
    assert q == [CharOf(a), CharOf(b), CharOf(c), CharOf(d)];
    Regroup(b0, b1, b2);
    IndexOfCharOf(a); IndexOfCharOf(b); IndexOfCharOf(c); IndexOfCharOf(d);
    assert IndexOf(q[0]) == Some(a);
    assert IndexOf(q[1]) == Some(b);
    assert IndexOf(q[2]) == Some(c);
    assert IndexOf(q[3]) == Some(d);
  }

  lemma TailOneDecodes(b0: byte)
    ensures DecodeQuantum(Encode([b0]), true) == Some([b0])
  {
    var s := Encode([b0]);
    IndexOfCharOf(b0 / 4); IndexOfCharOf(b0 % 4 * 16);
    assert IndexOf(s[0]) == Some(b0 / 4);
    assert IndexOf(s[1]) == Some(b0 % 4 * 16);
    assert s[2] == '=' && s[3] == '=';
  }

  lemma TailTwoDecodes(b0: byte, b1: byte)
    ensures DecodeQuantum(Encode([b0, b1]), true) == Some([b0, b1])
  {
    var s := Encode([b0, b1]);
    IndexOfCharOf(b0 / 4); IndexOfCharOf(b0 % 4 * 16 + b1 / 16); IndexOfCharOf(b1 % 16 * 4);
    assert IndexOf(s[0]) == Some(b0 / 4);
    assert IndexOf(s[1]) == Some(b0 % 4 * 16 + b1 / 16);
    assert IndexOf(s[2]) == Some(b1 % 16 * 4);
    assert s[3] == '=';
  }

  lemma {:induction false} DecodeQuantaEncode(bs: seq<byte>)
    ensures |Encode(bs)| % 4 == 0
    ensures DecodeQuanta(Encode(bs)) == Some(bs)
    decreases |bs|
  {
    if |bs| == 0 {
    } else if |bs| == 1 {
      TailOneDecodes(bs[0]);
      assert [bs[0]] == bs;
      DecodeQuantaCons(Encode(bs), [], bs, []);
      assert Encode(bs) + [] == Encode(bs) && bs + [] == bs;
    } else if |bs| == 2 {
      TailTwoDecodes(bs[0], bs[1]);
      assert [bs[0], bs[1]] == bs;
      DecodeQuantaCons(Encode(bs), [], bs, []);
      assert Encode(bs) + [] == Encode(bs) && bs + [] == bs;
    } else {
      DecodeQuantaEncode(bs[3..]);
      DecodeQuantaStep(bs);
    }
  }

  lemma DecodeQuantaStep(bs: seq<byte>)
    requires |bs| >= 3
    requires DecodeQuanta(Encode(bs[3..])) == Some(bs[3..])
    ensures DecodeQuanta(Encode(bs)) == Some(bs)
  {
    QuantumThenRest(bs[0], bs[1], bs[2], Encode(bs[3..]), bs[3..]);
    Reassemble(bs, Encode(bs));
  }

  lemma Reassemble(bs: seq<byte>, s: string)
    requires |bs| >= 3 && s == Encode(bs)
    requires DecodeQuanta(Quantum(bs[0], bs[1], bs[2]) + Encode(bs[3..])) == Some([bs[0], bs[1], bs[2]] + bs[3..])
    ensures DecodeQuanta(s) == Some(bs)
  {
    EncodeStep(bs);
    assert [bs[0], bs[1], bs[2]] + bs[3..] == bs;
  }

  lemma QuantumThenRest(b0: byte, b1: byte, b2: byte, t: string, tail: seq<byte>)
    requires |t| % 4 == 0 && DecodeQuanta(t) == Some(tail)
    ensures DecodeQuanta(Quantum(b0, b1, b2) + t) == Some([b0, b1, b2] + tail)
  {
    QuantumDecodes(b0, b1, b2, t == []);
    DecodeQuantaCons(Quantum(b0, b1, b2), t, [b0, b1, b2], tail);
  }

  lemma EncodeStep(bs: seq<byte>)
    requires |bs| >= 3
    ensures Encode(bs) == Quantum(bs[0], bs[1], bs[2]) + Encode(bs[3..])
  {
  }

  lemma DecodeQuantaCons(q: string, t: string, h: seq<byte>, tail: seq<byte>)
    requires |q| == 4 && |t| % 4 == 0
    requires DecodeQuantum(q, t == []) == Some(h) && DecodeQuanta(t) == Some(tail)
    ensures DecodeQuanta(q + t) == Some(h + tail)
  {
    var s := q + t;
    assert s[..4] == q && s[4..] == t;
  }

  /** Decoding what `Encode` produced gives back the bytes. */
  lemma DecodeEncode(bs: seq<byte>)
    ensures Decode(Encode(bs)) == Some(bs)
  {
    StripNewlinesNone(Encode(bs));
    DecodeQuantaEncode(bs);
  }

  /** Line breaks anywhere in the input do not change what it decodes to. */
  lemma {:induction false} DecodeIgnoresNewlines(s: string, i: nat, c: char)
    requires i <= |s| && (c == '\n' || c == '\r')
    ensures Decode(s[..i] + [c] + s[i..]) == Decode(s)
  {
    StripInsert(s, i, c);
  }

  lemma {:induction false} StripInsert(s: string, i: nat, c: char)
    requires i <= |s| && (c == '\n' || c == '\r')
    ensures StripNewlines(s[..i] + [c] + s[i..]) == StripNewlines(s)
  {
    var u := s[..i] + [c] + s[i..];
    if i == 0 {
      assert u[1..] == s;
    } else {
      assert u[0] == s[0];
      assert u[1..] == s[1..][..i - 1] + [c] + s[1..][i - 1..];
      StripInsert(s[1..], i - 1, c);
    }
  }
}
