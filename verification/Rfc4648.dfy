/** Base64 with padding (section 4 of RFC 4648), as an instance of what the metadata codec asks for. */
module Rfc4648 {
  import opened Basics
  import opened MetadataCodec

  function Digit(n: int): (c: char)
    requires 0 <= n < 64
    ensures Base64Char(c) && c != '='
    ensures ValueOf(c) == n
  {
    if n < 26 then 'A' + n as char
    else if n < 52 then 'a' + (n - 26) as char
    else if n < 62 then '0' + (n - 52) as char
    else if n == 62 then '+' else '/'
  }

  function ValueOf(c: char): (n: int)
    ensures 0 <= n < 64
  {
    if 'A' <= c <= 'Z' then (c - 'A') as int
    else if 'a' <= c <= 'z' then (c - 'a') as int + 26
    else if '0' <= c <= '9' then (c - '0') as int + 52
    else if c == '+' then 62
    else if c == '/' then 63 else 0
  }

  function Encode(x: seq<byte>): string {
    if x == [] then ""
    else if |x| == 1 then [Digit(x[0] / 4), Digit(x[0] % 4 * 16), '=', '=']
    else if |x| == 2 then [Digit(x[0] / 4), Digit(x[0] % 4 * 16 + x[1] / 16), Digit(x[1] % 16 * 4), '=']
    else Quad(x[0], x[1], x[2]) + Encode(x[3..])
  }

  function Quad(x: byte, y: byte, z: byte): (q: string)
    ensures |q| == 4
  {
    [Digit(x / 4), Digit(x % 4 * 16 + y / 16), Digit(y % 16 * 4 + z / 64), Digit(z % 64)]
  }

  function Decode(s: string): seq<byte> {
    if |s| < 4 then []
    else
      var (a, b, c, d) := (ValueOf(s[0]), ValueOf(s[1]), ValueOf(s[2]), ValueOf(s[3]));
      if s[2] == '=' then [a * 4 + b / 16]
      else if s[3] == '=' then [a * 4 + b / 16, b % 16 * 16 + c / 4]
      else [a * 4 + b / 16, b % 16 * 16 + c / 4, c % 4 * 64 + d] + Decode(s[4..])
  }

  const CODEC: Base64 := Base64(Encode, Decode)

  /** Cutting three bytes into four digits and putting them together again. */
  lemma Regroup(x: byte, y: byte, z: byte)
    ensures var (a, b, c, d) := (x / 4, x % 4 * 16 + y / 16, y % 16 * 4 + z / 64, z % 64);
      a * 4 + b / 16 == x && b % 16 * 16 + c / 4 == y && c % 4 * 64 + d == z
  {
  }

  lemma DecodeQuad(x: byte, y: byte, z: byte, tail: string)
    ensures Decode(Quad(x, y, z) + tail) == [x, y, z] + Decode(tail)
  {
    Regroup(x, y, z);
    assert (Quad(x, y, z) + tail)[4..] == tail;
  }

  /** Four characters that stand for one byte. */
  lemma {:induction false} DecodeOnePad(a: int, b: int, x: byte)
    requires 0 <= a < 64 && 0 <= b < 64 && a * 4 + b / 16 == x
    ensures Decode([Digit(a), Digit(b), '=', '=']) == [x]
  {
  }

  /** Four characters that stand for two bytes. */
  lemma {:induction false} DecodeTwoPad(a: int, b: int, c: int, x: byte, y: byte)
    requires 0 <= a < 64 && 0 <= b < 64 && 0 <= c < 64
    requires a * 4 + b / 16 == x && b % 16 * 16 + c / 4 == y
    ensures Decode([Digit(a), Digit(b), Digit(c), '=']) == [x, y]
  {
  }

  lemma {:induction false} EncodeOne(x: byte)
    ensures Encode([x]) == [Digit(x / 4), Digit(x % 4 * 16), '=', '=']
  {
  }

  lemma {:induction false} EncodeTwo(x: byte, y: byte)
    ensures Encode([x, y]) == [Digit(x / 4), Digit(x % 4 * 16 + y / 16), Digit(y % 16 * 4), '=']
  {
  }

  lemma {:induction false} DecodeOne(x: byte)
    ensures Decode(Encode([x])) == [x]
  {
    EncodeOne(x);
    Regroup(x, 0, 0);
    DecodeOnePad(x / 4, x % 4 * 16, x);
  }

  lemma {:induction false} DecodeTwo(x: byte, y: byte)
    ensures Decode(Encode([x, y])) == [x, y]
  {
    EncodeTwo(x, y);
    Regroup(x, y, 0);
    DecodeTwoPad(x / 4, x % 4 * 16 + y / 16, y % 16 * 4, x, y);
  }

  lemma DecodeLong(x: seq<byte>, tail: string)
    requires |x| >= 3 && Decode(tail) == x[3..]
    ensures Decode(Quad(x[0], x[1], x[2]) + tail) == x
  {
    DecodeQuad(x[0], x[1], x[2], tail);
    assert x == [x[0], x[1], x[2]] + x[3..];
  }

  lemma {:induction false} DecodeEncode(x: seq<byte>)
    ensures Decode(Encode(x)) == x
  {
    if |x| >= 3 {
      DecodeEncode(x[3..]);
      DecodeLong(x, Encode(x[3..]));
    } else if |x| == 2 {
      DecodeTwo(x[0], x[1]);
      assert x == [x[0], x[1]];
    } else if |x| == 1 {
      DecodeOne(x[0]);
      assert x == [x[0]];
    }
  }

  lemma {:induction false} EncodeAlphabet(x: seq<byte>)
    ensures forall i :: 0 <= i < |Encode(x)| ==> Base64Char(Encode(x)[i])
  {
    if |x| >= 3 {
      EncodeAlphabet(x[3..]);
    }
  }

  /** What the codec's theorems ask of Base64 can be had. */
  lemma CodecLawful()
    ensures Lawful(CODEC)
  {
    forall x: seq<byte>
      ensures CODEC.decode(CODEC.encode(x)) == x
      ensures forall i :: 0 <= i < |CODEC.encode(x)| ==> Base64Char(CODEC.encode(x)[i])
    {
      DecodeEncode(x);
      EncodeAlphabet(x);
    }
  }

  /** Digits of Table 1 of the RFC: the ends of its ranges. */
  lemma {:induction false} DigitRanges()
    ensures Digit(0) == 'A' && Digit(25) == 'Z' && Digit(26) == 'a' && Digit(51) == 'z'
    ensures Digit(52) == '0' && Digit(61) == '9' && Digit(62) == '+' && Digit(63) == '/'
  {
  }

  /** Within a range the digits follow one another. */
  lemma {:induction false} DigitOrder(n: int)
    requires 0 <= n < 61 && n != 25 && n != 51
    ensures Digit(n + 1) as int == Digit(n) as int + 1
  {
  }
}
