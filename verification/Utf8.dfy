/** UTF-8 (section 3 of RFC 3629): the encoding of a text, and that it loses nothing. */
module Utf8 {
  import opened Bytes

  function EncodeChar(c: char): (b: seq<byte>)
    ensures 1 <= |b| <= 4
  {
    var o := c as int;
    if o < 0x80 then [o]
    else if o < 0x800 then [0xC0 + o / 0x40, 0x80 + o % 0x40]
    else if o < 0x1_0000 then [0xE0 + o / 0x1000, 0x80 + o / 0x40 % 0x40, 0x80 + o % 0x40]
    else [0xF0 + o / 0x4_0000, 0x80 + o / 0x1000 % 0x40, 0x80 + o / 0x40 % 0x40, 0x80 + o % 0x40]
  }

  function Encode(s: string): seq<byte> {
    if s == "" then [] else EncodeChar(s[0]) + Encode(s[1..])
  }

  /** The length its first byte announces, and the number read from the bytes of one character. */
  function FrontLength(first: byte): nat {
    if first < 0x80 then 1 else if first < 0xE0 then 2 else if first < 0xF0 then 3 else 4
  }

  function FrontValue(b: seq<byte>): int
    requires 1 <= |b| <= 4
  {
    if |b| == 1 then b[0]
    else if |b| == 2 then (b[0] as int - 0xC0) * 0x40 + (b[1] as int - 0x80)
    else if |b| == 3 then (b[0] as int - 0xE0) * 0x1000 + (b[1] as int - 0x80) * 0x40 + (b[2] as int - 0x80)
    else (b[0] as int - 0xF0) * 0x4_0000 + (b[1] as int - 0x80) * 0x1000 + (b[2] as int - 0x80) * 0x40 + (b[3] as int - 0x80)
  }

  lemma Digits64(o: int)
    requires 0 <= o
    ensures o == o / 0x40 * 0x40 + o % 0x40
    ensures o / 0x40 == o / 0x1000 * 0x40 + o / 0x40 % 0x40
    ensures o / 0x1000 == o / 0x4_0000 * 0x40 + o / 0x1000 % 0x40
  {
    assert o / 0x1000 == o / 0x40 / 0x40;
    assert o / 0x4_0000 == o / 0x1000 / 0x40;
  }

  /** One character can be read back from its bytes. */
  lemma CharFront(c: char)
    ensures FrontLength(EncodeChar(c)[0]) == |EncodeChar(c)|
    ensures FrontValue(EncodeChar(c)) == c as int
    ensures forall i :: 1 <= i < |EncodeChar(c)| ==> 0x80 <= EncodeChar(c)[i] < 0xC0
    ensures |EncodeChar(c)| == if c as int < 0x80 then 1 else if c as int < 0x800 then 2 else if c as int < 0x1_0000 then 3 else 4
  {
    Digits64(c as int);
  }

  lemma {:induction false} EncodeInjective(a: string, b: string)
    requires Encode(a) == Encode(b)
    ensures a == b
  {
    if a != "" && b != "" {
      var (x, y) := (EncodeChar(a[0]), EncodeChar(b[0]));
      CharFront(a[0]);
      CharFront(b[0]);
      hide EncodeChar, FrontValue, FrontLength;
      FrontsAgree(x, Encode(a[1..]), y, Encode(b[1..]));
      EncodeInjective(a[1..], b[1..]);
      assert a == [a[0]] + a[1..] && b == [b[0]] + b[1..];
    }
  }

  lemma FrontsAgree(x: seq<byte>, rest: seq<byte>, y: seq<byte>, rest': seq<byte>)
    requires x != [] && y != [] && x + rest == y + rest'
    requires FrontLength(x[0]) == |x| && FrontLength(y[0]) == |y|
    ensures x == y && rest == rest'
  {
    hide FrontLength;
    assert x[0] == (x + rest)[0] == (y + rest')[0] == y[0];
    assert x == (x + rest)[..|x|] == (y + rest')[..|y|] == y;
    assert rest == (x + rest)[|x|..] == (y + rest')[|y|..] == rest';
  }
}
