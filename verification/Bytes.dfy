/** Bytes and big-endian integers. */
module Bytes {

  type byte = b: int | 0 <= b < 256

  function U16(n: int): (r: seq<byte>)
    requires 0 <= n < 0x1_0000
    ensures |r| == 2
  {
    [n / 256, n % 256]
  }

  function ReadU16(s: seq<byte>): (n: int)
    requires |s| >= 2
    ensures 0 <= n < 0x1_0000
  {
    (s[0] as int) * 256 + s[1]
  }

  function U32(n: int): (r: seq<byte>)
    requires 0 <= n < 0x1_0000_0000
    ensures |r| == 4
  {
    U16(n / 0x1_0000) + U16(n % 0x1_0000)
  }

  function ReadU32(s: seq<byte>): (n: int)
    requires |s| >= 4
    ensures 0 <= n < 0x1_0000_0000
  {
    ReadU16(s) * 0x1_0000 + ReadU16(s[2..])
  }

  /** Highest byte first. */
  lemma BigEndian(s: seq<byte>)
    requires |s| >= 4
    ensures var (a, b, c, d) := (s[0] as int, s[1] as int, s[2] as int, s[3] as int);
            var n := a * 0x100_0000 + b * 0x1_0000 + c * 0x100 + d;
            ReadU32(s) == n && s[..4] == U32(n) && s[..2] == U16(a * 0x100 + b)
  {
    U32RoundTrip(s, ReadU32(s));
    U16RoundTrip(s, ReadU16(s));
  }

  lemma U16RoundTrip(s: seq<byte>, n: int)
    requires |s| >= 2 && 0 <= n < 0x1_0000
    ensures ReadU16(s) == n <==> s[..2] == U16(n)
  {
    if ReadU16(s) == n { assert s[0] == n / 256 && s[1] == n % 256; }
    if s[..2] == U16(n) { assert s[0] == s[..2][0] && s[1] == s[..2][1]; }
  }

  lemma U32RoundTrip(s: seq<byte>, n: int)
    requires |s| >= 4 && 0 <= n < 0x1_0000_0000
    ensures ReadU32(s) == n <==> s[..4] == U32(n)
  {
    var (high, low) := (n / 0x1_0000, n % 0x1_0000);
    U16RoundTrip(s, high);
    U16RoundTrip(s[2..], low);
    SplitFour(s, U16(high), U16(low));
  }

  lemma SplitFour(s: seq<byte>, a: seq<byte>, b: seq<byte>)
    requires |s| >= 4 && |a| == 2 && |b| == 2
    ensures s[..4] == a + b <==> s[..2] == a && s[2..][..2] == b
  {
    assert s[..4] == s[..2] + s[2..][..2];
    if s[..4] == a + b {
      assert s[..2] == s[..4][..2] == a && s[2..][..2] == s[..4][2..] == b;
    }
  }
}
