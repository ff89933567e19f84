/** Base64url tokens and keys (sections 5 and 3.5 of RFC 4648): one accepted text per 32-byte value. */
module TokenCodec {
  import opened Bytes
  import opened Text
  import opened Wrappers

  type sextet = n: int | 0 <= n < 64

  const RAW_BYTES: nat := 32

  predicate IsAlphabet(c: char) {
    'A' <= c <= 'Z' || 'a' <= c <= 'z' || '0' <= c <= '9' || c == '-' || c == '_'
  }

  function Char64(n: sextet): (c: char)
    ensures IsAlphabet(c)
  {
    if n < 26 then 'A' + n as char
    else if n < 52 then 'a' + (n - 26) as char
    else if n < 62 then '0' + (n - 52) as char
    else if n == 62 then '-' else '_'
  }

  function Sextet(c: char): sextet
    requires IsAlphabet(c)
  {
    if 'A' <= c <= 'Z' then (c - 'A') as int
    else if 'a' <= c <= 'z' then (c - 'a') as int + 26
    else if '0' <= c <= '9' then (c - '0') as int + 52
    else if c == '-' then 62 else 63
  }

  lemma SextetOfChar(n: sextet)
    ensures Sextet(Char64(n)) == n
  {
  }

  const UPPER := "ABCDEFGHIJKLMNOPQRSTUVWXYZ"
  const LOWER := "abcdefghijklmnopqrstuvwxyz"

  lemma LetterTable(n: nat)
    requires n < 26
    ensures UPPER[n] == 'A' + n as char && LOWER[n] == 'a' + n as char
  {
  }

  lemma DigitTable(n: nat)
    requires n < 10
    ensures "0123456789"[n] == '0' + n as char
  {
  }

  /** The URL-safe alphabet of the standard, in its order. */
  lemma AlphabetTable(n: sextet)
    ensures Char64(n) == (UPPER + LOWER + "0123456789" + "-_")[n]
  {
    if n < 26 {
      LetterTable(n);
    } else if n < 52 {
      LetterTable(n - 26);
    } else if n < 62 {
      DigitTable(n - 52);
    }
  }

  lemma CharOfSextet(c: char)
    requires IsAlphabet(c)
    ensures Char64(Sextet(c)) == c
  {
  }

  // --- printing ----------------------------------------------------------------------------------

  // Four data characters from three bytes, and back; a missing byte reads as zero.

  function S0(x: byte): sextet { x / 4 }
  function S1(x: byte, y: byte): sextet { (x % 4) as int * 16 + y / 16 }
  function S2(y: byte, z: byte): sextet { (y % 16) as int * 4 + z / 64 }
  function S3(z: byte): sextet { z % 64 }

  function B0(p: sextet, q: sextet): byte { p as int * 4 + q / 16 }
  function B1(q: sextet, r: sextet): byte { (q % 16) as int * 16 + r / 4 }
  function B2(r: sextet, s: sextet): byte { (r % 4) as int * 64 + s }

  lemma BytesBack(x: byte, y: byte, z: byte)
    ensures B0(S0(x), S1(x, y)) == x && B1(S1(x, y), S2(y, z)) == y && B2(S2(y, z), S3(z)) == z
  {
  }

  lemma SextetsBack(p: sextet, q: sextet, r: sextet, s: sextet)
    ensures S0(B0(p, q)) == p && S1(B0(p, q), B1(q, r)) == q && S2(B1(q, r), B2(r, s)) == r && S3(B2(r, s)) == s
  {
  }

  /** The data characters, without padding. */
  function Sextets(b: seq<byte>): (d: seq<sextet>)
    ensures |d| == |b| / 3 * 4 + (if |b| % 3 == 0 then 0 else |b| % 3 + 1)
  {
    if |b| == 0 then []
    else if |b| == 1 then [S0(b[0]), S1(b[0], 0)]
    else if |b| == 2 then [S0(b[0]), S1(b[0], b[1]), S2(b[1], 0)]
    else [S0(b[0]), S1(b[0], b[1]), S2(b[1], b[2]), S3(b[2])] + Sextets(b[3..])
  }

  function Chars(d: seq<sextet>): (s: string)
    ensures |s| == |d| && forall i :: 0 <= i < |d| ==> s[i] == Char64(d[i])
  {
    seq(|d|, i requires 0 <= i < |d| => Char64(d[i]))
  }

  function Padding(n: nat): (s: string)
    ensures |s| == n && forall i :: 0 <= i < n ==> s[i] == '='
  {
    seq(n, i => '=')
  }

  /** base64.urlsafe_b64encode. */
  function Encode(b: seq<byte>): string {
    Chars(Sextets(b)) + Padding(if |b| % 3 == 0 then 0 else 3 - |b| % 3)
  }

  // --- the value ---------------------------------------------------------------------------------

  /** The number that bytes, and data characters, are the digits of, after the digits of `acc`. */
  function Value256(acc: nat, b: seq<byte>): nat
    decreases |b|
  {
    if b == [] then acc else Value256(acc * 256 + b[0], b[1..])
  }

  function Value64(acc: nat, d: seq<sextet>): nat
    decreases |d|
  {
    if d == [] then acc else Value64(acc * 64 + d[0], d[1..])
  }

  lemma GroupValue(acc: nat, x: byte, y: byte, z: byte)
    ensures (((acc * 64 + S0(x)) * 64 + S1(x, y)) * 64 + S2(y, z)) * 64 + S3(z) == ((acc * 256 + x) * 256 + y) * 256 + z
  {
  }

  lemma Value64Front(acc: nat, p: sextet, q: sextet, r: sextet, s: sextet, rest: seq<sextet>)
    ensures Value64(acc, [p, q, r, s] + rest) == Value64((((acc * 64 + p) * 64 + q) * 64 + r) * 64 + s, rest)
  {
    var d := [p, q, r, s] + rest;
    assert d[1..] == [q, r, s] + rest && d[1..][1..] == [r, s] + rest && d[1..][1..][1..] == [s] + rest;
    assert d[1..][1..][1..][1..] == rest;
    assert Value64(acc, d) == Value64(acc * 64 + p, d[1..]);
    assert Value64(acc * 64 + p, d[1..]) == Value64((acc * 64 + p) * 64 + q, d[1..][1..]);
  }

  lemma Value256Front(acc: nat, b: seq<byte>)
    requires |b| >= 3
    ensures Value256(acc, b) == Value256(((acc * 256 + b[0]) * 256 + b[1]) * 256 + b[2], b[3..])
  {
    assert b[1..][1..][1..] == b[3..];
    assert Value256(acc, b) == Value256(acc * 256 + b[0], b[1..]);
  }

  /** The data characters are the digits, base 64, of the number the bytes are, filled up with zero bits at the end. */
  lemma {:induction false} SameValue(acc: nat, b: seq<byte>)
    ensures Value64(acc, Sextets(b)) == Value256(acc, b) * (match |b| % 3 case 0 => 1 case 1 => 16 case _ => 4)
    decreases |b|
  {
    hide S0, S1, S2, S3;
    if |b| >= 3 {
      GroupValue(acc, b[0], b[1], b[2]);
      Value64Front(acc, S0(b[0]), S1(b[0], b[1]), S2(b[1], b[2]), S3(b[2]), Sextets(b[3..]));
      Value256Front(acc, b);
      SameValue(((acc * 256 + b[0]) * 256 + b[1]) * 256 + b[2], b[3..]);
    } else if |b| == 2 {
      TwoByteValue(acc, b);
    } else if |b| == 1 {
      OneByteValue(acc, b);
    }
  }

  lemma TwoByteValue(acc: nat, b: seq<byte>)
    requires |b| == 2
    ensures Value64(acc, Sextets(b)) == Value256(acc, b) * 4
  {
    var (p, q, r) := (S0(b[0]), S1(b[0], b[1]), S2(b[1], 0));
    assert ((acc * 64 + p) * 64 + q) * 64 + r == ((acc * 256 + b[0]) * 256 + b[1]) * 4;
    hide S0, S1, S2, S3;
    Value64Three(acc, p, q, r);
    Value256Two(acc, b[0], b[1]);
    assert b == [b[0], b[1]];
  }

  lemma Value64Three(acc: nat, p: sextet, q: sextet, r: sextet)
    ensures Value64(acc, [p, q]) == (acc * 64 + p) * 64 + q
    ensures Value64(acc, [p, q, r]) == ((acc * 64 + p) * 64 + q) * 64 + r
  {
    assert [p, q][1..] == [q] && [q][1..] == [] && [p, q, r][1..] == [q, r] && [q, r][1..] == [r] && [r][1..] == [];
    var (two, three) := ((acc * 64 + p) * 64 + q, ((acc * 64 + p) * 64 + q) * 64 + r);
    assert Value64(acc * 64 + p, [q]) == Value64(two, []) == two;
    assert Value64(acc, [p, q, r]) == Value64(acc * 64 + p, [q, r]) == Value64(two, [r]) == Value64(three, []) == three;
  }

  lemma Value256Two(acc: nat, x: byte, y: byte)
    ensures Value256(acc, [x]) == acc * 256 + x && Value256(acc, [x, y]) == (acc * 256 + x) * 256 + y
  {
    assert [x][1..] == [] && [x, y][1..] == [y] && [y][1..] == [];
    var two := (acc * 256 + x) * 256 + y;
    assert Value256(acc * 256 + x, [y]) == Value256(two, []) == two;
  }

  lemma OneByteValue(acc: nat, b: seq<byte>)
    requires |b| == 1
    ensures Value64(acc, Sextets(b)) == Value256(acc, b) * 16
  {
    var (p, q) := (S0(b[0]), S1(b[0], 0));
    assert (acc * 64 + p) * 64 + q == (acc * 256 + b[0]) * 16;
    hide S0, S1, S2, S3;
    Value64Three(acc, p, q, 0);
    Value256Two(acc, b[0], 0);
    assert b == [b[0]];
  }

  // --- the lenient decoder of the standard library -----------------------------------------------

  /** `[A-Za-z0-9_-]+=*` without the requirement of a first character. */
  predicate Shaped(s: string) {
    forall i :: 0 <= i < |s| ==> if i < DataLength(s) then IsAlphabet(s[i]) else s[i] == '='
  }

  /** The number of leading data characters. */
  function DataLength(s: string): (n: nat)
    ensures n <= |s|
  {
    if s != "" && IsAlphabet(s[0]) then 1 + DataLength(s[1..]) else 0
  }

  function Data(s: string): (d: seq<sextet>)
    requires forall i :: 0 <= i < |s| ==> IsAlphabet(s[i])
    ensures |d| == |s| && forall i :: 0 <= i < |s| ==> d[i] == Sextet(s[i])
  {
    seq(|s|, i requires 0 <= i < |s| => Sextet(s[i]))
  }

  /** Too little padding fails and more than enough is ignored; the unused low bits of the last character too. */
  function Unpacked(d: seq<sextet>, pads: nat): Option<seq<byte>> {
    if |d| == 0 then Some([])
    else if |d| == 1 then None
    else if |d| == 2 then (if pads >= 2 then Some([B0(d[0], d[1])]) else None)
    else if |d| == 3 then (if pads >= 1 then Some([B0(d[0], d[1]), B1(d[1], d[2])]) else None)
    else
      var rest := Unpacked(d[4..], pads);
      if rest.None? then None else Some([B0(d[0], d[1]), B1(d[1], d[2]), B2(d[2], d[3])] + rest.value)
  }

  /** base64.urlsafe_b64decode on the strings the callers let through. */
  function Decode(s: string): Option<seq<byte>>
    requires Shaped(s)
  {
    Unpacked(Data(s[..DataLength(s)]), |s| - DataLength(s))
  }

  // --- the two acceptors ---------------------------------------------------------------------------

  /** `^[A-Za-z0-9_-]{43}=$`. */
  predicate TokenShaped(s: string) {
    |s| == 44 && s[43] == '=' && forall i :: 0 <= i < 43 ==> IsAlphabet(s[i])
  }

  lemma {:induction false} DataLengthIs(s: string, n: nat)
    requires n <= |s| && forall i :: 0 <= i < |s| ==> if i < n then IsAlphabet(s[i]) else s[i] == '='
    ensures DataLength(s) == n && Shaped(s)
  {
    DataLengthOnly(s, n);
  }

  lemma {:induction false} DataLengthOnly(s: string, n: nat)
    requires n <= |s| && forall i :: 0 <= i < |s| ==> if i < n then IsAlphabet(s[i]) else s[i] == '='
    ensures DataLength(s) == n
  {
    if n > 0 { DataLengthOnly(s[1..], n - 1); }
  }

  /** The reference and lease tokens: exact shape, decode, length, re-encode. */
  function ParseToken(s: string): Option<seq<byte>> {
    if !TokenShaped(s) then None else
    DataLengthIs(s, 43);
    var decoded := Decode(s);
    if decoded.None? || |decoded.value| != RAW_BYTES || Encode(decoded.value) != s then None else decoded
  }

  /** The key material: a looser shape, then decode, length, re-encode. */
  function ParseKey(s: string): Option<seq<byte>> {
    if s == "" || HasSpace(s) || DataLength(s) == 0 || !Shaped(s) then None else
    var decoded := Decode(s);
    if decoded.None? || |decoded.value| != RAW_BYTES || s != Encode(decoded.value) then None else decoded
  }

  // --- round trips -----------------------------------------------------------------------------------

  lemma {:induction false} UnpackedSextets(b: seq<byte>, pads: nat)
    requires pads >= if |b| % 3 == 0 then 0 else 3 - |b| % 3
    ensures Unpacked(Sextets(b), pads) == Some(b)
  {
    hide S0, S1, S2, S3, B0, B1, B2;
    if |b| >= 3 {
      BytesBack(b[0], b[1], b[2]);
      UnpackedSextets(b[3..], pads);
      assert Sextets(b)[4..] == Sextets(b[3..]);
      assert b == [b[0], b[1], b[2]] + b[3..];
    } else if |b| == 1 {
      OneByte(b, pads);
    } else if |b| == 2 {
      TwoBytes(b, pads);
    }
  }

  lemma OneByte(b: seq<byte>, pads: nat)
    requires |b| == 1 && pads >= 2
    ensures Unpacked(Sextets(b), pads) == Some(b)
  {
    hide S0, S1, S2, S3, B0, B1, B2;
    BytesBack(b[0], 0, 0);
    assert b == [b[0]];
  }

  lemma TwoBytes(b: seq<byte>, pads: nat)
    requires |b| == 2 && pads >= 1
    ensures Unpacked(Sextets(b), pads) == Some(b)
  {
    hide S0, S1, S2, S3, B0, B1, B2;
    BytesBack(b[0], b[1], 0);
    assert b == [b[0], b[1]];
  }

  lemma EncodeShape(b: seq<byte>)
    ensures Shaped(Encode(b)) && DataLength(Encode(b)) == |Sextets(b)|
    ensures Data(Encode(b)[..|Sextets(b)|]) == Sextets(b)
  {
    var (d, s) := (Sextets(b), Encode(b));
    DataLengthIs(s, |d|);
    forall i | 0 <= i < |d| ensures Data(s[..|d|])[i] == d[i] {
      SextetOfChar(d[i]);
    }
  }

  /** Decoding what was printed gives the bytes back, for any bytes. */
  lemma DecodeOfEncode(b: seq<byte>)
    ensures Shaped(Encode(b)) && Decode(Encode(b)) == Some(b)
  {
    EncodeShape(b);
    UnpackedSextets(b, if |b| % 3 == 0 then 0 else 3 - |b| % 3);
  }

  lemma NoSpaceInShaped(s: string)
    requires Shaped(s)
    ensures !HasSpace(s)
  {
    forall i | 0 <= i < |s| ensures !IsSpace(s[i]) {
      assert IsAlphabet(s[i]) || s[i] == '=';
    }
  }

  /** Each acceptor accepts a text as a value iff it is the value's printed form: parse and print are inverse. */
  lemma ParsesExactlyPrinted(s: string, b: seq<byte>)
    ensures ParseToken(s) == Some(b) <==> |b| == RAW_BYTES && s == Encode(b)
    ensures ParseKey(s) == Some(b) <==> |b| == RAW_BYTES && s == Encode(b)
  {
    if |b| == RAW_BYTES && s == Encode(b) {
      DecodeOfEncode(b);
      EncodeShape(b);
      NoSpaceInShaped(s);
      hide Sextets, Unpacked;
      assert TokenShaped(s);
    }
  }

  /** The strict and the looser acceptor accept the same language, with the same values. */
  lemma AcceptorsAgree(s: string)
    ensures ParseToken(s) == ParseKey(s)
  {
    hide Encode;
    if ParseToken(s).Some? { ParsesExactlyPrinted(s, ParseToken(s).value); }
    if ParseKey(s).Some? { ParsesExactlyPrinted(s, ParseKey(s).value); }
    hide ParseToken, ParseKey;
  }

  // --- the language ------------------------------------------------------------------------------------

  /** The bits the last data character carries beyond the last byte. */
  predicate NoStrayBits(d: seq<sextet>) {
    && (|d| % 4 == 2 ==> d[|d| - 1] % 16 == 0)
    && (|d| % 4 == 3 ==> d[|d| - 1] % 4 == 0)
  }

  lemma {:induction false} SextetsOfUnpacked(d: seq<sextet>, pads: nat)
    requires Unpacked(d, pads).Some?
    ensures Sextets(Unpacked(d, pads).value) == d <==> NoStrayBits(d)
    ensures |Unpacked(d, pads).value| == |d| * 3 / 4
  {
    hide S0, S1, S2, S3, B0, B1, B2;
    if |d| >= 4 {
      SextetsOfUnpacked(d[4..], pads);
      FrontOf(d, Unpacked(d[4..], pads).value);
      StrayBitsBehind(d);
      hide Sextets, NoStrayBits;
    } else {
      ShortSextets(d, pads);
    }
  }

  lemma StrayBitsBehind(d: seq<sextet>)
    requires |d| >= 4
    ensures NoStrayBits(d) <==> NoStrayBits(d[4..])
  {
    if |d| > 4 { assert d[4..][|d| - 5] == d[|d| - 1]; }
  }

  lemma ShortSextets(d: seq<sextet>, pads: nat)
    requires |d| < 4 && Unpacked(d, pads).Some?
    ensures Sextets(Unpacked(d, pads).value) == d <==> NoStrayBits(d)
    ensures |Unpacked(d, pads).value| == |d| * 3 / 4
  {
    if |d| == 2 {
      assert S0(B0(d[0], d[1])) == d[0];
      assert S1(B0(d[0], d[1]), 0) == d[1] <==> d[1] % 16 == 0;
    } else if |d| == 3 {
      assert S0(B0(d[0], d[1])) == d[0] && S1(B0(d[0], d[1]), B1(d[1], d[2])) == d[1];
      assert S2(B1(d[1], d[2]), 0) == d[2] <==> d[2] % 4 == 0;
    }
  }

  lemma FrontOf(d: seq<sextet>, rest: seq<byte>)
    requires |d| >= 4
    ensures Sextets([B0(d[0], d[1]), B1(d[1], d[2]), B2(d[2], d[3])] + rest) == d <==> Sextets(rest) == d[4..]
  {
    hide S0, S1, S2, S3, B0, B1, B2;
    SextetsBack(d[0], d[1], d[2], d[3]);
    var b := [B0(d[0], d[1]), B1(d[1], d[2]), B2(d[2], d[3])] + rest;
    assert b[3..] == rest;
    assert Sextets(b) == [d[0], d[1], d[2], d[3]] + Sextets(rest);
    assert Sextets(b)[4..] == Sextets(rest);
    assert d == [d[0], d[1], d[2], d[3]] + d[4..];
  }

  /** The accepted language: 43 data characters, the last of which carries no stray bits, and one `=`. */
  lemma AcceptedTokens(s: string)
    ensures ParseToken(s).Some? <==> TokenShaped(s) && Sextet(s[42]) % 4 == 0
  {
    hide S0, S1, S2, S3, B0, B1, B2, Sextet, Char64, IsAlphabet;
    if TokenShaped(s) {
      DataLengthIs(s, 43);
      var d := Data(s[..43]);
      LengthDecides(d, 1);
      SextetsOfUnpacked(d, 1);
      var b := Unpacked(d, 1).value;
      assert |b| == RAW_BYTES && Decode(s) == Some(b);
      CharsOfData(s[..43]);
      hide Unpacked, Sextets, DataLength;
      assert s == s[..43] + "=" && Padding(1) == "=";
      CharsInjective(Sextets(b), d);
      assert Encode(b) == s <==> Chars(Sextets(b)) == s[..43] by {
        assert Encode(b)[..43] == Chars(Sextets(b));
      }
    }
  }

  lemma {:induction false} LengthDecides(d: seq<sextet>, pads: nat)
    requires |d| % 4 == 0 || (|d| % 4 == 2 && pads >= 2) || (|d| % 4 == 3 && pads >= 1)
    ensures Unpacked(d, pads).Some?
  {
    if |d| >= 4 { LengthDecides(d[4..], pads); }
  }

  lemma CharsOfData(s: string)
    requires forall i :: 0 <= i < |s| ==> IsAlphabet(s[i])
    ensures Chars(Data(s)) == s
  {
    forall i | 0 <= i < |s| ensures Chars(Data(s))[i] == s[i] {
      CharOfSextet(s[i]);
    }
  }

  lemma CharsInjective(d: seq<sextet>, e: seq<sextet>)
    ensures Chars(d) == Chars(e) <==> d == e
  {
    if Chars(d) == Chars(e) {
      assert |d| == |e|;
      forall i | 0 <= i < |d| ensures d[i] == e[i] {
        SextetOfChar(d[i]);
        SextetOfChar(e[i]);
        assert Chars(d)[i] == Chars(e)[i];
      }
    }
  }

  /**
   * Why both acceptors re-encode: changing the stray bits of an accepted token gives another text that the
   * decoder maps to the same bytes.
   */
  lemma DecoderIsNotInjective(s: string, last: sextet)
    requires ParseToken(s).Some? && last / 4 == Sextet(s[42]) / 4 && last != Sextet(s[42])
    ensures var t := s[..42] + [Char64(last), '='];
            TokenShaped(t) && t != s && Shaped(t) && Decode(t) == ParseToken(s) && ParseToken(t).None?
  {
    hide S0, S1, S2, S3, B0, B1, B2, Sextet, Unpacked;
    var t := s[..42] + [Char64(last), '='];
    SextetOfChar(last);
    SameDataBut(s, t, last);
    AcceptedTokens(s);
    AcceptedTokens(t);
    DecodeToken(s);
    DecodeToken(t);
    assert ParseToken(s) == Decode(s);
    LastBitsIgnored(Data(s[..42]), Sextet(s[42]), last, 1);
    assert t[42] == Char64(last);
    StrayBits(Sextet(s[42]), last);
    hide *;
  }

  lemma StrayBits(a: sextet, b: sextet)
    requires a % 4 == 0 && a / 4 == b / 4 && a != b
    ensures b % 4 != 0
  {
  }

  lemma DecodeToken(s: string)
    requires TokenShaped(s)
    ensures Shaped(s) && Decode(s) == Unpacked(Data(s[..43]), 1)
  {
    DataLengthIs(s, 43);
  }

  lemma SameDataBut(s: string, t: string, last: sextet)
    requires TokenShaped(s) && t == s[..42] + [Char64(last), '=']
    ensures TokenShaped(t)
    ensures Data(s[..43]) == Data(s[..42]) + [Sextet(s[42])] && Data(t[..43]) == Data(s[..42]) + [last]
  {
    SextetOfChar(last);
    assert forall i :: 0 <= i < 42 ==> t[i] == s[i];
  }

  lemma SecondByteIgnores(q: sextet, a: sextet, b: sextet)
    requires a / 4 == b / 4
    ensures B1(q, a) == B1(q, b)
  {
  }

  lemma {:induction false} LastBitsIgnored(front: seq<sextet>, a: sextet, b: sextet, pads: nat)
    requires |front| % 4 == 2 && a / 4 == b / 4
    ensures Unpacked(front + [a], pads) == Unpacked(front + [b], pads)
  {
    hide S0, S1, S2, S3, B0, B1, B2;
    if |front| == 2 {
      SecondByteIgnores(front[1], a, b);
    } else {
      assert (front + [a])[4..] == front[4..] + [a] && (front + [b])[4..] == front[4..] + [b];
      LastBitsIgnored(front[4..], a, b, pads);
    }
  }
}
