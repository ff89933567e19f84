/** Spool file names: an object id printed as a UUID, and the parser that accepts exactly the printed names. */
module SpoolNames {
  import opened Bytes
  import opened Wrappers

  datatype Suffix = Tmp | Bin

  predicate IsHex(c: char) {
    '0' <= c <= '9' || 'a' <= c <= 'f'
  }

  predicate AllHex(s: string) {
    forall i :: 0 <= i < |s| ==> IsHex(s[i])
  }

  function HexDigit(n: int): (c: char)
    requires 0 <= n < 16
    ensures IsHex(c) && DigitOf(c) == n
  {
    if n < 10 then '0' + n as char else 'a' + (n - 10) as char
  }

  function DigitOf(c: char): (n: int)
    requires IsHex(c)
    ensures 0 <= n < 16
  {
    if c <= '9' then (c - '0') as int else (c - 'a') as int + 10
  }

  function Hex(bytes: seq<byte>): (s: string)
    ensures |s| == 2 * |bytes| && AllHex(s)
  {
    if bytes == [] then "" else [HexDigit(bytes[0] / 16), HexDigit(bytes[0] % 16)] + Hex(bytes[1..])
  }

  function Unhex(s: string): (bytes: seq<byte>)
    requires AllHex(s) && |s| % 2 == 0
    ensures |bytes| * 2 == |s|
  {
    if s == "" then [] else [DigitOf(s[0]) * 16 + DigitOf(s[1])] + Unhex(s[2..])
  }

  /** Two lower-case hexadecimal digits a byte, the high one first. */
  lemma {:induction false} HexAt(bytes: seq<byte>, i: nat)
    requires i < |bytes|
    ensures Hex(bytes)[2 * i] == "0123456789abcdef"[bytes[i] / 16]
    ensures Hex(bytes)[2 * i + 1] == "0123456789abcdef"[bytes[i] % 16]
  {
    if i > 0 {
      HexAt(bytes[1..], i - 1);
    } else {
      HexTable(bytes[0] / 16);
      HexTable(bytes[0] % 16);
    }
  }

  lemma HexTable(n: int)
    requires 0 <= n < 16
    ensures HexDigit(n) == "0123456789abcdef"[n]
  {
  }

  lemma {:induction false} UnhexHex(bytes: seq<byte>)
    ensures Unhex(Hex(bytes)) == bytes
  {
    if bytes != [] {
      assert Hex(bytes)[2..] == Hex(bytes[1..]);
      UnhexHex(bytes[1..]);
    }
  }

  lemma HexPair(a: char, b: char)
    requires IsHex(a) && IsHex(b)
    ensures var n := DigitOf(a) * 16 + DigitOf(b);
            0 <= n < 256 && HexDigit(n / 16) == a && HexDigit(n % 16) == b
  {
    var n := DigitOf(a) * 16 + DigitOf(b);
    assert n / 16 == DigitOf(a) && n % 16 == DigitOf(b);
  }

  lemma {:induction false} HexUnhex(s: string)
    requires AllHex(s) && |s| % 2 == 0
    ensures Hex(Unhex(s)) == s
  {
    if s != "" {
      HexUnhex(s[2..]);
      HexPair(s[0], s[1]);
      assert Unhex(s)[1..] == Unhex(s[2..]) && Unhex(s)[0] == DigitOf(s[0]) * 16 + DigitOf(s[1]);
      hide Unhex, HexDigit, DigitOf, IsHex;
      assert s == [s[0], s[1]] + s[2..];
    }
  }

  // --- the UUID form: 8-4-4-4-12 -----------------------------------------------------------------

  predicate IsDash(i: int) {
    i == 8 || i == 13 || i == 18 || i == 23
  }

  /** The regular expression of the source. */
  predicate UuidShaped(s: string) {
    |s| == 36 && forall i :: 0 <= i < 36 ==> if IsDash(i) then s[i] == '-' else IsHex(s[i])
  }

  function Dashed(h: string): (s: string)
    requires |h| == 32 && AllHex(h)
    ensures UuidShaped(s)
  {
    h[..8] + "-" + h[8..12] + "-" + h[12..16] + "-" + h[16..20] + "-" + h[20..]
  }

  function Undashed(s: string): (h: string)
    requires UuidShaped(s)
    ensures |h| == 32 && AllHex(h)
  {
    s[..8] + s[9..13] + s[14..18] + s[19..23] + s[24..]
  }

  lemma UndashedDashed(h: string)
    requires |h| == 32 && AllHex(h)
    ensures Undashed(Dashed(h)) == h
  {
    var s := Dashed(h);
    assert s[..8] == h[..8] && s[9..13] == h[8..12] && s[14..18] == h[12..16] && s[19..23] == h[16..20] && s[24..] == h[20..];
  }

  lemma DashedUndashed(s: string)
    requires UuidShaped(s)
    ensures Dashed(Undashed(s)) == s
  {
    var h := Undashed(s);
    assert h[..8] == s[..8] && h[8..12] == s[9..13] && h[12..16] == s[14..18] && h[16..20] == s[19..23] && h[20..] == s[24..];
  }

  type ObjectId = id: seq<byte> | |id| == 16 witness seq(16, i => 0)

  function UuidText(id: ObjectId): (s: string)
    ensures UuidShaped(s)
  {
    Dashed(Hex(id))
  }

  lemma {:induction false} HexAppend(a: seq<byte>, b: seq<byte>)
    ensures Hex(a + b) == Hex(a) + Hex(b)
  {
    if a == [] {
      assert a + b == b;
    } else {
      assert (a + b)[1..] == a[1..] + b;
      HexAppend(a[1..], b);
    }
  }

  lemma HexSlice(id: ObjectId, i: nat, j: nat)
    requires i <= j <= 16
    ensures Hex(id)[2 * i..2 * j] == Hex(id[i..j])
  {
    hide HexDigit;
    HexAppend(id[..i], id[i..j]);
    HexAppend(id[..j], id[j..]);
    assert id == id[..j] + id[j..] && id[..j] == id[..i] + id[i..j];
  }

  /** An object id in groups of 4, 2, 2, 2 and 6 bytes; its shard is the first byte. */
  lemma NamesExactly(id: ObjectId)
    ensures UuidText(id) == Hex(id[..4]) + "-" + Hex(id[4..6]) + "-" + Hex(id[6..8]) + "-" + Hex(id[8..10]) + "-" + Hex(id[10..])
    ensures RelPath(id, Tmp) == Hex(id[..1]) + "/" + UuidText(id) + ".tmp"
    ensures RelPath(id, Bin) == Hex(id[..1]) + "/" + UuidText(id) + ".bin"
  {
    HexSlice(id, 0, 1);
    HexSlice(id, 0, 4);
    HexSlice(id, 4, 6);
    HexSlice(id, 6, 8);
    HexSlice(id, 8, 10);
    HexSlice(id, 10, 16);
    assert id[0..4] == id[..4] && id[0..1] == id[..1] && id[10..16] == id[10..];
    hide Hex;
    assert Hex(id)[20..32] == Hex(id)[20..];
    assert RelPath(id, Tmp) == Hex(id)[..2] + "/" + (UuidText(id) + ".tmp");
    assert RelPath(id, Bin) == Hex(id)[..2] + "/" + (UuidText(id) + ".bin");
  }

  function SuffixText(suffix: Suffix): (s: string)
    ensures |s| == 4
  {
    if suffix == Tmp then ".tmp" else ".bin"
  }

  function FileName(id: ObjectId, suffix: Suffix): string {
    UuidText(id) + SuffixText(suffix)
  }

  function Shard(id: ObjectId): string {
    Hex(id)[..2]
  }

  /** `temp_relpath` and `final_relpath`. */
  function RelPath(id: ObjectId, suffix: Suffix): string {
    Shard(id) + "/" + FileName(id, suffix)
  }

  function ParseObjectFilename(name: string): Option<(ObjectId, Suffix)> {
    if |name| < 4 then None else
    var (stem, tail) := (name[..|name| - 4], name[|name| - 4..]);
    if tail != ".tmp" && tail != ".bin" then None
    else if !UuidShaped(stem) then None
    else Some((Unhex(Undashed(stem)), if tail == ".tmp" then Tmp else Bin))
  }

  lemma UuidTextInverse(id: ObjectId)
    ensures Unhex(Undashed(UuidText(id))) == id
  {
    UndashedDashed(Hex(id));
    UnhexHex(id);
  }

  lemma UuidTextOnto(s: string)
    requires UuidShaped(s)
    ensures UuidText(Unhex(Undashed(s))) == s
  {
    HexUnhex(Undashed(s));
    DashedUndashed(s);
  }

  /** A name is parsed iff it is the printed form, and then to what it was printed from. */
  lemma ParsesExactlyPrintedNames(name: string, id: ObjectId, suffix: Suffix)
    ensures ParseObjectFilename(name) == Some((id, suffix)) <==> name == FileName(id, suffix)
  {
    if ParseObjectFilename(name) == Some((id, suffix)) {
      var stem := name[..|name| - 4];
      UuidTextOnto(stem);
      assert name == stem + name[|name| - 4..];
    }
    if name == FileName(id, suffix) {
      UuidTextInverse(id);
      assert name[..|name| - 4] == UuidText(id) && name[|name| - 4..] == SuffixText(suffix);
    }
  }

  /** No two objects, and no temp and final file, share a path. */
  lemma RelPathsDistinct(a: ObjectId, s: Suffix, b: ObjectId, t: Suffix)
    requires RelPath(a, s) == RelPath(b, t)
    ensures a == b && s == t
  {
    assert RelPath(a, s)[3..] == FileName(a, s) && RelPath(b, t)[3..] == FileName(b, t);
    ParsesExactlyPrintedNames(FileName(a, s), a, s);
    ParsesExactlyPrintedNames(FileName(a, s), b, t);
  }
}
