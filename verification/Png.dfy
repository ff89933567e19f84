/** The PNG recogniser, the chunk lists it accepts (section 5 of the W3C PNG Specification), and why they agree. */
module Png {
  import opened Bytes
  import opened Crc
  import opened Wrappers

  const SIGNATURE: seq<byte> := [0x89, 0x50, 0x4E, 0x47, 0x0D, 0x0A, 0x1A, 0x0A]

  /** Chunk types, read as big-endian numbers. */
  const IHDR: int := 0x4948_4452
  const IDAT: int := 0x4944_4154
  const IEND: int := 0x4945_4E44

  function Ascii(s: string): (r: seq<byte>)
    requires forall i :: 0 <= i < |s| ==> s[i] < 128 as char
    ensures |r| == |s|
  {
    if s == "" then [] else [s[0] as byte] + Ascii(s[1..])
  }

  /** The chunk types spell their names, and the signature its own. */
  lemma NamesSpelled()
    ensures U32(IHDR) == Ascii("IHDR") && U32(IDAT) == Ascii("IDAT") && U32(IEND) == Ascii("IEND")
    ensures SIGNATURE == [0x89] + Ascii("PNG\r\n") + [0x1A] + Ascii("\n")
  {
    assert Ascii("IHDR") == [0x49, 0x48, 0x44, 0x52];
    assert Ascii("IDAT") == [0x49, 0x44, 0x41, 0x54];
    assert Ascii("IEND") == [0x49, 0x45, 0x4E, 0x44];
    assert Ascii("PNG\r\n") == [0x50, 0x4E, 0x47, 0x0D, 0x0A];
  }

  // --- chunk lists -------------------------------------------------------------------------------

  datatype Chunk = Chunk(ctype: int, payload: seq<byte>)

  predicate Fits(c: Chunk) {
    0 <= c.ctype < 0x1_0000_0000 && |c.payload| < 0x1_0000_0000
  }

  predicate AllFit(chunks: seq<Chunk>) {
    forall i :: 0 <= i < |chunks| ==> Fits(chunks[i])
  }

  /** Neither the width nor the height is all zeros. */
  predicate HeaderOk(c: Chunk) {
    && c.ctype == IHDR && |c.payload| == 13
    && c.payload[..4] != [0, 0, 0, 0] && c.payload[4..8] != [0, 0, 0, 0]
  }

  /** IHDR first and only there; no empty IDAT; at least one IDAT; IEND last, empty, and only there. */
  predicate WellFormed(chunks: seq<Chunk>) {
    && |chunks| >= 3 && AllFit(chunks) && HeaderOk(chunks[0])
    && TailOk(chunks[1..], false)
  }

  predicate MiddleOk(c: Chunk) {
    c.ctype != IHDR && c.ctype != IEND && (c.ctype == IDAT ==> c.payload != [])
  }

  predicate TailOk(chunks: seq<Chunk>, sawIdat: bool) {
    && chunks != []
    && chunks[|chunks| - 1] == Chunk(IEND, [])
    && (forall i :: 0 <= i < |chunks| - 1 ==> MiddleOk(chunks[i]))
    && (sawIdat || exists i :: 0 <= i < |chunks| - 1 && chunks[i].ctype == IDAT)
  }

  /** Length, type, payload, and the CRC of type and payload. */
  function ChunkBytes(c: Chunk): (r: seq<byte>)
    requires Fits(c)
    ensures |r| == |c.payload| + 12
  {
    U32(|c.payload|) + U32(c.ctype) + c.payload + U32(Crc32(U32(c.ctype) + c.payload, 0) as int)
  }

  function ChunksBytes(chunks: seq<Chunk>): seq<byte>
    requires AllFit(chunks)
  {
    if chunks == [] then [] else ChunkBytes(chunks[0]) + ChunksBytes(chunks[1..])
  }

  // --- the recogniser, on what is left of the data -----------------------------------------------

  /** The first chunk and what follows it, if lengths and CRC are right. */
  function ReadChunk(s: seq<byte>): (r: Option<(Chunk, seq<byte>)>)
    ensures r.Some? ==> Fits(r.value.0) && |r.value.1| == |s| - 12 - |r.value.0.payload|
  {
    if |s| < 12 then None else
    var end := 8 + ReadU32(s);
    if end + 4 > |s| then None
    else if ReadU32(s[end..]) != Crc32(s[8..end], Crc32(s[4..8], 0)) as int then None
    else Some((Chunk(ReadU32(s[4..8]), s[8..end]), s[end + 4..]))
  }

  predicate AcceptsTail(s: seq<byte>, sawIdat: bool)
    decreases |s|
  {
    match ReadChunk(s)
    case None => false
    case Some((c, rest)) =>
      if c.ctype == IHDR then false
      else if c.ctype == IDAT then c.payload != [] && AcceptsTail(rest, true)
      else if c.ctype == IEND then c.payload == [] && sawIdat && rest == []
      else AcceptsTail(rest, sawIdat)
  }

  predicate Accepts(data: seq<byte>) {
    && |data| >= 8 && data[..8] == SIGNATURE
    && var first := ReadChunk(data[8..]);
       first.Some? && HeaderRead(first.value.0) && AcceptsTail(first.value.1, false)
  }

  predicate HeaderRead(c: Chunk) {
    c.ctype == IHDR && |c.payload| == 13 && ReadU32(c.payload) != 0 && ReadU32(c.payload[4..]) != 0
  }

  lemma HeaderAgrees(c: Chunk)
    ensures HeaderRead(c) <==> HeaderOk(c)
  {
    if |c.payload| == 13 {
      assert U32(0) == [0, 0, 0, 0] && c.payload[4..][..4] == c.payload[4..8];
      U32RoundTrip(c.payload, 0);
      U32RoundTrip(c.payload[4..], 0);
    }
  }

  lemma ChunkAt(data: seq<byte>, offset: nat)
    requires offset <= |data|
    ensures ReadChunk(data[offset..]) ==
            if offset + 12 > |data| then None else
            var end := offset + 8 + ReadU32(data[offset..offset + 4]);
            if end + 4 > |data| then None
            else if ReadU32(data[end..end + 4]) !=
                    Crc32(data[offset + 8..end], Crc32(data[offset + 4..offset + 8], 0)) as int then None
            else Some((Chunk(ReadU32(data[offset + 4..offset + 8]), data[offset + 8..end]), data[end + 4..]))
  {
    hide Crc32;
    var s := data[offset..];
    if |s| >= 12 {
      assert ReadU32(s) == ReadU32(data[offset..offset + 4]);
      var end := 8 + ReadU32(s);
      if end + 4 <= |s| {
        assert ReadU32(s[end..]) == ReadU32(data[offset + end..offset + end + 4]);
        assert s[8..end] == data[offset + 8..offset + end] && s[4..8] == data[offset + 4..offset + 8];
        assert s[end + 4..] == data[offset + end + 4..];
      }
    }
  }

  /** Lengths and CRC of the chunk at `offset`. */
  method CheckChunk(data: seq<byte>, offset: nat) returns (ok: bool, length: nat, crcEnd: nat)
    requires offset + 12 <= |data|
    ensures ok == ReadChunk(data[offset..]).Some?
    ensures ok ==> crcEnd == offset + length + 12 <= |data|
    ensures ok ==> ReadChunk(data[offset..]) ==
                   Some((Chunk(ReadU32(data[offset + 4..offset + 8]), data[offset + 8..offset + 8 + length]), data[crcEnd..]))
  {
    hide Crc32;
    ChunkAt(data, offset);
    length := ReadU32(data[offset..offset + 4]);
    var ctype := data[offset + 4..offset + 8];
    var dataStart := offset + 8;
    var dataEnd := dataStart + length;
    crcEnd := dataEnd + 4;
    if crcEnd > |data| { return false, length, crcEnd; }
    var declared := ReadU32(data[dataEnd..crcEnd]);
    var actual := Crc32(ctype, 0);
    actual := Crc32(data[dataStart..dataEnd], actual);
    ok := declared == actual as int;
  }

  /** The cursor loop of the source, flags and all. */
  method IsValidPng(data: seq<byte>) returns (valid: bool)
    ensures valid == Accepts(data)
  {
    if |data| < 8 || data[..8] != SIGNATURE { return false; }
    var offset := 8;
    var sawIhdr, sawIdat, firstChunk := false, false, true;
    while offset + 12 <= |data|
      invariant 8 <= offset <= |data| && sawIhdr == !firstChunk
      invariant firstChunk ==> offset == 8 && !sawIdat
      invariant !firstChunk ==> AcceptsTail(data[offset..], sawIdat) == Accepts(data)
      decreases |data| - offset
    {
      var ok, length, crcEnd := CheckChunk(data, offset);
      hide ReadChunk;
      if !ok { return false; }
      var ctype := ReadU32(data[offset + 4..offset + 8]);
      if firstChunk {
        if ctype != IHDR || length != 13 { return false; }
        var payload := data[offset + 8..offset + 8 + length];
        var width, height := ReadU32(payload[..4]), ReadU32(payload[4..8]);
        assert width == ReadU32(payload) && height == ReadU32(payload[4..]);
        if width == 0 || height == 0 { return false; }
        sawIhdr, firstChunk := true, false;
      } else {
        if ctype == IHDR { return false; }
        if ctype == IDAT {
          if length == 0 { return false; }
          sawIdat := true;
        }
        if ctype == IEND {
          if length != 0 { return false; }
          return sawIhdr && sawIdat && crcEnd == |data|;
        }
      }
      offset := crcEnd;
    }
    return false;
  }

  // --- the recogniser accepts exactly the grammar --------------------------------------------------

  lemma ChunkComplete(c: Chunk, rest: seq<byte>)
    requires Fits(c)
    ensures ReadChunk(ChunkBytes(c) + rest) == Some((c, rest))
  {
    hide Crc32;
    var s := ChunkBytes(c) + rest;
    var n := |c.payload|;
    var crc := Crc32(U32(c.ctype) + c.payload, 0) as int;
    CrcIncremental(U32(c.ctype), c.payload);
    assert s[..4] == U32(n);
    U32RoundTrip(s, n);
    assert s[4..8] == U32(c.ctype) && s[8..8 + n] == c.payload;
    assert s[4..8][..4] == s[4..8];
    U32RoundTrip(s[4..8], c.ctype);
    assert s[8 + n..][..4] == U32(crc);
    U32RoundTrip(s[8 + n..], crc);
    assert s[8 + n + 4..] == rest;
  }

  lemma ChunkSound(s: seq<byte>)
    requires ReadChunk(s).Some?
    ensures var (c, rest) := ReadChunk(s).value; s == ChunkBytes(c) + rest
  {
    hide Crc32;
    var (c, rest) := ReadChunk(s).value;
    var end := 8 + ReadU32(s);
    CrcIncremental(s[4..8], c.payload);
    U32RoundTrip(s, ReadU32(s));
    assert s[4..8][..4] == s[4..8];
    U32RoundTrip(s[4..8], c.ctype);
    U32RoundTrip(s[end..], ReadU32(s[end..]));
    assert s[end..][..4] == s[end..end + 4];
    assert s == s[..4] + s[4..8] + s[8..end] + s[end..end + 4] + s[end + 4..];
  }

  lemma {:induction false} TailComplete(chunks: seq<Chunk>, sawIdat: bool)
    requires AllFit(chunks) && TailOk(chunks, sawIdat)
    ensures AcceptsTail(ChunksBytes(chunks), sawIdat)
    decreases |chunks|
  {
    hide Crc32;
    var (c, rest) := (chunks[0], chunks[1..]);
    ChunkComplete(c, ChunksBytes(rest));
    if |chunks| > 1 {
      assert MiddleOk(c) && rest[|rest| - 1] == chunks[|chunks| - 1];
      forall i | 0 <= i < |rest| - 1 ensures MiddleOk(rest[i]) { assert rest[i] == chunks[i + 1]; }
      if !sawIdat && c.ctype != IDAT {
        var i :| 0 <= i < |chunks| - 1 && chunks[i].ctype == IDAT;
        assert rest[i - 1].ctype == IDAT;
      }
      TailComplete(rest, sawIdat || c.ctype == IDAT);
    } else {
        assert rest == [];
    }
  }

  lemma TailInFront(c: Chunk, tail: seq<Chunk>, sawIdat: bool)
    requires MiddleOk(c) && TailOk(tail, sawIdat || c.ctype == IDAT)
    ensures TailOk([c] + tail, sawIdat)
  {
    var chunks := [c] + tail;
    assert chunks[|chunks| - 1] == tail[|tail| - 1];
    forall i | 0 <= i < |chunks| - 1 ensures MiddleOk(chunks[i]) { if i > 0 { assert chunks[i] == tail[i - 1]; } }
    if !sawIdat {
      if c.ctype == IDAT {
        assert chunks[0].ctype == IDAT;
      } else {
        var i :| 0 <= i < |tail| - 1 && tail[i].ctype == IDAT;
        assert chunks[i + 1].ctype == IDAT;
      }
    }
  }

  lemma {:induction false} TailSound(s: seq<byte>, sawIdat: bool) returns (chunks: seq<Chunk>)
    requires AcceptsTail(s, sawIdat)
    ensures AllFit(chunks) && TailOk(chunks, sawIdat) && ChunksBytes(chunks) == s
    decreases |s|
  {
    hide Crc32;
    var (c, rest) := ReadChunk(s).value;
    ChunkSound(s);
    hide ReadChunk;
    if c.ctype == IEND {
      chunks := [c];
      assert chunks[1..] == [] && ChunksBytes([]) == [] && ChunksBytes(chunks) == ChunkBytes(c) + [];
    } else {
      var tail := TailSound(rest, sawIdat || c.ctype == IDAT);
      chunks := [c] + tail;
      TailInFront(c, tail, sawIdat);
      assert chunks[1..] == tail && chunks[0] == c;
    }
  }

  function FileBytes(chunks: seq<Chunk>): seq<byte>
    requires AllFit(chunks)
  {
    SIGNATURE + ChunksBytes(chunks)
  }

  lemma ListSound(data: seq<byte>) returns (chunks: seq<Chunk>)
    requires Accepts(data)
    ensures WellFormed(chunks) && FileBytes(chunks) == data
  {
    hide Crc32, ReadChunk, AcceptsTail, TailOk, ChunksBytes, ChunkBytes;
    var (first, rest) := ReadChunk(data[8..]).value;
    ChunkSound(data[8..]);
    HeaderAgrees(first);
    var tail := TailSound(rest, false);
    ChunkInFront(first, tail);
    TailHasTwo(tail);
    chunks := [first] + tail;
    assert chunks[0] == first && chunks[1..] == tail && data == data[..8] + data[8..];
  }

  lemma TailHasTwo(tail: seq<Chunk>)
    requires TailOk(tail, false)
    ensures |tail| >= 2
  {
  }

  lemma ChunkInFront(c: Chunk, tail: seq<Chunk>)
    requires Fits(c) && AllFit(tail)
    ensures AllFit([c] + tail) && ChunksBytes([c] + tail) == ChunkBytes(c) + ChunksBytes(tail)
  {
    hide ChunkBytes, Fits;
    assert ([c] + tail)[1..] == tail && ([c] + tail)[0] == c;
  }

  lemma ListComplete(chunks: seq<Chunk>)
    requires WellFormed(chunks)
    ensures Accepts(FileBytes(chunks))
  {
    hide Crc32;
    var data := FileBytes(chunks);
    assert data[8..] == ChunksBytes(chunks) && data[..8] == SIGNATURE;
    ChunkComplete(chunks[0], ChunksBytes(chunks[1..]));
    HeaderAgrees(chunks[0]);
    hide ReadChunk, AcceptsTail;
    TailComplete(chunks[1..], false);
  }

  /** The recogniser accepts a string iff it is the serialisation of a well-formed chunk list. */
  lemma AcceptsIffChunkList(data: seq<byte>)
    ensures Accepts(data) <==> exists chunks :: WellFormed(chunks) && FileBytes(chunks) == data
  {
    hide Accepts, ChunksBytes, TailOk;
    if Accepts(data) {
      var chunks := ListSound(data);
    }
    if exists chunks :: WellFormed(chunks) && FileBytes(chunks) == data {
      var chunks :| WellFormed(chunks) && FileBytes(chunks) == data;
      ListComplete(chunks);
    }
  }

  /** A byte string is the serialisation of at most one chunk list. */
  lemma {:induction false} ChunkListUnique(a: seq<Chunk>, b: seq<Chunk>)
    requires AllFit(a) && AllFit(b) && ChunksBytes(a) == ChunksBytes(b)
    ensures a == b
    decreases |a|
  {
    hide Crc32;
    if a != [] { ChunkComplete(a[0], ChunksBytes(a[1..])); }
    if b != [] { ChunkComplete(b[0], ChunksBytes(b[1..])); }
    if a != [] && b != [] {
      ChunkListUnique(a[1..], b[1..]);
      assert a == [a[0]] + a[1..] && b == [b[0]] + b[1..];
    }
  }

  // --- nothing may follow an accepted string ---------------------------------------------------------

  lemma ChunkOfPrefix(s: seq<byte>, b: seq<byte>)
    requires ReadChunk(s).Some?
    ensures ReadChunk(s + b) == Some((ReadChunk(s).value.0, ReadChunk(s).value.1 + b))
  {
    hide Crc32;
    var (c, rest) := ReadChunk(s).value;
    ChunkSound(s);
    assert s + b == ChunkBytes(c) + (rest + b);
    ChunkComplete(c, rest + b);
  }

  lemma {:induction false} TailPrefixFree(s: seq<byte>, b: seq<byte>, sawIdat: bool)
    requires AcceptsTail(s, sawIdat) && b != []
    ensures !AcceptsTail(s + b, sawIdat)
    decreases |s|
  {
    hide Crc32;
    ChunkOfPrefix(s, b);
    var (c, rest) := ReadChunk(s).value;
    if rest != [] { TailPrefixFree(rest, b, sawIdat || c.ctype == IDAT); }
  }

  lemma PrefixFree(a: seq<byte>, b: seq<byte>)
    requires Accepts(a) && Accepts(a + b)
    ensures b == []
  {
    hide ReadChunk;
    assert (a + b)[8..] == a[8..] + b;
    ChunkOfPrefix(a[8..], b);
    if b != [] { TailPrefixFree(ReadChunk(a[8..]).value.1, b, false); }
  }
}
