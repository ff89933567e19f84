/** The allowlist gate: JPEG or PNG, whole and with nothing behind it. */
module AttachmentMime {
  import opened Bytes
  import opened Wrappers
  import Jpeg
  import Png

  const MAX_PLAINTEXT_BYTES: nat := 5 * 1024 * 1024

  datatype Mime = ImageJpeg | ImagePng
  datatype MimeError = ValueInvalid | TooLarge | MimeDenied

  method DetectAttachmentMime(data: seq<byte>) returns (r: Result<Mime, MimeError>)
    ensures r == Detected(data)
  {
    if data == [] { return Err(ValueInvalid); }
    if |data| > MAX_PLAINTEXT_BYTES { return Err(TooLarge); }
    FirstByte(data);
    if |data| >= 2 && data[..2] == [0xFF, 0xD8] {
      assert data[0] == data[..2][0];
      hide Jpeg.Accepts, Png.Accepts;
      var jpeg := Jpeg.IsValidJpeg(data);
      return if jpeg then Ok(ImageJpeg) else Err(MimeDenied);
    }
    if |data| >= 8 && data[..8] == Png.SIGNATURE {
      hide Jpeg.Accepts, Png.Accepts;
      var png := Png.IsValidPng(data);
      return if png then Ok(ImagePng) else Err(MimeDenied);
    }
    r := Err(MimeDenied);
  }

  function Detected(data: seq<byte>): Result<Mime, MimeError> {
    if data == [] then Err(ValueInvalid)
    else if |data| > MAX_PLAINTEXT_BYTES then Err(TooLarge)
    else if Jpeg.Accepts(data) then Ok(ImageJpeg)
    else if Png.Accepts(data) then Ok(ImagePng)
    else Err(MimeDenied)
  }

  /** The two kinds differ in their first byte. */
  lemma FirstByte(data: seq<byte>)
    ensures Jpeg.Accepts(data) ==> |data| >= 2 && data[0] == 0xFF
    ensures Png.Accepts(data) ==> |data| >= 8 && data[0] == 0x89
  {
    hide Jpeg.AcceptsBody, Png.ReadChunk;
    if Jpeg.Accepts(data) {
      assert data[0] == data[..2][0];
    } else if Png.Accepts(data) {
      assert data[0] == data[..8][0];
    }
    assert |data| >= 2 && data[..2] == [0xFF, 0xD8] ==> data[0] == data[..2][0] == 0xFF;
  }

  /** What is accepted and what refused, by the grammars and the size alone: no string is of both kinds. */
  lemma DetectedIffGrammar(data: seq<byte>)
    ensures Detected(data) == Err(ValueInvalid) <==> |data| == 0
    ensures Detected(data) == Err(TooLarge) <==> |data| > 5_242_880
    ensures Detected(data) == Ok(ImageJpeg)
            <==> |data| <= 5_242_880 && exists image :: Jpeg.WellFormed(image) && Jpeg.ImageBytes(image) == data
    ensures Detected(data) == Ok(ImagePng)
            <==> |data| <= 5_242_880 && exists chunks :: Png.WellFormed(chunks) && Png.FileBytes(chunks) == data
  {
    hide Jpeg.Accepts, Png.Accepts;
    Jpeg.AcceptsIffGrammar(data);
    Png.AcceptsIffChunkList(data);
    FirstByte(data);
  }

  /** The accepted set is prefix-free across both kinds: nothing can ride behind an accepted file. */
  lemma PrefixFree(a: seq<byte>, b: seq<byte>)
    requires Detected(a).Ok? && Detected(a + b).Ok?
    ensures b == []
  {
    hide Jpeg.Accepts, Png.Accepts;
    FirstByte(a);
    FirstByte(a + b);
    assert (a + b)[0] == a[0];
    if Jpeg.Accepts(a) { Jpeg.PrefixFree(a, b); } else { Png.PrefixFree(a, b); }
  }
}
