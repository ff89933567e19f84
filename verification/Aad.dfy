/** Associated data that binds a ciphertext to its context: equal bytes mean equal fields. */
module Aad {
  import opened Bytes
  import opened SpoolNames
  import opened Text
  import Utf8

  /** Key ids of both kinds of associated data: up to 64 of `0-9A-Z_`. */
  predicate KeyIdOk(key: string) {
    0 < |key| <= 64 && forall i :: 0 <= i < |key| ==> '0' <= key[i] <= '9' || 'A' <= key[i] <= 'Z' || key[i] == '_'
  }

  lemma KeyIdHasNo(key: string, sep: char)
    requires KeyIdOk(key) && (sep == '|' || sep == '\n')
    ensures sep !in key && (sep == '\n' ==> OneLine(key))
  {
  }

  // --- OAuth tokens --------------------------------------------------------------------------------

  datatype TokenKind = Access | Refresh
  datatype OauthAad = OauthAad(cryptoVersion: int, keyId: string, connectionScope: string, tokenKind: TokenKind)

  /** Any text without whitespace or control characters; it may hold the separator. */
  predicate ScopeOk(scope: string) {
    0 < |scope| <= 64 && forall i :: 0 <= i < |scope| ==> !IsSpace(scope[i]) && scope[i] as int >= 33
  }

  predicate OauthAadOk(aad: OauthAad) {
    aad.cryptoVersion == 1 && KeyIdOk(aad.keyId) && ScopeOk(aad.connectionScope)
  }

  function KindText(kind: TokenKind): string {
    if kind == Access then "ACCESS" else "REFRESH"
  }

  function OauthText(aad: OauthAad): string
    requires aad.cryptoVersion >= 0
  {
    "v" + Decimal(aad.cryptoVersion) + "|" + (aad.keyId + "|" + (aad.connectionScope + "|" + KindText(aad.tokenKind)))
  }

  /** `to_bytes`. */
  function OauthBytes(aad: OauthAad): seq<byte>
    requires aad.cryptoVersion >= 0
  {
    Utf8.Encode(OauthText(aad))
  }

  lemma KindTextFacts(a: TokenKind, b: TokenKind)
    ensures '|' !in KindText(a) && '|' !in KindText(b) && (KindText(a) == KindText(b) ==> a == b)
  {
    assert |"ACCESS"| != |"REFRESH"|;
  }

  lemma OauthTextExactly(aad: OauthAad)
    requires OauthAadOk(aad)
    ensures OauthText(aad)
            == "v1|" + aad.keyId + "|" + aad.connectionScope + "|" + (if aad.tokenKind.Access? then "ACCESS" else "REFRESH")
  {
    assert Decimal(1) == "1";
    hide Decimal;
  }

  lemma CancelPrefix(p: string, a: string, b: string)
    requires p + a == p + b
    ensures a == b
  {
    assert a == (p + a)[|p|..] && b == (p + b)[|p|..];
  }

  /** On validated fields the bytes determine every field, although a scope may contain `|`. */
  lemma OauthAadInjective(a: OauthAad, b: OauthAad)
    requires OauthAadOk(a) && OauthAadOk(b) && OauthBytes(a) == OauthBytes(b)
    ensures a == b
  {
    Utf8.EncodeInjective(OauthText(a), OauthText(b));
    OauthTextInjective(a, b);
  }

  lemma OauthTextInjective(a: OauthAad, b: OauthAad)
    requires OauthAadOk(a) && OauthAadOk(b) && OauthText(a) == OauthText(b)
    ensures a == b
  {
    hide Decimal, KeyIdOk, KindText;
    var (endA, endB) := (a.connectionScope + "|" + KindText(a.tokenKind), b.connectionScope + "|" + KindText(b.tokenKind));
    var version := "v" + Decimal(1);
    CancelPrefix(version + "|", a.keyId + "|" + endA, b.keyId + "|" + endB);
    KeyIdHasNo(a.keyId, '|');
    KeyIdHasNo(b.keyId, '|');
    SplitAtSeparator(a.keyId, endA, b.keyId, endB, '|');
    KindTextFacts(a.tokenKind, b.tokenKind);
    SplitAtLastSeparator(a.connectionScope, KindText(a.tokenKind), b.connectionScope, KindText(b.tokenKind), '|');
  }

  /** The key id check is what makes it so: with a separator in a key id two contexts share one text. */
  lemma UncheckedKeyIdCollides()
    ensures var (a, b) := (OauthAad(1, "A|B", "C", Access), OauthAad(1, "A", "B|C", Access));
            a != b && OauthBytes(a) == OauthBytes(b) && ScopeOk(a.connectionScope) && ScopeOk(b.connectionScope)
  {
    var (a, b) := (OauthAad(1, "A|B", "C", Access), OauthAad(1, "A", "B|C", Access));
    hide Decimal;
    assert "A|B" + "|" + ("C" + "|" + "ACCESS") == "A" + "|" + ("B|C" + "|" + "ACCESS");
  }

  // --- attachments -----------------------------------------------------------------------------------

  const MAX_PLAINTEXT_BYTES: nat := 5 * 1024 * 1024

  datatype Kind = Image
  datatype Purpose = InboundRelay | OutboundDelivery
  datatype Mime = Jpeg | Png

  datatype AttachmentAad = AttachmentAad(
    cryptoVersion: int, recordId: ObjectId, objectId: ObjectId, keyId: string, kind: Kind, conversationId: ObjectId,
    purpose: Purpose, mime: Mime, plaintextSize: int)

  predicate AttachmentAadOk(aad: AttachmentAad) {
    aad.cryptoVersion >= 1 && KeyIdOk(aad.keyId) && 0 < aad.plaintextSize <= MAX_PLAINTEXT_BYTES
  }

  function PurposeText(purpose: Purpose): string {
    if purpose == InboundRelay then "INBOUND_ATTACHMENT_RELAY" else "OUTBOUND_ATTACHMENT_DELIVERY"
  }

  function MimeText(mime: Mime): string {
    if mime == Jpeg then "image/jpeg" else "image/png"
  }

  function Lines(aad: AttachmentAad): seq<string>
    requires AttachmentAadOk(aad)
  {
    ["attachment-aad-v1",
     "crypto_version=" + Decimal(aad.cryptoVersion),
     "record_id=" + UuidText(aad.recordId),
     "object_id=" + UuidText(aad.objectId),
     "key_id=" + aad.keyId,
     "kind=IMAGE",
     "conversation_id=" + UuidText(aad.conversationId),
     "purpose=" + PurposeText(aad.purpose),
     "mime=" + MimeText(aad.mime),
     "plaintext_size=" + Decimal(aad.plaintextSize)]
  }

  function Joined(lines: seq<string>, sep: char): string {
    if lines == [] then "" else if |lines| == 1 then lines[0] else lines[0] + [sep] + Joined(lines[1..], sep)
  }

  function AttachmentText(aad: AttachmentAad): string
    requires AttachmentAadOk(aad)
  {
    Joined(Lines(aad), '\n')
  }

  /** The ten lines in their order, with one newline between two and none at the end. */
  lemma AttachmentTextExactly(aad: AttachmentAad)
    requires AttachmentAadOk(aad)
    ensures AttachmentText(aad)
            == "attachment-aad-v1" + "\n" + ("crypto_version=" + Decimal(aad.cryptoVersion)
               + "\n" + ("record_id=" + UuidText(aad.recordId)
               + "\n" + ("object_id=" + UuidText(aad.objectId)
               + "\n" + ("key_id=" + aad.keyId
               + "\n" + ("kind=IMAGE"
               + "\n" + ("conversation_id=" + UuidText(aad.conversationId)
               + "\n" + ("purpose=" + PurposeText(aad.purpose)
               + "\n" + ("mime=" + MimeText(aad.mime)
               + "\n" + ("plaintext_size=" + Decimal(aad.plaintextSize))))))))))
  {
    hide Decimal, UuidText, PurposeText, MimeText, Joined;
    var lines := Lines(aad);
    hide Lines;
    LastLine(lines);
    JoinedFront(lines, 8);
    JoinedFront(lines, 7);
    JoinedFront(lines, 6);
    JoinedFront(lines, 5);
    JoinedFront(lines, 4);
    JoinedFront(lines, 3);
    JoinedFront(lines, 2);
    JoinedFront(lines, 1);
    JoinedFront(lines, 0);
    assert lines[0..] == lines;
  }

  lemma LastLine(lines: seq<string>)
    requires lines != []
    ensures Joined(lines[|lines| - 1..], '\n') == lines[|lines| - 1]
  {
  }

  lemma JoinedFront(lines: seq<string>, i: nat)
    requires i + 1 < |lines|
    ensures Joined(lines[i..], '\n') == lines[i] + "\n" + Joined(lines[i + 1..], '\n')
  {
    assert lines[i..][1..] == lines[i + 1..];
  }

  /** Joining is injective on lists of one length whose lines do not hold the separator. */
  lemma {:induction false} JoinedInjective(a: seq<string>, b: seq<string>, sep: char)
    requires |a| == |b| && Joined(a, sep) == Joined(b, sep)
    requires forall i :: 0 <= i < |a| ==> sep !in a[i] && sep !in b[i]
    ensures a == b
  {
    if |a| == 1 {
      assert a == [a[0]] && b == [b[0]];
    } else if |a| > 1 {
      SplitAtSeparator(a[0], Joined(a[1..], sep), b[0], Joined(b[1..], sep), sep);
      JoinedInjective(a[1..], b[1..], sep);
      assert a == [a[0]] + a[1..] && b == [b[0]] + b[1..];
    }
  }

  lemma UuidTextHasNoNewline(id: ObjectId)
    ensures OneLine(UuidText(id))
  {
    var s := UuidText(id);
    hide Hex, Dashed;
    forall i | 0 <= i < |s| ensures s[i] != '\n' {
      assert if IsDash(i) then s[i] == '-' else IsHex(s[i]);
    }
  }

  predicate OneLine(s: string) {
    '\n' !in s
  }

  lemma AppendOneLine(a: string, b: string)
    requires OneLine(a) && OneLine(b)
    ensures OneLine(a + b)
  {
  }

  lemma EnumTextsOneLine(aad: AttachmentAad)
    ensures OneLine(PurposeText(aad.purpose)) && OneLine(MimeText(aad.mime))
  {
  }

  lemma LabelsOneLine()
    ensures OneLine("attachment-aad-v1") && OneLine("crypto_version=") && OneLine("record_id=") && OneLine("object_id=")
    ensures OneLine("key_id=") && OneLine("kind=IMAGE") && OneLine("conversation_id=") && OneLine("purpose=")
    ensures OneLine("mime=") && OneLine("plaintext_size=")
  {
  }

  lemma LinesAreOneLine(aad: AttachmentAad)
    requires AttachmentAadOk(aad)
    ensures forall i :: 0 <= i < |Lines(aad)| ==> OneLine(Lines(aad)[i])
  {
    UuidTextHasNoNewline(aad.recordId);
    UuidTextHasNoNewline(aad.objectId);
    UuidTextHasNoNewline(aad.conversationId);
    KeyIdHasNo(aad.keyId, '\n');
    DigitsHaveNo(Decimal(aad.cryptoVersion), '\n');
    DigitsHaveNo(Decimal(aad.plaintextSize), '\n');
    assert OneLine(Decimal(aad.cryptoVersion)) && OneLine(Decimal(aad.plaintextSize));
    EnumTextsOneLine(aad);
    LabelsOneLine();
    hide UuidText, Decimal, KeyIdOk, OneLine, PurposeText, MimeText;
    AppendOneLine("crypto_version=", Decimal(aad.cryptoVersion));
    AppendOneLine("record_id=", UuidText(aad.recordId));
    AppendOneLine("object_id=", UuidText(aad.objectId));
    AppendOneLine("key_id=", aad.keyId);
    AppendOneLine("conversation_id=", UuidText(aad.conversationId));
    AppendOneLine("purpose=", PurposeText(aad.purpose));
    AppendOneLine("mime=", MimeText(aad.mime));
    AppendOneLine("plaintext_size=", Decimal(aad.plaintextSize));
  }

  lemma UuidTextInjective(a: ObjectId, b: ObjectId)
    requires UuidText(a) == UuidText(b)
    ensures a == b
  {
    UuidTextInverse(a);
    UuidTextInverse(b);
  }

  /** Equal lines, equal fields. */
  lemma LinesInjective(a: AttachmentAad, b: AttachmentAad)
    requires AttachmentAadOk(a) && AttachmentAadOk(b) && Lines(a) == Lines(b)
    ensures a == b
  {
    hide UuidText, Decimal, KeyIdOk, PurposeText, MimeText;
    var (x, y) := (Lines(a), Lines(b));
    assert forall i :: 0 <= i < 10 ==> x[i] == y[i];
    CancelPrefix("crypto_version=", Decimal(a.cryptoVersion), Decimal(b.cryptoVersion));
    DecimalInjective(a.cryptoVersion, b.cryptoVersion);
    CancelPrefix("record_id=", UuidText(a.recordId), UuidText(b.recordId));
    UuidTextInjective(a.recordId, b.recordId);
    CancelPrefix("object_id=", UuidText(a.objectId), UuidText(b.objectId));
    UuidTextInjective(a.objectId, b.objectId);
    CancelPrefix("key_id=", a.keyId, b.keyId);
    CancelPrefix("conversation_id=", UuidText(a.conversationId), UuidText(b.conversationId));
    UuidTextInjective(a.conversationId, b.conversationId);
    CancelPrefix("purpose=", PurposeText(a.purpose), PurposeText(b.purpose));
    CancelPrefix("mime=", MimeText(a.mime), MimeText(b.mime));
    EnumTextsInjective(a, b);
    CancelPrefix("plaintext_size=", Decimal(a.plaintextSize), Decimal(b.plaintextSize));
    DecimalInjective(a.plaintextSize, b.plaintextSize);
  }

  lemma EnumTextsInjective(a: AttachmentAad, b: AttachmentAad)
    requires PurposeText(a.purpose) == PurposeText(b.purpose) && MimeText(a.mime) == MimeText(b.mime)
    ensures a.purpose == b.purpose && a.mime == b.mime
  {
    assert |"INBOUND_ATTACHMENT_RELAY"| != |"OUTBOUND_ATTACHMENT_DELIVERY"|;
    assert |"image/jpeg"| != |"image/png"|;
  }

  /** `to_bytes`. */
  function AttachmentBytes(aad: AttachmentAad): seq<byte>
    requires AttachmentAadOk(aad)
  {
    Utf8.Encode(AttachmentText(aad))
  }

  /** On validated fields the bytes determine every field. */
  lemma AttachmentAadInjective(a: AttachmentAad, b: AttachmentAad)
    requires AttachmentAadOk(a) && AttachmentAadOk(b) && AttachmentBytes(a) == AttachmentBytes(b)
    ensures a == b
  {
    Utf8.EncodeInjective(AttachmentText(a), AttachmentText(b));
    LinesAreOneLine(a);
    LinesAreOneLine(b);
    assert |Lines(a)| == |Lines(b)| == 10;
    hide Lines;
    JoinedInjective(Lines(a), Lines(b), '\n');
    LinesInjective(a, b);
  }
}
