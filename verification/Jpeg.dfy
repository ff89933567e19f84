/** The JPEG recogniser, the grammar it accepts (annex B of ITU-T T.81, one scan), and the proof that they agree. */
module Jpeg {
  import opened Bytes

  const SOF_MARKERS: set<int> :=
    {0xC0, 0xC1, 0xC2, 0xC3, 0xC5, 0xC6, 0xC7, 0xC9, 0xCA, 0xCB, 0xCD, 0xCE, 0xCF}

  const STANDALONE: set<int> := {0xD0, 0xD1, 0xD2, 0xD3, 0xD4, 0xD5, 0xD6, 0xD7, 0xD8, 0xD9, 0x01}

  predicate IsSof(marker: int)
    ensures IsSof(marker) <==> StartsFrame(marker)
  {
    marker in SOF_MARKERS
  }

  predicate IsStandalone(marker: int)
    ensures IsStandalone(marker) <==> StandsAlone(marker)
  {
    marker in STANDALONE
  }

  // --- markers -----------------------------------------------------------------------------------

  /** Start-of-frame markers: C0 to CF but for DHT, JPG and DAC. */
  predicate StartsFrame(marker: int) {
    0xC0 <= marker <= 0xCF && marker != 0xC4 && marker != 0xC8 && marker != 0xCC
  }

  /** Markers without a length: RST0 to RST7, SOI, EOI and TEM. */
  predicate StandsAlone(marker: int) {
    0xD0 <= marker <= 0xD9 || marker == 0x01
  }

  // --- the grammar -----------------------------------------------------------------------------

  /** `fill` extra 0xFF bytes, the marker, a two-byte length that counts itself, the payload. */
  datatype Segment = Segment(fill: nat, marker: byte, payload: seq<byte>)

  /** One unit of entropy-coded data: a byte, a stuffed 0xFF, or a restart marker. */
  datatype Unit = Plain(b: byte) | Stuffed | Restart(n: nat)

  datatype Ending = Eoi(fill: nat) | Scan(fill: nat, header: seq<byte>, entropy: seq<Unit>)

  datatype Image = Image(segments: seq<Segment>, ending: Ending)

  predicate SegmentOk(s: Segment) {
    && s.marker != 0xFF && s.marker != 0xDA && !StandsAlone(s.marker)
    && |s.payload| + 2 < 0x1_0000
    && (StartsFrame(s.marker) ==> |s.payload| >= 6)
  }

  predicate SegmentsOk(segments: seq<Segment>) {
    forall i :: 0 <= i < |segments| ==> SegmentOk(segments[i])
  }

  predicate HasFrame(segments: seq<Segment>) {
    exists i :: 0 <= i < |segments| && StartsFrame(segments[i].marker)
  }

  predicate UnitOk(u: Unit) {
    (u.Plain? ==> u.b != 0xFF) && (u.Restart? ==> u.n < 8)
  }

  predicate UnitsOk(units: seq<Unit>) {
    forall i :: 0 <= i < |units| ==> UnitOk(units[i])
  }

  predicate EndingOk(e: Ending) {
    e.Scan? ==> |e.header| + 2 < 0x1_0000 && UnitsOk(e.entropy)
  }

  /** A frame header precedes the end, and any scan; there is no second scan. */
  predicate WellFormed(image: Image) {
    SegmentsOk(image.segments) && HasFrame(image.segments) && EndingOk(image.ending)
  }

  function Marker(fill: nat, marker: byte): seq<byte> {
    if fill == 0 then [0xFF, marker] else [0xFF] + Marker(fill - 1, marker)
  }

  /** A marker with its payload, written out. */
  function PartBytes(fill: nat, marker: byte, payload: seq<byte>): seq<byte>
    requires |payload| + 2 < 0x1_0000
  {
    Marker(fill, marker) + U16(|payload| + 2) + payload
  }

  function SegmentBytes(s: Segment): seq<byte>
    requires SegmentOk(s)
  {
    PartBytes(s.fill, s.marker, s.payload)
  }

  function SegmentsBytes(segments: seq<Segment>): seq<byte>
    requires SegmentsOk(segments)
  {
    if segments == [] then [] else SegmentBytes(segments[0]) + SegmentsBytes(segments[1..])
  }

  function UnitBytes(u: Unit): seq<byte>
    requires UnitOk(u)
  {
    match u case Plain(b) => [b] case Stuffed => [0xFF, 0x00] case Restart(n) => [0xFF, 0xD0 + n]
  }

  function UnitsBytes(units: seq<Unit>): seq<byte>
    requires UnitsOk(units)
  {
    if units == [] then [] else UnitBytes(units[0]) + UnitsBytes(units[1..])
  }

  function EndingBytes(e: Ending): seq<byte>
    requires EndingOk(e)
  {
    match e
    case Eoi(fill) => Marker(fill, 0xD9)
    case Scan(fill, header, entropy) =>
      PartBytes(fill, 0xDA, header) + (UnitsBytes(entropy) + [0xFF, 0xD9])
  }

  function ImageBytes(image: Image): seq<byte>
    requires WellFormed(image)
  {
    [0xFF, 0xD8] + (SegmentsBytes(image.segments) + EndingBytes(image.ending))
  }

  // --- the recogniser, on what is left of the data -----------------------------------------------

  /** The number of leading 0xFF bytes. */
  function Fills(s: seq<byte>): (k: nat)
    ensures k <= |s| && (k < |s| ==> s[k] != 0xFF)
  {
    if s != [] && s[0] == 0xFF then 1 + Fills(s[1..]) else 0
  }

  /** A length field that fits the data. */
  predicate HasLength(s: seq<byte>) {
    |s| >= 2 && 2 <= ReadU16(s) <= |s|
  }

  predicate AcceptsScan(s: seq<byte>) {
    if s == [] then false
    else if s[0] != 0xFF then AcceptsScan(s[1..])
    else if |s| < 2 then false
    else if s[1] == 0x00 || 0xD0 <= s[1] <= 0xD7 then AcceptsScan(s[2..])
    else s[1] == 0xD9 && |s| == 2
  }

  /** What stands at the front: an end of image, a marker with its payload, or neither. */
  datatype Head = Bad | EoiAt(fill: nat, rest: seq<byte>) | Part(fill: nat, marker: byte, payload: seq<byte>, rest: seq<byte>)

  function ReadHead(s: seq<byte>): (h: Head)
    ensures h.Part? ==> |h.rest| < |s| && h.marker != 0xFF && !IsStandalone(h.marker) && |h.payload| + 2 < 0x1_0000
  {
    var k := Fills(s);
    if k == 0 || k == |s| then Bad else
    var (marker, rest) := (s[k], s[k + 1..]);
    if marker == 0xD9 then EoiAt(k - 1, rest)
    else if IsStandalone(marker) || !HasLength(rest) then Bad
    else Part(k - 1, marker, rest[2..ReadU16(rest)], rest[ReadU16(rest)..])
  }

  predicate AcceptsBody(s: seq<byte>, sawSof: bool)
    decreases |s|
  {
    match ReadHead(s)
    case Bad => false
    case EoiAt(_, rest) => sawSof && rest == []
    case Part(_, marker, payload, rest) =>
      if marker == 0xDA then sawSof && AcceptsScan(rest)
      else (IsSof(marker) ==> |payload| >= 6) && AcceptsBody(rest, sawSof || IsSof(marker))
  }

  predicate Accepts(data: seq<byte>) {
    |data| >= 4 && data[..2] == [0xFF, 0xD8] && AcceptsBody(data[2..], false)
  }

  /** The fill-byte loop. */
  method SkipFill(data: seq<byte>, start: nat) returns (i: nat)
    requires start <= |data|
    ensures i == start + Fills(data[start..])
  {
    i := start;
    while i < |data| && data[i] == 0xFF
      invariant start <= i <= |data|
      invariant Fills(data[start..]) == i - start + Fills(data[i..])
    {
      assert data[i..][1..] == data[i + 1..];
      i := i + 1;
    }
  }

  /** The head at a position, read by index: `i` is where the marker stands, after the fill bytes. */
  lemma HeadAt(data: seq<byte>, start: nat, i: nat)
    requires start < i < |data| && i == start + Fills(data[start..])
    ensures var (marker, rest) := (data[i], data[i + 1..]);
            ReadHead(data[start..]) ==
            if marker == 0xD9 then EoiAt(i - start - 1, rest)
            else if IsStandalone(marker) || !HasLength(rest) then Bad
            else Part(i - start - 1, marker, rest[2..ReadU16(rest)], data[i + 1 + ReadU16(rest)..])
  {
    assert data[start..][i - start] == data[i] && data[start..][i - start + 1..] == data[i + 1..];
    if HasLength(data[i + 1..]) {
      assert data[i + 1..][ReadU16(data[i + 1..])..] == data[i + 1 + ReadU16(data[i + 1..])..];
    }
  }

  /** Where one turn of the marker loop gets to: nowhere, past EOI, or past a marker's payload. */
  datatype Turn = Reject | AtEoi(at: nat) | AtPart(marker: byte, size: nat, at: nat)

  /** Fill bytes, marker and length, with every bounds check of the source. */
  method NextTurn(data: seq<byte>, start: nat) returns (turn: Turn)
    requires start < |data|
    ensures match turn
            case Reject => ReadHead(data[start..]).Bad?
            case AtEoi(at) =>
              at <= |data| && ReadHead(data[start..]).EoiAt? && ReadHead(data[start..]).rest == data[at..]
            case AtPart(marker, size, at) =>
              && start < at <= |data| && ReadHead(data[start..]).Part? && ReadHead(data[start..]).marker == marker
              && |ReadHead(data[start..]).payload| == size && ReadHead(data[start..]).rest == data[at..]
  {
    if data[start] != 0xFF { return Reject; }
    var i := SkipFill(data, start);
    if i >= |data| { return Reject; }
    HeadAt(data, start, i);
    hide ReadHead, Fills;
    var marker := data[i];
    i := i + 1;
    if marker == 0xD9 { return AtEoi(i); }
    if IsStandalone(marker) { return Reject; }
    if i + 2 > |data| { return Reject; }
    var length := ReadU16(data[i..i + 2]);
    assert length == ReadU16(data[i..]);
    if length < 2 || i + length > |data| { return Reject; }
    turn := AtPart(marker, length - 2, i + length);
  }

  /** The cursor loop over markers and segments. */
  method IsValidJpeg(data: seq<byte>) returns (valid: bool)
    ensures valid == Accepts(data)
  {
    if |data| < 4 || data[..2] != [0xFF, 0xD8] { return false; }
    var i := 2;
    var sawSof := false;
    while i < |data|
      invariant 2 <= i <= |data|
      invariant AcceptsBody(data[i..], sawSof) == AcceptsBody(data[2..], false)
      decreases |data| - i
    {
      hide ReadHead, AcceptsScan;
      var turn := NextTurn(data, i);
      match turn
      case Reject => return false;
      case AtEoi(at) => return sawSof && at == |data|;
      case AtPart(marker, size, at) =>
        if marker == 0xDA {
          if !sawSof { return false; }
          valid := IsValidScan(data, at);
          return;
        }
        if IsSof(marker) {
          if size < 6 { return false; }
          sawSof := true;
        }
        i := at;
    }
    return false;
  }

  /** The inner loop over entropy-coded data. */
  method IsValidScan(data: seq<byte>, start: nat) returns (valid: bool)
    requires start <= |data|
    ensures valid == AcceptsScan(data[start..])
  {
    var i := start;
    while i < |data|
      invariant start <= i <= |data|
      invariant AcceptsScan(data[i..]) == AcceptsScan(data[start..])
      decreases |data| - i
    {
      if data[i] != 0xFF {
        assert data[i..][1..] == data[i + 1..];
        i := i + 1;
        continue;
      }
      if i + 1 >= |data| { return false; }
      var next := data[i + 1];
      if next == 0x00 || 0xD0 <= next <= 0xD7 {
        assert data[i..][2..] == data[i + 2..];
        i := i + 2;
        continue;
      }
      return next == 0xD9 && i + 2 == |data|;
    }
    return false;
  }

  // --- the recogniser accepts exactly the grammar --------------------------------------------------

  lemma {:induction false} MarkerFills(fill: nat, marker: byte, rest: seq<byte>)
    requires marker != 0xFF
    ensures var s := Marker(fill, marker) + rest;
            && |Marker(fill, marker)| == fill + 2 && Fills(s) == fill + 1 && fill + 1 < |s|
            && s[fill + 1] == marker && s[fill + 2..] == rest
  {
    var s := Marker(fill, marker) + rest;
    if fill == 0 {
      assert s[1..][0] == marker;
    } else {
      assert s[1..] == Marker(fill - 1, marker) + rest;
      MarkerFills(fill - 1, marker, rest);
      assert s[fill + 1] == s[1..][fill] && s[fill + 2..] == s[1..][fill + 1..];
    }
  }

  lemma {:induction false} FillsMarker(s: seq<byte>)
    requires 0 < Fills(s) < |s|
    ensures s == Marker(Fills(s) - 1, s[Fills(s)]) + s[Fills(s) + 1..]
  {
    if Fills(s) > 1 {
      FillsMarker(s[1..]);
      assert s == [0xFF] + s[1..];
    } else {
      assert s[1] == s[1..][0] != 0xFF;
    }
  }

  lemma HeadComplete(fill: nat, marker: byte, payload: seq<byte>, rest: seq<byte>)
    requires marker != 0xFF && !IsStandalone(marker) && |payload| + 2 < 0x1_0000
    ensures ReadHead(PartBytes(fill, marker, payload) + rest) == Part(fill, marker, payload, rest)
  {
    var tail := U16(|payload| + 2) + payload + rest;
    assert PartBytes(fill, marker, payload) + rest == Marker(fill, marker) + tail;
    MarkerFills(fill, marker, tail);
    U16RoundTrip(tail, |payload| + 2);
    assert tail[2..|payload| + 2] == payload && tail[|payload| + 2..] == rest;
  }

  lemma HeadSound(s: seq<byte>)
    requires ReadHead(s).Part?
    ensures var h := ReadHead(s); s == PartBytes(h.fill, h.marker, h.payload) + h.rest
  {
    FillsMarker(s);
    var rest := s[Fills(s) + 1..];
    var n := ReadU16(rest);
    SplitLength(rest);
    Regroup(Marker(Fills(s) - 1, s[Fills(s)]), U16(n), rest[2..n], rest[n..]);
  }

  lemma SplitLength(s: seq<byte>)
    requires HasLength(s)
    ensures var n := ReadU16(s); s == U16(n) + s[2..n] + s[n..]
  {
    U16RoundTrip(s, ReadU16(s));
    assert s == s[..2] + s[2..ReadU16(s)] + s[ReadU16(s)..];
  }

  lemma Regroup(a: seq<byte>, b: seq<byte>, c: seq<byte>, d: seq<byte>)
    ensures a + (b + c + d) == a + b + c + d
  {
  }

  lemma {:induction false} ScanComplete(units: seq<Unit>)
    requires UnitsOk(units)
    ensures AcceptsScan(UnitsBytes(units) + [0xFF, 0xD9])
  {
    var s := UnitsBytes(units) + [0xFF, 0xD9];
    if units != [] {
      var head := UnitBytes(units[0]);
      assert s == head + (UnitsBytes(units[1..]) + [0xFF, 0xD9]);
      assert s[|head|..] == UnitsBytes(units[1..]) + [0xFF, 0xD9];
      ScanComplete(units[1..]);
    }
  }

  lemma {:induction false} ScanSound(s: seq<byte>) returns (units: seq<Unit>)
    requires AcceptsScan(s)
    ensures UnitsOk(units) && s == UnitsBytes(units) + [0xFF, 0xD9]
  {
    if s[0] == 0xFF && s[1] == 0xD9 {
      units := [];
    } else {
      var u := if s[0] != 0xFF then Plain(s[0]) else if s[1] == 0x00 then Stuffed else Restart(s[1] - 0xD0);
      var k := |UnitBytes(u)|;
      var rest := ScanSound(s[k..]);
      units := [u] + rest;
      assert units[1..] == rest && s == UnitBytes(u) + s[k..];
    }
  }

  lemma EndingComplete(e: Ending)
    requires EndingOk(e)
    ensures AcceptsBody(EndingBytes(e), true)
  {
    match e
    case Eoi(fill) =>
      MarkerFills(fill, 0xD9, []);
      assert Marker(fill, 0xD9) + [] == Marker(fill, 0xD9);
    case Scan(fill, header, entropy) =>
      HeadComplete(fill, 0xDA, header, UnitsBytes(entropy) + [0xFF, 0xD9]);
      ScanComplete(entropy);
  }

  lemma BodyFront(segments: seq<Segment>, e: Ending)
    requires SegmentsOk(segments) && EndingOk(e)
    ensures segments == [] ==> SegmentsBytes(segments) + EndingBytes(e) == EndingBytes(e)
    ensures segments != [] ==> SegmentsBytes(segments) + EndingBytes(e)
                               == SegmentBytes(segments[0]) + (SegmentsBytes(segments[1..]) + EndingBytes(e))
  {
    hide EndingBytes, SegmentBytes;
  }

  lemma FrameBehind(segments: seq<Segment>)
    requires segments != [] && HasFrame(segments) && !IsSof(segments[0].marker)
    ensures HasFrame(segments[1..])
  {
    var i :| 0 <= i < |segments| && IsSof(segments[i].marker);
    assert segments[1..][i - 1] == segments[i];
  }

  lemma {:induction false} BodyComplete(segments: seq<Segment>, e: Ending, sawSof: bool)
    requires SegmentsOk(segments) && EndingOk(e) && (sawSof || HasFrame(segments))
    ensures AcceptsBody(SegmentsBytes(segments) + EndingBytes(e), sawSof)
  {
    BodyFront(segments, e);
    if segments == [] {
      EndingComplete(e);
    } else {
      var s := segments[0];
      HeadComplete(s.fill, s.marker, s.payload, SegmentsBytes(segments[1..]) + EndingBytes(e));
      if !sawSof && !IsSof(s.marker) { FrameBehind(segments); }
      hide ReadHead, SegmentsBytes, EndingBytes, PartBytes, HasFrame;
      BodyComplete(segments[1..], e, sawSof || IsSof(s.marker));
    }
  }

  /** Putting a segment in front of what is already read. */
  lemma SegmentInFront(head: Segment, tail: seq<Segment>, e: Ending)
    requires SegmentOk(head) && SegmentsOk(tail) && EndingOk(e)
    ensures SegmentsOk([head] + tail)
    ensures IsSof(head.marker) || HasFrame(tail) ==> HasFrame([head] + tail)
    ensures SegmentsBytes([head] + tail) + EndingBytes(e) == SegmentBytes(head) + (SegmentsBytes(tail) + EndingBytes(e))
  {
    var segments := [head] + tail;
    assert segments[1..] == tail && segments[0] == head;
    if HasFrame(tail) {
      var i :| 0 <= i < |tail| && IsSof(tail[i].marker);
      assert IsSof(segments[i + 1].marker);
    }
  }

  lemma EndingSound(s: seq<byte>) returns (e: Ending)
    requires AcceptsBody(s, true) && (ReadHead(s).Part? ==> ReadHead(s).marker == 0xDA)
    ensures EndingOk(e) && s == EndingBytes(e)
  {
    var h := ReadHead(s);
    if h.EoiAt? {
      FillsMarker(s);
      e := Eoi(h.fill);
    } else {
      HeadSound(s);
      var units := ScanSound(h.rest);
      e := Scan(h.fill, h.payload, units);
    }
  }

  lemma {:induction false} BodySound(s: seq<byte>, sawSof: bool) returns (segments: seq<Segment>, e: Ending)
    requires AcceptsBody(s, sawSof)
    ensures SegmentsOk(segments) && EndingOk(e) && (sawSof || HasFrame(segments))
    ensures s == SegmentsBytes(segments) + EndingBytes(e)
    decreases |s|
  {
    var h := ReadHead(s);
    if h.Part? && h.marker != 0xDA {
      HeadSound(s);
      hide ReadHead;
      var tail;
      tail, e := BodySound(h.rest, sawSof || IsSof(h.marker));
      var head := Segment(h.fill, h.marker, h.payload);
      segments := [head] + tail;
      SegmentInFront(head, tail, e);
    } else {
      segments := [];
      e := EndingSound(s);
    }
  }

  /** The recogniser accepts a string iff it is the serialisation of a well-formed image. */
  lemma AcceptsIffGrammar(data: seq<byte>)
    ensures Accepts(data) <==> exists image :: WellFormed(image) && ImageBytes(image) == data
  {
    if Accepts(data) {
      var segments, e := BodySound(data[2..], false);
      assert WellFormed(Image(segments, e)) && ImageBytes(Image(segments, e)) == data;
    }
    if exists image :: WellFormed(image) && ImageBytes(image) == data {
      var image :| WellFormed(image) && ImageBytes(image) == data;
      BodyComplete(image.segments, image.ending, false);
      assert data[2..] == SegmentsBytes(image.segments) + EndingBytes(image.ending);
      EndingHasMarker(image.ending);
    }
  }

  lemma EndingHasMarker(e: Ending)
    requires EndingOk(e)
    ensures |EndingBytes(e)| >= 2
    ensures EndingBytes(e)[|EndingBytes(e)| - 2..] == [0xFF, 0xD9]
  {
    if e.Eoi? { MarkerEnds(e.fill, 0xD9); }
  }

  lemma {:induction false} MarkerEnds(fill: nat, marker: byte)
    ensures |Marker(fill, marker)| == fill + 2 && Marker(fill, marker)[fill..] == [0xFF, marker]
  {
    if fill > 0 {
      MarkerEnds(fill - 1, marker);
      assert Marker(fill, marker)[fill..] == Marker(fill - 1, marker)[fill - 1..];
    }
  }

  // --- one image per string -----------------------------------------------------------------------

  lemma UnitFront(u: Unit, rest: seq<byte>)
    requires UnitOk(u)
    ensures var s := UnitBytes(u) + rest;
            && |s| == |UnitBytes(u)| + |rest| && s[|UnitBytes(u)|..] == rest && s[0] == UnitBytes(u)[0]
            && (!u.Plain? ==> s[1] == UnitBytes(u)[1])
  {
  }

  lemma {:induction false} UnitsUnique(a: seq<Unit>, b: seq<Unit>)
    requires UnitsOk(a) && UnitsOk(b) && UnitsBytes(a) == UnitsBytes(b)
    ensures a == b
  {
    if a != [] && b != [] {
      UnitFront(a[0], UnitsBytes(a[1..]));
      UnitFront(b[0], UnitsBytes(b[1..]));
      assert a[0] == b[0];
      UnitsUnique(a[1..], b[1..]);
      assert a == [a[0]] + a[1..] && b == [b[0]] + b[1..];
    }
  }

  /** What the recogniser reads at the front of an ending. */
  lemma EndingHead(e: Ending)
    requires EndingOk(e)
    ensures ReadHead(EndingBytes(e)) ==
            match e
            case Eoi(fill) => EoiAt(fill, [])
            case Scan(fill, header, entropy) => Part(fill, 0xDA, header, UnitsBytes(entropy) + [0xFF, 0xD9])
  {
    match e
    case Eoi(fill) =>
      MarkerFills(fill, 0xD9, []);
      assert Marker(fill, 0xD9) + [] == Marker(fill, 0xD9);
    case Scan(fill, header, entropy) =>
      HeadComplete(fill, 0xDA, header, UnitsBytes(entropy) + [0xFF, 0xD9]);
  }

  lemma EndingUnique(a: Ending, b: Ending)
    requires EndingOk(a) && EndingOk(b) && EndingBytes(a) == EndingBytes(b)
    ensures a == b
  {
    EndingHead(a);
    EndingHead(b);
    hide ReadHead, EndingBytes;
    if a.Scan? && b.Scan? {
      CancelEoi(UnitsBytes(a.entropy), UnitsBytes(b.entropy));
      UnitsUnique(a.entropy, b.entropy);
    }
  }

  lemma CancelEoi(a: seq<byte>, b: seq<byte>)
    requires a + [0xFF, 0xD9] == b + [0xFF, 0xD9]
    ensures a == b
  {
    assert |a| == |a + [0xFF, 0xD9]| - 2 == |b|;
    assert a == (a + [0xFF, 0xD9])[..|a|] && b == (b + [0xFF, 0xD9])[..|b|];
  }

  /** What the recogniser reads at the front of a body: its first segment, or the head of its ending. */
  lemma BodyHead(segments: seq<Segment>, e: Ending)
    requires SegmentsOk(segments) && EndingOk(e)
    ensures var h := ReadHead(SegmentsBytes(segments) + EndingBytes(e));
            if segments == [] then h == ReadHead(EndingBytes(e)) && (h.EoiAt? || (h.Part? && h.marker == 0xDA))
            else h == Part(segments[0].fill, segments[0].marker, segments[0].payload,
                           SegmentsBytes(segments[1..]) + EndingBytes(e))
  {
    BodyFront(segments, e);
    if segments == [] {
      EndingHead(e);
    } else {
      var (s, rest) := (segments[0], SegmentsBytes(segments[1..]) + EndingBytes(e));
      HeadComplete(s.fill, s.marker, s.payload, rest);
    }
  }

  lemma BodyFrontsAgree(a: seq<Segment>, e: Ending, b: seq<Segment>, f: Ending)
    requires SegmentsOk(a) && EndingOk(e) && SegmentsOk(b) && EndingOk(f)
    requires SegmentsBytes(a) + EndingBytes(e) == SegmentsBytes(b) + EndingBytes(f)
    ensures a == [] <==> b == []
    ensures a != [] ==> a[0] == b[0] && SegmentsOk(a[1..]) && SegmentsOk(b[1..])
                        && SegmentsBytes(a[1..]) + EndingBytes(e) == SegmentsBytes(b[1..]) + EndingBytes(f)
  {
    hide ReadHead, SegmentsBytes, EndingBytes;
    BodyHead(a, e);
    BodyHead(b, f);
  }

  lemma {:induction false} BodyUnique(a: seq<Segment>, e: Ending, b: seq<Segment>, f: Ending)
    requires SegmentsOk(a) && EndingOk(e) && SegmentsOk(b) && EndingOk(f)
    requires SegmentsBytes(a) + EndingBytes(e) == SegmentsBytes(b) + EndingBytes(f)
    ensures a == b && e == f
    decreases |a|
  {
    hide *;
    BodyFrontsAgree(a, e, b, f);
    if a == [] {
      BodyFront(a, e);
      BodyFront(b, f);
      EndingUnique(e, f);
    } else {
      BodyUnique(a[1..], e, b[1..], f);
      assert a == [a[0]] + a[1..] && b == [b[0]] + b[1..];
    }
  }

  /** A byte string is the serialisation of at most one well-formed image. */
  lemma ImageUnique(a: Image, b: Image)
    requires WellFormed(a) && WellFormed(b) && ImageBytes(a) == ImageBytes(b)
    ensures a == b
  {
    var (x, y) := (SegmentsBytes(a.segments) + EndingBytes(a.ending), SegmentsBytes(b.segments) + EndingBytes(b.ending));
    assert x == ImageBytes(a)[2..] && y == ImageBytes(b)[2..];
    BodyUnique(a.segments, a.ending, b.segments, b.ending);
  }

  /** The last two bytes of whatever is accepted are EOI. */
  lemma EndsWithEoi(data: seq<byte>)
    requires Accepts(data)
    ensures data[|data| - 2..] == [0xFF, 0xD9]
  {
    var segments, e := BodySound(data[2..], false);
    EndingHasMarker(e);
    LastTwo(SegmentsBytes(segments), EndingBytes(e));
    LastTwo(data[..2], data[2..]);
    assert data == data[..2] + data[2..];
  }

  lemma LastTwo(a: seq<byte>, b: seq<byte>)
    requires |b| >= 2
    ensures (a + b)[|a + b| - 2..] == b[|b| - 2..]
  {
  }

  // --- nothing may follow an accepted string ---------------------------------------------------------

  lemma {:induction false} ScanPrefixFree(s: seq<byte>, b: seq<byte>)
    requires AcceptsScan(s) && b != []
    ensures !AcceptsScan(s + b)
  {
    if s[0] != 0xFF {
      assert (s + b)[1..] == s[1..] + b;
      ScanPrefixFree(s[1..], b);
    } else if s[1] != 0xD9 {
      assert (s + b)[2..] == s[2..] + b;
      ScanPrefixFree(s[2..], b);
    }
  }

  lemma AppendBehind(s: seq<byte>, front: seq<byte>, rest: seq<byte>, b: seq<byte>)
    requires s == front + rest
    ensures s + b == front + (rest + b)
  {
  }

  lemma PartOfPrefix(s: seq<byte>, b: seq<byte>)
    requires ReadHead(s).Part?
    ensures var h := ReadHead(s); ReadHead(s + b) == Part(h.fill, h.marker, h.payload, h.rest + b)
  {
    var h := ReadHead(s);
    HeadSound(s);
    HeadComplete(h.fill, h.marker, h.payload, h.rest + b);
    hide ReadHead, PartBytes;
    AppendBehind(s, PartBytes(h.fill, h.marker, h.payload), h.rest, b);
  }

  lemma EoiOfPrefix(s: seq<byte>, b: seq<byte>)
    requires ReadHead(s).EoiAt?
    ensures var h := ReadHead(s); ReadHead(s + b) == EoiAt(h.fill, h.rest + b)
  {
    var h := ReadHead(s);
    FillsMarker(s);
    MarkerFills(h.fill, 0xD9, h.rest + b);
    hide Marker, Fills;
    AppendBehind(s, Marker(h.fill, 0xD9), h.rest, b);
  }

  lemma {:induction false} BodyPrefixFree(s: seq<byte>, b: seq<byte>, sawSof: bool)
    requires AcceptsBody(s, sawSof) && b != []
    ensures !AcceptsBody(s + b, sawSof)
    decreases |s|
  {
    if ReadHead(s).EoiAt? {
      EoiOfPrefix(s, b);
    } else {
      PartOfPrefix(s, b);
      var h := ReadHead(s);
      if h.marker == 0xDA { ScanPrefixFree(h.rest, b); }
      else { BodyPrefixFree(h.rest, b, sawSof || IsSof(h.marker)); }
    }
  }

  lemma PrefixFree(a: seq<byte>, b: seq<byte>)
    requires Accepts(a) && Accepts(a + b)
    ensures b == []
  {
    assert (a + b)[2..] == a[2..] + b;
    if b != [] { BodyPrefixFree(a[2..], b, false); }
  }
}
