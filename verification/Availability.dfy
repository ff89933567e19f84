/** The strict parsers of the availability backend's answers: what exactly they accept. */
module Availability {
  import opened Calendar
  import opened StudioTime
  import opened Text
  import opened Wrappers
  import SpoolNames

  const MAX_DATE_KEYS: nat := 31
  const MAX_SLOTS: nat := 288
  const MAX_SLOT_ID_LENGTH: nat := 128

  function Lowered(s: string): (r: string)
    ensures |r| == |s|
  {
    seq(|s|, i requires 0 <= i < |s| => if 'A' <= s[i] <= 'Z' then 'a' + (s[i] - 'A') else s[i])
  }

  /** `require_canonical_backend_uuid`: any letter case is accepted and lowered. */
  function BackendUuid(s: string): Option<string> {
    if SpoolNames.UuidShaped(Lowered(s)) then Some(Lowered(s)) else None
  }

  /** `require_calendar_month`. */
  function ParseMonth(s: string): Option<(int, int)> {
    if |s| == 7 && AllDigits(s[..4]) && s[4] == '-' && AllDigits(s[5..])
       && 1 <= Number4(s[..4]) && 1 <= Number2(s[5..]) <= 12
    then Some((Number4(s[..4]), Number2(s[5..]))) else None
  }

  /** A month is accepted iff it is the canonical text of one in the years 1 to 9999. */
  lemma ParsesExactlyMonths(s: string, year: int, month: int)
    ensures ParseMonth(s) == Some((year, month))
            <==> 1 <= year <= 9999 && 1 <= month <= 12 && s == Four(year) + "-" + Two(month)
  {
    if ParseMonth(s) == Some((year, month)) {
      FourOfNumber(s[..4]);
      TwoOfNumber(s[5..]);
      assert s == s[..4] + "-" + s[5..];
    }
    if 1 <= year <= 9999 && 1 <= month <= 12 && s == Four(year) + "-" + Two(month) {
      assert s[..4] == Four(year) && s[5..] == Two(month);
      NumberOfFour(year);
      NumberOfTwo(month);
    }
  }

  predicate SameButForCase(s: string, t: string) {
    |s| == |t| && forall i :: 0 <= i < |s| ==> s[i] == t[i] || ('a' <= t[i] <= 'z' && s[i] == t[i] - 'a' + 'A')
  }

  /** An id is accepted iff it is the printed form of 16 bytes in any letter case, and read as that form. */
  lemma BackendUuidExactly(s: string, t: string)
    ensures BackendUuid(s) == Some(t) <==> SameButForCase(s, t) && exists id :: t == SpoolNames.UuidText(id)
  {
    if BackendUuid(s) == Some(t) { SpoolNames.UuidTextOnto(t); }
    if SameButForCase(s, t) && exists id :: t == SpoolNames.UuidText(id) {
      assert forall i :: 0 <= i < |t| ==> t[i] == '-' || SpoolNames.IsHex(t[i]);
      assert Lowered(s) == t;
    }
  }

  /** A field that is absent or of another type is None; `exactKeys`: the object has the expected keys and no other. */
  datatype DaysPayload = DaysPayload(
    exactKeys: bool, ok: bool, serviceId: Option<string>, masterId: Option<string>, month: Option<string>,
    studioToday: Option<string>, dateKeys: Option<seq<Option<string>>>)
  datatype DaysRequest = DaysRequest(serviceId: string, masterId: string, month: string)
  datatype DaysResult = DaysResult(
    serviceId: string, masterId: string, month: string, studioToday: string, dateKeys: seq<string>)

  datatype SlotObject =
    | NotDict
    | SlotObject(exactKeys: bool, slotId: Option<string>, serviceId: Option<string>, masterId: Option<string>,
                 startsAt: Option<string>)
  datatype SlotsPayload = SlotsPayload(
    exactKeys: bool, ok: bool, serviceId: Option<string>, masterId: Option<string>, date: Option<string>,
    studioToday: Option<string>, slots: Option<seq<SlotObject>>)
  datatype SlotsRequest = SlotsRequest(serviceId: string, masterId: string, date: string)

  datatype Slot = Slot(slotId: string, startsAt: int, masterId: string, serviceId: string)
  datatype SlotsResult = SlotsResult(
    serviceId: string, masterId: string, date: string, studioToday: string, slots: seq<Slot>)

  predicate NamesId(raw: Option<string>, id: string) {
    raw.Some? && BackendUuid(raw.value) == Some(id)
  }

  predicate IsDateText(raw: Option<string>) {
    raw.Some? && ParseDate(raw.value).Some?
  }

  // --- days ------------------------------------------------------------------------------------

  predicate KeyInMonth(key: Option<string>, month: (int, int)) {
    && IsDateText(key)
    && ParseDate(key.value).value.year == month.0 && ParseDate(key.value).value.month == month.1
  }

  /** The number of a key's day. */
  function KeyDay(key: Option<string>): int
    requires IsDateText(key)
  {
    Ordinal(ParseDate(key.value).value)
  }

  /** Days of the month, in chronological order without repetition. */
  predicate KeysOk(keys: seq<Option<string>>, month: (int, int)) {
    && (forall i :: 0 <= i < |keys| ==> KeyInMonth(keys[i], month))
    && (forall i, j :: 0 <= i < j < |keys| ==> KeyDay(keys[i]) < KeyDay(keys[j]))
  }

  predicate DaysHeadOk(raw: DaysPayload, request: DaysRequest) {
    && raw.exactKeys && raw.ok && NamesId(raw.serviceId, request.serviceId) && NamesId(raw.masterId, request.masterId)
    && raw.month == Some(request.month) && ParseMonth(request.month).Some? && IsDateText(raw.studioToday)
    && raw.dateKeys.Some?
  }

  predicate DaysOk(raw: DaysPayload, request: DaysRequest) {
    && DaysHeadOk(raw, request) && |raw.dateKeys.value| <= MAX_DATE_KEYS
    && KeysOk(raw.dateKeys.value, ParseMonth(request.month).value)
  }

  function Texts(keys: seq<Option<string>>): seq<string>
    requires forall i :: 0 <= i < |keys| ==> keys[i].Some?
  {
    seq(|keys|, i requires 0 <= i < |keys| => keys[i].value)
  }

  lemma KeyOrder(a: Option<string>, b: Option<string>)
    requires IsDateText(a) && IsDateText(b)
    ensures Less(a.value, b.value) <==> KeyDay(a) < KeyDay(b)
    ensures a == b ==> KeyDay(a) == KeyDay(b)
  {
    var (d, e) := (ParseDate(a.value).value, ParseDate(b.value).value);
    ParsesExactlyDateTexts(a.value, d);
    ParsesExactlyDateTexts(b.value, e);
    DateTextOrder(d, e);
  }

  /** The loop over `dateKeys`: string comparison with the previous key, and a set of the keys seen. */
  method ParseKeys(keys: seq<Option<string>>, month: (int, int)) returns (r: Option<seq<string>>)
    ensures r.Some? <==> KeysOk(keys, month)
    ensures r.Some? ==> r.value == Texts(keys)
  {
    hide ParseDate, Less;
    var parsed: seq<string> := [];
    var seen: set<string> := {};
    var previous: Option<string> := None;
    for i := 0 to |keys|
      invariant KeysOk(keys[..i], month) && |parsed| == i
      invariant forall j :: 0 <= j < i ==> keys[j] == Some(parsed[j])
      invariant previous == if i == 0 then None else keys[i - 1]
      invariant forall key :: key in seen ==> key in parsed
    {
      if !KeyInMonth(keys[i], month) { return None; }
      var key := keys[i].value;
      if i > 0 { KeyOrder(keys[i - 1], keys[i]); }
      if key in seen {
        var j :| 0 <= j < i && parsed[j] == key;
        KeyOrder(keys[j], keys[i]);
        return None;
      }
      if previous.Some? && !Less(previous.value, key) { return None; }
      AppendKey(keys, i, month);
      seen := seen + {key};
      previous := Some(key);
      parsed := parsed + [key];
    }
    assert keys[..|keys|] == keys;
    return Some(parsed);
  }

  lemma AppendKey(keys: seq<Option<string>>, i: nat, month: (int, int))
    requires i < |keys| && KeysOk(keys[..i], month) && KeyInMonth(keys[i], month)
    requires i > 0 ==> KeyInMonth(keys[i - 1], month) && KeyDay(keys[i - 1]) < KeyDay(keys[i])
    ensures KeysOk(keys[..i + 1], month)
  {
    hide ParseDate, Calendar.Real, Calendar.Ordinal;
    var (was, now) := (keys[..i], keys[..i + 1]);
    assert forall j :: 0 <= j < i ==> now[j] == was[j];
    assert now[i] == keys[i];
    forall j | 0 <= j < i ensures KeyDay(now[j]) < KeyDay(now[i]) {
      assert now[i - 1] == keys[i - 1];
    }
  }

  /** `parse_available_days_success_payload` accepts exactly the well-formed answers to the request, unchanged. */
  method ParseDays(raw: DaysPayload, request: DaysRequest) returns (r: Option<DaysResult>)
    ensures r.Some? <==> DaysOk(raw, request)
    ensures r.Some? ==> r.value == DaysResult(request.serviceId, request.masterId, request.month,
                                              raw.studioToday.value, Texts(raw.dateKeys.value))
  {
    if !raw.exactKeys || !raw.ok { return None; }
    if raw.serviceId.None? || raw.masterId.None? || raw.month.None? || !IsDateText(raw.studioToday) { return None; }
    if BackendUuid(raw.serviceId.value) != Some(request.serviceId) { return None; }
    if BackendUuid(raw.masterId.value) != Some(request.masterId) { return None; }
    var month := ParseMonth(raw.month.value);
    if month.None? || raw.month.value != request.month { return None; }
    if raw.dateKeys.None? || |raw.dateKeys.value| > MAX_DATE_KEYS { return None; }
    hide KeysOk, ParseMonth;
    var keys := ParseKeys(raw.dateKeys.value, month.value);
    if keys.None? { return None; }
    r := Some(DaysResult(request.serviceId, request.masterId, request.month, raw.studioToday.value, keys.value));
  }

  lemma {:induction false} DayOfMonthGrows(keys: seq<Option<string>>, month: (int, int), i: nat)
    requires KeysOk(keys, month) && i < |keys|
    ensures ParseDate(keys[i].value).value.day >= i + 1
  {
    if i > 0 {
      DayOfMonthGrows(keys, month, i - 1);
      assert KeyInMonth(keys[i - 1], month) && KeyInMonth(keys[i], month);
      assert KeyDay(keys[i - 1]) < KeyDay(keys[i]);
    } else {
      assert KeyInMonth(keys[0], month);
    }
  }

  /** Chronological keys of one month are never too many: the length limit rejects nothing by itself. */
  lemma AtMostAMonthOfKeys(keys: seq<Option<string>>, month: (int, int))
    requires KeysOk(keys, month)
    ensures |keys| <= DaysInMonth(month.0, month.1) <= MAX_DATE_KEYS
  {
    if keys != [] {
      DayOfMonthGrows(keys, month, |keys| - 1);
      assert KeyInMonth(keys[|keys| - 1], month);
    }
  }

  // --- slots -----------------------------------------------------------------------------------

  predicate HasControl(s: string) {
    exists i :: 0 <= i < |s| && ((s[i] as int) < 32 || s[i] as int == 127)
  }

  predicate SlotIdOk(id: Option<string>) {
    id.Some? && id.value != "" && |id.value| <= MAX_SLOT_ID_LENGTH && !HasSpace(id.value) && !HasControl(id.value)
  }

  /** `_parse_starts_at`: a slot timestamp of the expected day. */
  function ParseSlotStart(raw: Option<string>, expectedDate: string): Option<int> {
    if raw.None? || ParseStartsAt(raw.value).None? || raw.value[..10] != expectedDate then None
    else Some(Instant(ParseStartsAt(raw.value).value))
  }

  function ParseSlot(raw: SlotObject, serviceId: string, masterId: string, expectedDate: string): Option<Slot> {
    if raw.NotDict? || !raw.exactKeys || !SlotIdOk(raw.slotId) then None
    else if !NamesId(raw.serviceId, serviceId) || !NamesId(raw.masterId, masterId) then None
    else
      var start := ParseSlotStart(raw.startsAt, expectedDate);
      if start.None? then None else Some(Slot(raw.slotId.value, start.value, masterId, serviceId))
  }

  /** No invented time: a parsed slot is that of the one minute of the day whose canonical text was sent. */
  lemma ParsedSlotTime(raw: SlotObject, serviceId: string, masterId: string, expectedDate: string)
    requires ParseSlot(raw, serviceId, masterId, expectedDate).Some?
    ensures exists w :: && WallOk(w) && raw.startsAt == Some(StartsAtText(w)) && DateText(w.date) == expectedDate
                        && ParseSlot(raw, serviceId, masterId, expectedDate).value.startsAt == Instant(w)
  {
    var w := ParseStartsAt(raw.startsAt.value).value;
    ParsesExactlyStartsAtTexts(raw.startsAt.value, w);
    StartsAtFields(w);
  }

  /** A slot is parsed iff everything about it is as asked for, and then it is what was sent. */
  lemma ParsesExactlySlots(raw: SlotObject, serviceId: string, masterId: string, expectedDate: string, slot: Slot)
    ensures ParseSlot(raw, serviceId, masterId, expectedDate) == Some(slot) <==>
              && raw.SlotObject? && raw.exactKeys && raw.slotId == Some(slot.slotId)
              && 1 <= |slot.slotId| <= 128
              && (forall i :: 0 <= i < |slot.slotId| ==> !IsSpace(slot.slotId[i]) && 32 <= slot.slotId[i] as int != 127)
              && NamesId(raw.serviceId, serviceId) && NamesId(raw.masterId, masterId)
              && slot.serviceId == serviceId && slot.masterId == masterId
              && exists w :: && WallOk(w) && raw.startsAt == Some(StartsAtText(w)) && DateText(w.date) == expectedDate
                             && slot.startsAt == Instant(w)
  {
    hide BackendUuid, IsSpace, StartsAtText, DateText, Instant, ParseStartsAt;
    if ParseSlot(raw, serviceId, masterId, expectedDate).Some? {
      ParsedSlotTime(raw, serviceId, masterId, expectedDate);
    }
    if w :| WallOk(w) && raw.SlotObject? && raw.startsAt == Some(StartsAtText(w)) && DateText(w.date) == expectedDate
            && slot.startsAt == Instant(w) {
      ParsesExactlyStartsAtTexts(StartsAtText(w), w);
      StartsAtFields(w);
    }
  }

  function SlotOf(raw: SlotObject, request: SlotsRequest): Option<Slot> {
    ParseSlot(raw, request.serviceId, request.masterId, request.date)
  }

  /** Every slot parses, ids are distinct, starts strictly increase. */
  predicate SlotsOk(slots: seq<SlotObject>, request: SlotsRequest) {
    && (forall i :: 0 <= i < |slots| ==> SlotOf(slots[i], request).Some?)
    && (forall i, j :: 0 <= i < j < |slots| ==>
          && SlotOf(slots[i], request).value.slotId != SlotOf(slots[j], request).value.slotId
          && SlotOf(slots[i], request).value.startsAt < SlotOf(slots[j], request).value.startsAt)
  }

  predicate SlotsPayloadOk(raw: SlotsPayload, request: SlotsRequest) {
    && raw.exactKeys && raw.ok && NamesId(raw.serviceId, request.serviceId) && NamesId(raw.masterId, request.masterId)
    && raw.date == Some(request.date) && IsDateText(raw.date) && IsDateText(raw.studioToday)
    && raw.slots.Some? && |raw.slots.value| <= MAX_SLOTS && SlotsOk(raw.slots.value, request)
  }

  function Slots(raw: seq<SlotObject>, request: SlotsRequest): seq<Slot>
    requires SlotsOk(raw, request)
  {
    seq(|raw|, i requires 0 <= i < |raw| => SlotOf(raw[i], request).value)
  }

  /** The loop over `slots`, with its two sets and the previous start. */
  method ParseSlotList(raw: seq<SlotObject>, request: SlotsRequest) returns (r: Option<seq<Slot>>)
    ensures r.Some? <==> SlotsOk(raw, request)
    ensures r.Some? ==> r.value == Slots(raw, request)
  {
    hide ParseSlot;
    var parsed: seq<Slot> := [];
    var seenIds: set<string> := {};
    var seenStarts: set<int> := {};
    var previous: Option<int> := None;
    for i := 0 to |raw|
      invariant |parsed| == i && forall j :: 0 <= j < i ==> SlotOf(raw[j], request) == Some(parsed[j])
      invariant forall j, k :: 0 <= j < k < i ==> parsed[j].slotId != parsed[k].slotId && parsed[j].startsAt < parsed[k].startsAt
      invariant previous == if i == 0 then None else Some(parsed[i - 1].startsAt)
      invariant forall id :: id in seenIds <==> exists j :: 0 <= j < i && parsed[j].slotId == id
      invariant forall t :: t in seenStarts ==> exists j :: 0 <= j < i && parsed[j].startsAt == t
    {
      var slot := SlotOf(raw[i], request);
      if slot.None? { return None; }
      if slot.value.slotId in seenIds { return None; }
      if slot.value.startsAt in seenStarts { return None; }
      if previous.Some? && slot.value.startsAt <= previous.value { return None; }
      seenIds := seenIds + {slot.value.slotId};
      seenStarts := seenStarts + {slot.value.startsAt};
      previous := Some(slot.value.startsAt);
      parsed := parsed + [slot.value];
    }
    return Some(parsed);
  }

  /** `parse_available_slots_success_payload` accepts exactly the well-formed answers to the request. */
  method ParseSlots(raw: SlotsPayload, request: SlotsRequest) returns (r: Option<SlotsResult>)
    ensures r.Some? <==> SlotsPayloadOk(raw, request)
    ensures r.Some? ==> r.value == SlotsResult(request.serviceId, request.masterId, request.date,
                                               raw.studioToday.value, Slots(raw.slots.value, request))
  {
    if !raw.exactKeys || !raw.ok { return None; }
    if raw.serviceId.None? || raw.masterId.None? || !IsDateText(raw.date) || !IsDateText(raw.studioToday) { return None; }
    if BackendUuid(raw.serviceId.value) != Some(request.serviceId) { return None; }
    if BackendUuid(raw.masterId.value) != Some(request.masterId) { return None; }
    if raw.date.value != request.date { return None; }
    if raw.slots.None? || |raw.slots.value| > MAX_SLOTS { return None; }
    hide SlotsOk, SlotOf;
    var slots := ParseSlotList(raw.slots.value, request);
    if slots.None? { return None; }
    r := Some(SlotsResult(request.serviceId, request.masterId, request.date, raw.studioToday.value, slots.value));
  }
}
