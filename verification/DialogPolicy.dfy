/** The booking dialog policy: which backend slots are offered, and when none are. */
module DialogPolicy {
  import opened Availability
  import Calendar
  import opened StudioTime
  import opened Text
  import opened Wrappers

  const MAX_OFFERED_SLOTS: nat := 3

  datatype Outcome = SelfBookingAllowed | ManagerHandoff | ServiceUnavailable
  /** Reason codes are text; eligibility may hand in its own. */
  const ELIGIBILITY_SERVICE_UNAVAILABLE := "ELIGIBILITY_SERVICE_UNAVAILABLE"
  const ELIGIBILITY_MANAGER_HANDOFF := "ELIGIBILITY_MANAGER_HANDOFF"
  const NO_VALID_SLOTS := "NO_VALID_SLOTS"
  const ALTERNATE_WITHOUT_CONSENT := "ALTERNATE_MASTER_WITHOUT_CONSENT"

  datatype Eligibility = Eligibility(
    outcome: Outcome, selectedMaster: Option<string>, otherOnlineMasters: seq<string>, reason: Option<string>)

  /** What the backend layer hands over: not a list, or elements of which only the Some are slots. */
  datatype RawSlots = NotAList | Items(items: seq<Option<Slot>>)

  datatype Decision =
    | OfferSlots(slots: seq<Slot>)
    | Handoff(duringManagerHours: bool, reason: string)
    | Unavailable(reason: string)

  // --- collecting --------------------------------------------------------------------------------

  function ValidSlots(raw: RawSlots): seq<Slot> {
    if raw.NotAList? then [] else Present(raw.items)
  }

  function Present(items: seq<Option<Slot>>): seq<Slot> {
    if items == [] then [] else (if items[0].Some? then [items[0].value] else []) + Present(items[1..])
  }

  lemma {:induction false} PresentAppend(items: seq<Option<Slot>>, item: Option<Slot>)
    ensures Present(items + [item]) == Present(items) + if item.Some? then [item.value] else []
  {
    if items == [] {
      assert items + [item] == [item] && [item][1..] == [];
    } else {
      assert (items + [item])[1..] == items[1..] + [item];
      PresentAppend(items[1..], item);
      var (head, rest) := (if items[0].Some? then [items[0].value] else [], Present(items[1..]));
      var last := if item.Some? then [item.value] else [];
      assert head + (rest + last) == head + rest + last;
    }
  }

  /** Nothing is invented and nothing well-formed is dropped: a slot occurs as often as in the input. */
  lemma {:induction false} PresentCounts(items: seq<Option<Slot>>, slot: Slot)
    ensures multiset(Present(items))[slot] == multiset(items)[Some(slot)]
  {
    if items != [] {
      PresentCounts(items[1..], slot);
      assert items == [items[0]] + items[1..];
    }
  }

  method CollectValidSlots(raw: RawSlots) returns (valid: seq<Slot>)
    ensures valid == ValidSlots(raw)
  {
    if raw.NotAList? { return []; }
    valid := [];
    for i := 0 to |raw.items|
      invariant valid == Present(raw.items[..i])
    {
      assert raw.items[..i + 1] == raw.items[..i] + [raw.items[i]];
      PresentAppend(raw.items[..i], raw.items[i]);
      if raw.items[i].Some? { valid := valid + [raw.items[i].value]; }
    }
    assert raw.items[..|raw.items|] == raw.items;
  }

  // --- the three nearest -------------------------------------------------------------------------

  /** The sort key: (starts_at, slot_id). */
  predicate Nearer(a: Slot, b: Slot) {
    a.startsAt < b.startsAt || (a.startsAt == b.startsAt && Less(a.slotId, b.slotId))
  }

  function Insert(slot: Slot, sorted: seq<Slot>): seq<Slot> {
    if sorted == [] || !Nearer(sorted[0], slot) then [slot] + sorted else [sorted[0]] + Insert(slot, sorted[1..])
  }

  /** `sorted`: stable, as an element goes before the ones with its own key that followed it. */
  function Sorted(slots: seq<Slot>): seq<Slot> {
    if slots == [] then [] else Insert(slots[0], Sorted(slots[1..]))
  }

  function SelectNearest(slots: seq<Slot>): seq<Slot> {
    var ordered := Sorted(slots);
    if |ordered| <= MAX_OFFERED_SLOTS then ordered else ordered[..MAX_OFFERED_SLOTS]
  }

  predicate Ordered(slots: seq<Slot>) {
    forall i, j :: 0 <= i < j < |slots| ==> !Nearer(slots[j], slots[i])
  }

  /** Ordered means by start, and by slot id among equal starts. */
  lemma OrderedByStartThenId(slots: seq<Slot>)
    ensures Ordered(slots) <==>
              forall i, j :: 0 <= i < j < |slots| ==>
                || slots[i].startsAt < slots[j].startsAt
                || (&& slots[i].startsAt == slots[j].startsAt
                    && (Less(slots[i].slotId, slots[j].slotId) || slots[i].slotId == slots[j].slotId))
  {
    hide Less;
    forall i, j | 0 <= i < j < |slots| { LessTotal(slots[i].slotId, slots[j].slotId); }
  }

  lemma NearerIsOrder(a: Slot, b: Slot, c: Slot)
    ensures !(Nearer(a, b) && Nearer(b, a))
    ensures Nearer(a, b) && !Nearer(c, b) ==> Nearer(a, c)
    ensures !Nearer(a, b) && !Nearer(b, a) ==> a.startsAt == b.startsAt && a.slotId == b.slotId
  {
    LessTotal(a.slotId, b.slotId);
    LessTotal(b.slotId, c.slotId);
    if Less(a.slotId, b.slotId) && Less(b.slotId, c.slotId) { LessTransitive(a.slotId, b.slotId, c.slotId); }
  }

  lemma {:induction false} InsertKeepsOrder(slot: Slot, sorted: seq<Slot>)
    requires Ordered(sorted)
    ensures Ordered(Insert(slot, sorted)) && multiset(Insert(slot, sorted)) == multiset(sorted) + multiset{slot}
  {
    if sorted == [] || !Nearer(sorted[0], slot) {
      forall j | 0 <= j < |sorted| ensures !Nearer(sorted[j], slot) {
        if sorted != [] { NearerIsOrder(sorted[j], slot, sorted[0]); }
      }
    } else {
      var rest := Insert(slot, sorted[1..]);
      InsertKeepsOrder(slot, sorted[1..]);
      assert sorted == [sorted[0]] + sorted[1..];
      forall j | 0 <= j < |rest| ensures !Nearer(rest[j], sorted[0]) {
        NearerIsOrder(sorted[0], slot, slot);
        assert rest[j] in multiset(rest);
        if rest[j] != slot {
          assert rest[j] in sorted[1..];
        }
      }
    }
  }

  lemma {:induction false} SortedIsSorted(slots: seq<Slot>)
    ensures Ordered(Sorted(slots)) && multiset(Sorted(slots)) == multiset(slots)
    ensures |Sorted(slots)| == |slots|
  {
    if slots != [] {
      SortedIsSorted(slots[1..]);
      InsertKeepsOrder(slots[0], Sorted(slots[1..]));
      assert slots == [slots[0]] + slots[1..];
    }
    assert |multiset(Sorted(slots))| == |multiset(slots)|;
  }

  lemma FrontAndRest(slots: seq<Slot>, ordered: seq<Slot>, k: nat)
    requires multiset(ordered) == multiset(slots) && k <= |ordered|
    ensures multiset(ordered[..k]) <= multiset(slots)
    ensures multiset(slots) - multiset(ordered[..k]) == multiset(ordered[k..])
  {
    hide Nearer;
    assert ordered == ordered[..k] + ordered[k..];
    assert multiset(ordered) == multiset(ordered[..k]) + multiset(ordered[k..]);
  }

  lemma FrontIsNearest(ordered: seq<Slot>, k: nat)
    requires Ordered(ordered) && k <= |ordered|
    ensures Ordered(ordered[..k])
    ensures forall x, o :: x in ordered[k..] && o in ordered[..k] ==> !Nearer(x, o)
  {
    hide Nearer;
  }

  /** The offer is the three nearest: part of the input, in order, and nothing left out is nearer than any of it. */
  lemma SelectsThreeNearest(slots: seq<Slot>)
    ensures var offer := SelectNearest(slots);
            && multiset(offer) <= multiset(slots) && Ordered(offer)
            && |offer| == (if |slots| <= MAX_OFFERED_SLOTS then |slots| else MAX_OFFERED_SLOTS)
            && forall x, o :: x in multiset(slots) - multiset(offer) && o in offer ==> !Nearer(x, o)
  {
    SortedIsSorted(slots);
    var (ordered, offer) := (Sorted(slots), SelectNearest(slots));
    var k := |offer|;
    assert offer == ordered[..k];
    FrontAndRest(slots, ordered, k);
    FrontIsNearest(ordered, k);
    hide Ordered, Nearer, Sorted, SelectNearest;
    forall x | x in multiset(slots) - multiset(offer) ensures x in ordered[k..] {
      assert x in multiset(ordered[k..]);
    }
  }

  // --- independence of the input order -------------------------------------------------------------

  predicate DistinctKeys(slots: seq<Slot>) {
    forall i, j :: 0 <= i < j < |slots| ==> slots[i].startsAt != slots[j].startsAt || slots[i].slotId != slots[j].slotId
  }

  predicate KeyIdentifies(slots: seq<Slot>) {
    forall x, y :: x in slots && y in slots && x.startsAt == y.startsAt && x.slotId == y.slotId ==> x == y
  }

  lemma HeadsAgree(a: seq<Slot>, b: seq<Slot>)
    requires Ordered(a) && Ordered(b) && a != [] && b != [] && a[0] in b && b[0] in a && KeyIdentifies(a)
    ensures a[0] == b[0]
  {
    var i :| 0 <= i < |b| && b[i] == a[0];
    var j :| 0 <= j < |a| && a[j] == b[0];
    NearerIsOrder(a[0], b[0], b[0]);
    assert i > 0 ==> !Nearer(b[i], b[0]);
    assert j > 0 ==> !Nearer(a[j], a[0]);
  }

  lemma TailsAgree(a: seq<Slot>, b: seq<Slot>)
    requires a != [] && b != [] && a[0] == b[0] && multiset(a) == multiset(b)
    ensures multiset(a[1..]) == multiset(b[1..])
  {
    assert a == [a[0]] + a[1..] && b == [b[0]] + b[1..];
    assert multiset(a[1..]) == multiset(a) - multiset{a[0]};
    assert multiset(b[1..]) == multiset(b) - multiset{b[0]};
  }

  lemma SameElements(a: seq<Slot>, b: seq<Slot>)
    requires multiset(a) == multiset(b)
    ensures |a| == |b| && forall x :: x in a <==> x in b
  {
    assert |multiset(a)| == |a| && |multiset(b)| == |b|;
    forall x ensures x in a <==> x in b {
      assert x in a <==> x in multiset(a);
      assert x in b <==> x in multiset(b);
    }
  }

  /** Two ordered lists of the same elements, where keys identify elements, are one list. */
  lemma {:induction false} OrderedUnique(a: seq<Slot>, b: seq<Slot>)
    requires Ordered(a) && Ordered(b) && multiset(a) == multiset(b) && KeyIdentifies(a)
    ensures a == b
  {
    SameElements(a, b);
    if a != [] {
      HeadsAgree(a, b);
      TailsAgree(a, b);
      assert Ordered(a[1..]) && Ordered(b[1..]) && KeyIdentifies(a[1..]);
      hide Nearer, Ordered, KeyIdentifies;
      OrderedUnique(a[1..], b[1..]);
      assert a == [a[0]] + a[1..] && b == [b[0]] + b[1..];
    }
  }

  lemma DistinctKeysByElement(slots: seq<Slot>)
    requires DistinctKeys(slots)
    ensures KeyIdentifies(slots)
  {
  }

  /** With distinct keys the offer depends only on which slots there are, not on their order. */
  lemma OfferIndependentOfOrder(slots: seq<Slot>, permuted: seq<Slot>)
    requires multiset(slots) == multiset(permuted) && DistinctKeys(slots)
    ensures SelectNearest(slots) == SelectNearest(permuted)
  {
    SortedIsSorted(slots);
    SortedIsSorted(permuted);
    DistinctKeysByElement(slots);
    SameElements(Sorted(slots), slots);
    OrderedUnique(Sorted(slots), Sorted(permuted));
  }

  lemma {:induction false} SortedOfSorted(slots: seq<Slot>)
    requires Ordered(slots)
    ensures Sorted(slots) == slots
  {
    if slots != [] {
      SortedOfSorted(slots[1..]);
      if |slots| > 1 { assert slots[1..][0] == slots[1]; }
      assert slots == [slots[0]] + slots[1..];
    }
  }

  // --- the decision --------------------------------------------------------------------------------

  function OfMaster(slots: seq<Slot>, masters: set<string>): seq<Slot> {
    if slots == [] then []
    else (if slots[0].masterId in masters then [slots[0]] else []) + OfMaster(slots[1..], masters)
  }

  lemma {:induction false} OfMasterCounts(slots: seq<Slot>, masters: set<string>, slot: Slot)
    ensures multiset(OfMaster(slots, masters))[slot] == if slot.masterId in masters then multiset(slots)[slot] else 0
  {
    if slots != [] {
      OfMasterCounts(slots[1..], masters, slot);
      assert slots == [slots[0]] + slots[1..];
    }
  }

  lemma {:induction false} OfMasterAll(slots: seq<Slot>, masters: set<string>)
    requires forall i :: 0 <= i < |slots| ==> slots[i].masterId in masters
    ensures OfMaster(slots, masters) == slots
  {
    if slots != [] {
      OfMasterAll(slots[1..], masters);
      assert slots == [slots[0]] + slots[1..];
    }
  }

  const HOUR: int := 60 * MINUTE

  /** The UTC offset of the managers' time zone at an instant, in microseconds. */
  type Zone = int -> int

  /** Every local day from 9:00 up to, not including, 18:00. */
  predicate ManagerWorkingTime(zone: Zone, now: int) {
    9 * HOUR <= (now + zone(now)) % (24 * HOUR) < 18 * HOUR
  }

  /** By the local wall clock: an instant within the minute `w` is working time iff its hour is 9 to 17. */
  lemma WorkingHours(zone: Zone, now: int, w: Wall, within: int)
    requires WallOk(w) && 0 <= within < MINUTE && now + zone(now) == WallMinutes(w) * MINUTE + within
    ensures ManagerWorkingTime(zone, now) <==> 9 <= w.hour < 18
  {
    hide Calendar.Ordinal;
    var inDay := w.hour * 60 + w.minute;
    DayRemainder(Calendar.Ordinal(w.date), inDay * MINUTE + within);
    assert now + zone(now) == Calendar.Ordinal(w.date) * (24 * HOUR) + (inDay * MINUTE + within);
  }

  lemma DayRemainder(days: int, rest: int)
    requires 0 <= rest < 24 * HOUR
    ensures (days * (24 * HOUR) + rest) % (24 * HOUR) == rest
  {
  }

  function HandoffAt(zone: Zone, now: int, reason: string): Decision {
    Handoff(ManagerWorkingTime(zone, now), reason)
  }

  function ReasonOr(reason: Option<string>, other: string): string {
    if reason.Some? && reason.value != "" then reason.value else other
  }

  /** `decide_booking_dialog`. */
  function Decide(e: Eligibility, raw: RawSlots, zone: Zone, now: int, consent: bool): Decision {
    if e.outcome == ServiceUnavailable then Unavailable(ReasonOr(e.reason, ELIGIBILITY_SERVICE_UNAVAILABLE))
    else if e.outcome == ManagerHandoff then HandoffAt(zone, now, ReasonOr(e.reason, ELIGIBILITY_MANAGER_HANDOFF))
    else
      var valid := ValidSlots(raw);
      if valid == [] then HandoffAt(zone, now, NO_VALID_SLOTS)
      else if e.selectedMaster.None? then OfferSlots(SelectNearest(valid))
      else
        var selected := e.selectedMaster.value;
        var matching := OfMaster(valid, {selected});
        if matching != [] then OfferSlots(SelectNearest(matching))
        else if !consent then HandoffAt(zone, now, ALTERNATE_WITHOUT_CONSENT)
        else
          var alternates := OfMaster(valid, (set m | m in e.otherOnlineMasters) - {selected});
          if alternates == [] then HandoffAt(zone, now, NO_VALID_SLOTS) else OfferSlots(SelectNearest(alternates))
  }

  /** The slots the dialog may offer from, by what eligibility and the client allow. */
  predicate Eligible(e: Eligibility, raw: RawSlots, consent: bool, slot: Slot) {
    && e.outcome == SelfBookingAllowed && slot in ValidSlots(raw)
    && (e.selectedMaster.Some? ==>
          || slot.masterId == e.selectedMaster.value
          || (&& consent && slot.masterId in e.otherOnlineMasters
              && forall other :: other in ValidSlots(raw) ==> other.masterId != e.selectedMaster.value))
  }

  lemma SomeOfMaster(slots: seq<Slot>, masters: set<string>)
    ensures forall slot :: slot in OfMaster(slots, masters) <==> slot in slots && slot.masterId in masters
    ensures OfMaster(slots, masters) != [] <==> exists slot :: slot in slots && slot.masterId in masters
  {
    forall slot ensures slot in OfMaster(slots, masters) <==> slot in slots && slot.masterId in masters {
      OfMasterCounts(slots, masters, slot);
      assert slot in multiset(OfMaster(slots, masters)) <==> slot in OfMaster(slots, masters);
      assert slot in multiset(slots) <==> slot in slots;
    }
    if OfMaster(slots, masters) != [] { assert OfMaster(slots, masters)[0] in OfMaster(slots, masters); }
  }

  lemma SelectedAreInput(slots: seq<Slot>)
    ensures forall slot :: slot in SelectNearest(slots) ==> slot in slots
    ensures slots != [] ==> SelectNearest(slots) != []
  {
    SelectsThreeNearest(slots);
    forall slot | slot in SelectNearest(slots) ensures slot in slots {
      assert slot in multiset(SelectNearest(slots));
    }
  }

  lemma FewAreAllSelected(slots: seq<Slot>)
    requires |slots| <= MAX_OFFERED_SLOTS
    ensures forall slot :: slot in slots ==> slot in SelectNearest(slots)
  {
    SortedIsSorted(slots);
    forall slot | slot in slots ensures slot in Sorted(slots) {
      assert slot in multiset(slots);
    }
  }

  /**
   * Slots are offered iff some slot is eligible; what is offered is eligible, at most three, in order, and no
   * eligible slot left out is nearer than an offered one; fewer than three means that none is left out.
   */
  lemma OffersIffEligible(e: Eligibility, raw: RawSlots, zone: Zone, now: int, consent: bool)
    ensures var decision := Decide(e, raw, zone, now, consent);
            && (decision.OfferSlots? <==> exists slot :: Eligible(e, raw, consent, slot))
            && (decision.OfferSlots? ==>
                  && 1 <= |decision.slots| <= MAX_OFFERED_SLOTS && Ordered(decision.slots)
                  && (forall slot :: slot in decision.slots ==> Eligible(e, raw, consent, slot))
                  && (forall slot :: Eligible(e, raw, consent, slot) && |decision.slots| < MAX_OFFERED_SLOTS ==>
                        slot in decision.slots)
                  && (forall slot, o :: Eligible(e, raw, consent, slot) && slot !in decision.slots && o in decision.slots ==>
                        !Nearer(slot, o)))
  {
    if e.outcome == SelfBookingAllowed {
      var pool := Pool(e, raw, consent);
      PoolIsEligible(e, raw, consent);
      DecidesFromPool(e, raw, zone, now, consent);
      SelectsThreeNearest(pool);
      SelectedAreInput(pool);
      if |pool| <= MAX_OFFERED_SLOTS { FewAreAllSelected(pool); }
      hide Pool, SelectNearest, Eligible, Decide, Ordered, Nearer;
      if pool != [] {
        assert pool[0] in pool;
        forall slot, o | slot in pool && slot !in SelectNearest(pool) && o in SelectNearest(pool) ensures !Nearer(slot, o) {
          assert slot in multiset(pool) - multiset(SelectNearest(pool));
        }
      }
    }
  }

  /** Some backend slot is with one of the masters. */
  predicate SlotWith(raw: RawSlots, masters: set<string>) {
    exists slot :: slot in ValidSlots(raw) && slot.masterId in masters
  }

  /**
   * When nothing is offered, the decision says why, and whether managers are at work: eligibility's own code if it
   * refused, else one of two codes, each exactly in its case.
   */
  lemma RefusalReasons(e: Eligibility, raw: RawSlots, zone: Zone, now: int, consent: bool)
    ensures var decision := Decide(e, raw, zone, now, consent);
            var others := (set m | m in e.otherOnlineMasters) - (if e.selectedMaster.Some? then {e.selectedMaster.value} else {});
            && (decision.Unavailable? <==> e.outcome == ServiceUnavailable)
            && (decision.Handoff? ==> decision.duringManagerHours == ManagerWorkingTime(zone, now))
            && (e.outcome == ManagerHandoff ==> decision.Handoff?)
            && (e.outcome != SelfBookingAllowed ==>
                  && !decision.OfferSlots?
                  && decision.reason == (if e.reason.Some? && e.reason.value != "" then e.reason.value
                                         else if e.outcome == ManagerHandoff then "ELIGIBILITY_MANAGER_HANDOFF"
                                         else "ELIGIBILITY_SERVICE_UNAVAILABLE"))
            && (e.outcome == SelfBookingAllowed ==>
                  && !decision.Unavailable?
                  && (decision.Handoff? ==> decision.reason in {"ALTERNATE_MASTER_WITHOUT_CONSENT", "NO_VALID_SLOTS"})
                  && (decision.Handoff? && decision.reason == "ALTERNATE_MASTER_WITHOUT_CONSENT"
                      <==> && e.selectedMaster.Some? && !consent && ValidSlots(raw) != []
                           && !SlotWith(raw, {e.selectedMaster.value}))
                  && (decision.Handoff? && decision.reason == "NO_VALID_SLOTS"
                      <==> || ValidSlots(raw) == []
                           || (&& e.selectedMaster.Some? && consent && !SlotWith(raw, {e.selectedMaster.value})
                               && !SlotWith(raw, others))))
  {
    assert |NO_VALID_SLOTS| != |ALTERNATE_WITHOUT_CONSENT|;
    if e.selectedMaster.Some? {
      SomeOfMaster(ValidSlots(raw), {e.selectedMaster.value});
      SomeOfMaster(ValidSlots(raw), (set m | m in e.otherOnlineMasters) - {e.selectedMaster.value});
    }
    hide OfMaster, ValidSlots, SelectNearest, ManagerWorkingTime;
  }

  function Pool(e: Eligibility, raw: RawSlots, consent: bool): seq<Slot> {
    var valid := ValidSlots(raw);
    if e.selectedMaster.None? then valid
    else if OfMaster(valid, {e.selectedMaster.value}) != [] then OfMaster(valid, {e.selectedMaster.value})
    else if consent then OfMaster(valid, (set m | m in e.otherOnlineMasters) - {e.selectedMaster.value})
    else []
  }

  lemma PoolIsEligible(e: Eligibility, raw: RawSlots, consent: bool)
    requires e.outcome == SelfBookingAllowed
    ensures forall slot :: slot in Pool(e, raw, consent) <==> Eligible(e, raw, consent, slot)
  {
    if e.selectedMaster.Some? {
      SomeOfMaster(ValidSlots(raw), {e.selectedMaster.value});
      SomeOfMaster(ValidSlots(raw), (set m | m in e.otherOnlineMasters) - {e.selectedMaster.value});
    }
    hide OfMaster, ValidSlots;
  }

  lemma DecidesFromPool(e: Eligibility, raw: RawSlots, zone: Zone, now: int, consent: bool)
    requires e.outcome == SelfBookingAllowed
    ensures var (pool, decision) := (Pool(e, raw, consent), Decide(e, raw, zone, now, consent));
            if pool != [] then decision == OfferSlots(SelectNearest(pool)) else decision.Handoff?
  {
    hide SelectNearest;
    if ValidSlots(raw) == [] && e.selectedMaster.Some? {
      assert OfMaster([], {e.selectedMaster.value}) == [];
    }
  }

  /** An accepted answer for the selected master is offered from the front: exactly its first three slots. */
  lemma AcceptedSlotsOfferedInOrder(
    e: Eligibility, payload: seq<SlotObject>, request: SlotsRequest, zone: Zone, now: int, consent: bool)
    requires SlotsOk(payload, request) && payload != []
    requires e.outcome == SelfBookingAllowed && e.selectedMaster in {None, Some(request.masterId)}
    ensures var slots := Slots(payload, request);
            var raw := Items(seq(|slots|, i requires 0 <= i < |slots| => Some(slots[i])));
            Decide(e, raw, zone, now, consent)
            == OfferSlots(if |slots| <= MAX_OFFERED_SLOTS then slots else slots[..MAX_OFFERED_SLOTS])
  {
    var slots := Slots(payload, request);
    var items := seq(|slots|, i requires 0 <= i < |slots| => Some(slots[i]));
    PresentOfSome(items, slots);
    AcceptedSlots(payload, request);
    OfMasterAll(slots, {request.masterId});
    SortedOfSorted(slots);
    assert Present([]) == [] && slots[0].masterId == request.masterId;
    hide SlotsOk, SlotOf, Slots, Sorted, OfMaster, Present;
  }

  lemma AcceptedSlots(payload: seq<SlotObject>, request: SlotsRequest)
    requires SlotsOk(payload, request)
    ensures Ordered(Slots(payload, request))
    ensures forall i :: 0 <= i < |payload| ==> Slots(payload, request)[i].masterId == request.masterId
  {
  }

  lemma {:induction false} PresentOfSome(items: seq<Option<Slot>>, slots: seq<Slot>)
    requires |items| == |slots| && forall i :: 0 <= i < |slots| ==> items[i] == Some(slots[i])
    ensures Present(items) == slots
  {
    if items != [] {
      PresentOfSome(items[1..], slots[1..]);
      assert slots == [slots[0]] + slots[1..];
    }
  }
}
