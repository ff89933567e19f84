/** The handoff schema migration: UPDATE statements over arbitrary legacy tables, then the new constraints. */
module HandoffMigration {
  import opened Wrappers

  type Id = nat

  datatype Status = Open | Handoff | Closed
  datatype Ownership = Bot | Manager
  datatype HandoffState = BotActive | HumanActive | HumanPause
  datatype Deadline = Until(at: int) | Infinite

  datatype Conversation = Conversation(
    status: Status, ownership: Ownership, takeoverAt: Option<int>, createdAt: int, updatedAt: int,
    activePlan: Option<Id>,
    handoffState: Option<HandoffState>, managerEpoch: int, currentEventSeq: int, sequenceHwm: Option<int>,
    deadlineAt: Option<Deadline>, pauseAnchorAt: Option<int>)

  datatype Message = Message(conversation: Id, receivedAt: int, createdAt: int, eventSeq: Option<int>)

  /** Owner, token and expiry: three separate columns. */
  datatype Lease = Lease(owner: Option<string>, token: Option<Id>, until: Option<int>)

  datatype PlanStatus = PlanPending | Ready | PlanProcessing | Dispatched | PlanCancelled | Superseded | PlanFailed | PlanDead
  datatype Plan = Plan(
    conversation: Id, status: PlanStatus, cancelReason: Option<string>, lease: Lease,
    managerEpoch: int, eventSeqHwm: int)

  datatype Destination = InternalDraft | SyntheticOutbound
  datatype Delivery = Pending | Processing | Admitted | Delivered | Failed | Dead | Cancelled
  datatype Outbound = Outbound(
    conversation: Id, destination: Destination, delivery: Delivery, lease: Lease, createdAt: int, updatedAt: int,
    managerEpoch: int, eventSeqHwm: int, admittedAt: Option<int>)

  datatype Tables = Tables(
    conversations: map<Id, Conversation>, messages: map<Id, Message>, plans: map<Id, Plan>, outbox: map<Id, Outbound>)

  const NO_LEASE := Lease(None, None, None)
  const MIGRATION_REASON := "HANDOFF_SCHEMA_MIGRATION"

  /** What the old schema guarantees: the foreign keys, and no ADMITTED delivery yet. */
  predicate Legacy(t: Tables) {
    && (forall m <- t.messages :: t.messages[m].conversation in t.conversations)
    && (forall p <- t.plans :: t.plans[p].conversation in t.conversations)
    && (forall o <- t.outbox :: t.outbox[o].conversation in t.conversations && t.outbox[o].delivery != Admitted)
  }

  // --- new columns, with their defaults -----------------------------------------------------------

  function WithNewColumns(t: Tables): Tables {
    Tables(
      map c <- t.conversations :: t.conversations[c].(handoffState := None, managerEpoch := 0, currentEventSeq := 0,
                                                      sequenceHwm := None, deadlineAt := None, pauseAnchorAt := None),
      map m <- t.messages :: t.messages[m].(eventSeq := None),
      map p <- t.plans :: t.plans[p].(managerEpoch := 0, eventSeqHwm := 0),
      map o <- t.outbox :: t.outbox[o].(managerEpoch := 0, eventSeqHwm := 0, admittedAt := None))
  }

  // --- event ranking ---------------------------------------------------------------------------------

  /** The order of the window: received_at, created_at, id. */
  predicate Before(messages: map<Id, Message>, a: Id, b: Id)
    requires a in messages && b in messages
  {
    var (x, y) := (messages[a], messages[b]);
    || x.receivedAt < y.receivedAt
    || (x.receivedAt == y.receivedAt && (x.createdAt < y.createdAt || (x.createdAt == y.createdAt && a < b)))
  }

  function Partition(messages: map<Id, Message>, c: Id): set<Id> {
    set m | m in messages && messages[m].conversation == c
  }

  function UpTo(messages: map<Id, Message>, id: Id): set<Id>
    requires id in messages
  {
    set m | m in messages && messages[m].conversation == messages[id].conversation && !Before(messages, id, m)
  }

  /** row_number() over the message's partition. */
  function RowNumber(messages: map<Id, Message>, id: Id): nat
    requires id in messages
  {
    |UpTo(messages, id)|
  }

  function Ranked(messages: map<Id, Message>): map<Id, Message> {
    map m <- messages :: messages[m].(eventSeq := Some(RowNumber(messages, m)))
  }

  function EventSeqs(messages: map<Id, Message>, c: Id): set<int> {
    set m | m in messages && messages[m].conversation == c && messages[m].eventSeq.Some? :: messages[m].eventSeq.value
  }

  predicate IsMax(s: set<int>, m: int) {
    m in s && forall y <- s :: y <= m
  }

  lemma Pick<T>(s: set<T>) returns (x: T)
    requires s != {}
    ensures x in s
  {
    x :| x in s;
  }

  lemma {:induction false} HasMax(s: set<int>)
    requires s != {}
    ensures exists m :: IsMax(s, m)
  {
    var z := Pick(s);
    var rest := s - {z};
    if rest == {} {
      assert s == {z} && IsMax(s, z);
    } else {
      HasMax(rest);
      var m :| IsMax(rest, m);
      assert s == rest + {z};
      assert IsMax(s, if z <= m then m else z);
    }
  }

  function Max(s: set<int>): (m: int)
    requires s != {}
    ensures IsMax(s, m)
  {
    HasMax(s);
    var m :| IsMax(s, m);
    m
  }

  /** Only a conversation with messages joins its group. */
  function WithCurrentSeq(messages: map<Id, Message>, c: Id, row: Conversation): Conversation {
    if Partition(messages, c) == {} then row
    else row.(currentEventSeq := if EventSeqs(messages, c) == {} then 0 else Max(EventSeqs(messages, c)))
  }

  function SeqStamped(conversations: map<Id, Conversation>, messages: map<Id, Message>): map<Id, Conversation> {
    map c <- conversations :: WithCurrentSeq(messages, c, conversations[c])
  }

  // --- conversations, plans, outbox --------------------------------------------------------------------

  /** Every CASE reads the row as it was before the statement. */
  function Normalized(row: Conversation): Conversation {
    var human := row.status != Closed && row.ownership == Manager && row.status == Handoff;
    row.(handoffState := Some(if row.status == Closed then BotActive
                              else if row.ownership == Manager && row.status == Handoff then HumanActive
                              else BotActive),
         managerEpoch := if human then 1 else 0,
         ownership := if human then Manager else Bot,
         status := if row.status == Closed then Closed
                   else if row.ownership == Manager && row.status == Handoff then Handoff
                   else Open,
         takeoverAt := if human then Some(if row.takeoverAt.Some? then row.takeoverAt.value else row.updatedAt) else None,
         deadlineAt := if human then Some(Infinite) else None,
         pauseAnchorAt := None,
         sequenceHwm := None,
         activePlan := None)
  }

  function NormalizedAll(conversations: map<Id, Conversation>): map<Id, Conversation> {
    map c <- conversations :: Normalized(conversations[c])
  }

  predicate PlanOpen(status: PlanStatus) {
    status.PlanPending? || status.Ready? || status.PlanProcessing? || status.PlanFailed?
  }

  function FencedPlan(row: Plan, conversation: Conversation): Plan {
    row.(managerEpoch := conversation.managerEpoch,
         eventSeqHwm := conversation.currentEventSeq,
         status := if PlanOpen(row.status) then PlanCancelled else row.status,
         cancelReason := if PlanOpen(row.status) then Some(MIGRATION_REASON) else row.cancelReason,
         lease := NO_LEASE)
  }

  /** A row whose conversation is missing would not join; the foreign key rules that out. */
  function FencedPlans(plans: map<Id, Plan>, conversations: map<Id, Conversation>): map<Id, Plan> {
    map p <- plans :: if plans[p].conversation in conversations
                      then FencedPlan(plans[p], conversations[plans[p].conversation]) else plans[p]
  }

  function Stamped(row: Outbound, conversation: Conversation): Outbound {
    row.(managerEpoch := conversation.managerEpoch, eventSeqHwm := conversation.currentEventSeq)
  }

  function StampedOutbox(outbox: map<Id, Outbound>, conversations: map<Id, Conversation>): map<Id, Outbound> {
    map o <- outbox :: if outbox[o].conversation in conversations
                       then Stamped(outbox[o], conversations[outbox[o].conversation]) else outbox[o]
  }

  function FencedOutbound(row: Outbound): Outbound {
    var synthetic := row.destination == SyntheticOutbound;
    row.(delivery := if synthetic && (row.delivery.Pending? || row.delivery.Processing? || row.delivery.Failed?)
                     then Cancelled else row.delivery,
         lease := if synthetic then NO_LEASE else row.lease,
         admittedAt := if synthetic && row.delivery == Delivered then Some(row.updatedAt) else None)
  }

  function FencedOutbox(outbox: map<Id, Outbound>): map<Id, Outbound> {
    map o <- outbox :: FencedOutbound(outbox[o])
  }

  /** The statements in their order: each reads what the earlier ones wrote. */
  function Upgraded(before: Tables): Tables {
    var t := WithNewColumns(before);
    var messages := Ranked(t.messages);
    var conversations := NormalizedAll(SeqStamped(t.conversations, messages));
    Tables(conversations, messages, FencedPlans(t.plans, conversations),
           FencedOutbox(StampedOutbox(t.outbox, conversations)))
  }

  // --- the database --------------------------------------------------------------------------------------

  class Database {
    var conversations: map<Id, Conversation>
    var messages: map<Id, Message>
    var plans: map<Id, Plan>
    var outbox: map<Id, Outbound>

    ghost function Content(): Tables
      reads this
    {
      Tables(conversations, messages, plans, outbox)
    }

    constructor (t: Tables)
      ensures Content() == t
    {
      conversations, messages, plans, outbox := t.conversations, t.messages, t.plans, t.outbox;
    }

    method AddColumns()
      modifies this
      ensures Content() == WithNewColumns(old(Content()))
    {
      var t := WithNewColumns(Tables(conversations, messages, plans, outbox));
      conversations, messages, plans, outbox := t.conversations, t.messages, t.plans, t.outbox;
    }

    method RankMessages()
      modifies this`messages
      ensures messages == Ranked(old(messages))
      ensures forall c :: SequenceOrdered(messages, c)
    {
      forall c { RankedIsOrdered(messages, c); }
      messages := map m <- messages :: messages[m].(eventSeq := Some(RowNumber(messages, m)));
    }

    method SetCurrentEventSeq()
      modifies this`conversations
      ensures conversations == SeqStamped(old(conversations), messages)
      ensures forall c <- conversations :: SequenceOrdered(messages, c) && old(conversations)[c].currentEventSeq == 0 ==>
                EventsOrdered(messages, c, conversations[c].currentEventSeq)
    {
      forall c <- conversations | SequenceOrdered(messages, c) && conversations[c].currentEventSeq == 0 {
        CounterIsCount(messages, c, conversations[c]);
      }
      conversations := map c <- conversations :: WithCurrentSeq(messages, c, conversations[c]);
    }

    method NormalizeConversations()
      modifies this`conversations
      ensures conversations == NormalizedAll(old(conversations))
      ensures forall c <- conversations :: ConversationMigrated(old(conversations)[c], conversations[c])
    {
      conversations := map c <- conversations :: Normalized(conversations[c]);
    }

    method FencePlans()
      modifies this`plans
      ensures plans == FencedPlans(old(plans), conversations)
      ensures forall p <- plans :: old(plans)[p].conversation in conversations ==>
                && PlanMigrated(old(plans)[p], plans[p])
                && Fences(plans[p].managerEpoch, plans[p].eventSeqHwm, conversations[old(plans)[p].conversation])
    {
      plans := map p <- plans :: if plans[p].conversation in conversations
                                 then FencedPlan(plans[p], conversations[plans[p].conversation]) else plans[p];
    }

    method StampOutbox()
      modifies this`outbox
      ensures outbox == StampedOutbox(old(outbox), conversations)
      ensures forall o <- outbox :: old(outbox)[o].conversation in conversations ==>
                Fences(outbox[o].managerEpoch, outbox[o].eventSeqHwm, conversations[old(outbox)[o].conversation])
    {
      outbox := map o <- outbox :: if outbox[o].conversation in conversations
                                   then Stamped(outbox[o], conversations[outbox[o].conversation]) else outbox[o];
    }

    method FenceOutbox()
      modifies this`outbox
      ensures outbox == FencedOutbox(old(outbox))
      ensures forall o <- outbox ::
                old(outbox)[o].managerEpoch >= 0 && old(outbox)[o].eventSeqHwm >= 0 && old(outbox)[o].delivery != Admitted ==>
                  OutboundMigrated(old(outbox)[o], outbox[o])
    {
      outbox := map o <- outbox :: FencedOutbound(outbox[o]);
    }

    /**
     * The whole upgrade, in one transaction: it commits, with every new constraint in force and every legacy row
     * fenced, iff the legacy drafts already met the lease checks; otherwise nothing changes.
     */
    method Upgrade() returns (committed: bool)
      requires Legacy(Content())
      modifies this
      ensures committed <==> LegacyDraftsLeasedRight(old(Content()))
      ensures !committed ==> Content() == old(Content())
      ensures committed ==> NewConstraints(Content()) && Migrated(old(Content()), Content())
    {
      hide Ranked, SeqStamped, NormalizedAll, FencedPlans, StampedOutbox, FencedOutbox, WithNewColumns;
      hide NewConstraints, Migrated, Legacy, LegacyDraftsLeasedRight;
      var before := Tables(conversations, messages, plans, outbox);
      AddColumns();
      RankMessages();
      SetCurrentEventSeq();
      NormalizeConversations();
      FencePlans();
      StampOutbox();
      FenceOutbox();
      assert Content() == Upgraded(before);
      UpgradeMigrates(before);
      UpgradeMeetsConstraints(before);
      committed := ConstraintsHold();
      if !committed {
        conversations, messages, plans, outbox := before.conversations, before.messages, before.plans, before.outbox;
      }
    }

    predicate ConstraintsHold()
      reads this
      ensures ConstraintsHold() <==> NewConstraints(Content())
    {
      && (forall c <- conversations :: ConversationOk(conversations[c]))
      && (forall m <- messages :: MessageOk(messages[m])) && SeqsUnique(messages)
      && (forall p <- plans :: PlanOk(plans[p]))
      && (forall o <- outbox :: OutboundOk(outbox[o]))
    }
  }

  // --- the new constraints ----------------------------------------------------------------------------------

  predicate BotOwned(row: Conversation) {
    && row.ownership == Bot && row.handoffState == Some(BotActive)
    && row.deadlineAt.None? && row.pauseAnchorAt.None? && row.takeoverAt.None?
  }

  predicate HandoffConsistent(row: Conversation) {
    || (row.status == Closed && BotOwned(row))
    || (row.status == Open && BotOwned(row))
    || (&& row.status == Handoff && row.ownership == Manager && row.deadlineAt.Some? && row.takeoverAt.Some?
        && ((row.handoffState == Some(HumanActive) && row.pauseAnchorAt.None?)
            || (row.handoffState == Some(HumanPause) && row.pauseAnchorAt.Some?)))
  }

  predicate ConversationOk(row: Conversation) {
    && row.handoffState.Some? && row.managerEpoch >= 0 && row.currentEventSeq >= 0
    && (row.sequenceHwm.Some? ==> row.sequenceHwm.value >= 0)
    && HandoffConsistent(row)
  }

  predicate MessageOk(row: Message) {
    row.eventSeq.Some? && row.eventSeq.value > 0
  }

  predicate SeqsUnique(messages: map<Id, Message>) {
    forall a <- messages, b <- messages ::
      a != b && messages[a].conversation == messages[b].conversation ==> messages[a].eventSeq != messages[b].eventSeq
  }

  predicate PlanOk(row: Plan) {
    row.managerEpoch >= 0 && row.eventSeqHwm >= 0
  }

  predicate FullyLeased(lease: Lease) {
    lease.owner.Some? && lease.token.Some? && lease.until.Some?
  }

  /** ck_outbox_lease_complete, ck_outbox_unleased_states, ck_outbox_processing_lease. */
  predicate LeaseOk(delivery: Delivery, lease: Lease) {
    && (lease == NO_LEASE || FullyLeased(lease))
    && (!(delivery.Processing? || delivery.Admitted?) ==> lease == NO_LEASE)
    && (delivery.Processing? ==> FullyLeased(lease))
  }

  predicate OutboundOk(row: Outbound) {
    && row.managerEpoch >= 0 && row.eventSeqHwm >= 0
    && (row.admittedAt.Some? ==> row.destination == SyntheticOutbound
                                 && (row.delivery.Admitted? || row.delivery.Delivered? || row.delivery.Dead?))
    && (row.delivery.Admitted? ==> row.destination == SyntheticOutbound && row.admittedAt.Some?)
    && (row.destination == SyntheticOutbound && row.delivery.Delivered? ==> row.admittedAt.Some?)
    && LeaseOk(row.delivery, row.lease)
  }

  predicate NewConstraints(t: Tables) {
    && (forall c <- t.conversations :: ConversationOk(t.conversations[c]))
    && (forall m <- t.messages :: MessageOk(t.messages[m])) && SeqsUnique(t.messages)
    && (forall p <- t.plans :: PlanOk(t.plans[p]))
    && (forall o <- t.outbox :: OutboundOk(t.outbox[o]))
  }

  // --- what the upgrade promises ------------------------------------------------------------------------------

  function OneTo(n: nat): (r: set<int>)
    ensures |r| == n && forall k :: k in r <==> 1 <= k <= n
  {
    if n == 0 then {} else OneTo(n - 1) + {n}
  }

  /** Sequence numbers are a bijection onto 1..n, in the order of the window, and the counter is n. */
  predicate EventsOrdered(messages: map<Id, Message>, c: Id, counter: int) {
    SequenceOrdered(messages, c) && counter == |Partition(messages, c)|
  }

  predicate SequenceOrdered(messages: map<Id, Message>, c: Id) {
    && EventSeqs(messages, c) == OneTo(|Partition(messages, c)|)
    && (forall a <- Partition(messages, c) :: messages[a].eventSeq.Some?)
    && (forall a <- Partition(messages, c), b <- Partition(messages, c) ::
          Earlier(EventKey(messages[a], a), EventKey(messages[b], b))
          <==> messages[a].eventSeq.value < messages[b].eventSeq.value)
  }

  /** Received, created, id: the first difference decides. */
  function EventKey(row: Message, id: Id): (int, int, int) {
    (row.receivedAt, row.createdAt, id)
  }

  predicate Earlier(a: (int, int, int), b: (int, int, int)) {
    if a.0 != b.0 then a.0 < b.0 else if a.1 != b.1 then a.1 < b.1 else a.2 < b.2
  }

  /**
   * Only an explicit manager handoff stays human-owned; the migration never invents a resume time, and no
   * conversation starts with a manager sequence mark.
   */
  predicate ConversationMigrated(was: Conversation, now: Conversation) {
    && HandoffConsistent(now) && now.activePlan.None? && now.sequenceHwm.None? && now.pauseAnchorAt.None?
    && now.createdAt == was.createdAt && now.updatedAt == was.updatedAt
    && (now.status == Handoff <==> was.status == Handoff && was.ownership == Manager)
    && (now.status == Closed <==> was.status == Closed)
    && now.managerEpoch == (if now.status == Handoff then 1 else 0)
    && (now.status == Handoff ==> now.deadlineAt == Some(Infinite) && now.handoffState == Some(HumanActive)
                                  && now.takeoverAt == (if was.takeoverAt.Some? then was.takeoverAt else Some(was.updatedAt)))
  }

  predicate PlanMigrated(was: Plan, now: Plan) {
    && !PlanOpen(now.status) && now.lease == NO_LEASE
    && (if PlanOpen(was.status) then now.status == PlanCancelled && now.cancelReason == Some(MIGRATION_REASON)
        else now.status == was.status && now.cancelReason == was.cancelReason)
  }

  predicate OutboundMigrated(was: Outbound, now: Outbound) {
    && now.conversation == was.conversation && now.destination == was.destination
    && now.createdAt == was.createdAt && now.updatedAt == was.updatedAt
    && (was.destination == InternalDraft ==>
          now.delivery == was.delivery && now.lease == was.lease && now.admittedAt.None?)
    && (was.destination == SyntheticOutbound ==>
          && OutboundOk(now) && now.lease == NO_LEASE
          && now.admittedAt == (if was.delivery.Delivered? then Some(was.updatedAt) else None)
          && now.delivery == (if was.delivery.Delivered? || was.delivery.Dead? then was.delivery else Cancelled))
  }

  /** No row comes or goes. */
  function Keys(t: Tables): (set<Id>, set<Id>, set<Id>, set<Id>) {
    (t.conversations.Keys, t.messages.Keys, t.plans.Keys, t.outbox.Keys)
  }

  predicate Migrated(was: Tables, now: Tables) {
    && Keys(now) == Keys(was)
    && (forall c <- now.conversations ::
          ConversationMigrated(was.conversations[c], now.conversations[c])
          && EventsOrdered(now.messages, c, now.conversations[c].currentEventSeq))
    && (forall m <- now.messages :: now.messages[m].(eventSeq := None) == was.messages[m].(eventSeq := None))
    && (forall p <- now.plans ::
          && PlanMigrated(was.plans[p], now.plans[p])
          && now.plans[p].conversation == was.plans[p].conversation && now.plans[p].conversation in now.conversations
          && Fences(now.plans[p].managerEpoch, now.plans[p].eventSeqHwm, now.conversations[now.plans[p].conversation]))
    && (forall o <- now.outbox ::
          && OutboundMigrated(was.outbox[o], now.outbox[o])
          && now.outbox[o].conversation == was.outbox[o].conversation && now.outbox[o].conversation in now.conversations
          && now.outbox[o].destination == was.outbox[o].destination
          && Fences(now.outbox[o].managerEpoch, now.outbox[o].eventSeqHwm, now.conversations[now.outbox[o].conversation]))
  }

  /** A fence: a row's epoch and high-water mark are those of its conversation. */
  predicate Fences(epoch: int, hwm: int, row: Conversation) {
    epoch == row.managerEpoch && hwm == row.currentEventSeq
  }

  predicate DraftLeasedRight(row: Outbound) {
    row.destination == InternalDraft ==> LeaseOk(row.delivery, row.lease)
  }

  predicate LegacyDraftsLeasedRight(t: Tables) {
    forall o <- t.outbox :: DraftLeasedRight(t.outbox[o])
  }

  // --- ranking is a bijection ------------------------------------------------------------------------------------

  lemma RowNumberBounds(messages: map<Id, Message>, id: Id)
    requires id in messages
    ensures 1 <= RowNumber(messages, id) <= |Partition(messages, messages[id].conversation)|
  {
    assert id in UpTo(messages, id);
    SubsetSize(UpTo(messages, id), Partition(messages, messages[id].conversation));
  }

  lemma RowNumberGrows(messages: map<Id, Message>, a: Id, b: Id)
    requires a in messages && b in messages && messages[a].conversation == messages[b].conversation
    requires Before(messages, a, b)
    ensures RowNumber(messages, a) < RowNumber(messages, b)
  {
    assert UpTo(messages, a) <= UpTo(messages, b) - {b};
    assert b in UpTo(messages, b);
    SubsetSize(UpTo(messages, a), UpTo(messages, b) - {b});
  }

  lemma {:induction false} SubsetSize<T>(a: set<T>, b: set<T>)
    requires a <= b
    ensures |a| <= |b|
    ensures |a| == |b| ==> a == b
  {
    if a != {} {
      var x :| x in a;
      SubsetSize(a - {x}, b - {x});
    } else if b != {} {
      var y :| y in b;
      assert |b| == |b - {y}| + 1;
    }
  }

  /** Distinct numbers for the ids of a set: as many numbers as ids. */
  lemma {:induction false} ImageSize(ids: set<Id>, messages: map<Id, Message>)
    requires forall a <- ids :: a in messages
    requires forall a <- ids, b <- ids :: a != b ==> RowNumber(messages, a) != RowNumber(messages, b)
    ensures |set a | a in ids :: RowNumber(messages, a)| == |ids|
  {
    var image := set a | a in ids :: RowNumber(messages, a);
    if ids == {} {
      assert image == {};
    } else {
      var x :| x in ids;
      ImageSize(ids - {x}, messages);
      assert image == (set a | a in ids - {x} :: RowNumber(messages, a)) + {RowNumber(messages, x)};
    }
  }

  /** Row numbers fill 1..n. */
  lemma RowNumbersOnto(messages: map<Id, Message>, c: Id)
    ensures (set a | a in Partition(messages, c) :: RowNumber(messages, a) as int)
            == OneTo(|Partition(messages, c)|)
  {
    var ids := Partition(messages, c);
    var image := set a | a in ids :: RowNumber(messages, a);
    var range := OneTo(|ids|);
    forall a <- ids, b <- ids | a != b ensures RowNumber(messages, a) != RowNumber(messages, b) {
      if Before(messages, a, b) { RowNumberGrows(messages, a, b); } else { RowNumberGrows(messages, b, a); }
    }
    ImageSize(ids, messages);
    forall k <- image ensures k in range {
      var a :| a in ids && k == RowNumber(messages, a);
      RowNumberBounds(messages, a);
    }
    SubsetSize(image, range);
  }

  lemma RankedSeqs(messages: map<Id, Message>, c: Id)
    ensures Partition(Ranked(messages), c) == Partition(messages, c)
    ensures EventSeqs(Ranked(messages), c) == OneTo(|Partition(messages, c)|)
  {
    var (ranked, ids) := (Ranked(messages), Partition(messages, c));
    RowNumbersOnto(messages, c);
    hide RowNumber, Before, UpTo;
    forall a <- ids ensures RowNumber(messages, a) in EventSeqs(ranked, c) {
      assert a in ranked && ranked[a].conversation == c && ranked[a].eventSeq == Some(RowNumber(messages, a));
    }
    forall k <- EventSeqs(ranked, c) ensures k in (set a | a in ids :: RowNumber(messages, a) as int) {
      var a :| a in ranked && ranked[a].conversation == c && ranked[a].eventSeq == Some(k);
      assert a in ids && k == RowNumber(messages, a);
    }
  }

  lemma RankedOrder(messages: map<Id, Message>, c: Id, a: Id, b: Id)
    requires a in Partition(messages, c) && b in Partition(messages, c)
    ensures Earlier(EventKey(Ranked(messages)[a], a), EventKey(Ranked(messages)[b], b))
            <==> Ranked(messages)[a].eventSeq.value < Ranked(messages)[b].eventSeq.value
  {
    if Before(messages, a, b) { RowNumberGrows(messages, a, b); }
    else if a != b { RowNumberGrows(messages, b, a); }
  }

  /** The ranking statement, on any table: a bijection onto 1..n in the order of the window. */
  lemma RankedIsOrdered(messages: map<Id, Message>, c: Id)
    ensures SequenceOrdered(Ranked(messages), c)
  {
    RankedSeqs(messages, c);
    forall a <- Partition(messages, c), b <- Partition(messages, c) { RankedOrder(messages, c, a, b); }
    assert forall a <- Partition(messages, c) :: Ranked(messages)[a].eventSeq.Some?;
    hide Ranked, EventSeqs, Earlier, EventKey, OneTo;
  }

  /** The counting statement: the counter is the number of messages, 0 without messages. */
  lemma CounterIsCount(messages: map<Id, Message>, c: Id, row: Conversation)
    requires SequenceOrdered(messages, c) && row.currentEventSeq == 0
    ensures EventsOrdered(messages, c, WithCurrentSeq(messages, c, row).currentEventSeq)
  {
    var n := |Partition(messages, c)|;
    if n > 0 {
      assert n in OneTo(n);
      assert Max(OneTo(n)) == n;
    }
  }

  /** Both statements: sequence numbers are an ordered bijection onto 1..n and the counter is n. */
  lemma RankingOrdersEvents(messages: map<Id, Message>, c: Id, row: Conversation)
    requires row.currentEventSeq == 0
    ensures EventsOrdered(Ranked(messages), c, WithCurrentSeq(Ranked(messages), c, row).currentEventSeq)
  {
    RankedIsOrdered(messages, c);
    hide SequenceOrdered, Ranked;
    CounterIsCount(Ranked(messages), c, row);
  }

  // --- the composed statements ---------------------------------------------------------------------------------------

  lemma ConversationMigrates(before: Tables, c: Id)
    requires c in before.conversations
    ensures var after := Upgraded(before);
            && c in after.conversations && ConversationMigrated(before.conversations[c], after.conversations[c])
            && EventsOrdered(after.messages, c, after.conversations[c].currentEventSeq)
            && ConversationOk(after.conversations[c])
  {
    var t := WithNewColumns(before);
    var row := t.conversations[c];
    RankingOrdersEvents(t.messages, c, row);
    assert Upgraded(before).conversations[c] == Normalized(WithCurrentSeq(Ranked(t.messages), c, row));
    assert WithCurrentSeq(Ranked(t.messages), c, row).currentEventSeq == |Partition(Ranked(t.messages), c)|;
    hide EventsOrdered, Ranked, Partition, EventSeqs;
  }

  lemma RankedMessageOk(messages: map<Id, Message>, m: Id)
    requires m in messages
    ensures MessageOk(Ranked(messages)[m])
  {
    RowNumberBounds(messages, m);
  }

  lemma RankedSeqsUnique(messages: map<Id, Message>)
    ensures SeqsUnique(Ranked(messages))
  {
    forall a <- messages, b <- messages | a != b && messages[a].conversation == messages[b].conversation
      ensures RowNumber(messages, a) != RowNumber(messages, b)
    {
      if Before(messages, a, b) { RowNumberGrows(messages, a, b); } else { RowNumberGrows(messages, b, a); }
    }
    hide RowNumber;
  }

  /** Ranking writes one column and nothing else. */
  lemma OnlySeqsWritten(before: Tables, m: Id)
    requires m in before.messages
    ensures var after := Upgraded(before);
            m in after.messages && after.messages[m].(eventSeq := None) == before.messages[m].(eventSeq := None)
  {
    hide NormalizedAll, SeqStamped, FencedPlans, FencedOutbox, StampedOutbox, RowNumber;
  }

  lemma PlanMigrates(before: Tables, p: Id)
    requires Legacy(before) && p in before.plans
    ensures var after := Upgraded(before);
            && p in after.plans && after.plans[p].conversation == before.plans[p].conversation
            && after.plans[p].conversation in after.conversations && PlanMigrated(before.plans[p], after.plans[p])
            && Fences(after.plans[p].managerEpoch, after.plans[p].eventSeqHwm, after.conversations[after.plans[p].conversation])
  {
    hide Ranked, Normalized, WithCurrentSeq, FencedOutbox, StampedOutbox;
  }

  lemma UpgradedOutbound(before: Tables, o: Id)
    requires Legacy(before) && o in before.outbox
    ensures var (after, row) := (Upgraded(before), WithNewColumns(before).outbox[o]);
            && o in after.outbox && row.conversation in after.conversations
            && after.outbox[o] == FencedOutbound(Stamped(row, after.conversations[row.conversation]))
  {
    KeysKept(before);
    hide Ranked, FencedPlans, FencedOutbound, Stamped, SeqStamped, NormalizedAll;
  }

  lemma FencedOutboundOk(row: Outbound, conversation: Conversation)
    requires conversation.managerEpoch >= 0 && conversation.currentEventSeq >= 0 && row.delivery != Admitted
    ensures var now := FencedOutbound(Stamped(row, conversation));
            && OutboundMigrated(row, now) && (OutboundOk(now) <==> DraftLeasedRight(row))
            && Fences(now.managerEpoch, now.eventSeqHwm, conversation)
  {
  }

  lemma OutboundMigrates(before: Tables, o: Id)
    requires Legacy(before) && o in before.outbox
    ensures var after := Upgraded(before);
            && o in after.outbox && after.outbox[o].conversation == before.outbox[o].conversation
            && after.outbox[o].conversation in after.conversations
            && after.outbox[o].destination == before.outbox[o].destination
            && Fences(after.outbox[o].managerEpoch, after.outbox[o].eventSeqHwm, after.conversations[after.outbox[o].conversation])
            && OutboundMigrated(before.outbox[o], after.outbox[o])
            && (OutboundOk(after.outbox[o]) <==> DraftLeasedRight(before.outbox[o]))
  {
    var (after, row) := (Upgraded(before), WithNewColumns(before).outbox[o]);
    ConversationMigrates(before, row.conversation);
    UpgradedOutbound(before, o);
    FencedOutboundOk(row, after.conversations[row.conversation]);
    hide Upgraded, HandoffConsistent, EventsOrdered, ConversationMigrated, LeaseOk;
  }

  lemma KeysKept(before: Tables)
    ensures Keys(Upgraded(before)) == Keys(before)
  {
    hide RowNumber, WithCurrentSeq, Normalized, FencedPlan, FencedOutbound, Stamped;
    var after := Upgraded(before);
    assert after.conversations.Keys == before.conversations.Keys;
    assert after.messages.Keys == before.messages.Keys;
    assert after.plans.Keys == before.plans.Keys;
    assert after.outbox.Keys == before.outbox.Keys;
  }

  lemma UpgradeMigrates(before: Tables)
    requires Legacy(before)
    ensures Migrated(before, Upgraded(before))
  {
    KeysKept(before);
    forall c <- before.conversations { ConversationMigrates(before, c); }
    forall m <- before.messages { OnlySeqsWritten(before, m); }
    forall p <- before.plans { PlanMigrates(before, p); }
    forall o <- before.outbox { OutboundMigrates(before, o); }
    hide Upgraded, ConversationMigrated, PlanMigrated, OutboundMigrated, EventsOrdered, Fences, ConversationOk;
    hide DraftLeasedRight, OutboundOk, Legacy;
  }

  lemma MessagesMeetConstraints(before: Tables)
    ensures (forall m <- before.messages :: m in Upgraded(before).messages && MessageOk(Upgraded(before).messages[m]))
    ensures SeqsUnique(Upgraded(before).messages)
  {
    var messages := WithNewColumns(before).messages;
    assert messages.Keys == before.messages.Keys;
    forall m <- messages { RankedMessageOk(messages, m); }
    RankedSeqsUnique(messages);
    assert Upgraded(before).messages == Ranked(messages);
    hide Upgraded, MessageOk, SeqsUnique, RowNumber;
  }

  lemma PlanMeetsConstraints(before: Tables, p: Id)
    requires Legacy(before) && p in before.plans
    ensures p in Upgraded(before).plans && PlanOk(Upgraded(before).plans[p])
  {
    PlanMigrates(before, p);
    ConversationMigrates(before, before.plans[p].conversation);
    hide Upgraded, EventsOrdered, HandoffConsistent;
  }

  /** After the statements the constraints can fail only on a draft that already broke a lease check. */
  lemma UpgradeMeetsConstraints(before: Tables)
    requires Legacy(before)
    ensures NewConstraints(Upgraded(before)) <==> LegacyDraftsLeasedRight(before)
  {
    KeysKept(before);
    MessagesMeetConstraints(before);
    forall c <- before.conversations { ConversationMigrates(before, c); }
    forall p <- before.plans { PlanMeetsConstraints(before, p); }
    forall o <- before.outbox { OutboundMigrates(before, o); }
    hide Upgraded, ConversationMigrated, OutboundMigrated, DraftLeasedRight, PlanOk, OutboundOk;
    hide MessageOk, SeqsUnique, EventsOrdered, ConversationOk, Legacy, Fences;
  }
}
