/** What any number of CRM write calls, over any faults, can and cannot do to the remote lead. */
module CrmRuns {
  import opened Wrappers
  import opened CrmRemote
  import opened CrmWrites
  import opened Text

  datatype Op = EnsureNote(text: string) | EnsureTask(text: string) | EnsureEnum(fieldId: int, enumId: int)

  function Apply(config: Config, leadId: LeadId, net: Net, op: Op): Net {
    match op
    case EnsureNote(text) => EnsuredNote(net, leadId, text).0
    case EnsureTask(text) => EnsuredTask(net, config, leadId, text).0
    case EnsureEnum(fieldId, enumId) => EnsuredEnum(net, config, leadId, fieldId, enumId).0
  }

  function Run(config: Config, leadId: LeadId, net: Net, ops: seq<Op>): Net
    decreases |ops|
  {
    if ops == [] then net else Run(config, leadId, Apply(config, leadId, net, ops[0]), ops[1..])
  }

  /** Every 2xx read shows the true state: none is an unparseable body taken for an empty list. */
  predicate FaithfulReads(net: Net) {
    forall i :: 0 <= i < |net.wires| && net.wires[i].kind.Answered? ==> net.wires[i].kind.readOk
  }

  // --- when exactly a call writes --------------------------------------------------------------

  function Tail(net: Net): Net {
    net.(wires := if net.wires == [] then [] else net.wires[1..])
  }

  /** A row is written iff the list answered, showed no match, and the POST was applied. */
  predicate RowWritten(net: Net, rows: seq<Row>, key: Key) {
    && NextWire(net).kind.Answered? && Applies(NextWire(Tail(net)).kind)
    && (NextWire(net).kind.readOk ==> Matching(Page(rows), key) == [])
  }

  predicate NoteArgsOk(leadId: LeadId, text: string) {
    LeadIdOk(leadId) && text != "" && |text| <= 2000
  }

  predicate TaskArgsOk(leadId: LeadId, text: string) {
    leadId == IntegerText && text != "" && |text| <= 500
  }

  lemma NoteEffect(net: Net, leadId: LeadId, text: string)
    ensures EnsuredNote(net, leadId, text).0.lead ==
            if NoteArgsOk(leadId, text) && RowWritten(net, net.lead.notes, NoteKey(Strip(text)))
            then net.lead.(
                   notes := Inserted(net.lead.notes, Note(net.lead.nextId, Some(text), None), NextWire(Tail(net)).at),
                   nextId := net.lead.nextId + 1)
            else net.lead
  {
    hide Strip, Inserted;
  }

  function KeyOf(config: Config, text: string): Key {
    TaskKey(Strip(text), config.taskType, config.manager)
  }

  lemma TaskEffect(net: Net, config: Config, leadId: LeadId, text: string)
    ensures EnsuredTask(net, config, leadId, text).0.lead ==
            if TaskArgsOk(leadId, text) && RowWritten(net, net.lead.tasks, KeyOf(config, text))
            then net.lead.(
                   tasks := Inserted(net.lead.tasks, Task(net.lead.nextId, Some(text), config.taskType, config.manager),
                                     NextWire(Tail(net)).at),
                   nextId := net.lead.nextId + 1)
            else net.lead
  {
    hide Strip, Inserted, WithIdAndText;
  }

  /** A field is patched iff the read answered, showed no enum, and the PATCH was applied. */
  predicate EnumWritten(net: Net, fieldId: int) {
    && NextWire(net).kind.Answered? && Applies(NextWire(Tail(net)).kind)
    && (NextWire(net).kind.readOk ==> Enums(net.lead, fieldId) == [])
  }

  lemma EnumEffect(net: Net, config: Config, leadId: LeadId, fieldId: int, enumId: int)
    ensures EnsuredEnum(net, config, leadId, fieldId, enumId).0.lead ==
            if EnumAllowed(fieldId, enumId) && leadId == IntegerText && config.enabled && EnumWritten(net, fieldId)
            then Patched(net.lead, fieldId, enumId) else net.lead
  {
    hide Enums, Patched, EnumAllowed;
  }

  // --- rows ------------------------------------------------------------------------------------

  lemma {:induction false} MatchingAppend(a: seq<Row>, b: seq<Row>, key: Key)
    ensures Matching(a + b, key) == Matching(a, key) + Matching(b, key)
  {
    if a == [] {
      assert a + b == b;
    } else {
      assert (a + b)[0] == a[0] && (a + b)[1..] == a[1..] + b;
      MatchingAppend(a[1..], b, key);
      var (head, rest, last) := (if Matches(a[0], key) then [a[0]] else [], Matching(a[1..], key), Matching(b, key));
      assert head + (rest + last) == head + rest + last;
    }
  }

  lemma CountInserted(rows: seq<Row>, row: Row, at: nat, key: Key)
    ensures Count(Inserted(rows, row, at), key) == Count(rows, key) + if Matches(row, key) then 1 else 0
  {
    var k := if at <= |rows| then at else |rows|;
    assert Inserted(rows, row, at) == rows[..k] + ([row] + rows[k..]) && rows == rows[..k] + rows[k..];
    MatchingAppend(rows[..k], [row] + rows[k..], key);
    MatchingAppend([row], rows[k..], key);
    MatchingAppend(rows[..k], rows[k..], key);
    assert [row][1..] == [];
  }

  function Max1(n: nat): nat {
    if n > 1 then n else 1
  }

  lemma TailStaysFaithful(net: Net)
    requires FaithfulReads(net)
    ensures FaithfulReads(Tail(net))
  {
    forall i | 0 <= i < |Tail(net).wires| && Tail(net).wires[i].kind.Answered?
      ensures Tail(net).wires[i].kind.readOk
    {
      assert Tail(net).wires[i] == net.wires[i + 1];
    }
  }

  /** A call makes at most three requests. */
  predicate UsesAtMostThree(net: Net, after: Net) {
    || after.wires == net.wires || after.wires == Tail(net).wires || after.wires == Tail(Tail(net)).wires
    || after.wires == Tail(Tail(Tail(net))).wires
  }

  lemma NoteUsesAtMostThree(net: Net, leadId: LeadId, text: string)
    ensures UsesAtMostThree(net, EnsuredNote(net, leadId, text).0)
  {
    hide Matching, Strip, LeadIdOk, Inserted;
  }

  lemma TaskUsesAtMostThree(net: Net, config: Config, leadId: LeadId, text: string)
    ensures UsesAtMostThree(net, EnsuredTask(net, config, leadId, text).0)
  {
    hide Matching, Strip, LeadIdOk, Inserted, WithIdAndText;
  }

  lemma EnumUsesAtMostThree(net: Net, config: Config, leadId: LeadId, fieldId: int, enumId: int)
    ensures UsesAtMostThree(net, EnsuredEnum(net, config, leadId, fieldId, enumId).0)
  {
    hide Enums, LeadIdOk, EnumAllowed, Patched;
  }

  lemma WiresStayFaithful(config: Config, leadId: LeadId, net: Net, op: Op)
    requires FaithfulReads(net)
    ensures FaithfulReads(Apply(config, leadId, net, op))
  {
    var after := Apply(config, leadId, net, op);
    assert UsesAtMostThree(net, after) by {
      match op
      case EnsureNote(text) => NoteUsesAtMostThree(net, leadId, text);
      case EnsureTask(text) => TaskUsesAtMostThree(net, config, leadId, text);
      case EnsureEnum(fieldId, enumId) => EnumUsesAtMostThree(net, config, leadId, fieldId, enumId);
    }
    hide Apply;
    TailStaysFaithful(net);
    TailStaysFaithful(Tail(net));
    TailStaysFaithful(Tail(Tail(net)));
  }

  /** One call: a faithful read keeps each key at one match, or at what it had. */
  lemma StepBoundsRows(config: Config, leadId: LeadId, net: Net, op: Op, key: Key)
    requires FaithfulReads(net)
    ensures var lead := Apply(config, leadId, net, op).lead;
            && |net.lead.notes| <= |lead.notes| && |net.lead.tasks| <= |lead.tasks|
            && (|net.lead.notes| <= PAGE_LIMIT && key.NoteKey? ==>
                  Count(lead.notes, key) <= Max1(Count(net.lead.notes, key)))
            && (|net.lead.tasks| <= PAGE_LIMIT && key.TaskKey? ==>
                  Count(lead.tasks, key) <= Max1(Count(net.lead.tasks, key)))
  {
    match op
    case EnsureNote(text) =>
      NoteEffect(net, leadId, text);
      var row := Note(net.lead.nextId, Some(text), None);
      CountInserted(net.lead.notes, row, NextWire(Tail(net)).at, key);
    case EnsureTask(text) =>
      TaskEffect(net, config, leadId, text);
      var row := Task(net.lead.nextId, Some(text), config.taskType, config.manager);
      CountInserted(net.lead.tasks, row, NextWire(Tail(net)).at, key);
    case EnsureEnum(fieldId, enumId) =>
      EnumEffect(net, config, leadId, fieldId, enumId);
  }

  lemma {:induction false} RowsOnlyGrow(config: Config, leadId: LeadId, net: Net, ops: seq<Op>)
    requires FaithfulReads(net)
    ensures |net.lead.notes| <= |Run(config, leadId, net, ops).lead.notes|
    ensures |net.lead.tasks| <= |Run(config, leadId, net, ops).lead.tasks|
    decreases |ops|
  {
    if ops != [] {
      StepBoundsRows(config, leadId, net, ops[0], NoteKey(""));
      WiresStayFaithful(config, leadId, net, ops[0]);
      RowsOnlyGrow(config, leadId, Apply(config, leadId, net, ops[0]), ops[1..]);
    }
  }

  /**
   * For any mix of calls under any faults with faithful reads, while a list still fits one page its rows under
   * one key never exceed one, or what there was at the start.
   */
  lemma {:induction false} NoDuplicateRows(config: Config, leadId: LeadId, net: Net, ops: seq<Op>, key: Key)
    requires FaithfulReads(net)
    ensures var lead := Run(config, leadId, net, ops).lead;
            && (key.NoteKey? && |lead.notes| <= PAGE_LIMIT ==>
                  Count(lead.notes, key) <= Max1(Count(net.lead.notes, key)))
            && (key.TaskKey? && |lead.tasks| <= PAGE_LIMIT ==>
                  Count(lead.tasks, key) <= Max1(Count(net.lead.tasks, key)))
    decreases |ops|
  {
    if ops != [] {
      var next := Apply(config, leadId, net, ops[0]);
      StepBoundsRows(config, leadId, net, ops[0], key);
      WiresStayFaithful(config, leadId, net, ops[0]);
      RowsOnlyGrow(config, leadId, next, ops[1..]);
      NoDuplicateRows(config, leadId, next, ops[1..], key);
    }
  }

  /** One match shown: nothing is written and it is reused; more than one: nothing is written and the call fails. */
  lemma ExistingRowsAreReused(net: Net, leadId: LeadId, text: string)
    requires NoteArgsOk(leadId, text) && FaithfulReads(net)
    requires Matching(Page(net.lead.notes), NoteKey(Strip(text))) != []
    ensures var (after, receipt) := EnsuredNote(net, leadId, text);
            var shown := Matching(Page(net.lead.notes), NoteKey(Strip(text)));
            && after.lead == net.lead && after.calls == net.calls + [GetLeadNotes]
            && (NextWire(net).kind.Answered? ==>
                  if |shown| == 1 then receipt.outcome == Verified && receipt.id == Some(shown[0].id)
                  else receipt.outcome == WriteFailed && receipt.code == AmbiguousRows)
  {
  }

  // --- exactly when the one-page list is enough --------------------------------------------------

  /** A note or a task call: the list it works on, the key it looks for, the row it would add. */
  predicate IsRowOp(op: Op) {
    op.EnsureNote? || op.EnsureTask?
  }

  function RowsOf(lead: Lead, op: Op): seq<Row> {
    if op.EnsureTask? then lead.tasks else lead.notes
  }

  function KeyFor(config: Config, op: Op): Key
    requires IsRowOp(op)
  {
    if op.EnsureNote? then NoteKey(Strip(op.text)) else KeyOf(config, op.text)
  }

  predicate ArgsOk(leadId: LeadId, op: Op) {
    IsRowOp(op) && (if op.EnsureNote? then NoteArgsOk(leadId, op.text) else TaskArgsOk(leadId, op.text))
  }

  function NewRow(config: Config, lead: Lead, op: Op): Row
    requires IsRowOp(op)
  {
    if op.EnsureNote? then Note(lead.nextId, Some(op.text), None)
    else Task(lead.nextId, Some(op.text), config.taskType, config.manager)
  }

  lemma RowEffect(config: Config, leadId: LeadId, net: Net, op: Op)
    requires ArgsOk(leadId, op)
    ensures var (rows, key, row) := (RowsOf(net.lead, op), KeyFor(config, op), NewRow(config, net.lead, op));
            && Matches(row, key)
            && RowsOf(Apply(config, leadId, net, op).lead, op)
               == (if RowWritten(net, rows, key) then Inserted(rows, row, NextWire(Tail(net)).at) else rows)
            && (!RowWritten(net, rows, key) ==> Apply(config, leadId, net, op).lead == net.lead)
  {
    if op.EnsureNote? { NoteEffect(net, leadId, op.text); } else { TaskEffect(net, config, leadId, op.text); }
  }

  function Repeat(op: Op, n: nat): seq<Op> {
    if n == 0 then [] else [op] + Repeat(op, n - 1)
  }

  /** The matches of the call's key among the remote rows. */
  function MatchCount(config: Config, lead: Lead, op: Op): nat
    requires IsRowOp(op)
  {
    Count(RowsOf(lead, op), KeyFor(config, op))
  }

  /** No number of calls under any faults with faithful reads pushes the matches past one, or past what there was. */
  ghost predicate NeverDuplicates(config: Config, leadId: LeadId, lead: Lead, op: Op)
    requires IsRowOp(op)
  {
    forall wires: seq<Wire>, n: nat ::
      FaithfulReads(Net(lead, wires, [])) ==>
        MatchCount(config, Run(config, leadId, Net(lead, wires, []), Repeat(op, n)).lead, op)
        <= Max1(MatchCount(config, lead, op))
  }

  /** The page shows a match, or the list is short enough to show the row the first call will add. */
  predicate PageSuffices(rows: seq<Row>, key: Key) {
    Matching(Page(rows), key) != [] || |rows| < PAGE_LIMIT
  }

  lemma RunRepeat(config: Config, leadId: LeadId, net: Net, op: Op, n: nat)
    requires n > 0
    ensures Run(config, leadId, net, Repeat(op, n))
            == Run(config, leadId, Apply(config, leadId, net, op), Repeat(op, n - 1))
  {
    hide Apply;
    assert Repeat(op, n)[0] == op && Repeat(op, n)[1..] == Repeat(op, n - 1);
  }

  lemma StepShowsMatch(config: Config, leadId: LeadId, net: Net, op: Op)
    requires ArgsOk(leadId, op) && FaithfulReads(net)
    requires Matching(Page(RowsOf(net.lead, op)), KeyFor(config, op)) != []
    ensures Apply(config, leadId, net, op).lead == net.lead
  {
    RowEffect(config, leadId, net, op);
    hide Apply, Matching, Matches, ArgsOk, KeyFor, NewRow;
  }

  lemma {:induction false} PageShowsMatchForever(config: Config, leadId: LeadId, net: Net, op: Op, n: nat)
    requires ArgsOk(leadId, op) && FaithfulReads(net)
    requires Matching(Page(RowsOf(net.lead, op)), KeyFor(config, op)) != []
    ensures Run(config, leadId, net, Repeat(op, n)).lead == net.lead
    decreases n
  {
    hide Apply, RowsOf, KeyFor, Page, Matching, FaithfulReads, NoteArgsOk, TaskArgsOk;
    if n > 0 {
      StepShowsMatch(config, leadId, net, op);
      WiresStayFaithful(config, leadId, net, op);
      RunRepeat(config, leadId, net, op, n);
      PageShowsMatchForever(config, leadId, Apply(config, leadId, net, op), op, n - 1);
    }
  }

  /** After a call on a short list the page shows a match, or still has room. */
  lemma StepKeepsPage(config: Config, leadId: LeadId, net: Net, op: Op)
    requires ArgsOk(leadId, op) && FaithfulReads(net) && |RowsOf(net.lead, op)| < PAGE_LIMIT
    requires Matching(RowsOf(net.lead, op), KeyFor(config, op)) == []
    ensures var rows := RowsOf(Apply(config, leadId, net, op).lead, op);
            PageSuffices(rows, KeyFor(config, op)) && Count(rows, KeyFor(config, op)) <= 1
  {
    RowEffect(config, leadId, net, op);
    CountInserted(RowsOf(net.lead, op), NewRow(config, net.lead, op), NextWire(Tail(net)).at, KeyFor(config, op));
    hide Apply, Matches, KeyFor, NewRow;
  }

  /** One call keeps what the bound needs: it shows the match, or it leaves at most one. */
  lemma StepBounds(config: Config, leadId: LeadId, net: Net, op: Op)
    requires ArgsOk(leadId, op) && FaithfulReads(net) && PageSuffices(RowsOf(net.lead, op), KeyFor(config, op))
    requires Matching(Page(RowsOf(net.lead, op)), KeyFor(config, op)) == []
    ensures var next := Apply(config, leadId, net, op);
            && FaithfulReads(next) && PageSuffices(RowsOf(next.lead, op), KeyFor(config, op))
            && MatchCount(config, next.lead, op) <= 1
  {
    StepKeepsPage(config, leadId, net, op);
    WiresStayFaithful(config, leadId, net, op);
    hide Apply, FaithfulReads, ArgsOk, KeyFor, Matching;
  }

  lemma RunNone(config: Config, leadId: LeadId, net: Net, op: Op)
    ensures Run(config, leadId, net, Repeat(op, 0)) == net
  {
  }

  lemma Max1Bounds(m: nat, n: nat)
    ensures m <= 1 ==> Max1(m) <= Max1(n)
    ensures m <= Max1(m)
  {
  }

  lemma {:induction false} PageSufficesBounds(config: Config, leadId: LeadId, net: Net, op: Op, n: nat)
    requires IsRowOp(op) && ArgsOk(leadId, op) && FaithfulReads(net) && PageSuffices(RowsOf(net.lead, op), KeyFor(config, op))
    ensures MatchCount(config, Run(config, leadId, net, Repeat(op, n)).lead, op) <= Max1(MatchCount(config, net.lead, op))
    decreases n
  {
    hide *;
    if Matching(Page(RowsOf(net.lead, op)), KeyFor(config, op)) != [] {
      PageShowsMatchForever(config, leadId, net, op, n);
      Max1Bounds(MatchCount(config, net.lead, op), 0);
    } else if n > 0 {
      StepBounds(config, leadId, net, op);
      RunRepeat(config, leadId, net, op, n);
      var next := Apply(config, leadId, net, op);
      PageSufficesBounds(config, leadId, next, op, n - 1);
      Max1Bounds(MatchCount(config, next.lead, op), MatchCount(config, net.lead, op));
    } else {
      RunNone(config, leadId, net, op);
      Max1Bounds(MatchCount(config, net.lead, op), 0);
    }
  }

  function Flawless(at: nat): Wire {
    Wire(Answered(true, true), at)
  }

  /** On a flawless network that lists new rows at `at`, past the page, a call adds one and cannot see it later. */
  lemma FlawlessCallAdds(config: Config, leadId: LeadId, net: Net, op: Op, at: nat)
    requires ArgsOk(leadId, op) && !PageSuffices(RowsOf(net.lead, op), KeyFor(config, op)) && PAGE_LIMIT <= at
    requires |net.wires| >= 3 && net.wires[0] == net.wires[1] == net.wires[2] == Flawless(at)
    ensures var next := Apply(config, leadId, net, op);
            && next.wires == net.wires[3..] && !PageSuffices(RowsOf(next.lead, op), KeyFor(config, op))
            && MatchCount(config, next.lead, op) == MatchCount(config, net.lead, op) + 1
  {
    var (rows, key, row) := (RowsOf(net.lead, op), KeyFor(config, op), NewRow(config, net.lead, op));
    FlawlessWires(config, leadId, net, op, at);
    RowEffect(config, leadId, net, op);
    CountInserted(rows, row, at, key);
    assert Page(Inserted(rows, row, at)) == Page(rows);
    hide Apply, ArgsOk, KeyFor, NewRow, Matches;
  }

  lemma FlawlessWires(config: Config, leadId: LeadId, net: Net, op: Op, at: nat)
    requires ArgsOk(leadId, op) && Matching(Page(RowsOf(net.lead, op)), KeyFor(config, op)) == []
    requires |net.wires| >= 3 && net.wires[0] == net.wires[1] == net.wires[2] == Flawless(at)
    ensures Apply(config, leadId, net, op).wires == net.wires[3..]
    ensures NextWire(net) == NextWire(Tail(net)) == Flawless(at)
  {
    assert Tail(net).wires[0] == net.wires[1] && Tail(Tail(net)).wires[0] == net.wires[2];
    assert net.wires[1..][1..][1..] == net.wires[3..];
  }

  lemma PageSufficesIsEnough(config: Config, leadId: LeadId, lead: Lead, op: Op)
    requires ArgsOk(leadId, op) && PageSuffices(RowsOf(lead, op), KeyFor(config, op))
    ensures NeverDuplicates(config, leadId, lead, op)
  {
    forall wires: seq<Wire>, n: nat | FaithfulReads(Net(lead, wires, []))
      ensures MatchCount(config, Run(config, leadId, Net(lead, wires, []), Repeat(op, n)).lead, op)
              <= Max1(MatchCount(config, lead, op))
    {
      PageSufficesBounds(config, leadId, Net(lead, wires, []), op, n);
    }
  }

  lemma TwoFlawlessCallsDuplicate(config: Config, leadId: LeadId, lead: Lead, op: Op)
    requires ArgsOk(leadId, op) && !PageSuffices(RowsOf(lead, op), KeyFor(config, op))
    ensures var net := Net(lead, seq(6, i => Flawless(|RowsOf(lead, op)|)), []);
            && FaithfulReads(net)
            && MatchCount(config, Run(config, leadId, net, Repeat(op, 2)).lead, op) == MatchCount(config, lead, op) + 2
  {
    var at := |RowsOf(lead, op)|;
    var net := Net(lead, seq(6, i => Flawless(at)), []);
    var next := Apply(config, leadId, net, op);
    FlawlessCallAdds(config, leadId, net, op, at);
    FlawlessCallAdds(config, leadId, next, op, at);
    RunRepeat(config, leadId, net, op, 2);
    RunRepeat(config, leadId, next, op, 1);
    hide Apply, MatchCount, PageSuffices;
    assert Run(config, leadId, Apply(config, leadId, next, op), Repeat(op, 0)) == Apply(config, leadId, next, op);
  }

  /**
   * Exactly when the single 250-row page is enough: duplicates are impossible over all runs iff the page
   * already shows a match or the list has room for the row it will show next time.
   */
  lemma NeverDuplicatesIffPageSuffices(config: Config, leadId: LeadId, lead: Lead, op: Op)
    requires ArgsOk(leadId, op)
    ensures NeverDuplicates(config, leadId, lead, op) <==> PageSuffices(RowsOf(lead, op), KeyFor(config, op))
  {
    if PageSuffices(RowsOf(lead, op), KeyFor(config, op)) {
      PageSufficesIsEnough(config, leadId, lead, op);
    } else {
      TwoFlawlessCallsDuplicate(config, leadId, lead, op);
    }
  }

  /**
   * Why faithful reads are needed: with a match on the page a call adds a second row iff its list request is
   * answered 2xx with an unreadable body and its POST is applied.
   */
  lemma DuplicateIffUnreadableList(config: Config, leadId: LeadId, net: Net, op: Op)
    requires ArgsOk(leadId, op) && Matching(Page(RowsOf(net.lead, op)), KeyFor(config, op)) != []
    ensures MatchCount(config, Apply(config, leadId, net, op).lead, op) > MatchCount(config, net.lead, op)
            <==> NextWire(net).kind.Answered? && !NextWire(net).kind.readOk && Applies(NextWire(Tail(net)).kind)
  {
    RowEffect(config, leadId, net, op);
    CountInserted(RowsOf(net.lead, op), NewRow(config, net.lead, op), NextWire(Tail(net)).at, KeyFor(config, op));
    hide Apply, Matches, KeyFor, NewRow, ArgsOk, Matching;
  }

  // --- analytics fields --------------------------------------------------------------------------

  lemma AllowedIsPositive(fieldId: int, enumId: int)
    requires EnumAllowed(fieldId, enumId)
    ensures enumId > 0
  {
  }

  /** `enumId` is a target some call of the run names for the field. */
  predicate Targeted(ops: seq<Op>, fieldId: int, enumId: int) {
    EnsureEnum(fieldId, enumId) in ops
  }

  lemma StepChangesField(config: Config, leadId: LeadId, net: Net, op: Op, fieldId: int)
    requires FaithfulReads(net)
    ensures var now := Enums(Apply(config, leadId, net, op).lead, fieldId);
            || now == Enums(net.lead, fieldId)
            || (&& Enums(net.lead, fieldId) == [] && op.EnsureEnum? && op.fieldId == fieldId
                && now == [op.enumId] && EnumAllowed(fieldId, op.enumId))
  {
    match op
    case EnsureNote(text) => NoteEffect(net, leadId, text);
    case EnsureTask(text) => TaskEffect(net, config, leadId, text);
    case EnsureEnum(f, e) =>
      EnumEffect(net, config, leadId, f, e);
      if EnumAllowed(f, e) {
        AllowedIsPositive(f, e);
        PatchedEnums(net.lead, f, e, fieldId);
      }
  }

  /** Over any run a field keeps its enums, or goes from empty to one allowed enum that a call of the run named. */
  lemma {:induction false} FieldOnlyFilled(config: Config, leadId: LeadId, net: Net, ops: seq<Op>, fieldId: int)
    requires FaithfulReads(net)
    ensures FaithfulReads(Run(config, leadId, net, ops))
    ensures var (was, now) := (Enums(net.lead, fieldId), Enums(Run(config, leadId, net, ops).lead, fieldId));
            || now == was
            || (was == [] && |now| == 1 && Targeted(ops, fieldId, now[0]) && EnumAllowed(fieldId, now[0]))
    decreases |ops|
  {
    if ops != [] {
      StepChangesField(config, leadId, net, ops[0], fieldId);
      WiresStayFaithful(config, leadId, net, ops[0]);
      FieldOnlyFilled(config, leadId, Apply(config, leadId, net, ops[0]), ops[1..], fieldId);
    }
  }

  /** So it changes at most once: after any change, no continuation changes it again. */
  lemma FieldChangesAtMostOnce(config: Config, leadId: LeadId, net: Net, ops: seq<Op>, more: seq<Op>, fieldId: int)
    requires FaithfulReads(net)
    ensures var mid := Run(config, leadId, net, ops);
            || Enums(mid.lead, fieldId) == Enums(net.lead, fieldId)
            || Enums(Run(config, leadId, mid, more).lead, fieldId) == Enums(mid.lead, fieldId)
  {
    FieldOnlyFilled(config, leadId, net, ops, fieldId);
    FieldOnlyFilled(config, leadId, Run(config, leadId, net, ops), more, fieldId);
  }

  /** A decision taken while the field went from `was` to `now`. */
  predicate DecisionTrue(receipt: ApplyReceipt, was: seq<int>, now: seq<int>, enumId: int) {
    && (receipt.decision == Some(Applied) ==> was == [] && now == [enumId])
    && (receipt.decision == Some(AlreadySame) ==> now == was == [enumId])
    && (receipt.decision == Some(ConflictNonempty) ==> now == was && |now| == 1 && now[0] != enumId)
    && (receipt.outcome == Verified ==> |now| == 1)
  }

  lemma ReadIsTrue(net: Net, fieldId: int, what: Label)
    requires FaithfulReads(net)
    ensures var (after, read) := ReadEnum(net, fieldId, what);
            && after.lead == net.lead && FaithfulReads(after)
            && (read.One? ==> Enums(net.lead, fieldId) == [read.id])
            && (read.EnumEmpty? ==> Enums(net.lead, fieldId) == [])
  {
    TailStaysFaithful(net);
    assert ReadEnum(net, fieldId, what).0.wires == Tail(net).wires;
  }

  /** The second half of a call: the field is empty, or already holds the target. */
  lemma PatchDecisionIsTrue(net: Net, fieldId: int, enumId: int, reply: Reply)
    requires FaithfulReads(net) && Enums(net.lead, fieldId) in {[], [enumId]}
    ensures var (after, receipt) := if reply.Failed? then AfterFailedPatch(net, fieldId, enumId, reply.outcome)
                                    else AfterPatch(net, fieldId, enumId);
            after.lead == net.lead && DecisionTrue(receipt, [], Enums(net.lead, fieldId), enumId)
  {
    ReadIsTrue(net, fieldId, GetAnalyticsVerify);
    ReadIsTrue(net, fieldId, GetAnalyticsPostcheck);
  }

  /** What each decision says about the remote field when the call returns, under faithful reads. */
  lemma DecisionIsTrue(net: Net, config: Config, leadId: LeadId, fieldId: int, enumId: int)
    requires FaithfulReads(net)
    ensures var (after, receipt) := EnsuredEnum(net, config, leadId, fieldId, enumId);
            DecisionTrue(receipt, Enums(net.lead, fieldId), Enums(after.lead, fieldId), enumId)
  {
    var (n1, before) := ReadEnum(net, fieldId, GetAnalyticsBefore);
    ReadIsTrue(net, fieldId, GetAnalyticsBefore);
    if EnumAllowed(fieldId, enumId) && leadId == IntegerText && config.enabled && before == EnumEmpty {
      AllowedIsPositive(fieldId, enumId);
      PatchedEnums(net.lead, fieldId, enumId, fieldId);
      var (n2, reply) := Exchanged(n1, PatchAnalytics, Patched(n1.lead, fieldId, enumId));
      TailStaysFaithful(n1);
      assert n2.wires == Tail(n1).wires;
      PatchDecisionIsTrue(n2, fieldId, enumId, reply);
    }
  }

  predicate NextThreeAnswered(net: Net) {
    && |net.wires| >= 3
    && forall i :: 0 <= i < 3 ==> net.wires[i].kind.Answered? && net.wires[i].kind.readOk
  }

  /**
   * After any faulty run one undisturbed call settles the field: it is nonempty, and the decision is final. Only a
   * lead id of digits that are no integer, over an empty field, ends in a ValueError and leaves it so.
   */
  lemma FaultFreeCallSettles(
    config: Config, leadId: LeadId, start: Net, ops: seq<Op>, wires: seq<Wire>, fieldId: int, enumId: int)
    requires FaithfulReads(start) && LeadIdOk(leadId) && config.enabled && EnumAllowed(fieldId, enumId)
    requires NextThreeAnswered(Run(config, leadId, start, ops).(wires := wires))
    ensures var net := Run(config, leadId, start, ops).(wires := wires);
            var (after, receipt) := EnsuredEnum(net, config, leadId, fieldId, enumId);
            && Enums(after.lead, fieldId) == (if Enums(net.lead, fieldId) != [] then Enums(net.lead, fieldId)
                                              else if leadId == IntegerText then [enumId] else [])
            && receipt.decision == (if Enums(net.lead, fieldId) == [] then
                                      if leadId == IntegerText then Some(Applied) else None
                                    else Some(if |Enums(net.lead, fieldId)| > 1 then ManualReview
                                              else if Enums(net.lead, fieldId)[0] == enumId then AlreadySame
                                              else ConflictNonempty))
  {
    var net := Run(config, leadId, start, ops).(wires := wires);
    AllowedIsPositive(fieldId, enumId);
    EnumEffect(net, config, leadId, fieldId, enumId);
    PatchedEnums(net.lead, fieldId, enumId, fieldId);
    assert Tail(net).wires[0] == wires[1] && Tail(Tail(net)).wires[0] == wires[2];
  }

  /** A nonempty field is overwritten iff its first read is a 2xx with an unreadable body and the PATCH is applied. */
  lemma OverwriteIffUnreadableRead(net: Net, config: Config, leadId: LeadId, fieldId: int, enumId: int)
    requires EnumAllowed(fieldId, enumId) && LeadIdOk(leadId) && config.enabled
    requires Enums(net.lead, fieldId) != [] && Enums(net.lead, fieldId) != [enumId]
    ensures Enums(EnsuredEnum(net, config, leadId, fieldId, enumId).0.lead, fieldId) != Enums(net.lead, fieldId)
            <==> && leadId == IntegerText && NextWire(net).kind.Answered? && !NextWire(net).kind.readOk
                 && Applies(NextWire(Tail(net)).kind)
  {
    AllowedIsPositive(fieldId, enumId);
    EnumEffect(net, config, leadId, fieldId, enumId);
    PatchedEnums(net.lead, fieldId, enumId, fieldId);
  }
}
