/** What exactly each CRM write call answers, read off the fates of its requests and the rows or field they met. */
module CrmReceipts {
  import opened Wrappers
  import opened CrmRemote
  import opened CrmWrites
  import opened CrmRuns
  import opened Text

  /** The fate of the k-th request to come: 0, 1 or 2. */
  function Fate(net: Net, k: nat): Kind {
    if k < |net.wires| then net.wires[k].kind else NotDelivered
  }

  predicate Says401(kind: Kind) {
    kind.Rejected? && kind.status == 401
  }

  predicate SaysPermanent(kind: Kind) {
    kind.Rejected? && (kind.status == 400 || kind.status == 403 || kind.status == 404 || kind.status == 422)
  }

  /** No answer, or one of any other failing status. */
  predicate SaysNothingFinal(kind: Kind) {
    !kind.Answered? && !Says401(kind) && !SaysPermanent(kind)
  }

  lemma ReplySays(kind: Kind)
    ensures ReplyTo(kind).Body? <==> kind.Answered?
    ensures kind.Answered? ==> ReplyTo(kind) == Body(kind.readOk, kind.idOk)
    ensures ReplyTo(kind).Failed? ==>
              ReplyTo(kind).outcome == (if Says401(kind) then Unauthorized
                                        else if SaysPermanent(kind) then PermanentError
                                        else TransientError)
  {
  }

  lemma FatesMoveUp(net: Net)
    ensures NextWire(net).kind == Fate(net, 0)
    ensures forall k: nat :: Fate(Tail(net), k) == Fate(net, k + 1)
  {
  }

  /** What a 2xx read of the field shows: nothing at all when its body does not parse. */
  function Shown(kind: Kind, enums: seq<int>): seq<int> {
    if kind.Answered? && kind.readOk then enums else []
  }

  /** The field when the PATCH has met its fate. */
  function FieldAfter(kind: Kind, was: seq<int>, enumId: int): seq<int> {
    if kind.AnswerLost? || kind.Answered? || (kind.Rejected? && kind.applied) then [enumId] else was
  }

  lemma ReadShows(net: Net, fieldId: int, what: Label)
    ensures var (after, read) := ReadEnum(net, fieldId, what);
            var (fate, shown) := (Fate(net, 0), Shown(Fate(net, 0), Enums(net.lead, fieldId)));
            && after == Net(net.lead, Tail(net).wires, net.calls + [what])
            && read == (if Says401(fate) then ReadUnauthorized
                        else if SaysPermanent(fate) then ReadFailedPermanent
                        else if SaysNothingFinal(fate) then ReadFailedTransient
                        else if |shown| == 0 then EnumEmpty
                        else if |shown| > 1 then EnumAmbiguous
                        else One(shown[0]))
  {
    hide Enums;
  }

  /** The call goes on to its PATCH, and past it. */
  predicate Patches(w0: Kind, seen: seq<int>) {
    w0.Answered? && seen == []
  }

  predicate Rereads(w0: Kind, seen: seq<int>, w1: Kind) {
    Patches(w0, seen) && !Says401(w1)
  }

  /** The second half of a call, from its PATCH on. */
  function FromPatch(net: Net, fieldId: int, enumId: int): (Net, ApplyReceipt) {
    var (n1, reply) := Exchanged(net, PatchAnalytics, Patched(net.lead, fieldId, enumId));
    if reply.Failed? then AfterFailedPatch(n1, fieldId, enumId, reply.outcome) else AfterPatch(n1, fieldId, enumId)
  }

  lemma PatchReceipt(net: Net, fieldId: int, enumId: int)
    requires Enums(Patched(net.lead, fieldId, enumId), fieldId) == [enumId]
    ensures var (after, r) := FromPatch(net, fieldId, enumId);
            var (w1, w2) := (Fate(net, 0), Fate(net, 1));
            var seen := Shown(w2, FieldAfter(w1, Enums(net.lead, fieldId), enumId));
            && r.calls == after.calls
            && after.calls == net.calls + [PatchAnalytics]
                              + (if Says401(w1) then []
                                 else if w1.Answered? then [GetAnalyticsPostcheck] else [GetAnalyticsVerify])
            && r.decision == Some(
                 if Says401(w1) || Says401(w2) then ManualReview
                 else if seen == [enumId] then Applied
                 else if |seen| == 1 then ConflictNonempty
                 else if SaysPermanent(w1) || SaysPermanent(w2) || (w1.Answered? && |seen| > 1) then ManualReview
                 else TransientRetry)
            && r.code ==
                 (if Says401(w1) || Says401(w2) then AnalyticsUnauthorized
                  else if seen == [enumId] then NoCode
                  else if |seen| == 1 then ConflictCode
                  else if !w1.Answered? then
                    if SaysPermanent(w1) || SaysPermanent(w2) then PatchPermanent else PatchTransient
                  else if SaysPermanent(w2) then PostcheckPermanent
                  else if |seen| > 1 then FieldAmbiguous
                  else PostcheckTransient)
            && r.outcome == (match r.decision.value
                             case ManualReview => WriteFailed
                             case TransientRetry => ReconciliationRequired
                             case _ => Verified)
  {
    var (n1, reply) := Exchanged(net, PatchAnalytics, Patched(net.lead, fieldId, enumId));
    ReplySays(Fate(net, 0));
    FatesMoveUp(net);
    assert Fate(n1, 0) == Fate(net, 1);
    assert Enums(n1.lead, fieldId) == FieldAfter(Fate(net, 0), Enums(net.lead, fieldId), enumId);
    ReadShows(n1, fieldId, GetAnalyticsVerify);
    ReadShows(n1, fieldId, GetAnalyticsPostcheck);
    hide Enums, Patched, Fate, ReadEnum, ReplyTo;
  }

  function AfterFirstRead(net: Net): (r: Net)
    ensures Fate(r, 0) == Fate(net, 1) && Fate(r, 1) == Fate(net, 2)
  {
    Net(net.lead, Tail(net).wires, net.calls + [GetAnalyticsBefore])
  }

  /** A call ends with its first read, or goes on from it. */
  lemma CallSplits(net: Net, config: Config, leadId: LeadId, fieldId: int, enumId: int)
    requires EnumAllowed(fieldId, enumId) && LeadIdOk(leadId) && config.enabled
    ensures var (after, r) := EnsuredEnum(net, config, leadId, fieldId, enumId);
            var (n1, w0) := (AfterFirstRead(net), Fate(net, 0));
            var seen := Shown(w0, Enums(net.lead, fieldId));
            if Patches(w0, seen) && leadId == IntegerText then (after, r) == FromPatch(n1, fieldId, enumId)
            else
              && after == n1
              && r == (if Says401(w0) then ApplyReceipt(WriteFailed, Some(ManualReview), AnalyticsUnauthorized, n1.calls)
                       else if SaysPermanent(w0) then ApplyReceipt(WriteFailed, Some(ManualReview), ReadPermanent, n1.calls)
                       else if !w0.Answered? then ApplyReceipt(WriteFailed, Some(TransientRetry), ReadTransient, n1.calls)
                       else if seen == [] then ApplyReceipt(Raised, None, NoCode, n1.calls)
                       else if |seen| > 1 then ApplyReceipt(WriteFailed, Some(ManualReview), FieldAmbiguous, n1.calls)
                       else if seen[0] == enumId then ApplyReceipt(Verified, Some(AlreadySame), NoCode, n1.calls)
                       else ApplyReceipt(Verified, Some(ConflictNonempty), ConflictCode, n1.calls))
  {
    ReadShows(net, fieldId, GetAnalyticsBefore);
    hide Enums, Patched, Fate, ReadEnum, EnumAllowed, AfterFailedPatch, AfterPatch, Exchanged;
  }

  /**
   * When exactly each decision is taken, for any field and any faults. `seen` and `reread` are what the first and
   * the last read show.
   */
  lemma DecisionExactly(net: Net, config: Config, leadId: LeadId, fieldId: int, enumId: int)
    requires EnumAllowed(fieldId, enumId) && LeadIdOk(leadId) && config.enabled
    ensures var r := EnsuredEnum(net, config, leadId, fieldId, enumId).1;
            var (w0, w1, w2) := (Fate(net, 0), Fate(net, 1), Fate(net, 2));
            var seen := Shown(w0, Enums(net.lead, fieldId));
            var reread := Shown(w2, FieldAfter(w1, Enums(net.lead, fieldId), enumId));
            var rereads := leadId == IntegerText && Rereads(w0, seen, w1);
            && (r.decision == Some(Applied) <==> rereads && w2.Answered? && reread == [enumId])
            && (r.decision == Some(AlreadySame) <==> w0.Answered? && seen == [enumId])
            && (r.decision == Some(ConflictNonempty) <==>
                  || (w0.Answered? && |seen| == 1 && seen[0] != enumId)
                  || (rereads && w2.Answered? && |reread| == 1 && reread[0] != enumId))
            && (r.decision == Some(TransientRetry) <==>
                  || SaysNothingFinal(w0)
                  || (&& rereads && !SaysPermanent(w1)
                      && (SaysNothingFinal(w2)
                          || (w2.Answered? && (reread == [] || (|reread| > 1 && !w1.Answered?))))))
            && (r.decision == None <==> leadId != IntegerText && Patches(w0, seen))
            && (r.outcome == Verified <==> r.decision in {Some(Applied), Some(AlreadySame), Some(ConflictNonempty)})
            && (r.outcome == ReconciliationRequired <==> r.decision == Some(TransientRetry) && w0.Answered?)
            && (r.outcome == Raised <==> r.decision == None)
            && r.outcome != WriteDisabled
  {
    FatesMoveUp(net);
    CallSplits(net, config, leadId, fieldId, enumId);
    PatchIsSeen(net.lead, fieldId, enumId);
    PatchReceipt(AfterFirstRead(net), fieldId, enumId);
    hide EnsuredEnum, FromPatch, Enums, Patched, Fate, EnumAllowed;
  }

  lemma PatchIsSeen(lead: Lead, fieldId: int, enumId: int)
    requires EnumAllowed(fieldId, enumId)
    ensures Enums(Patched(lead, fieldId, enumId), fieldId) == [enumId]
  {
    AllowedIsPositive(fieldId, enumId);
    PatchedEnums(lead, fieldId, enumId, fieldId);
  }

  /** The requests a call makes, in order, PATCHing at most once. */
  lemma CallsExactly(net: Net, config: Config, leadId: LeadId, fieldId: int, enumId: int)
    requires EnumAllowed(fieldId, enumId) && LeadIdOk(leadId) && config.enabled
    ensures var (after, r) := EnsuredEnum(net, config, leadId, fieldId, enumId);
            var (w0, w1) := (Fate(net, 0), Fate(net, 1));
            var seen := Shown(w0, Enums(net.lead, fieldId));
            && r.calls == after.calls
            && after.calls == net.calls + [GetAnalyticsBefore]
                 + (if leadId == IntegerText && Patches(w0, seen) then
                      [PatchAnalytics] + (if Says401(w1) then []
                                          else if w1.Answered? then [GetAnalyticsPostcheck] else [GetAnalyticsVerify])
                    else [])
  {
    FatesMoveUp(net);
    CallSplits(net, config, leadId, fieldId, enumId);
    PatchIsSeen(net.lead, fieldId, enumId);
    PatchReceipt(AfterFirstRead(net), fieldId, enumId);
    hide EnsuredEnum, FromPatch, Enums, Patched, Fate, EnumAllowed;
  }

  /** The code of the receipt, and so what failed. */
  lemma CodeExactly(net: Net, config: Config, leadId: LeadId, fieldId: int, enumId: int)
    requires EnumAllowed(fieldId, enumId) && LeadIdOk(leadId) && config.enabled
    ensures var r := EnsuredEnum(net, config, leadId, fieldId, enumId).1;
            var (w0, w1, w2) := (Fate(net, 0), Fate(net, 1), Fate(net, 2));
            var seen := Shown(w0, Enums(net.lead, fieldId));
            var reread := Shown(w2, FieldAfter(w1, Enums(net.lead, fieldId), enumId));
            && (r.code == NoCode <==> r.decision in {None, Some(Applied), Some(AlreadySame)})
            && (r.code == ConflictCode <==> r.decision == Some(ConflictNonempty))
            && (r.code == AnalyticsUnauthorized <==>
                  || Says401(w0)
                  || (leadId == IntegerText && Patches(w0, seen) && (Says401(w1) || Says401(w2))))
            && (r.code == ReadPermanent <==> SaysPermanent(w0))
            && (r.code == ReadTransient <==> SaysNothingFinal(w0))
            && (r.code == PatchPermanent ==> SaysPermanent(w1) || (!w1.Answered? && SaysPermanent(w2)))
            && (r.code == PatchTransient ==> SaysNothingFinal(w1) && r.decision == Some(TransientRetry))
            && (r.code == PostcheckPermanent ==> w1.Answered? && SaysPermanent(w2))
            && (r.code == PostcheckTransient ==> w1.Answered? && r.decision == Some(TransientRetry))
            && (r.code == FieldAmbiguous ==> |seen| > 1 || (w1.Answered? && |reread| > 1))
            && r.code in {NoCode, ConflictCode, AnalyticsUnauthorized, ReadPermanent, ReadTransient, PatchPermanent,
                          PatchTransient, PostcheckPermanent, PostcheckTransient, FieldAmbiguous}
  {
    FatesMoveUp(net);
    CallSplits(net, config, leadId, fieldId, enumId);
    PatchIsSeen(net.lead, fieldId, enumId);
    PatchReceipt(AfterFirstRead(net), fieldId, enumId);
    hide EnsuredEnum, FromPatch, Enums, Patched, Fate, EnumAllowed;
  }

  /**
   * Under faithful reads: APPLIED exactly when the first read showed the field empty, the PATCH took effect, even
   * with its answer lost or refused other than by 401, and the last read was answered. The field then holds the target.
   */
  lemma AppliedIffTheFieldTookIt(net: Net, config: Config, fieldId: int, enumId: int)
    requires EnumAllowed(fieldId, enumId) && config.enabled && FaithfulReads(net)
    ensures var (after, r) := EnsuredEnum(net, config, IntegerText, fieldId, enumId);
            && (r.decision == Some(Applied) <==>
                  && Fate(net, 0).Answered? && Enums(net.lead, fieldId) == []
                  && Applies(Fate(net, 1)) && !Says401(Fate(net, 1)) && Fate(net, 2).Answered?)
            && (r.decision == Some(Applied) ==>
                  && r.outcome == Verified && r.code == NoCode && Enums(after.lead, fieldId) == [enumId])
  {
    DecisionExactly(net, config, IntegerText, fieldId, enumId);
    CodeExactly(net, config, IntegerText, fieldId, enumId);
    PatchIsSeen(net.lead, fieldId, enumId);
    EnumEffect(net, config, IntegerText, fieldId, enumId);
    FatesMoveUp(net);
    hide EnsuredEnum, Enums, Patched, EnumAllowed;
  }

  /** Refused arguments: no request is made and nothing changes. */
  lemma RefusedBeforeAnyRequest(net: Net, config: Config, leadId: LeadId, fieldId: int, enumId: int)
    ensures var (after, r) := EnsuredEnum(net, config, leadId, fieldId, enumId);
            && (after.calls == net.calls <==> !EnumAllowed(fieldId, enumId) || !LeadIdOk(leadId) || !config.enabled)
            && (r.code == FieldInvalid <==> !EnumAllowed(fieldId, enumId))
            && (r.code == LeadIdInvalid <==> EnumAllowed(fieldId, enumId) && leadId == NotDigits)
            && (r.outcome == WriteDisabled <==> EnumAllowed(fieldId, enumId) && leadId != NotDigits && !config.enabled)
            && (after.calls == net.calls ==>
                  && after == net && r.decision == None
                  && (r.outcome == WriteFailed <==> !EnumAllowed(fieldId, enumId) || leadId == NotDigits))
  {
    if EnumAllowed(fieldId, enumId) && LeadIdOk(leadId) && config.enabled {
      DecisionExactly(net, config, leadId, fieldId, enumId);
      CallsExactly(net, config, leadId, fieldId, enumId);
      CodeExactly(net, config, leadId, fieldId, enumId);
      hide EnsuredEnum, Enums;
    }
  }

  // --- notes and tasks -------------------------------------------------------------------------

  predicate NoMatch(rows: seq<Row>, key: Key) {
    forall j :: 0 <= j < |rows| ==> !Matches(rows[j], key)
  }

  /** Row `i` carries the key and no other row does. */
  predicate OnlyMatchAt(rows: seq<Row>, key: Key, i: int) {
    0 <= i < |rows| && Matches(rows[i], key) && forall j :: 0 <= j < |rows| && j != i ==> !Matches(rows[j], key)
  }

  lemma {:induction false} NoMatchExactly(rows: seq<Row>, key: Key)
    ensures Matching(rows, key) == [] <==> NoMatch(rows, key)
  {
    hide Matches;
    if rows != [] { NoMatchExactly(rows[1..], key); }
  }

  lemma {:induction false} OneMatchIsShown(rows: seq<Row>, key: Key, i: int)
    requires OnlyMatchAt(rows, key, i)
    ensures Matching(rows, key) == [rows[i]]
  {
    hide Matches;
    if i == 0 { NoMatchExactly(rows[1..], key); } else { OneMatchIsShown(rows[1..], key, i - 1); }
  }

  lemma {:induction false} ShownMatchIsOnly(rows: seq<Row>, key: Key) returns (i: int)
    requires |Matching(rows, key)| == 1
    ensures OnlyMatchAt(rows, key, i)
  {
    hide Matches;
    if Matches(rows[0], key) {
      NoMatchExactly(rows[1..], key);
      i := 0;
    } else {
      i := ShownMatchIsOnly(rows[1..], key);
      i := i + 1;
    }
  }

  /** A lookup finds nothing, or its one row, exactly when that is what the list holds. */
  lemma MatchingExactly(rows: seq<Row>, key: Key)
    ensures Matching(rows, key) == [] <==> NoMatch(rows, key)
    ensures |Matching(rows, key)| == 1 <==> exists i :: OnlyMatchAt(rows, key, i)
    ensures forall i :: OnlyMatchAt(rows, key, i) ==> Matching(rows, key) == [rows[i]]
  {
    NoMatchExactly(rows, key);
    if |Matching(rows, key)| == 1 {
      var i := ShownMatchIsOnly(rows, key);
    }
    forall i | OnlyMatchAt(rows, key, i) ensures Matching(rows, key) == [rows[i]] {
      OneMatchIsShown(rows, key, i);
    }
  }

  /** The rows a list request with this fate shows. */
  function PageShown(kind: Kind, rows: seq<Row>): seq<Row> {
    if kind.Answered? && kind.readOk then Page(rows) else []
  }

  lemma ListShows(net: Net, rows: seq<Row>, what: Label)
    ensures var (after, reply) := Read(net, what);
            && after == Net(net.lead, Tail(net).wires, net.calls + [what])
            && Listed(rows, reply) == if Fate(net, 0).Answered? then Some(PageShown(Fate(net, 0), rows)) else None
  {
  }

  /** A POST: what comes of it and how its answer reads. */
  lemma PostShows(net: Net, what: Label, lead: Lead)
    ensures var ((after, reply), fate) := (Exchanged(net, what, lead), Fate(net, 0));
            && after.calls == net.calls + [what] && after.wires == Tail(net).wires
            && (forall k: nat :: Fate(after, k) == Fate(net, k + 1))
            && (fate.Answered? ==> after.lead == lead && reply == Body(fate.readOk, fate.idOk))
            && (!fate.Answered? ==> reply == Failed(if Says401(fate) then Unauthorized
                                                    else if SaysPermanent(fate) then PermanentError
                                                    else TransientError))
  {
  }

  lemma PostedNoteExactly(net: Net, text: string)
    ensures var (after, r) := PostedNote(net, text);
            var w0 := Fate(net, 0);
            && r.calls == after.calls
            && after.calls == net.calls + [PostNote] + (if w0.Answered? && w0.idOk then [GetNotePostcheck] else [])
            && r == Receipt(if !w0.Answered? then WriteFailed
                            else if w0.idOk then Verified else ReconciliationRequired,
                            if w0.Answered? && w0.idOk then Some(net.lead.nextId) else None,
                            if Says401(w0) || SaysPermanent(w0) then CreateFailed
                            else if !w0.Answered? then CreateTransient
                            else if w0.idOk then NoCode else CreateParse,
                            r.calls)
  {
    ReplySays(Fate(net, 0));
    FatesMoveUp(net);
    hide WithNote, ReplyTo, Fate;
  }

  /** What a note call answers and asks, by the fates of its requests and the rows that carry the text. */
  lemma NoteExactly(net: Net, leadId: LeadId, text: string)
    requires NoteArgsOk(leadId, text)
    ensures var (after, r) := EnsuredNote(net, leadId, text);
            var (w0, w1) := (Fate(net, 0), Fate(net, 1));
            var shown := Matching(PageShown(w0, net.lead.notes), NoteKey(Strip(text)));
            var posts := w0.Answered? && shown == [];
            && r.calls == after.calls
            && after.calls == net.calls + [GetLeadNotes]
                              + (if !posts then []
                                 else [PostNote] + if w1.Answered? && w1.idOk then [GetNotePostcheck] else [])
            && (r.outcome == Verified <==>
                  w0.Answered? && (|shown| == 1 || (shown == [] && w1.Answered? && w1.idOk)))
            && (r.outcome == ReconciliationRequired <==> posts && w1.Answered? && !w1.idOk)
            && (r.outcome == WriteFailed <==> r.outcome != Verified && r.outcome != ReconciliationRequired)
            && r.id == (if r.outcome != Verified then None
                        else Some(if |shown| == 1 then shown[0].id else net.lead.nextId))
            && r.code == (if r.outcome == Verified then NoCode
                          else if !w0.Answered? then ListTransient
                          else if |shown| > 1 then AmbiguousRows
                          else if Says401(w1) || SaysPermanent(w1) then CreateFailed
                          else if !w1.Answered? then CreateTransient
                          else CreateParse)
  {
    ListShows(net, net.lead.notes, GetLeadNotes);
    var n1 := Read(net, GetLeadNotes).0;
    FatesMoveUp(net);
    assert Fate(n1, 0) == Fate(net, 1);
    PostedNoteExactly(n1, text);
    hide Listed, PageShown, PostedNote, Matching, Strip, Read, Fate, Tail;
  }

  /** The text a row shows: `params.text` if the key is there, else `text` if that key is there, else nothing. */
  function ShownText(row: Row): string {
    if row.Note? && row.paramsText.Some? then row.paramsText.value
    else if row.text.Some? then row.text.value
    else ""
  }

  predicate IsRow(row: Row, id: int, fingerprint: string) {
    row.id == id && Strip(ShownText(row)) == fingerprint
  }

  predicate OnlyRowAt(rows: seq<Row>, id: int, fingerprint: string, i: int) {
    && 0 <= i < |rows| && IsRow(rows[i], id, fingerprint)
    && forall j :: 0 <= j < |rows| && j != i ==> !IsRow(rows[j], id, fingerprint)
  }

  /** Exactly one of the rows has the id and the text. */
  ghost predicate ShownOnce(rows: seq<Row>, id: int, fingerprint: string) {
    exists i :: OnlyRowAt(rows, id, fingerprint, i)
  }

  lemma {:induction false} NoRowExactly(rows: seq<Row>, id: int, fingerprint: string)
    ensures WithIdAndText(rows, id, fingerprint) == [] <==>
              forall j :: 0 <= j < |rows| ==> !IsRow(rows[j], id, fingerprint)
  {
    hide Strip;
    if rows != [] { NoRowExactly(rows[1..], id, fingerprint); }
  }

  lemma {:induction false} OnlyRowIsOne(rows: seq<Row>, id: int, fingerprint: string, i: int)
    requires OnlyRowAt(rows, id, fingerprint, i)
    ensures |WithIdAndText(rows, id, fingerprint)| == 1
  {
    hide Strip;
    if i == 0 { NoRowExactly(rows[1..], id, fingerprint); } else { OnlyRowIsOne(rows[1..], id, fingerprint, i - 1); }
  }

  lemma {:induction false} OneRowIsOnly(rows: seq<Row>, id: int, fingerprint: string) returns (i: int)
    requires |WithIdAndText(rows, id, fingerprint)| == 1
    ensures OnlyRowAt(rows, id, fingerprint, i)
  {
    hide Strip;
    if IsRow(rows[0], id, fingerprint) {
      NoRowExactly(rows[1..], id, fingerprint);
      i := 0;
    } else {
      i := OneRowIsOnly(rows[1..], id, fingerprint);
      i := i + 1;
    }
  }

  lemma WithIdAndTextExactly(rows: seq<Row>, id: int, fingerprint: string)
    ensures |WithIdAndText(rows, id, fingerprint)| == 1 <==> ShownOnce(rows, id, fingerprint)
  {
    hide OnlyRowAt, WithIdAndText;
    if |WithIdAndText(rows, id, fingerprint)| == 1 {
      var i := OneRowIsOnly(rows, id, fingerprint);
    }
    if i :| OnlyRowAt(rows, id, fingerprint, i) {
      OnlyRowIsOne(rows, id, fingerprint, i);
    }
  }

  lemma AddedTaskExactly(net: Net, config: Config, text: string)
    ensures var (after, r) := AddedTask(net, config, text);
            var (w0, w1) := (Fate(net, 0), Fate(net, 1));
            var row := Task(net.lead.nextId, Some(text), config.taskType, config.manager);
            var reread := PageShown(w1, Inserted(net.lead.tasks, row, NextWire(net).at));
            && r.calls == after.calls
            && after.calls == net.calls + [PostTask] + (if w0.Answered? then [GetActiveTasks] else [])
            && (r.outcome == Verified <==>
                  && w0.Answered? && w0.idOk && w1.Answered?
                  && ShownOnce(reread, net.lead.nextId, Strip(text)))
            && (r.outcome == ReconciliationRequired <==> w0.Answered? && r.outcome != Verified)
            && (r.outcome == WriteFailed <==> !w0.Answered?)
            && r.id == (if w0.Answered? && w0.idOk then Some(net.lead.nextId) else None)
            && r.code == (if Says401(w0) || SaysPermanent(w0) then CreateFailed
                          else if !w0.Answered? then CreateTransient
                          else if !w0.idOk || !w1.Answered? then PostcheckFailed
                          else if r.outcome == Verified then NoCode else PostcheckMismatch)
  {
    var row := Task(net.lead.nextId, Some(text), config.taskType, config.manager);
    PostShows(net, PostTask, WithTask(net, config, text));
    var n1 := Exchanged(net, PostTask, WithTask(net, config, text)).0;
    ListShows(n1, n1.lead.tasks, GetActiveTasks);
    var after := PageShown(Fate(net, 1), Inserted(net.lead.tasks, row, NextWire(net).at));
    WithIdAndTextExactly(after, net.lead.nextId, Strip(text));
    assert Fate(n1, 0) == Fate(net, 1);
    if Fate(net, 0).Answered? { assert n1.lead.tasks == Inserted(net.lead.tasks, row, NextWire(net).at); }
    hide Exchanged, ReplyTo, Fate, Inserted, PageShown, Listed, Strip, WithIdAndText, ShownOnce, Tail, Read;
  }

  /** What a task call answers and asks. VERIFIED needs a reread that shows the created row exactly once. */
  lemma TaskExactly(net: Net, config: Config, leadId: LeadId, text: string)
    requires LeadIdOk(leadId) && text != "" && |text| <= 500
    ensures var (after, r) := EnsuredTask(net, config, leadId, text);
            var (w0, w1, w2) := (Fate(net, 0), Fate(net, 1), Fate(net, 2));
            var shown := Matching(PageShown(w0, net.lead.tasks), TaskKey(Strip(text), config.taskType, config.manager));
            var row := Task(net.lead.nextId, Some(text), config.taskType, config.manager);
            var reread := PageShown(w2, Inserted(net.lead.tasks, row, NextWire(Tail(net)).at));
            var posts := w0.Answered? && shown == [] && leadId == IntegerText;
            && r.calls == after.calls
            && after.calls == net.calls + [GetActiveTasks]
                              + (if !posts then [] else [PostTask] + if w1.Answered? then [GetActiveTasks] else [])
            && (r.outcome == Verified <==>
                  || (w0.Answered? && |shown| == 1)
                  || (&& posts && w1.Answered? && w1.idOk && w2.Answered?
                      && ShownOnce(reread, net.lead.nextId, Strip(text))))
            && (r.outcome == ReconciliationRequired <==> posts && w1.Answered? && r.outcome != Verified)
            && (r.outcome == Raised <==> w0.Answered? && shown == [] && leadId != IntegerText)
            && (r.outcome == WriteFailed <==> !w0.Answered? || |shown| > 1 || (posts && !w1.Answered?))
            && r.id == (if w0.Answered? && |shown| == 1 then Some(shown[0].id)
                        else if posts && w1.Answered? && w1.idOk then Some(net.lead.nextId) else None)
            && r.code == (if !w0.Answered? then ListTransient
                          else if |shown| > 1 then AmbiguousRows
                          else if r.outcome == Verified || r.outcome == Raised then NoCode
                          else if Says401(w1) || SaysPermanent(w1) then CreateFailed
                          else if !w1.Answered? then CreateTransient
                          else if !w1.idOk || !w2.Answered? then PostcheckFailed
                          else PostcheckMismatch)
  {
    ListShows(net, net.lead.tasks, GetActiveTasks);
    var n1 := Read(net, GetActiveTasks).0;
    FatesMoveUp(net);
    assert Fate(n1, 0) == Fate(net, 1) && Fate(n1, 1) == Fate(net, 2);
    assert NextWire(n1) == NextWire(Tail(net));
    AddedTaskExactly(n1, config, text);
    hide Listed, PageShown, AddedTask, Matching, Strip, Read, Fate, Tail, ShownOnce, Inserted;
  }

  /** Refused arguments: no request is made and nothing changes. */
  lemma RowCallsRefused(net: Net, config: Config, leadId: LeadId, text: string)
    ensures !NoteArgsOk(leadId, text) ==>
              EnsuredNote(net, leadId, text)
              == (net, Receipt(WriteFailed, None, if leadId == NotDigits then LeadIdInvalid else TextInvalid, []))
    ensures leadId == NotDigits || text == "" || |text| > 500 ==>
              EnsuredTask(net, config, leadId, text)
              == (net, Receipt(WriteFailed, None, if leadId == NotDigits then LeadIdInvalid else TextInvalid, []))
  {
  }

  ghost predicate NoteShown(rows: seq<Row>, id: Option<int>, fingerprint: string) {
    exists i :: 0 <= i < |rows| && Some(rows[i].id) == id && Strip(ShownText(rows[i])) == fingerprint
  }

  lemma InsertedNoteShown(rows: seq<Row>, id: int, text: string, at: nat)
    ensures NoteShown(Inserted(rows, Note(id, Some(text), None), at), Some(id), Strip(text))
  {
    hide Strip;
    var i := InsertedAt(rows, Note(id, Some(text), None), at);
  }

  lemma MatchingNoteShown(rows: seq<Row>, fingerprint: string)
    requires Matching(Page(rows), NoteKey(fingerprint)) != []
    ensures NoteShown(rows, Some(Matching(Page(rows), NoteKey(fingerprint))[0].id), fingerprint)
  {
    hide Strip, Matching;
    var i := FirstMatchIsARow(Page(rows), NoteKey(fingerprint));
    assert rows[i] == Page(rows)[i];
  }

  /** A VERIFIED receipt names a row of the remote list that carries the text, whatever the faults were. */
  lemma VerifiedNoteExists(net: Net, leadId: LeadId, text: string)
    requires EnsuredNote(net, leadId, text).1.outcome == Verified
    ensures var (after, receipt) := EnsuredNote(net, leadId, text);
            NoteShown(after.lead.notes, receipt.id, Strip(text))
  {
    assert Matching([], NoteKey(Strip(text))) == [];
    hide EnsuredNote, EnsuredTask, Inserted, Matching, NoteArgsOk, Strip, NoteShown, Page;
    var (rows, key) := (net.lead.notes, NoteKey(Strip(text)));
    RowCallsRefused(net, Config(false, 0, 0), leadId, text);
    NoteExactly(net, leadId, text);
    NoteEffect(net, leadId, text);
    FatesMoveUp(net);
    InsertedNoteShown(rows, net.lead.nextId, text, NextWire(Tail(net)).at);
    if Matching(Page(rows), key) != [] { MatchingNoteShown(rows, Strip(text)); }
  }

  ghost predicate TaskShown(rows: seq<Row>, id: Option<int>, fingerprint: string, taskType: int, responsible: int) {
    exists i :: && 0 <= i < |rows| && Some(rows[i].id) == id && Strip(ShownText(rows[i])) == fingerprint
                && rows[i].Task? && rows[i].taskType == taskType && rows[i].responsible == responsible
  }

  lemma InsertedTaskShown(rows: seq<Row>, id: int, text: string, taskType: int, manager: int, at: nat)
    ensures TaskShown(Inserted(rows, Task(id, Some(text), taskType, manager), at), Some(id), Strip(text), taskType, manager)
  {
    hide Strip;
    var i := InsertedAt(rows, Task(id, Some(text), taskType, manager), at);
  }

  lemma MatchingTaskShown(rows: seq<Row>, key: Key)
    requires key.TaskKey? && Matching(Page(rows), key) != []
    ensures TaskShown(rows, Some(Matching(Page(rows), key)[0].id), key.fingerprint, key.taskType, key.responsible)
  {
    hide Strip, Matching;
    var i := FirstMatchIsARow(Page(rows), key);
    assert rows[i] == Page(rows)[i];
  }

  lemma VerifiedTaskExists(net: Net, config: Config, leadId: LeadId, text: string)
    requires EnsuredTask(net, config, leadId, text).1.outcome == Verified
    ensures var (after, receipt) := EnsuredTask(net, config, leadId, text);
            TaskShown(after.lead.tasks, receipt.id, Strip(text), config.taskType, config.manager)
  {
    assert Matching([], KeyOf(config, text)) == [];
    hide EnsuredNote, EnsuredTask, Inserted, Matching, NoteArgsOk, ShownOnce, Strip, TaskShown, Page;
    var (rows, key) := (net.lead.tasks, KeyOf(config, text));
    RowCallsRefused(net, config, leadId, text);
    TaskExactly(net, config, leadId, text);
    TaskEffect(net, config, leadId, text);
    FatesMoveUp(net);
    InsertedTaskShown(rows, net.lead.nextId, text, config.taskType, config.manager, NextWire(Tail(net)).at);
    if Matching(Page(rows), key) != [] { MatchingTaskShown(rows, key); }
  }

  lemma InsertedAt(rows: seq<Row>, row: Row, at: nat) returns (i: nat)
    ensures i < |Inserted(rows, row, at)| && Inserted(rows, row, at)[i] == row
  {
    i := if at <= |rows| then at else |rows|;
  }

  lemma {:induction false} FirstMatchIsARow(rows: seq<Row>, key: Key) returns (i: nat)
    requires Matching(rows, key) != []
    ensures i < |rows| && rows[i] == Matching(rows, key)[0] && Matches(rows[i], key)
  {
    if Matches(rows[0], key) {
      i := 0;
    } else {
      i := FirstMatchIsARow(rows[1..], key);
      i := i + 1;
    }
  }
}
