/** The CRM write client as an object: it issues ordered requests, changes the remote and logs its calls. */
module CrmClient {
  import opened Wrappers
  import opened CrmRemote
  import opened CrmWrites
  import opened Text

  lemma {:induction false} ValueEnumsAppend(values: seq<Value>, k: nat)
    requires k < |values|
    ensures ValueEnums(values[..k + 1]) ==
            ValueEnums(values[..k]) + if values[k].Enum? && values[k].id > 0 then [values[k].id] else []
  {
    if k > 0 {
      assert values[..k + 1][1..] == values[1..][..k] && values[..k][1..] == values[1..][..k - 1];
      ValueEnumsAppend(values[1..], k - 1);
    } else {
      assert values[..1][1..] == [] && values[..0] == [];
    }
  }

  lemma {:induction false} FieldEnumsAppend(fields: seq<Field>, k: nat, fieldId: int)
    requires k < |fields|
    ensures FieldEnums(fields[..k + 1], fieldId) == FieldEnums(fields[..k], fieldId) + RowEnums(fields[k], fieldId)
  {
    if k > 0 {
      assert fields[..k + 1][1..] == fields[1..][..k] && fields[..k][1..] == fields[1..][..k - 1];
      FieldEnumsAppend(fields[1..], k - 1, fieldId);
    } else {
      assert fields[..1][1..] == [] && fields[..0] == [];
    }
  }

  /** The nested loops over rows and values. */
  method ExtractLeadFieldEnumIds(rows: Option<seq<Field>>, fieldId: int) returns (found: seq<int>)
    ensures found == if rows.None? then [] else FieldEnums(rows.value, fieldId)
  {
    found := [];
    if rows.None? { return; }
    for r := 0 to |rows.value|
      invariant found == FieldEnums(rows.value[..r], fieldId)
    {
      FieldEnumsAppend(rows.value, r, fieldId);
      var row := rows.value[r];
      if !row.Field? || row.fieldId != Some(fieldId) || row.values.None? || row.values.value == [] { continue; }
      var values := row.values.value;
      ghost var before := found;
      for v := 0 to |values|
        invariant found == before + ValueEnums(values[..v])
      {
        ValueEnumsAppend(values, v);
        if values[v].Enum? && values[v].id > 0 { found := found + [values[v].id]; }
      }
      assert values[..|values|] == values;
    }
    assert rows.value[..|rows.value|] == rows.value;
  }

  class CrmWritesClient {
    const config: Config
    var lead: Lead
    var wires: seq<Wire>
    var httpCalls: seq<Label>

    function State(): Net
      reads this
    {
      Net(lead, wires, httpCalls)
    }

    constructor (config: Config, net: Net)
      ensures this.config == config && State() == net
    {
      this.config := config;
      lead, wires, httpCalls := net.lead, net.wires, net.calls;
    }

    /** One request; `effect` is the lead as the remote leaves it if it applies the request. */
    method Request(what: Label, effect: Lead) returns (reply: Reply)
      modifies this
      ensures (State(), reply) == Exchanged(old(State()), what, effect)
    {
      httpCalls := httpCalls + [what];
      var kind := NotDelivered;
      if wires != [] {
        kind, wires := wires[0].kind, wires[1..];
      }
      if Applies(kind) { lead := effect; }
      reply := ReplyTo(kind);
    }

    method EnsureLeadNote(leadId: LeadId, text: string) returns (receipt: Receipt)
      modifies this
      ensures (State(), receipt) == EnsuredNote(old(State()), leadId, text)
    {
      if !LeadIdOk(leadId) { return Receipt(WriteFailed, None, LeadIdInvalid, []); }
      if text == "" || |text| > 2000 { return Receipt(WriteFailed, None, TextInvalid, []); }
      var fingerprint := Strip(text);
      var rows := lead.notes;
      var reply := Request(GetLeadNotes, lead);
      var notes := Listed(rows, reply);
      if notes.None? { return Receipt(WriteFailed, None, ListTransient, httpCalls); }
      var matching := Matching(notes.value, NoteKey(fingerprint));
      if |matching| > 1 { return Receipt(WriteFailed, None, AmbiguousRows, httpCalls); }
      if |matching| == 1 { return Receipt(Verified, Some(matching[0].id), NoCode, httpCalls); }
      receipt := AddLeadNote(leadId, text);
    }

    method AddLeadNote(leadId: LeadId, text: string) returns (receipt: Receipt)
      modifies this
      ensures (State(), receipt) == AddedNote(old(State()), leadId, text)
    {
      if !LeadIdOk(leadId) { return Receipt(WriteFailed, None, LeadIdInvalid, []); }
      if text == "" || |text| > 2000 { return Receipt(WriteFailed, None, TextInvalid, []); }
      var id := lead.nextId;
      var reply := Request(PostNote, WithNote(State(), text));
      if reply.Failed? {
        return Receipt(WriteFailed, None, if reply.outcome == TransientError then CreateTransient else CreateFailed, httpCalls);
      }
      if !reply.idOk { return Receipt(ReconciliationRequired, None, CreateParse, httpCalls); }
      // Some deployments have no single-note GET: whatever it answers, the created id is accepted.
      reply := Request(GetNotePostcheck, lead);
      receipt := Receipt(Verified, Some(id), NoCode, httpCalls);
    }

    method EnsureLeadTask(leadId: LeadId, text: string) returns (receipt: Receipt)
      modifies this
      ensures (State(), receipt) == EnsuredTask(old(State()), config, leadId, text)
    {
      if !LeadIdOk(leadId) { return Receipt(WriteFailed, None, LeadIdInvalid, []); }
      if text == "" || |text| > 500 { return Receipt(WriteFailed, None, TextInvalid, []); }
      var fingerprint := Strip(text);
      var rows := lead.tasks;
      var reply := Request(GetActiveTasks, lead);
      var tasks := Listed(rows, reply);
      if tasks.None? { return Receipt(WriteFailed, None, ListTransient, httpCalls); }
      var matching := Matching(tasks.value, TaskKey(fingerprint, config.taskType, config.manager));
      if |matching| > 1 { return Receipt(WriteFailed, None, AmbiguousRows, httpCalls); }
      if |matching| == 1 { return Receipt(Verified, Some(matching[0].id), NoCode, httpCalls); }
      // The payload holds int(lead_id).
      if leadId != IntegerText { return Receipt(Raised, None, NoCode, httpCalls); }
      var newId := lead.nextId;
      reply := Request(PostTask, WithTask(State(), config, text));
      if reply.Failed? {
        return Receipt(WriteFailed, None, if reply.outcome == TransientError then CreateTransient else CreateFailed, httpCalls);
      }
      var id := if reply.idOk then Some(newId) else None;
      rows := lead.tasks;
      reply := Request(GetActiveTasks, lead);
      var after := Listed(rows, reply);
      if after.None? || id.None? { return Receipt(ReconciliationRequired, id, PostcheckFailed, httpCalls); }
      if |WithIdAndText(after.value, id.value, fingerprint)| != 1 {
        return Receipt(ReconciliationRequired, id, PostcheckMismatch, httpCalls);
      }
      receipt := Receipt(Verified, id, NoCode, httpCalls);
    }

    method ReadLeadAnalyticsEnum(fieldId: int, what: Label) returns (read: EnumRead)
      modifies this
      ensures (State(), read) == ReadEnum(old(State()), fieldId, what)
    {
      var fields := lead.fields;
      var reply := Request(what, lead);
      if reply.Failed? {
        if reply.outcome == Unauthorized { return ReadUnauthorized; }
        if reply.outcome == PermanentError { return ReadFailedPermanent; }
        return ReadFailedTransient;
      }
      var enums := ExtractLeadFieldEnumIds(if reply.readOk then fields else None, fieldId);
      if |enums| == 0 { return EnumEmpty; }
      if |enums| > 1 { return EnumAmbiguous; }
      read := One(enums[0]);
    }

    method EnsureLeadAnalyticsEnumIfEmpty(leadId: LeadId, fieldId: int, enumId: int) returns (receipt: ApplyReceipt)
      modifies this
      ensures (State(), receipt) == EnsuredEnum(old(State()), config, leadId, fieldId, enumId)
    {
      if !EnumAllowed(fieldId, enumId) { return ApplyReceipt(WriteFailed, None, FieldInvalid, httpCalls); }
      if !LeadIdOk(leadId) { return ApplyReceipt(WriteFailed, None, LeadIdInvalid, httpCalls); }
      if !config.enabled { return ApplyReceipt(WriteDisabled, None, RestDisabled, httpCalls); }
      var before := ReadLeadAnalyticsEnum(fieldId, GetAnalyticsBefore);
      match before {
        case ReadUnauthorized => return ApplyReceipt(WriteFailed, Some(ManualReview), AnalyticsUnauthorized, httpCalls);
        case ReadFailedPermanent => return ApplyReceipt(WriteFailed, Some(ManualReview), ReadPermanent, httpCalls);
        case ReadFailedTransient => return ApplyReceipt(WriteFailed, Some(TransientRetry), ReadTransient, httpCalls);
        case EnumAmbiguous => return ApplyReceipt(WriteFailed, Some(ManualReview), FieldAmbiguous, httpCalls);
        case One(id) =>
          if id == enumId { return ApplyReceipt(Verified, Some(AlreadySame), NoCode, httpCalls); }
          return ApplyReceipt(Verified, Some(ConflictNonempty), ConflictCode, httpCalls);
        case EnumEmpty =>
      }
      // The payload holds int(lead_id).
      if leadId != IntegerText { return ApplyReceipt(Raised, None, NoCode, httpCalls); }
      var reply := Request(PatchAnalytics, Patched(lead, fieldId, enumId));
      if reply.Failed? {
        receipt := VerifyFailedPatch(fieldId, enumId, reply.outcome);
      } else {
        receipt := Postcheck(fieldId, enumId);
      }
    }

    /** Uncertain or failed PATCH: read before classifying, never PATCH again. */
    method VerifyFailedPatch(fieldId: int, enumId: int, patch: Outcome) returns (receipt: ApplyReceipt)
      modifies this
      ensures (State(), receipt) == AfterFailedPatch(old(State()), fieldId, enumId, patch)
    {
      if patch == Unauthorized {
        return ApplyReceipt(WriteFailed, Some(ManualReview), AnalyticsUnauthorized, httpCalls);
      }
      var verified := ReadLeadAnalyticsEnum(fieldId, GetAnalyticsVerify);
      if verified == One(enumId) { return ApplyReceipt(Verified, Some(Applied), NoCode, httpCalls); }
      if verified == ReadUnauthorized {
        return ApplyReceipt(WriteFailed, Some(ManualReview), AnalyticsUnauthorized, httpCalls);
      }
      if verified.One? { return ApplyReceipt(Verified, Some(ConflictNonempty), ConflictCode, httpCalls); }
      if patch == PermanentError || verified == ReadFailedPermanent {
        return ApplyReceipt(WriteFailed, Some(ManualReview), PatchPermanent, httpCalls);
      }
      receipt := ApplyReceipt(ReconciliationRequired, Some(TransientRetry), PatchTransient, httpCalls);
    }

    method Postcheck(fieldId: int, enumId: int) returns (receipt: ApplyReceipt)
      modifies this
      ensures (State(), receipt) == AfterPatch(old(State()), fieldId, enumId)
    {
      var after := ReadLeadAnalyticsEnum(fieldId, GetAnalyticsPostcheck);
      match after
      case One(id) =>
        receipt := if id == enumId then ApplyReceipt(Verified, Some(Applied), NoCode, httpCalls)
                   else ApplyReceipt(Verified, Some(ConflictNonempty), ConflictCode, httpCalls);
      case ReadUnauthorized =>
        receipt := ApplyReceipt(WriteFailed, Some(ManualReview), AnalyticsUnauthorized, httpCalls);
      case ReadFailedPermanent =>
        receipt := ApplyReceipt(WriteFailed, Some(ManualReview), PostcheckPermanent, httpCalls);
      case EnumAmbiguous =>
        receipt := ApplyReceipt(WriteFailed, Some(ManualReview), FieldAmbiguous, httpCalls);
      case _ =>
        receipt := ApplyReceipt(ReconciliationRequired, Some(TransientRetry), PostcheckTransient, httpCalls);
    }
  }
}
