/** The CRM write client: read, write, reread, with what each operation does to the remote lead. */
module CrmWrites {
  import opened Wrappers
  import opened CrmRemote
  import opened Text

  /** `Raised`: the call ends in a ValueError instead of a receipt. */
  datatype WriteOutcome = Verified | WriteFailed | ReconciliationRequired | WriteDisabled | Raised
  datatype Decision = Applied | AlreadySame | ConflictNonempty | TransientRetry | ManualReview

  datatype Code =
    | NoCode | LeadIdInvalid | TextInvalid | ListTransient | AmbiguousRows | CreateTransient | CreateFailed
    | CreateParse | PostcheckFailed | PostcheckMismatch
    | FieldInvalid | FieldAmbiguous | ReadTransient | ReadPermanent | AnalyticsUnauthorized
    | PatchTransient | PatchPermanent | PostcheckTransient | PostcheckPermanent
    | ConflictCode | RestDisabled

  datatype Receipt = Receipt(outcome: WriteOutcome, id: Option<int>, code: Code, calls: seq<Label>)
  datatype ApplyReceipt = ApplyReceipt(outcome: WriteOutcome, decision: Option<Decision>, code: Code, calls: seq<Label>)

  datatype Config = Config(enabled: bool, taskType: int, manager: int)

  /** What a note or task is looked up by. */
  datatype Key = NoteKey(fingerprint: string) | TaskKey(fingerprint: string, taskType: int, responsible: int)

  function NoteText(row: Row): string {
    match row
    case Note(_, Some(params), _) => params
    case Note(_, None, Some(text)) => text
    case Note(_, None, None) => ""
    case Task(_, text, _, _) => if text.Some? then text.value else ""
  }

  predicate Matches(row: Row, key: Key) {
    && Strip(NoteText(row)) == key.fingerprint
    && (key.TaskKey? ==> row.Task? && row.taskType == key.taskType && row.responsible == key.responsible)
  }

  function Matching(rows: seq<Row>, key: Key): seq<Row> {
    if rows == [] then []
    else (if Matches(rows[0], key) then [rows[0]] else []) + Matching(rows[1..], key)
  }

  function Count(rows: seq<Row>, key: Key): nat {
    |Matching(rows, key)|
  }

  /** What str.isdigit and int() say of a lead id: some digits of Unicode, such as superscripts, are not integers. */
  datatype LeadId = NotDigits | DigitsOnly | IntegerText

  predicate LeadIdOk(leadId: LeadId) {
    leadId != NotDigits
  }

  /** The rows a list request yields; None when it fails. A 2xx body that does not parse reads as an empty list. */
  function Listed(rows: seq<Row>, reply: Reply): Option<seq<Row>> {
    if reply.Failed? then None else Some(if reply.readOk then Page(rows) else [])
  }

  // --- notes -----------------------------------------------------------------------------------

  function WithNote(net: Net, text: string): Lead {
    net.lead.(notes := Inserted(net.lead.notes, Note(net.lead.nextId, Some(text), None), NextWire(net).at),
              nextId := net.lead.nextId + 1)
  }

  function AddedNote(net: Net, leadId: LeadId, text: string): (Net, Receipt) {
    if !LeadIdOk(leadId) then (net, Receipt(WriteFailed, None, LeadIdInvalid, []))
    else if text == "" || |text| > 2000 then (net, Receipt(WriteFailed, None, TextInvalid, []))
    else PostedNote(net, text)
  }

  function PostedNote(net: Net, text: string): (Net, Receipt) {
    var (n1, posted) := Exchanged(net, PostNote, WithNote(net, text));
    if posted.Failed? then
      (n1, Receipt(WriteFailed, None, if posted.outcome == TransientError then CreateTransient else CreateFailed, n1.calls))
    else if !posted.idOk then (n1, Receipt(ReconciliationRequired, None, CreateParse, n1.calls))
    else
      var n2 := Read(n1, GetNotePostcheck).0;
      (n2, Receipt(Verified, Some(net.lead.nextId), NoCode, n2.calls))
  }

  function EnsuredNote(net: Net, leadId: LeadId, text: string): (Net, Receipt) {
    if !LeadIdOk(leadId) then (net, Receipt(WriteFailed, None, LeadIdInvalid, []))
    else if text == "" || |text| > 2000 then (net, Receipt(WriteFailed, None, TextInvalid, []))
    else
      var (n1, reply) := Read(net, GetLeadNotes);
      var listed := Listed(net.lead.notes, reply);
      if listed.None? then (n1, Receipt(WriteFailed, None, ListTransient, n1.calls)) else
      var matching := Matching(listed.value, NoteKey(Strip(text)));
      if |matching| > 1 then (n1, Receipt(WriteFailed, None, AmbiguousRows, n1.calls))
      else if |matching| == 1 then (n1, Receipt(Verified, Some(matching[0].id), NoCode, n1.calls))
      else AddedNote(n1, leadId, text)
  }

  // --- tasks -----------------------------------------------------------------------------------

  function WithTask(net: Net, config: Config, text: string): Lead {
    net.lead.(tasks := Inserted(net.lead.tasks, Task(net.lead.nextId, Some(text), config.taskType, config.manager),
                                NextWire(net).at),
              nextId := net.lead.nextId + 1)
  }

  function WithIdAndText(rows: seq<Row>, id: int, fingerprint: string): seq<Row> {
    if rows == [] then []
    else (if rows[0].id == id && Strip(NoteText(rows[0])) == fingerprint then [rows[0]] else [])
         + WithIdAndText(rows[1..], id, fingerprint)
  }

  function AddedTask(net: Net, config: Config, text: string): (Net, Receipt) {
    var (n1, posted) := Exchanged(net, PostTask, WithTask(net, config, text));
    if posted.Failed? then
      (n1, Receipt(WriteFailed, None, if posted.outcome == TransientError then CreateTransient else CreateFailed, n1.calls))
    else
      var id := if posted.idOk then Some(net.lead.nextId) else None;
      var (n2, reply) := Read(n1, GetActiveTasks);
      var after := Listed(n1.lead.tasks, reply);
      if after.None? || id.None? then (n2, Receipt(ReconciliationRequired, id, PostcheckFailed, n2.calls))
      else if |WithIdAndText(after.value, id.value, Strip(text))| != 1 then
        (n2, Receipt(ReconciliationRequired, id, PostcheckMismatch, n2.calls))
      else (n2, Receipt(Verified, id, NoCode, n2.calls))
  }

  function EnsuredTask(net: Net, config: Config, leadId: LeadId, text: string): (Net, Receipt) {
    if !LeadIdOk(leadId) then (net, Receipt(WriteFailed, None, LeadIdInvalid, []))
    else if text == "" || |text| > 500 then (net, Receipt(WriteFailed, None, TextInvalid, []))
    else
      var (n1, reply) := Read(net, GetActiveTasks);
      var listed := Listed(net.lead.tasks, reply);
      if listed.None? then (n1, Receipt(WriteFailed, None, ListTransient, n1.calls)) else
      var matching := Matching(listed.value, TaskKey(Strip(text), config.taskType, config.manager));
      if |matching| > 1 then (n1, Receipt(WriteFailed, None, AmbiguousRows, n1.calls))
      else if |matching| == 1 then (n1, Receipt(Verified, Some(matching[0].id), NoCode, n1.calls))
      else if leadId != IntegerText then (n1, Receipt(Raised, None, NoCode, n1.calls))
      else AddedTask(n1, config, text)
  }

  // --- analytics -------------------------------------------------------------------------------

  const SOURCE_PRIMARY: int := 1258095
  const BOOKING_CREATION_METHOD: int := 1321305

  const SOURCE_PRIMARY_ENUMS: set<int> :=
    {721341, 723321, 723323, 730677, 782973, 784167, 784331, 809011, 851499, 851501}

  const BOOKING_METHOD_ENUMS: set<int> := {851489, 851491, 851493, 851495, 851497}

  predicate EnumAllowed(fieldId: int, enumId: int) {
    || (fieldId == SOURCE_PRIMARY && enumId in SOURCE_PRIMARY_ENUMS)
    || (fieldId == BOOKING_CREATION_METHOD && enumId in BOOKING_METHOD_ENUMS)
  }

  datatype EnumRead = ReadFailedTransient | ReadFailedPermanent | ReadUnauthorized | EnumEmpty | EnumAmbiguous | One(id: int)

  function EnumReadOf(lead: Lead, fieldId: int, reply: Reply): EnumRead {
    match reply
    case Failed(Unauthorized) => ReadUnauthorized
    case Failed(PermanentError) => ReadFailedPermanent
    case Failed(_) => ReadFailedTransient
    case Body(readOk, _) =>
      var enums := if readOk then Enums(lead, fieldId) else [];
      if |enums| == 0 then EnumEmpty else if |enums| > 1 then EnumAmbiguous else One(enums[0])
  }

  function ReadEnum(net: Net, fieldId: int, what: Label): (Net, EnumRead) {
    var (n1, reply) := Read(net, what);
    (n1, EnumReadOf(net.lead, fieldId, reply))
  }

  function AfterFailedPatch(net: Net, fieldId: int, enumId: int, patch: Outcome): (Net, ApplyReceipt) {
    if patch == Unauthorized then
      (net, ApplyReceipt(WriteFailed, Some(ManualReview), AnalyticsUnauthorized, net.calls))
    else
      var (n1, verified) := ReadEnum(net, fieldId, GetAnalyticsVerify);
      if verified == One(enumId) then (n1, ApplyReceipt(Verified, Some(Applied), NoCode, n1.calls))
      else if verified == ReadUnauthorized then
        (n1, ApplyReceipt(WriteFailed, Some(ManualReview), AnalyticsUnauthorized, n1.calls))
      else if verified.One? then (n1, ApplyReceipt(Verified, Some(ConflictNonempty), ConflictCode, n1.calls))
      else if patch == PermanentError || verified == ReadFailedPermanent then
        (n1, ApplyReceipt(WriteFailed, Some(ManualReview), PatchPermanent, n1.calls))
      else (n1, ApplyReceipt(ReconciliationRequired, Some(TransientRetry), PatchTransient, n1.calls))
  }

  function AfterPatch(net: Net, fieldId: int, enumId: int): (Net, ApplyReceipt) {
    var (n1, after) := ReadEnum(net, fieldId, GetAnalyticsPostcheck);
    (n1, match after
         case One(id) =>
           if id == enumId then ApplyReceipt(Verified, Some(Applied), NoCode, n1.calls)
           else ApplyReceipt(Verified, Some(ConflictNonempty), ConflictCode, n1.calls)
         case ReadUnauthorized => ApplyReceipt(WriteFailed, Some(ManualReview), AnalyticsUnauthorized, n1.calls)
         case ReadFailedPermanent => ApplyReceipt(WriteFailed, Some(ManualReview), PostcheckPermanent, n1.calls)
         case ReadFailedTransient =>
           ApplyReceipt(ReconciliationRequired, Some(TransientRetry), PostcheckTransient, n1.calls)
         case EnumEmpty => ApplyReceipt(ReconciliationRequired, Some(TransientRetry), PostcheckTransient, n1.calls)
         case EnumAmbiguous => ApplyReceipt(WriteFailed, Some(ManualReview), FieldAmbiguous, n1.calls))
  }

  function EnsuredEnum(net: Net, config: Config, leadId: LeadId, fieldId: int, enumId: int): (Net, ApplyReceipt) {
    if !EnumAllowed(fieldId, enumId) then (net, ApplyReceipt(WriteFailed, None, FieldInvalid, net.calls))
    else if !LeadIdOk(leadId) then (net, ApplyReceipt(WriteFailed, None, LeadIdInvalid, net.calls))
    else if !config.enabled then (net, ApplyReceipt(WriteDisabled, None, RestDisabled, net.calls))
    else
      var (n1, before) := ReadEnum(net, fieldId, GetAnalyticsBefore);
      match before
      case ReadUnauthorized => (n1, ApplyReceipt(WriteFailed, Some(ManualReview), AnalyticsUnauthorized, n1.calls))
      case ReadFailedPermanent => (n1, ApplyReceipt(WriteFailed, Some(ManualReview), ReadPermanent, n1.calls))
      case ReadFailedTransient => (n1, ApplyReceipt(WriteFailed, Some(TransientRetry), ReadTransient, n1.calls))
      case EnumAmbiguous => (n1, ApplyReceipt(WriteFailed, Some(ManualReview), FieldAmbiguous, n1.calls))
      case One(id) =>
        (n1, if id == enumId then ApplyReceipt(Verified, Some(AlreadySame), NoCode, n1.calls)
             else ApplyReceipt(Verified, Some(ConflictNonempty), ConflictCode, n1.calls))
      case EnumEmpty =>
        if leadId != IntegerText then (n1, ApplyReceipt(Raised, None, NoCode, n1.calls)) else
        var (n2, reply) := Exchanged(n1, PatchAnalytics, Patched(n1.lead, fieldId, enumId));
        if reply.Failed? then AfterFailedPatch(n2, fieldId, enumId, reply.outcome) else AfterPatch(n2, fieldId, enumId)
  }
}
