/** One amoCRM lead as the remote holds it, and a transport that may lose, refuse or garble anything. */
module CrmRemote {
  import opened Wrappers

  /** A row of the notes or tasks list; the text keys of the JSON object may be absent. */
  datatype Row =
    | Note(id: int, paramsText: Option<string>, text: Option<string>)
    | Task(id: int, text: Option<string>, taskType: int, responsible: int)

  /** `custom_fields_values` as decoded: the list, its rows and their values may each be malformed. */
  datatype Value = Junk | NoEnum | Enum(id: int)
  datatype Field = BadRow | Field(fieldId: Option<int>, values: Option<seq<Value>>)

  datatype Lead = Lead(notes: seq<Row>, tasks: seq<Row>, fields: Option<seq<Field>>, nextId: nat)

  // --- transport -------------------------------------------------------------------------------

  /** `readOk`: a 2xx read body is the true one, not an unparseable one; `idOk`: a 2xx write body shows the new id. */
  datatype Kind =
    | NotDelivered
    | AnswerLost
    | Rejected(status: int, applied: bool)
    | Answered(readOk: bool, idOk: bool)

  /** `at` is where the remote lists a row this request creates. */
  datatype Wire = Wire(kind: Kind, at: nat)

  datatype Outcome = Success | TransientError | PermanentError | Unauthorized

  function ClassifyStatus(status: int): Outcome {
    if 200 <= status < 300 then Success
    else if status == 401 then Unauthorized
    else if status in {400, 403, 404, 422} then PermanentError
    else TransientError
  }

  datatype Label =
    | GetLeadNotes | PostNote | GetNotePostcheck | GetActiveTasks | PostTask
    | GetAnalyticsBefore | PatchAnalytics | GetAnalyticsVerify | GetAnalyticsPostcheck

  /** The remote lead, the fate of the requests still to come, and the labels of those already made. */
  datatype Net = Net(lead: Lead, wires: seq<Wire>, calls: seq<Label>)

  datatype Reply = Failed(outcome: Outcome) | Body(readOk: bool, idOk: bool)

  /** A request beyond the planned ones is not delivered; a rejection never carries a 2xx status. */
  function NextWire(net: Net): Wire {
    if net.wires == [] then Wire(NotDelivered, 0) else net.wires[0]
  }

  function ReplyTo(kind: Kind): Reply {
    match kind
    case NotDelivered | AnswerLost => Failed(TransientError)
    case Rejected(status, _) =>
      Failed(if ClassifyStatus(status) == Success then TransientError else ClassifyStatus(status))
    case Answered(readOk, idOk) => Body(readOk, idOk)
  }

  predicate Applies(kind: Kind) {
    kind.AnswerLost? || kind.Answered? || (kind.Rejected? && kind.applied)
  }

  /** One request: the lead becomes `lead` if the request is applied at all. */
  function Exchanged(net: Net, what: Label, lead: Lead): (Net, Reply) {
    var kind := NextWire(net).kind;
    (Net(if Applies(kind) then lead else net.lead,
         if net.wires == [] then [] else net.wires[1..],
         net.calls + [what]),
     ReplyTo(kind))
  }

  function Read(net: Net, what: Label): (Net, Reply) {
    Exchanged(net, what, net.lead)
  }

  // --- rows ------------------------------------------------------------------------------------

  const PAGE_LIMIT: nat := 250

  function Page(rows: seq<Row>): seq<Row> {
    if |rows| <= PAGE_LIMIT then rows else rows[..PAGE_LIMIT]
  }

  function Inserted(rows: seq<Row>, row: Row, at: nat): seq<Row> {
    if at <= |rows| then rows[..at] + [row] + rows[at..] else rows + [row]
  }

  // --- fields ----------------------------------------------------------------------------------

  function ValueEnums(values: seq<Value>): seq<int> {
    if values == [] then []
    else (if values[0].Enum? && values[0].id > 0 then [values[0].id] else []) + ValueEnums(values[1..])
  }

  function RowEnums(row: Field, fieldId: int): seq<int> {
    if row.Field? && row.fieldId == Some(fieldId) && row.values.Some? then ValueEnums(row.values.value) else []
  }

  function FieldEnums(fields: seq<Field>, fieldId: int): seq<int> {
    if fields == [] then [] else RowEnums(fields[0], fieldId) + FieldEnums(fields[1..], fieldId)
  }

  /** The positive enum ids the lead carries for one field. */
  function Enums(lead: Lead, fieldId: int): seq<int> {
    if lead.fields.None? then [] else FieldEnums(lead.fields.value, fieldId)
  }

  function Without(fields: seq<Field>, fieldId: int): seq<Field> {
    if fields == [] then []
    else if fields[0].Field? && fields[0].fieldId == Some(fieldId) then Without(fields[1..], fieldId)
    else [fields[0]] + Without(fields[1..], fieldId)
  }

  /** What a PATCH of one enum field does: the field's values are replaced. */
  function Patched(lead: Lead, fieldId: int, enumId: int): Lead {
    var rest := if lead.fields.None? then [] else Without(lead.fields.value, fieldId);
    lead.(fields := Some([Field(Some(fieldId), Some([Enum(enumId)]))] + rest))
  }

  lemma {:induction false} WithoutEnums(fields: seq<Field>, fieldId: int, other: int)
    ensures FieldEnums(Without(fields, fieldId), other) == if other == fieldId then [] else FieldEnums(fields, other)
  {
    if fields != [] { WithoutEnums(fields[1..], fieldId, other); }
  }

  /** A PATCH sets its own field and leaves the enums of every other field alone. */
  lemma PatchedEnums(lead: Lead, fieldId: int, enumId: int, other: int)
    requires enumId > 0
    ensures Enums(Patched(lead, fieldId, enumId), other) == if other == fieldId then [enumId] else Enums(lead, other)
  {
    var row := Field(Some(fieldId), Some([Enum(enumId)]));
    var rest := if lead.fields.None? then [] else Without(lead.fields.value, fieldId);
    if lead.fields.Some? { WithoutEnums(lead.fields.value, fieldId, other); }
    assert ([row] + rest)[0] == row && ([row] + rest)[1..] == rest;
    assert [Enum(enumId)][1..] == [] && ValueEnums([Enum(enumId)]) == [enumId];
    assert FieldEnums([row] + rest, other) == RowEnums(row, other) + FieldEnums(rest, other);
    assert Patched(lead, fieldId, enumId).fields == Some([row] + rest);
  }
}
