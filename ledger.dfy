/**
 * The rules every quantity ledger shares (regular stock, free stock, external items):
 * the reason codes and the note rule, the PIN gate, the history row each change logs,
 * the responses a handler returns, and the audit invariant that ties a ledger's
 * current quantities to its history.
 */
module Ledger {
  import opened Wrappers
  import opened Text

  /** What a handler answers: 200 with a message, 201, or an error with its 400, 403, 404 or 500 status. */
  datatype Response =
    | Ok(message: string)
    | Created
    | BadRequest(error: string)
    | Forbidden(error: string)
    | NotFound(error: string)
    | ServerError(error: string)

  /** `reason_type`: one of three codes; `Other` needs a note. */
  datatype ReasonType = NewShipment | Returns | Other

  function ReasonCode(t: ReasonType): (code: string)
    ensures ParseReasonType(Some(code)) == Some(t)
  {
    match t
    case NewShipment => "new_shipment"
    case Returns => "returns"
    case Other => "other"
  }

  /** The reason type a request names, if it names one of the three accepted codes. */
  function ParseReasonType(s: Option<string>): (r: Option<ReasonType>)
    ensures r.Some? <==> s.Some? && s.value in {"new_shipment", "returns", "other"}
    ensures r == Some(Other) <==> s == Some("other")
  {
    if s == Some("new_shipment") then Some(NewShipment)
    else if s == Some("returns") then Some(Returns)
    else if s == Some("other") then Some(Other)
    else None
  }

  /** `!note || note.trim() === ""`. */
  predicate NoteMissing(note: Option<string>) {
    note.None? || Trim(note.value) == ""
  }

  /** A request field after checking: the accepted value, or the response that rejects it. */
  datatype Checked<T> = Accepted(value: T) | Rejected(response: Response)

  /**
   * The shared reason rule: the type must be one of the three codes, and "other"
   * needs a note that is not blank.
   */
  function CheckReason(reasonType: Option<string>, reasonNote: Option<string>): (c: Checked<ReasonType>)
    ensures c.Accepted? <==>
      ParseReasonType(reasonType).Some? && !(reasonType == Some("other") && NoteMissing(reasonNote))
    ensures c.Accepted? ==> Some(c.value) == ParseReasonType(reasonType)
    ensures c.Accepted? && c.value == Other ==> reasonNote.Some? && !IsBlank(reasonNote.value)
    ensures ParseReasonType(reasonType).None? ==> c == Rejected(BadRequest("Invalid reason type"))
    ensures ParseReasonType(reasonType).Some? && c.Rejected? ==>
      c == Rejected(BadRequest("Reason note is required for 'other' type"))
  {
    match ParseReasonType(reasonType)
    case None => Rejected(BadRequest("Invalid reason type"))
    case Some(t) =>
      if t == Other && NoteMissing(reasonNote) then
        Rejected(BadRequest("Reason note is required for 'other' type"))
      else
        TrimEmptyIffBlank(reasonNote.GetOr(""));
        Accepted(t)
  }

  /**
   * The PIN gate, `!admin_pin || admin_pin !== process.env.ADMIN_DELETE_PIN`, negated:
   * a supplied, non-empty PIN equal to the configured one.
   */
  predicate PinAccepts(supplied: Option<string>, configured: Option<string>) {
    supplied.Some? && supplied.value != "" && configured == supplied
  }

  /** The checked body of an "add" request: a positive amount and a valid reason. */
  datatype AddRequest = AddRequest(amount: int, reason: ReasonType)

  /**
   * The validation of `POST .../add` on every ledger, in the handlers' order: the
   * quantity must be present and positive, then the reason rule. No PIN is asked for.
   */
  function CheckAddition(quantity: Option<int>, reasonType: Option<string>, reasonNote: Option<string>)
    : (c: Checked<AddRequest>)
    ensures c.Accepted? <==>
      quantity.Some? && quantity.value > 0 && CheckReason(reasonType, reasonNote).Accepted?
    ensures c.Accepted? ==> c.value.amount == quantity.value > 0
    ensures c.Accepted? ==> Some(c.value.reason) == ParseReasonType(reasonType)
    ensures quantity.None? || quantity.value <= 0 ==>
      c == Rejected(BadRequest("Quantity must be greater than 0"))
    ensures c.Rejected? ==> c.response.BadRequest?
  {
    if quantity.None? || quantity.value <= 0 then
      Rejected(BadRequest("Quantity must be greater than 0"))
    else
      match CheckReason(reasonType, reasonNote)
      case Rejected(r) => Rejected(r)
      case Accepted(t) => Accepted(AddRequest(quantity.value, t))
  }

  /** The checked body of an "update" request: a non-negative target and a valid reason. */
  datatype UpdateRequest = UpdateRequest(target: int, reason: ReasonType)

  /**
   * The validation of `PUT .../update` on every ledger, in the handlers' order: the
   * quantity must be present, then not negative, then the reason rule, then the PIN.
   * Every check comes before the ledger is read.
   */
  function CheckUpdate(quantity: Option<int>, reasonType: Option<string>, reasonNote: Option<string>,
                       adminPin: Option<string>, configuredPin: Option<string>)
    : (c: Checked<UpdateRequest>)
    ensures c.Accepted? <==>
      && quantity.Some? && quantity.value >= 0
      && CheckReason(reasonType, reasonNote).Accepted?
      && PinAccepts(adminPin, configuredPin)
    ensures c.Accepted? ==> c.value.target == quantity.value >= 0
    ensures c.Accepted? ==> Some(c.value.reason) == ParseReasonType(reasonType)
    ensures quantity.None? ==> c == Rejected(BadRequest("Quantity is required"))
    ensures quantity.Some? && quantity.value < 0 ==> c == Rejected(BadRequest("Quantity cannot be negative"))
    ensures c.Rejected? && c.response.Forbidden? <==>
      && quantity.Some? && quantity.value >= 0
      && CheckReason(reasonType, reasonNote).Accepted?
      && !PinAccepts(adminPin, configuredPin)
    ensures c.Rejected? ==> c.response.BadRequest? || c.response == Forbidden("Invalid PIN")
  {
    if quantity.None? then Rejected(BadRequest("Quantity is required"))
    else if quantity.value < 0 then Rejected(BadRequest("Quantity cannot be negative"))
    else
      match CheckReason(reasonType, reasonNote)
      case Rejected(r) => Rejected(r)
      case Accepted(t) =>
        if !PinAccepts(adminPin, configuredPin) then Rejected(Forbidden("Invalid PIN"))
        else Accepted(UpdateRequest(quantity.value, t))
  }

  /** `s || null`: an absent or empty string is stored as null. */
  function OrNull(s: Option<string>): (r: Option<string>)
    ensures r.None? <==> s.None? || s.value == ""
    ensures r.Some? ==> r == s
  {
    if s.None? || s.value == "" then None else s
  }

  /** `s?.trim() || null`. */
  function TrimmedOrNull(s: Option<string>): Option<string> {
    if s.None? || Trim(s.value) == "" then None else Some(Trim(s.value))
  }

  /** `s?.trim() || null` is the trimmed string, or null when nothing but white space is left. */
  lemma TrimmedOrNullMeaning(s: Option<string>)
    ensures TrimmedOrNull(s).None? <==> s.None? || IsBlank(s.value)
    ensures TrimmedOrNull(s).Some? ==>
      TrimmedOrNull(s).value == Trim(s.value) != "" && !IsSpace(TrimmedOrNull(s).value[0])
  {
    if s.Some? {
      TrimEmptyIffBlank(s.value);
    }
  }

  /** `action_type` of a ledger history row. */
  datatype Action = Addition | Update | TransferToFree

  /** One row of `stock_history`, `free_stock_history` or `external_item_stock_history`. */
  datatype HistoryRow = HistoryRow(
    subjectId: int,
    action: Action,
    previousQuantity: int,
    newQuantity: int,
    changeAmount: int,
    reasonType: ReasonType,
    reasonNote: Option<string>,
    adminPinUsed: bool)

  /** A row is consistent when its change is the difference it records. */
  predicate Balanced(row: HistoryRow) {
    row.newQuantity == row.previousQuantity + row.changeAmount
  }

  predicate AllBalanced(rows: seq<HistoryRow>) {
    forall i :: 0 <= i < |rows| ==> Balanced(rows[i])
  }

  /** The sum of the changes `rows` record for subject `id`. */
  function NetChange(rows: seq<HistoryRow>, id: int): int
    decreases |rows|
  {
    if rows == [] then 0
    else
      var last := rows[|rows| - 1];
      NetChange(rows[..|rows| - 1], id) + (if last.subjectId == id then last.changeAmount else 0)
  }

  /** Logging one row moves the net change of its own subject only, by the row's change. */
  lemma NetChangeAppend(rows: seq<HistoryRow>, row: HistoryRow, id: int)
    ensures NetChange(rows + [row], id) ==
      NetChange(rows, id) + (if row.subjectId == id then row.changeAmount else 0)
  {
    assert (rows + [row])[..|rows|] == rows;
  }

  /** A subject no row mentions has no net change. */
  lemma {:induction false} NetChangeUnmentioned(rows: seq<HistoryRow>, id: int)
    requires forall i :: 0 <= i < |rows| ==> rows[i].subjectId != id
    ensures NetChange(rows, id) == 0
    decreases |rows|
  {
    if rows != [] {
      NetChangeUnmentioned(rows[..|rows| - 1], id);
    }
  }

  /**
   * The audit invariant of a ledger: every current quantity is its opening quantity plus
   * the changes its history records.
   */
  predicate Audited(quantities: map<int, int>, opening: map<int, int>, rows: seq<HistoryRow>) {
    forall id :: id in quantities ==>
      id in opening && quantities[id] == opening[id] + NetChange(rows, id)
  }

  /**
   * Writing a new quantity for one subject together with a balanced row that starts at
   * its old quantity keeps an audited ledger audited.
   */
  lemma AuditedAfterLoggedWrite(quantities: map<int, int>, opening: map<int, int>,
                                rows: seq<HistoryRow>, row: HistoryRow)
    requires row.subjectId in quantities && Balanced(row)
    requires row.previousQuantity == quantities[row.subjectId]
    ensures Audited(quantities, opening, rows) ==>
      Audited(quantities[row.subjectId := row.newQuantity], opening, rows + [row])
  {
    if Audited(quantities, opening, rows) {
      var q' := quantities[row.subjectId := row.newQuantity];
      forall id | id in q'
        ensures id in opening && q'[id] == opening[id] + NetChange(rows + [row], id)
      {
        NetChangeAppend(rows, row, id);
      }
    }
  }

  /**
   * Opening a new subject that no row mentions, at any quantity, keeps an audited ledger
   * audited: its opening quantity is the quantity it starts with.
   */
  lemma AuditedAfterOpening(quantities: map<int, int>, opening: map<int, int>,
                            rows: seq<HistoryRow>, id: int, q: int)
    requires id !in quantities && NetChange(rows, id) == 0
    ensures Audited(quantities, opening, rows) ==>
      Audited(quantities[id := q], opening[id := q], rows)
  {
  }

  /** A write that logs no row breaks the audit whenever it moves the quantity. */
  lemma UnloggedWriteBreaksAudit(quantities: map<int, int>, opening: map<int, int>,
                                 rows: seq<HistoryRow>, id: int, q: int)
    requires id in quantities && q != quantities[id]
    ensures Audited(quantities, opening, rows) ==> !Audited(quantities[id := q], opening, rows)
  {
  }
}
