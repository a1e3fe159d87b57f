/**
 * `/api/companies`: creating and renaming a company, with an optional logo upload, and
 * deleting it behind a PIN. A failed upload aborts the request before any write.
 */
module CompanyRoutes {
  import opened Wrappers
  import opened Text
  import opened Ledger
  import opened Store

  /** The text the client library reports when `.single()` finds no row. */
  const NoSingleRow := "JSON object requested, multiple (or no) rows returned"

  /** `!company_name || company_name.trim() === ""` is refused; the name is stored trimmed. */
  function CheckCompanyName(name: Option<string>): (c: Checked<string>)
    ensures c.Rejected? <==> name.None? || IsBlank(name.value)
    ensures c.Rejected? ==> c.response == BadRequest("Company name is required")
    ensures c.Accepted? ==> c.value == Trim(name.value) && c.value != "" && Trim(c.value) == c.value
  {
    if NoteMissing(name) then
      TrimEmptyIffBlank(name.GetOr(""));
      Rejected(BadRequest("Company name is required"))
    else
      TrimEmptyIffBlank(name.value);
      TrimIdempotent(name.value);
      Accepted(Trim(name.value))
  }

  /** The logo after an update: replaced only by a successful upload with a non-empty address. */
  function LogoAfterUpdate(current: Option<string>, upload: Upload): (logo: Option<string>)
    ensures logo != current ==> upload.Uploaded? && logo == Some(upload.publicUrl) && upload.publicUrl != ""
    ensures upload.Uploaded? && upload.publicUrl != "" ==> logo == Some(upload.publicUrl)
  {
    if upload.Uploaded? && upload.publicUrl != "" then Some(upload.publicUrl) else current
  }

  /** `POST /api/companies`: insert a company, with the uploaded logo's address if any. */
  method CreateCompany(db: Database, name: Option<string>, upload: Upload) returns (response: Response, id: Option<int>)
    requires db.Valid()
    modifies db
    ensures db.Valid() && db.Openings() == old(db.Openings())
    ensures CheckCompanyName(name).Rejected? ==>
      response == CheckCompanyName(name).response && id.None? && db.Snapshot() == old(db.Snapshot())
    ensures CheckCompanyName(name).Accepted? && upload.UploadFailed? ==>
      response == ServerError("Failed to upload logo") && id.None? && db.Snapshot() == old(db.Snapshot())
    ensures CheckCompanyName(name).Accepted? && !upload.UploadFailed? ==>
      && response == Created && id == Some(old(db.nextId)) && old(db.nextId) !in old(db.companies)
      && db.Snapshot() == old(db.Snapshot()).(
           companies := old(db.companies)[old(db.nextId) := Company(CheckCompanyName(name).value,
             if upload.Uploaded? then Some(upload.publicUrl) else None)],
           nextId := old(db.nextId) + 1)
  {
    var c := CheckCompanyName(name);
    if c.Rejected? {
      return c.response, None;
    }
    if upload.UploadFailed? {
      return ServerError("Failed to upload logo"), None;
    }
    var newId := db.nextId;
    db.companies := db.companies[newId := Company(c.value, if upload.Uploaded? then Some(upload.publicUrl) else None)];
    db.nextId := newId + 1;
    response, id := Created, Some(newId);
  }

  /** `PUT /api/companies/:id`: rename a company and, when a logo was uploaded, replace it. */
  method UpdateCompany(db: Database, companyId: int, name: Option<string>, upload: Upload) returns (response: Response)
    requires db.Valid()
    modifies db
    ensures db.Valid() && db.Openings() == old(db.Openings())
    ensures CheckCompanyName(name).Rejected? ==>
      response == CheckCompanyName(name).response && db.Snapshot() == old(db.Snapshot())
    ensures CheckCompanyName(name).Accepted? && upload.UploadFailed? ==>
      response == ServerError("Failed to upload logo") && db.Snapshot() == old(db.Snapshot())
    ensures CheckCompanyName(name).Accepted? && !upload.UploadFailed? && companyId !in old(db.companies) ==>
      response == NotFound("Company not found") && db.Snapshot() == old(db.Snapshot())
    ensures CheckCompanyName(name).Accepted? && !upload.UploadFailed? && companyId in old(db.companies) ==>
      && response == Ok("Company updated successfully")
      && db.Snapshot() == old(db.Snapshot()).(
           companies := old(db.companies)[companyId := Company(CheckCompanyName(name).value,
             LogoAfterUpdate(old(db.companies)[companyId].companyLogo, upload))])
  {
    var c := CheckCompanyName(name);
    if c.Rejected? {
      return c.response;
    }
    if upload.UploadFailed? {
      return ServerError("Failed to upload logo");
    }
    if companyId !in db.companies {
      return NotFound("Company not found");
    }
    var logo := LogoAfterUpdate(db.companies[companyId].companyLogo, upload);
    db.companies := db.companies[companyId := Company(c.value, logo)];
    response := Ok("Company updated successfully");
  }

  /**
   * The PIN gate of `DELETE /api/companies/:id`: a missing PIN is a bad request, a wrong
   * one (or any PIN while none is configured) is forbidden.
   */
  function CompanyPinGate(pin: Option<string>, configured: Option<string>): (refusal: Option<Response>)
    ensures refusal.None? <==> PinAccepts(pin, configured)
    ensures (pin.None? || pin.value == "") ==> refusal == Some(BadRequest("PIN is required to delete company"))
    ensures pin.Some? && pin.value != "" && !PinAccepts(pin, configured) ==>
      refusal == Some(Forbidden("Incorrect PIN. Access denied."))
  {
    if pin.None? || pin.value == "" then Some(BadRequest("PIN is required to delete company"))
    else if pin != configured then Some(Forbidden("Incorrect PIN. Access denied."))
    else None
  }

  /**
   * `DELETE /api/companies/:id`: behind the PIN gate, delete the company and name it in
   * the answer. An unknown id fails the single-row read, answered 400 with the client
   * library's message.
   */
  method DeleteCompany(db: Database, companyId: int, pin: Option<string>) returns (response: Response)
    requires db.Valid()
    modifies db
    ensures db.Valid() && db.Openings() == old(db.Openings())
    ensures !PinAccepts(pin, db.adminPin) ==>
      Some(response) == CompanyPinGate(pin, db.adminPin) && db.Snapshot() == old(db.Snapshot())
    ensures PinAccepts(pin, db.adminPin) && companyId !in old(db.companies) ==>
      response.BadRequest? && db.Snapshot() == old(db.Snapshot())
    ensures PinAccepts(pin, db.adminPin) && companyId in old(db.companies) ==>
      && response == Ok("Company \"" + old(db.companies)[companyId].companyName
                        + "\" and all associated products/offers deleted successfully")
      && db.Snapshot() == old(db.Snapshot()).(companies := old(db.companies) - {companyId})
  {
    var refusal := CompanyPinGate(pin, db.adminPin);
    if refusal.Some? {
      return refusal.value;
    }
    if companyId !in db.companies {
      return BadRequest(NoSingleRow);
    }
    var name := db.companies[companyId].companyName;
    db.companies := db.companies - {companyId};
    response := Ok("Company \"" + name + "\" and all associated products/offers deleted successfully");
  }
}
