/**
 * `POST /api/customers`: shop registration. Every field but the e-mail is required,
 * the GST number and the contact number are checked, the stored record is trimmed and
 * case-normalised, and a clash with an existing registration is named by field.
 */
module CustomerRoutes {
  import opened Wrappers
  import opened Text
  import opened Ledger
  import opened Store

  /** The request body, each field as sent (absent fields are `None`). */
  datatype Registration = Registration(
    customerName: Option<string>,
    businessName: Option<string>,
    contactNumber: Option<string>,
    streetAddress: Option<string>,
    latitude: Option<string>,
    longitude: Option<string>,
    gstNumber: Option<string>,
    foodLicenceNumber: Option<string>,
    email: Option<string>)

  /** `!field` for a text field: absent or empty. */
  predicate Missing(s: Option<string>) {
    s.None? || s.value == ""
  }

  predicate AnyRequiredMissing(f: Registration) {
    || Missing(f.customerName) || Missing(f.businessName) || Missing(f.contactNumber)
    || Missing(f.streetAddress) || Missing(f.latitude) || Missing(f.longitude)
    || Missing(f.gstNumber) || Missing(f.foodLicenceNumber)
  }

  predicate IsDigitOrUpper(c: char) { IsDigit(c) || IsUpper(c) }

  /**
   * `/^[0-9]{2}[A-Z]{5}[0-9]{4}[A-Z]{1}[1-9A-Z]{1}Z[0-9A-Z]{1}$/`: fifteen characters,
   * position by position.
   */
  predicate GstValid(s: string) {
    && |s| == 15
    && (forall i :: 0 <= i < 2 ==> IsDigit(s[i]))
    && (forall i :: 2 <= i < 7 ==> IsUpper(s[i]))
    && (forall i :: 7 <= i < 11 ==> IsDigit(s[i]))
    && IsUpper(s[11])
    && (('1' <= s[12] <= '9') || IsUpper(s[12]))
    && s[13] == 'Z'
    && IsDigitOrUpper(s[14])
  }

  /** `/^[6-9]\d{9}$/` applied to a digit string: ten digits, the first 6 to 9. */
  predicate PhoneValid(digits: string) {
    |digits| == 10 && '6' <= digits[0] <= '9' && forall i :: 0 <= i < 10 ==> IsDigit(digits[i])
  }

  /**
   * The GST check runs on the raw input, yet the stored value is the trimmed, upper-cased
   * one: a number that passes the check is stored exactly as sent.
   */
  lemma GstStoredAsSent(s: string)
    requires GstValid(s)
    ensures ToUpper(Trim(s)) == s
  {
    assert !IsSpace(s[0]) && !IsSpace(s[14]);
    TrimOfTrimmed(s);
    forall i | 0 <= i < |s|
      ensures !IsLower(s[i])
    {
      if i < 2 || 7 <= i < 11 { assert IsDigit(s[i]); }
      else if i < 12 { assert IsUpper(s[i]); }
    }
  }

  /** The stored contact number is trimmed, not stripped, and its digits still pass the check. */
  lemma StoredContactKeepsDigits(contact: string)
    requires PhoneValid(Digits(contact))
    ensures PhoneValid(Digits(Trim(contact)))
  {
    DigitsOfTrim(contact);
  }

  /** `email ? email.trim().toLowerCase() : null`. */
  function NormalEmail(email: Option<string>): (r: Option<string>)
    ensures r.None? <==> Missing(email)
    ensures r.Some? ==> r.value == ToLower(Trim(email.value))
  {
    if Missing(email) then None else Some(ToLower(Trim(email.value)))
  }

  /**
   * The validation and normalisation of a registration, in the handler's order: required
   * fields, then the GST format, then the contact number's digits.
   */
  function NewCustomer(f: Registration): (c: Checked<Customer>)
    ensures c.Accepted? <==>
      !AnyRequiredMissing(f) && GstValid(f.gstNumber.value) && PhoneValid(Digits(f.contactNumber.value))
    ensures AnyRequiredMissing(f) ==> c == Rejected(BadRequest("All fields are required"))
    ensures !AnyRequiredMissing(f) && !GstValid(f.gstNumber.value) ==>
      c == Rejected(BadRequest("Invalid GST number format"))
    ensures !AnyRequiredMissing(f) && GstValid(f.gstNumber.value) && !PhoneValid(Digits(f.contactNumber.value)) ==>
      c == Rejected(BadRequest("Invalid contact number (10 digits required)"))
    ensures c.Accepted? ==>
      && c.value.customerName == Trim(f.customerName.value)
      && c.value.businessName == Trim(f.businessName.value)
      && c.value.contactNumber == Trim(f.contactNumber.value)
      && c.value.streetAddress == Trim(f.streetAddress.value)
      && c.value.latitude == f.latitude.value && c.value.longitude == f.longitude.value
      && c.value.gstNumber == f.gstNumber.value
      && c.value.foodLicenceNumber == ToUpper(Trim(f.foodLicenceNumber.value))
      && c.value.email == NormalEmail(f.email)
      && GstValid(c.value.gstNumber) && PhoneValid(Digits(c.value.contactNumber))
  {
    if AnyRequiredMissing(f) then Rejected(BadRequest("All fields are required"))
    else if !GstValid(f.gstNumber.value) then Rejected(BadRequest("Invalid GST number format"))
    else if !PhoneValid(Digits(f.contactNumber.value)) then
      Rejected(BadRequest("Invalid contact number (10 digits required)"))
    else
      GstStoredAsSent(f.gstNumber.value);
      StoredContactKeepsDigits(f.contactNumber.value);
      Accepted(Customer(Trim(f.customerName.value), Trim(f.businessName.value), Trim(f.contactNumber.value),
                        Trim(f.streetAddress.value), f.latitude.value, f.longitude.value,
                        ToUpper(Trim(f.gstNumber.value)), ToUpper(Trim(f.foodLicenceNumber.value)),
                        NormalEmail(f.email)))
  }

  /**
   * The unique column a new record clashes on, in the order the constraints are taken to
   * be checked: GST number, licence number, then a non-null e-mail.
   */
  function Clash(customers: seq<Customer>, c: Customer): (column: Option<string>)
    ensures column.None? <==>
      forall i :: 0 <= i < |customers| ==>
        customers[i].gstNumber != c.gstNumber && customers[i].foodLicenceNumber != c.foodLicenceNumber
        && (c.email.None? || customers[i].email != c.email)
  {
    if exists i :: 0 <= i < |customers| && customers[i].gstNumber == c.gstNumber then Some("gst_number")
    else if exists i :: 0 <= i < |customers| && customers[i].foodLicenceNumber == c.foodLicenceNumber then
      Some("food_licence_number")
    else if c.email.Some? && exists i :: 0 <= i < |customers| && customers[i].email == c.email then Some("email")
    else None
  }

  /** The text of the database error (code 23505) for a clash on `column`. */
  function ConstraintMessage(column: string): string {
    "duplicate " + "key value " + "violates " + "unique " + "constraint " + "\"customers_" + column + "_key\""
  }

  /** The handler's mapping of a unique-violation message to its answer. */
  function DuplicateResponse(message: string): Response {
    if Contains(message, "gst_number") then BadRequest("GST number already registered")
    else if Contains(message, "food_licence_number") then BadRequest("Food licence number already registered")
    else if Contains(message, "email") then BadRequest("Email already registered")
    else BadRequest(message)
  }

  /** A string cannot contain a piece holding a character it lacks. */
  lemma NotContainsAbsentChar(s: string, sub: string, k: int)
    requires 0 <= k < |sub| && sub[k] !in s
    ensures !Contains(s, sub)
  {
    forall i | 0 <= i <= |s| - |sub|
      ensures !OccursAt(s, sub, i)
    {
      assert s[i..i + |sub|][k] == s[i + k];
    }
  }

  /** The constraint message names its column at a fixed place. */
  lemma ConstraintMessageNames(column: string)
    ensures |ConstraintMessage(column)| == 58 + |column| + 5
    ensures OccursAt(ConstraintMessage(column), column, 58)
  {
    var prefix := "duplicate " + "key value " + "violates " + "unique " + "constraint " + "\"customers_";
    assert ConstraintMessage(column) == prefix + column + "_key\"";
  }

  /** Around its column the constraint message holds neither a `g` nor an `f`. */
  lemma ConstraintMessageLacks(column: string, c: char)
    requires c == 'g' || c == 'f'
    requires c !in column
    ensures c !in ConstraintMessage(column)
  {
  }

  /** A clash on the GST number is reported as such. */
  lemma GstClashReported()
    ensures DuplicateResponse(ConstraintMessage("gst_number")) == BadRequest("GST number already registered")
  {
    ConstraintMessageNames("gst_number");
  }

  /** A clash on the licence number is reported as such, not as a GST clash. */
  lemma LicenceClashReported()
    ensures DuplicateResponse(ConstraintMessage("food_licence_number")) ==
      BadRequest("Food licence number already registered")
  {
    var column := "food_licence_number";
    ConstraintMessageNames(column);
    assert column[0] == 'f';
    ConstraintMessageLacks(column, 'g');
    NotContainsAbsentChar(ConstraintMessage(column), "gst_number", 0);
  }

  /** A clash on the e-mail is reported as such, not as a GST or licence clash. */
  lemma EmailClashReported()
    ensures DuplicateResponse(ConstraintMessage("email")) == BadRequest("Email already registered")
  {
    var column := "email";
    ConstraintMessageNames(column);
    ConstraintMessageLacks(column, 'g');
    ConstraintMessageLacks(column, 'f');
    NotContainsAbsentChar(ConstraintMessage(column), "gst_number", 0);
    NotContainsAbsentChar(ConstraintMessage(column), "food_licence_number", 0);
  }

  /**
   * `POST /api/customers`: a valid registration that clashes with no existing one is
   * appended; a clash is answered with the field's "already registered" message.
   */
  method RegisterCustomer(db: Database, form: Registration) returns (response: Response)
    requires db.Valid()
    modifies db
    ensures db.Valid() && db.Openings() == old(db.Openings())
    ensures var c := NewCustomer(form);
      c.Rejected? ==> response == c.response && db.Snapshot() == old(db.Snapshot())
    ensures var c := NewCustomer(form);
      c.Accepted? && Clash(old(db.customers), c.value).Some? ==>
        && response == DuplicateResponse(ConstraintMessage(Clash(old(db.customers), c.value).value))
        && db.Snapshot() == old(db.Snapshot())
    ensures var c := NewCustomer(form);
      c.Accepted? && Clash(old(db.customers), c.value).None? ==>
        && response == Created
        && db.Snapshot() == old(db.Snapshot()).(customers := old(db.customers) + [c.value])
  {
    var c := NewCustomer(form);
    if c.Rejected? {
      return c.response;
    }
    var clash := Clash(db.customers, c.value);
    if clash.Some? {
      return DuplicateResponse(ConstraintMessage(clash.value));
    }
    db.customers := db.customers + [c.value];
    response := Created;
  }
}
