/**
 * The `/api/contact` endpoint: the schema a contact form must meet, and the response
 * that reports the submission as accepted whether or not the message could be stored.
 */
module Contact {
  import opened Wrappers
  import opened Text

  const NameMinLength := 1
  const MessageMinLength := 5
  const MessageMaxLength := 2000
  /** The response carries at most this many characters of the storage error. */
  const ErrorTextLimit := 120
  const UnstoredNote := "Saved without DB"
  /** The status of a request whose body fails the schema. */
  const ValidationStatus := 422

  /** A contact form as submitted. Lengths count characters. */
  datatype ContactMessage = ContactMessage(name: string, email: string, message: string)

  /** One way a form can break the schema; every broken field is reported. */
  datatype Violation = NameTooShort | EmailInvalid | MessageTooShort | MessageTooLong

  /**
   * The schema. Whether an address is well formed is decided by the validation library,
   * whose rules are not part of this model, so it is the parameter `isEmail`.
   */
  predicate Valid(m: ContactMessage, isEmail: string -> bool) {
    && |m.name| >= NameMinLength
    && isEmail(m.email)
    && MessageMinLength <= |m.message| <= MessageMaxLength
  }

  /** The violations of the schema, field by field, in field order. */
  function Violations(m: ContactMessage, isEmail: string -> bool): (v: seq<Violation>)
    ensures v == [] <==> Valid(m, isEmail)
    ensures NameTooShort in v <==> |m.name| < NameMinLength
    ensures EmailInvalid in v <==> !isEmail(m.email)
    ensures MessageTooShort in v <==> |m.message| < MessageMinLength
    ensures MessageTooLong in v <==> |m.message| > MessageMaxLength
  {
    (if |m.name| < NameMinLength then [NameTooShort] else [])
    + (if isEmail(m.email) then [] else [EmailInvalid])
    + (if |m.message| < MessageMinLength then [MessageTooShort]
       else if |m.message| > MessageMaxLength then [MessageTooLong]
       else [])
  }

  /** What the document store did with the message: the new document's id, or the text of its error. */
  type StoreOutcome = Result<string, string>

  /** The response body; a field that is None is absent from it. */
  datatype ContactResponse = ContactResponse(
    success: bool,
    stored: bool,
    id: Option<string>,
    note: Option<string>,
    error: Option<string>)

  /** A rejected request: the status and the violations behind it. */
  datatype Rejection = Rejection(status: int, violations: seq<Violation>)

  /**
   * `POST /api/contact`: a form that breaks the schema is rejected; any other form is
   * accepted, with the outcome of the attempt to store it recorded in the response.
   */
  function SubmitContact(m: ContactMessage, isEmail: string -> bool, outcome: StoreOutcome): (r: Result<ContactResponse, Rejection>)
    ensures r.Success? <==> Valid(m, isEmail)
    ensures r.Failure? ==> r.error.status == ValidationStatus && r.error.violations == Violations(m, isEmail)
    ensures r.Success? ==> r.value.success
    ensures r.Success? ==> (r.value.stored <==> outcome.Success?)
    ensures r.Success? ==> (r.value.id.Some? <==> r.value.stored)
    ensures r.Success? && outcome.Success? ==> r.value.id == Some(outcome.value) && r.value.note.None? && r.value.error.None?
    ensures r.Success? && outcome.Failure? ==>
              && r.value.note == Some(UnstoredNote)
              && r.value.error.Some?
              && |r.value.error.value| <= ErrorTextLimit
              && r.value.error.value <= outcome.error
              && (|outcome.error| <= ErrorTextLimit ==> r.value.error.value == outcome.error)
              && (|outcome.error| > ErrorTextLimit ==> |r.value.error.value| == ErrorTextLimit)
  {
    var v := Violations(m, isEmail);
    if v != [] then
      Failure(Rejection(ValidationStatus, v))
    else
      match outcome
      case Success(id) => Success(ContactResponse(true, true, Some(id), None, None))
      case Failure(e) => Success(ContactResponse(true, false, None, Some(UnstoredNote), Some(Prefix(e, ErrorTextLimit))))
  }

  /** A failure to store never turns an accepted form into an error: both outcomes are accepted alike. */
  lemma StorageNeverRejects(m: ContactMessage, isEmail: string -> bool, outcome: StoreOutcome, other: StoreOutcome)
    ensures SubmitContact(m, isEmail, outcome).Success? == SubmitContact(m, isEmail, other).Success?
  {
  }

  /** A message of 4 characters is too short; one of 5 is accepted when the rest is valid. */
  lemma MessageLengthBoundary(m: ContactMessage, isEmail: string -> bool, outcome: StoreOutcome)
    requires |m.name| >= 1 && isEmail(m.email)
    ensures |m.message| == 4 ==> SubmitContact(m, isEmail, outcome) == Failure(Rejection(ValidationStatus, [MessageTooShort]))
    ensures |m.message| == 5 ==> SubmitContact(m, isEmail, outcome).Success?
    ensures |m.message| == 2000 ==> SubmitContact(m, isEmail, outcome).Success?
    ensures |m.message| == 2001 ==> SubmitContact(m, isEmail, outcome) == Failure(Rejection(ValidationStatus, [MessageTooLong]))
  {
    if |m.message| == 4 {
      assert Violations(m, isEmail) == [] + [] + [MessageTooShort] == [MessageTooShort];
    } else if |m.message| == 2001 {
      assert Violations(m, isEmail) == [] + [] + [MessageTooLong] == [MessageTooLong];
    }
  }
}
