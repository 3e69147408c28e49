/**
 * The shared record shapes (admin, donor, contact message) and the two
 * input schemas the client validates its forms with. A schema either
 * yields the typed record or the list of problems it found, field by field
 * in declaration order, as a zod object schema reports them.
 */
module Schema {
  import opened Wrappers

  /** Record identifiers; the store draws a fresh one for every insert. */
  type Id = nat

  /** The three review states of a donor application. */
  datatype Status = Pending | Approved | Rejected

  /** A new donor application starts out pending. */
  const DefaultStatus: Status := Pending

  function StatusName(s: Status): string
  {
    match s
    case Pending => "pending"
    case Approved => "approved"
    case Rejected => "rejected"
  }

  /** Reads a status from its wire name; any other string is not a status. */
  function ParseStatus(name: string): (r: Option<Status>)
    ensures r.Some? ==> StatusName(r.value) == name
    ensures r.None? <==> forall s: Status :: StatusName(s) != name
  {
    if name == "pending" then Some(Pending)
    else if name == "approved" then Some(Approved)
    else if name == "rejected" then Some(Rejected)
    else None
  }

  predicate IsStatusName(name: string)
  {
    ParseStatus(name).Some?
  }

  lemma ParseStatusName(s: Status)
    ensures ParseStatus(StatusName(s)) == Some(s)
  {
  }

  datatype InsertAdmin = InsertAdmin(username: string, password: string, name: string)

  /** An admin account; the password is kept verbatim. */
  datatype Admin = Admin(id: Id, fields: InsertAdmin)

  datatype InsertContactMessage = InsertContactMessage(name: string, email: string, subject: string, message: string)

  datatype ContactMessage = ContactMessage(id: Id, fields: InsertContactMessage, createdAt: nat)

  /** `age` is a JSON number, so it may carry a fraction until the schema has checked it. */
  datatype InsertDonor = InsertDonor(
    name: string, email: string, phone: string, bloodType: string, age: real, address: string)

  datatype Donor = Donor(id: Id, fields: InsertDonor, status: Status, appliedAt: nat)

  function AdminUsername(a: Admin): string
  {
    a.fields.username
  }

  function DonorAppliedAt(d: Donor): int
  {
    d.appliedAt
  }

  function ContactCreatedAt(m: ContactMessage): int
  {
    m.createdAt
  }

  // ---------------------------------------------------------------------
  // Validation
  // ---------------------------------------------------------------------

  /** A contact form as posted: any field may be missing. */
  datatype ContactForm = ContactForm(
    name: Option<string>, email: Option<string>, subject: Option<string>, message: Option<string>)

  /** A donor form as posted: any field may be missing. */
  datatype DonorForm = DonorForm(
    name: Option<string>, email: Option<string>, phone: Option<string>,
    bloodType: Option<string>, age: Option<real>, address: Option<string>)

  /** What a schema can object to in one field. */
  datatype Problem = Required | TooShort(minimum: nat) | InvalidEmail | NotInteger | NotPositive

  datatype Issue = Issue(path: string, problem: Problem)

  /**
   * A string field of a request body that is present and not empty: what
   * the `!field` test lets through, and what a required string field of a
   * database document accepts.
   */
  predicate Provided(v: Option<string>)
  {
    v.Some? && v.value != ""
  }

  /**
   * The length JavaScript gives a string: UTF-16 code units, so a
   * character above U+FFFF counts twice.
   */
  function Utf16Length(s: string): (r: nat)
    ensures |s| <= r <= 2 * |s|
    ensures r == 0 <==> s == []
    decreases |s|
  {
    if s == [] then 0 else (if s[0] as int > 0xFFFF then 2 else 1) + Utf16Length(s[1..])
  }

  predicate IsInteger(x: real)
  {
    x.Floor as real == x
  }

  /** `z.string().min(minimum)` on one field, counting UTF-16 code units. */
  function TextIssues(path: string, v: Option<string>, minimum: nat): (r: seq<Issue>)
    ensures r == [] <==> v.Some? && Utf16Length(v.value) >= minimum
    ensures forall i :: 0 <= i < |r| ==> r[i].path == path
  {
    if v.None? then [Issue(path, Required)]
    else if Utf16Length(v.value) < minimum then [Issue(path, TooShort(minimum))]
    else []
  }

  /** `z.string().email()` on one field; what counts as an address is left to `isEmail`. */
  function EmailIssues(path: string, v: Option<string>, isEmail: string -> bool): (r: seq<Issue>)
    ensures r == [] <==> v.Some? && isEmail(v.value)
    ensures forall i :: 0 <= i < |r| ==> r[i].path == path
  {
    if v.None? then [Issue(path, Required)]
    else if !isEmail(v.value) then [Issue(path, InvalidEmail)]
    else []
  }

  /** `z.number().int().positive()`: both checks run, so a negative fraction gets two issues. */
  function PositiveIntegerIssues(path: string, v: Option<real>): (r: seq<Issue>)
    ensures r == [] <==> v.Some? && IsInteger(v.value) && v.value > 0.0
    ensures forall i :: 0 <= i < |r| ==> r[i].path == path
    ensures v.Some? && !IsInteger(v.value) ==> Issue(path, NotInteger) in r
    ensures v.Some? && v.value <= 0.0 ==> Issue(path, NotPositive) in r
  {
    if v.None? then [Issue(path, Required)]
    else
      (if IsInteger(v.value) then [] else [Issue(path, NotInteger)])
      + (if v.value > 0.0 then [] else [Issue(path, NotPositive)])
  }

  const ContactPaths: set<string> := {"name", "email", "subject", "message"}

  const DonorPaths: set<string> := {"name", "email", "phone", "bloodType", "age", "address"}

  function ContactIssues(f: ContactForm, isEmail: string -> bool): seq<Issue>
  {
    TextIssues("name", f.name, 1) + EmailIssues("email", f.email, isEmail)
    + TextIssues("subject", f.subject, 1) + TextIssues("message", f.message, 1)
  }

  /**
   * The contact schema: accepted exactly when name, subject and message are
   * present and non-empty and the email is an address; every problem it
   * reports names one of the four fields.
   */
  function ParseContactMessage(f: ContactForm, isEmail: string -> bool)
    : (r: Result<InsertContactMessage, seq<Issue>>)
    ensures r.Success? <==>
              && f.name.Some? && |f.name.value| >= 1
              && f.email.Some? && isEmail(f.email.value)
              && f.subject.Some? && |f.subject.value| >= 1
              && f.message.Some? && |f.message.value| >= 1
    ensures r.Success? ==>
              r.value == InsertContactMessage(f.name.value, f.email.value, f.subject.value, f.message.value)
    ensures r.Failure? ==> r.error != [] && forall i :: 0 <= i < |r.error| ==> r.error[i].path in ContactPaths
  {
    var issues := ContactIssues(f, isEmail);
    if issues == [] then
      Success(InsertContactMessage(f.name.value, f.email.value, f.subject.value, f.message.value))
    else
      Failure(issues)
  }

  function DonorIssues(f: DonorForm, isEmail: string -> bool): seq<Issue>
  {
    TextIssues("name", f.name, 1) + EmailIssues("email", f.email, isEmail)
    + TextIssues("phone", f.phone, 5) + TextIssues("bloodType", f.bloodType, 1)
    + PositiveIntegerIssues("age", f.age) + TextIssues("address", f.address, 1)
  }

  /**
   * The donor schema: accepted exactly when name, blood type and address are
   * non-empty, the phone has at least five UTF-16 code units, the email is an
   * address and the age is a positive whole number.
   */
  function ParseDonor(f: DonorForm, isEmail: string -> bool): (r: Result<InsertDonor, seq<Issue>>)
    ensures r.Success? <==>
              && f.name.Some? && |f.name.value| >= 1
              && f.email.Some? && isEmail(f.email.value)
              && f.phone.Some? && Utf16Length(f.phone.value) >= 5
              && f.bloodType.Some? && |f.bloodType.value| >= 1
              && f.age.Some? && IsInteger(f.age.value) && f.age.value > 0.0
              && f.address.Some? && |f.address.value| >= 1
    ensures r.Success? ==>
              r.value == InsertDonor(f.name.value, f.email.value, f.phone.value,
                                     f.bloodType.value, f.age.value, f.address.value)
    ensures r.Failure? ==> r.error != [] && forall i :: 0 <= i < |r.error| ==> r.error[i].path in DonorPaths
  {
    var issues := DonorIssues(f, isEmail);
    if issues == [] then
      Success(InsertDonor(f.name.value, f.email.value, f.phone.value,
                          f.bloodType.value, f.age.value, f.address.value))
    else
      Failure(issues)
  }

  /** A phone number shorter than five code units is refused, and the refusal names the phone. */
  lemma ShortPhoneRejected(f: DonorForm, isEmail: string -> bool)
    requires f.phone.Some? && Utf16Length(f.phone.value) < 5
    ensures ParseDonor(f, isEmail).Failure?
    ensures Issue("phone", TooShort(5)) in ParseDonor(f, isEmail).error
  {
    var prefix := TextIssues("name", f.name, 1) + EmailIssues("email", f.email, isEmail);
    var issues := DonorIssues(f, isEmail);
    assert issues[|prefix|] == Issue("phone", TooShort(5));
  }

  /**
   * Three characters from outside the Basic Multilingual Plane are six code
   * units, so they pass the phone's minimum length although they are only
   * three characters.
   */
  lemma AstralPhoneAccepted()
    ensures var phone := "\U{1F4DE}\U{1F4DE}\U{1F4DE}";
            |phone| == 3 && TextIssues("phone", Some(phone), 5) == []
  {
    var phone := "\U{1F4DE}\U{1F4DE}\U{1F4DE}";
    assert phone[1..][1..][1..] == [];
  }

  /** An age of zero (or below) is refused as not positive. */
  lemma NonPositiveAgeRejected(f: DonorForm, isEmail: string -> bool)
    requires f.age.Some? && f.age.value <= 0.0
    ensures ParseDonor(f, isEmail).Failure?
    ensures Issue("age", NotPositive) in ParseDonor(f, isEmail).error
  {
    var issues := DonorIssues(f, isEmail);
    var ageIssues := PositiveIntegerIssues("age", f.age);
    var prefix := TextIssues("name", f.name, 1) + EmailIssues("email", f.email, isEmail)
                  + TextIssues("phone", f.phone, 5) + TextIssues("bloodType", f.bloodType, 1);
    var k :| 0 <= k < |ageIssues| && ageIssues[k] == Issue("age", NotPositive);
    assert issues[|prefix| + k] == Issue("age", NotPositive);
  }

  /** An age with a fraction is refused as not a whole number, even when positive. */
  lemma FractionalAgeRejected(f: DonorForm, isEmail: string -> bool)
    requires f.age.Some? && !IsInteger(f.age.value)
    ensures ParseDonor(f, isEmail).Failure?
    ensures Issue("age", NotInteger) in ParseDonor(f, isEmail).error
  {
    var issues := DonorIssues(f, isEmail);
    var prefix := TextIssues("name", f.name, 1) + EmailIssues("email", f.email, isEmail)
                  + TextIssues("phone", f.phone, 5) + TextIssues("bloodType", f.bloodType, 1);
    assert issues[|prefix|] == Issue("age", NotInteger);
  }

  /** The blood type is only checked for being non-empty: any non-empty text passes. */
  lemma AnyBloodTypeAccepted(f: DonorForm, isEmail: string -> bool, bloodType: string)
    requires ParseDonor(f, isEmail).Success? && bloodType != ""
    ensures ParseDonor(f.(bloodType := Some(bloodType)), isEmail).Success?
    ensures ParseDonor(f.(bloodType := Some(bloodType)), isEmail).value.bloodType == bloodType
  {
  }
}
