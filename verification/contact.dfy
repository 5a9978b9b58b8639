/** The contact form: its fields, the edit handler, and the submit handler
    that checks the required fields and the e-mail, stores the message and
    clears the form. */
module Contact {
  import opened JsText
  import opened EmailRegex

  datatype ContactForm = ContactForm(
    name: string,
    email: string,
    company: string,
    subject: string,
    message: string,
    priority: string)

  /** The state the page starts in and returns to after a message is sent. */
  const InitialForm: ContactForm := ContactForm("", "", "", "", "", "medium")

  /** The six inputs, each bound to the field of the same name. */
  datatype Field = Name | Email | Company | Subject | Message | Priority

  function Get(f: ContactForm, field: Field): string {
    match field
    case Name => f.name
    case Email => f.email
    case Company => f.company
    case Subject => f.subject
    case Message => f.message
    case Priority => f.priority
  }

  /** `handleInputChange(field, value)`: that field takes the value, the
      others keep theirs. */
  function SetField(f: ContactForm, field: Field, value: string): (r: ContactForm)
    ensures Get(r, field) == value
    ensures forall g :: g != field ==> Get(r, g) == Get(f, g)
  {
    match field
    case Name => f.(name := value)
    case Email => f.(email := value)
    case Company => f.(company := value)
    case Subject => f.(subject := value)
    case Message => f.(message := value)
    case Priority => f.(priority := value)
  }

  /** A form is determined by its six fields. */
  lemma FormExtensional(a: ContactForm, b: ContactForm)
    requires forall g :: Get(a, g) == Get(b, g)
    ensures a == b
  {
    assert Get(a, Name) == Get(b, Name) && Get(a, Email) == Get(b, Email);
    assert Get(a, Company) == Get(b, Company) && Get(a, Subject) == Get(b, Subject);
    assert Get(a, Message) == Get(b, Message) && Get(a, Priority) == Get(b, Priority);
  }

  /** Writing a field back with the value it already has changes nothing,
      and a later write to the same field overrides an earlier one. */
  lemma SetFieldLaws(f: ContactForm, field: Field, v: string, w: string)
    ensures SetField(f, field, Get(f, field)) == f
    ensures SetField(SetField(f, field, v), field, w) == SetField(f, field, w)
  {
    FormExtensional(SetField(f, field, Get(f, field)), f);
    FormExtensional(SetField(SetField(f, field, v), field, w), SetField(f, field, w));
  }

  /** The stored document: the form's fields plus status and source. The
      submission time is not modelled. */
  datatype ContactRecord = ContactRecord(form: ContactForm, status: string, source: string)

  datatype SubmitOutcome = MissingRequired | InvalidEmail | Sent | SendFailed

  /** After the handler: the outcome, the form, the `contacts` collection,
      and the `isSubmitting` flag. */
  datatype SubmitStep = SubmitStep(
    outcome: SubmitOutcome,
    form: ContactForm,
    contacts: seq<ContactRecord>,
    isSubmitting: bool)

  /** Name, e-mail and message must hold something other than whitespace. */
  predicate RequiredFilled(f: ContactForm) {
    Trim(f.name) != [] && Trim(f.email) != [] && Trim(f.message) != []
  }

  /** `handleSubmit`. `writeOk` stands for `addDoc` resolving rather than
      throwing. The e-mail is tested as typed; only the blank check trims. */
  function HandleSubmit(f: ContactForm, contacts: seq<ContactRecord>, writeOk: bool): (r: SubmitStep)
    ensures r.outcome == MissingRequired <==>
      AllWhitespace(f.name) || AllWhitespace(f.email) || AllWhitespace(f.message)
    ensures r.outcome == InvalidEmail <==> RequiredFilled(f) && !MatchesPattern(f.email)
    ensures r.outcome == Sent <==> RequiredFilled(f) && MatchesPattern(f.email) && writeOk
    ensures r.outcome == Sent ==>
      && r.contacts == contacts + [ContactRecord(f, "new", "contact_page")]
      && r.form == InitialForm
    ensures r.outcome != Sent ==> r.contacts == contacts && r.form == f
    ensures !r.isSubmitting
  {
    TrimEmptyIffBlank(f.name);
    TrimEmptyIffBlank(f.email);
    TrimEmptyIffBlank(f.message);
    IsValidEmailIffPattern(f.email);
    if !RequiredFilled(f) then SubmitStep(MissingRequired, f, contacts, false)
    else if !IsValidEmail(f.email) then SubmitStep(InvalidEmail, f, contacts, false)
    else if !writeOk then SubmitStep(SendFailed, f, contacts, false)
    else SubmitStep(Sent, InitialForm, contacts + [ContactRecord(f, "new", "contact_page")], false)
  }

  /** Company, subject and priority never decide whether a message is sent. */
  lemma OptionalFieldsIgnored(f: ContactForm, company: string, subject: string, priority: string,
                              contacts: seq<ContactRecord>, writeOk: bool)
    ensures HandleSubmit(f.(company := company, subject := subject, priority := priority), contacts, writeOk).outcome
         == HandleSubmit(f, contacts, writeOk).outcome
  {
  }

  /** An address typed with a space around it passes the blank check but is
      refused as invalid, and nothing is stored. */
  lemma PaddedEmailRefused(f: ContactForm, contacts: seq<ContactRecord>, writeOk: bool)
    requires RequiredFilled(f)
    requires |f.email| > 0 && (IsWhitespace(f.email[0]) || IsWhitespace(f.email[|f.email| - 1]))
    ensures HandleSubmit(f, contacts, writeOk).outcome == InvalidEmail
    ensures HandleSubmit(f, contacts, writeOk).contacts == contacts
  {
    SurroundingWhitespaceRejected(f.email);
    IsValidEmailIffPattern(f.email);
  }

  /** A sent message leaves a form that would be refused as it stands: the
      cleared form has blank required fields. */
  lemma ResubmitAfterSendRefused(f: ContactForm, contacts: seq<ContactRecord>, ok1: bool, ok2: bool)
    requires HandleSubmit(f, contacts, ok1).outcome == Sent
    ensures
      var s := HandleSubmit(f, contacts, ok1);
      HandleSubmit(s.form, s.contacts, ok2) == SubmitStep(MissingRequired, InitialForm, s.contacts, false)
  {
  }

  /** Every stored record's address matches the pattern and its required
      fields are filled, whatever sequence of submissions led to it. */
  ghost predicate AllStoredValid(contacts: seq<ContactRecord>) {
    forall i :: 0 <= i < |contacts| ==>
      RequiredFilled(contacts[i].form) && MatchesPattern(contacts[i].form.email)
      && contacts[i].status == "new" && contacts[i].source == "contact_page"
  }

  lemma SubmitKeepsStoredValid(f: ContactForm, contacts: seq<ContactRecord>, writeOk: bool)
    requires AllStoredValid(contacts)
    ensures AllStoredValid(HandleSubmit(f, contacts, writeOk).contacts)
  {
    var r := HandleSubmit(f, contacts, writeOk);
    if r.outcome == Sent {
      assert forall i :: 0 <= i < |contacts| ==> r.contacts[i] == contacts[i];
    }
  }
}
