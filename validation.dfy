/**
 * The contact form's validator: the four-field record the form edits, the
 * error map it displays, the e-mail pattern `^[^\s@]+@[^\s@]+\.[^\s@]+$`, and
 * `validate`, which checks every field independently — first that its trimmed
 * value is not empty, then a minimum trimmed length (name, subject, message)
 * or the e-mail pattern on the untrimmed value (email).
 */
module Validation {
  import opened JsText

  datatype Option<T> = None | Some(value: T)

  /** The declared fields of the contact form. */
  datatype Field = Name | Email | Subject | Message

  const AllFields: set<Field> := {Name, Email, Subject, Message}

  /** The values of the four inputs. */
  datatype ContactFormData = ContactFormData(name: string, email: string, subject: string, message: string)
  {
    function Get(f: Field): string {
      match f
      case Name => name
      case Email => email
      case Subject => subject
      case Message => message
    }

    /** The record with field `f` replaced by `v`. */
    function With(f: Field, v: string): (d: ContactFormData)
      ensures d.Get(f) == v
      ensures forall g :: g != f ==> d.Get(g) == Get(g)
    {
      match f
      case Name => this.(name := v)
      case Email => this.(email := v)
      case Subject => this.(subject := v)
      case Message => this.(message := v)
    }
  }

  /** Error message per field; a field without an error has no entry. The
      form itself may later store "" under a key (see the hook). */
  type FormErrors = map<Field, string>

  const InitialValues: ContactFormData := ContactFormData("", "", "", "")

  const NameRequired := "Name is required"
  const NameTooShort := "Name must be at least 2 characters"
  const EmailRequired := "Email is required"
  const EmailInvalid := "Please enter a valid email address"
  const SubjectRequired := "Subject is required"
  const SubjectTooShort := "Subject must be at least 3 characters"
  const MessageRequired := "Message is required"
  const MessageTooShort := "Message must be at least 10 characters"

  // ---------------------------------------------------------------------
  // The e-mail pattern

  /** One `[^\s@]+` run of the pattern. */
  predicate PlainRun(r: string) {
    |r| > 0 && forall k :: 0 <= k < |r| ==> !IsWhitespace(r[k]) && r[k] != '@'
  }

  /** The string matches `^[^\s@]+@[^\s@]+\.[^\s@]+$` as a whole. */
  ghost predicate MatchesEmailPattern(s: string) {
    exists a, b, c :: PlainRun(a) && PlainRun(b) && PlainRun(c) && s == a + "@" + b + "." + c
  }

  /** `validateEmail`: no whitespace anywhere, a single '@' that is not the
      first character, and a '.' after it with at least one character on
      either side. */
  predicate ValidateEmail(email: string) {
    && (forall k | 0 <= k < |email| :: !IsWhitespace(email[k]))
    && exists i | 0 < i < |email| ::
         && email[i] == '@'
         && (forall k | 0 <= k < |email| && k != i :: email[k] != '@')
         && (exists j | i + 1 < j < |email| - 1 :: email[j] == '.')
  }

  lemma EmailPatternFromSplit(s: string, i: int, j: int)
    requires 0 < i && i + 1 < j < |s| - 1 && s[i] == '@' && s[j] == '.'
    requires forall k :: 0 <= k < |s| ==> !IsWhitespace(s[k])
    requires forall k :: 0 <= k < |s| && k != i ==> s[k] != '@'
    ensures MatchesEmailPattern(s)
  {
    var a, b, c := s[..i], s[i + 1..j], s[j + 1..];
    assert PlainRun(a) && PlainRun(b) && PlainRun(c);
    assert s == a + "@" + b + "." + c;
  }

  lemma SplitFromEmailPattern(s: string) returns (i: int, j: int)
    requires MatchesEmailPattern(s)
    ensures 0 < i && i + 1 < j < |s| - 1 && s[i] == '@' && s[j] == '.'
    ensures forall k :: 0 <= k < |s| ==> !IsWhitespace(s[k])
    ensures forall k :: 0 <= k < |s| && k != i ==> s[k] != '@'
  {
    var a, b, c :| PlainRun(a) && PlainRun(b) && PlainRun(c) && s == a + "@" + b + "." + c;
    i, j := |a|, |a| + 1 + |b|;
    forall k | 0 <= k < |s|
      ensures !IsWhitespace(s[k]) && (k != i ==> s[k] != '@')
    {
      if k < i {
        assert s[k] == a[k];
      } else if i < k < j {
        assert s[k] == b[k - i - 1];
      } else if j < k {
        assert s[k] == c[k - j - 1];
      }
    }
  }

  /** `validateEmail` accepts exactly the strings the regular expression
      matches. */
  lemma ValidateEmailMatchesPattern(email: string)
    ensures ValidateEmail(email) <==> MatchesEmailPattern(email)
  {
    if ValidateEmail(email) {
      var i :| 0 < i < |email| && email[i] == '@'
               && (forall k | 0 <= k < |email| && k != i :: email[k] != '@')
               && (exists j | i + 1 < j < |email| - 1 :: email[j] == '.');
      var j :| i + 1 < j < |email| - 1 && email[j] == '.';
      EmailPatternFromSplit(email, i, j);
    }
    if MatchesEmailPattern(email) {
      var i, j := SplitFromEmailPattern(email);
      assert email[j] == '.';
    }
  }

  // ---------------------------------------------------------------------
  // Per-field checks and `validate`

  function NameError(name: string): Option<string> {
    if Trim(name) == "" then Some(NameRequired)
    else if Utf16Length(Trim(name)) < 2 then Some(NameTooShort)
    else None
  }

  function EmailError(email: string): Option<string> {
    if Trim(email) == "" then Some(EmailRequired)
    else if !ValidateEmail(email) then Some(EmailInvalid)
    else None
  }

  function SubjectError(subject: string): Option<string> {
    if Trim(subject) == "" then Some(SubjectRequired)
    else if Utf16Length(Trim(subject)) < 3 then Some(SubjectTooShort)
    else None
  }

  function MessageError(message: string): Option<string> {
    if Trim(message) == "" then Some(MessageRequired)
    else if Utf16Length(Trim(message)) < 10 then Some(MessageTooShort)
    else None
  }

  function FieldError(f: Field, value: string): Option<string> {
    match f
    case Name => NameError(value)
    case Email => EmailError(value)
    case Subject => SubjectError(value)
    case Message => MessageError(value)
  }

  // ---------------------------------------------------------------------
  // What each field's rule accepts, stated through whitespace, the e-mail
  // pattern's language and the trimmed length rather than through the checks

  function MinLength(f: Field): nat {
    match f
    case Name => 2
    case Email => 0
    case Subject => 3
    case Message => 10
  }

  function RequiredMessage(f: Field): string {
    match f
    case Name => NameRequired
    case Email => EmailRequired
    case Subject => SubjectRequired
    case Message => MessageRequired
  }

  /** The message for a non-blank value that breaks its field's rule. */
  function RuleMessage(f: Field): string {
    match f
    case Name => NameTooShort
    case Email => EmailInvalid
    case Subject => SubjectTooShort
    case Message => MessageTooShort
  }

  /** A value that passes its field's checks. */
  ghost predicate Acceptable(f: Field, value: string) {
    && !AllWhitespace(value)
    && (if f == Email then MatchesEmailPattern(value) else Utf16Length(Trim(value)) >= MinLength(f))
  }

  /** Adds the entry for `f` when its check reported a message. */
  function Record(errors: FormErrors, f: Field, e: Option<string>): FormErrors {
    if e.Some? then errors[f := e.value] else errors
  }

  /** The error map that the four checks' outcomes, taken in order, build. */
  function Collect(name: Option<string>, email: Option<string>, subject: Option<string>, message: Option<string>): FormErrors {
    var errors := Record(map[], Name, name);
    var errors := Record(errors, Email, email);
    var errors := Record(errors, Subject, subject);
    Record(errors, Message, message)
  }

  /** `validate`: the four field checks, run one after the other, each adding
      its message to the map. A field has an entry exactly when its own check
      reports a message, and the entry is that message. */
  function Validate(values: ContactFormData): (errors: FormErrors)
    ensures forall f :: f in errors <==> FieldError(f, values.Get(f)).Some?
    ensures forall f :: f in errors ==> errors[f] == FieldError(f, values.Get(f)).value
  {
    CollectEntries(values);
    Collect(NameError(values.name), EmailError(values.email), SubjectError(values.subject), MessageError(values.message))
  }

  /** The outcome, among the four, that belongs to field `f`. */
  function Pick(f: Field, name: Option<string>, email: Option<string>, subject: Option<string>, message: Option<string>): Option<string> {
    match f
    case Name => name
    case Email => email
    case Subject => subject
    case Message => message
  }

  /** Each check writes its own key and no other. */
  lemma CollectEntry(name: Option<string>, email: Option<string>, subject: Option<string>, message: Option<string>, f: Field)
    ensures f in Collect(name, email, subject, message) <==> Pick(f, name, email, subject, message).Some?
    ensures f in Collect(name, email, subject, message)
            ==> Collect(name, email, subject, message)[f] == Pick(f, name, email, subject, message).value
  {
  }

  /** Every field's entry in the map the four checks of `values` build is
      its own check's message, if any. */
  lemma CollectEntries(values: ContactFormData)
    ensures var errors := Collect(NameError(values.name), EmailError(values.email), SubjectError(values.subject), MessageError(values.message));
            && (forall f :: f in errors <==> FieldError(f, values.Get(f)).Some?)
            && (forall f :: f in errors ==> errors[f] == FieldError(f, values.Get(f)).value)
  {
    var name, email := NameError(values.name), EmailError(values.email);
    var subject, message := SubjectError(values.subject), MessageError(values.message);
    forall f
      ensures f in Collect(name, email, subject, message) <==> FieldError(f, values.Get(f)).Some?
      ensures f in Collect(name, email, subject, message)
              ==> Collect(name, email, subject, message)[f] == FieldError(f, values.Get(f)).value
    {
      CollectEntry(name, email, subject, message, f);
      assert Pick(f, name, email, subject, message) == FieldError(f, values.Get(f));
    }
  }

  /** One field's check, in terms of the field's rule: a message exactly
      when the value is not acceptable, the "required" message exactly for a
      blank value, the length or format message otherwise. */
  lemma FieldErrorMeaning(f: Field, value: string)
    ensures FieldError(f, value).Some? <==> !Acceptable(f, value)
    ensures AllWhitespace(value) ==> FieldError(f, value) == Some(RequiredMessage(f))
    ensures FieldError(f, value).Some? && !AllWhitespace(value) ==> FieldError(f, value) == Some(RuleMessage(f))
  {
    TrimEmptyIffAllWhitespace(value);
    if f == Email {
      ValidateEmailMatchesPattern(value);
    }
  }

  /** What `validate` reports for one field: an entry exactly when the value is
      not acceptable; a blank (empty or whitespace-only) value gets its
      "required" message and never the length or format message; any other
      rejected value gets its length or format message; no message is
      empty. */
  lemma ValidateField(values: ContactFormData, f: Field)
    ensures f in Validate(values) <==> !Acceptable(f, values.Get(f))
    ensures AllWhitespace(values.Get(f)) ==> f in Validate(values) && Validate(values)[f] == RequiredMessage(f)
    ensures f in Validate(values) && !AllWhitespace(values.Get(f)) ==> Validate(values)[f] == RuleMessage(f)
    ensures f in Validate(values) ==> Validate(values)[f] != ""
  {
    FieldErrorMeaning(f, values.Get(f));
  }

  /** A field's entry depends on that field's value alone. */
  lemma ValidateFieldIsLocal(v: ContactFormData, w: ContactFormData, f: Field)
    requires v.Get(f) == w.Get(f)
    ensures f in Validate(v) <==> f in Validate(w)
    ensures f in Validate(v) ==> Validate(v)[f] == Validate(w)[f]
  {
    assert FieldError(f, v.Get(f)) == FieldError(f, w.Get(f));
  }

  /** `validate` returns the empty map exactly when every field is acceptable,
      which is when the hook goes on to submit. */
  lemma ValidateEmptyIffAllAcceptable(values: ContactFormData)
    ensures Validate(values) == map[] <==> forall f :: Acceptable(f, values.Get(f))
  {
    forall f
      ensures f in Validate(values) <==> !Acceptable(f, values.Get(f))
    {
      ValidateField(values, f);
    }
    if forall f :: Acceptable(f, values.Get(f)) {
      assert Validate(values).Keys == {};
    }
  }

  /** A value with no whitespace at either end is its own trim. */
  lemma TrimmedAlready(s: string)
    requires s != [] && !IsWhitespace(s[0]) && !IsWhitespace(s[|s| - 1])
    ensures Trim(s) == s
  {
    assert LeadingWhitespace(s) == 0;
    assert TrailingWhitespace(s) == 0;
  }

  // ---------------------------------------------------------------------
  // The form's documented cases

  /** `validate` is the collection of its four checks' outcomes. */
  lemma ValidateFrom(values: ContactFormData, name: Option<string>, email: Option<string>, subject: Option<string>, message: Option<string>)
    requires NameError(values.name) == name && EmailError(values.email) == email
    requires SubjectError(values.subject) == subject && MessageError(values.message) == message
    ensures Validate(values) == Collect(name, email, subject, message)
  {
  }

  /** A non-blank name, subject or message whose trimmed value has fewer
      UTF-16 code units than the field's minimum gets the field's length
      message — whitespace around it, as in " A ", does not count. */
  lemma TooShort(f: Field, s: string)
    requires f != Email && !AllWhitespace(s)
    requires Utf16Length(Trim(s)) < MinLength(f)
    ensures FieldError(f, s) == Some(RuleMessage(f))
  {
    TrimEmptyIffAllWhitespace(s);
  }

  /** Submitting the untouched form reports every field as required. */
  lemma ValidateInitialValues()
    ensures Validate(InitialValues)
            == map[Name := NameRequired, Email := EmailRequired, Subject := SubjectRequired, Message := MessageRequired]
  {
    assert Trim("") == "";
    ValidateFrom(InitialValues, Some(NameRequired), Some(EmailRequired), Some(SubjectRequired), Some(MessageRequired));
  }

  /** One character of name, two of subject and five of message are each too
      short; the untouched email is required. */
  lemma ValidateShortValues()
    ensures Validate(ContactFormData("A", "", "AB", "Short"))
            == map[Name := NameTooShort, Email := EmailRequired, Subject := SubjectTooShort, Message := MessageTooShort]
  {
    ShortName();
    assert Trim("") == "";
    ShortSubject();
    ShortMessage();
    ValidateFrom(ContactFormData("A", "", "AB", "Short"),
      Some(NameTooShort), Some(EmailRequired), Some(SubjectTooShort), Some(MessageTooShort));
  }

  lemma ShortName()
    ensures NameError("A") == Some(NameTooShort)
  {
    TrimmedAlready("A");
    assert !IsWhitespace("A"[0]);
    TooShort(Name, "A");
  }

  lemma ShortSubject()
    ensures SubjectError("AB") == Some(SubjectTooShort)
  {
    TrimmedAlready("AB");
    assert !IsWhitespace("AB"[0]);
    TooShort(Subject, "AB");
  }

  lemma ShortMessage()
    ensures MessageError("Short") == Some(MessageTooShort)
  {
    TrimmedAlready("Short");
    assert !IsWhitespace("Short"[0]);
    TooShort(Message, "Short");
  }

  /** A complete, well-formed message yields no errors. */
  lemma ValidateWellFormed()
    ensures Validate(ContactFormData("John Doe", "john@example.com", "Test Subject", "This is a valid test message.")) == map[]
  {
    TestFieldsValid();
    WellFormedAddress();
    ValidateFrom(ContactFormData("John Doe", "john@example.com", "Test Subject", "This is a valid test message."),
      None, None, None, None);
  }

  lemma TestFieldsValid()
    ensures NameError("John Doe") == None
    ensures SubjectError("Test Subject") == None
    ensures MessageError("This is a valid test message.") == None
  {
    TrimmedAlready("John Doe");
    TrimmedAlready("Test Subject");
    TrimmedAlready("This is a valid test message.");
  }

  lemma WellFormedAddress()
    ensures EmailError("john@example.com") == None
  {
    var email := "john@example.com";
    TrimmedAlready(email);
    assert email[4] == '@' && email[12] == '.';
    assert forall k | 0 <= k < |email| && k != 4 :: email[k] != '@';
  }

  /** An address without '@' is the only error of an otherwise valid form. */
  lemma ValidateMalformedEmail()
    ensures Validate(ContactFormData("John Doe", "not-an-email", "Test Subject", "This is a valid test message."))
            == map[Email := EmailInvalid]
  {
    TestFieldsValid();
    MalformedAddress();
    ValidateFrom(ContactFormData("John Doe", "not-an-email", "Test Subject", "This is a valid test message."),
      None, Some(EmailInvalid), None, None);
  }

  /** An address without '@' typed into an otherwise untouched form gets
      the format message beside the three "required" messages. */
  lemma ValidateInvalidEmailOnly()
    ensures Validate(ContactFormData("", "invalid-email", "", ""))
            == map[Name := NameRequired, Email := EmailInvalid, Subject := SubjectRequired, Message := MessageRequired]
  {
    assert Trim("") == "";
    InvalidEmailAddress();
    ValidateFrom(ContactFormData("", "invalid-email", "", ""),
      Some(NameRequired), Some(EmailInvalid), Some(SubjectRequired), Some(MessageRequired));
  }

  lemma InvalidEmailAddress()
    ensures EmailError("invalid-email") == Some(EmailInvalid)
  {
    TrimmedAlready("invalid-email");
    assert '@' !in "invalid-email";
  }

  lemma MalformedAddress()
    ensures EmailError("not-an-email") == Some(EmailInvalid)
  {
    TrimmedAlready("not-an-email");
    assert '@' !in "not-an-email";
  }

  /** The pattern sees the untrimmed value: a non-blank address with
      whitespace anywhere in it — even leading or trailing whitespace that
      `trim` would remove, as in " john@example.com" — gets the format
      message. */
  lemma EmailWithWhitespaceIsInvalid(email: string, k: int)
    requires 0 <= k < |email| && IsWhitespace(email[k]) && !AllWhitespace(email)
    ensures EmailError(email) == Some(EmailInvalid)
  {
    TrimEmptyIffAllWhitespace(email);
  }

  /** Lengths are counted in UTF-16 code units: a name made of one character
      outside the Basic Multilingual Plane passes the two-character minimum. */
  lemma ValidateAstralName()
    ensures NameError("\U{1F600}") == None
  {
    TrimmedAlready("\U{1F600}");
    assert Utf16Length("\U{1F600}") == 2;
  }
}
