/**
 * The contact form component: it owns a `useForm` instance whose `onSubmit`
 * is `handleFormSubmit`, and a `submitStatus` of 'idle', 'success' or 'error'
 * that drives the banners. When the simulated call inside `handleFormSubmit`
 * finishes, the status becomes 'success' (or 'error' in the catch branch) and
 * a 5000 ms timer is scheduled that sets it back to 'idle'. Timers are never
 * cancelled. `handleFormSubmit` catches everything, so the promise the hook
 * awaits always resolves.
 *
 * Time is an explicit clock in milliseconds; `timers` holds the due times of
 * the scheduled returns to 'idle', in the order they were scheduled. The
 * events are: typing into a field, clicking the submit button, the simulated
 * call finishing, time passing, and the earliest timer firing.
 */
module ContactFormComponent {
  import opened Validation
  import opened UseForm
  import opened JsText

  datatype SubmitStatus = Idle | Success | Error

  /** Delay before a banner is reset to 'idle'. */
  const ResetDelay: nat := 5000

  const SendingLabel := "Sending..."
  const SendLabel := "Send Message"

  /** The timer due times are in scheduling order, none is overdue, and none
      is more than one delay away. */
  ghost predicate TimersWellFormed(timers: seq<int>, now: int) {
    && (forall i, j :: 0 <= i < j < |timers| ==> timers[i] <= timers[j])
    && (forall i :: 0 <= i < |timers| ==> now <= timers[i] <= now + ResetDelay)
  }

  class ContactForm {
    const form: FormStore
    var submitStatus: SubmitStatus
    var now: int
    var timers: seq<int>

    /** Only the button can submit and it is disabled while submitting, so at
        most one call is in flight, exactly while `isSubmitting`; a banner is
        always followed by a pending timer. */
    ghost predicate Valid()
      reads this, form
    {
      && form.Valid()
      && form.outstanding <= 1
      && (form.isSubmitting <==> form.outstanding == 1)
      && TimersWellFormed(timers, now)
      && (submitStatus != Idle ==> timers != [])
    }

    constructor ()
      ensures Valid() && fresh(form)
      ensures submitStatus == Idle && timers == [] && now == 0
      ensures form.values == InitialValues && form.errors == map[] && !form.isSubmitting
    {
      form := new FormStore();
      submitStatus := Idle;
      now := 0;
      timers := [];
    }

    /** The submit button is disabled exactly while submitting. */
    function ButtonDisabled(): (disabled: bool)
      reads this, form
      requires Valid()
      ensures disabled <==> form.outstanding == 1
    {
      form.isSubmitting
    }

    /** The button reads "Sending..." exactly while a call is in flight,
        which is when it is disabled, and "Send Message" otherwise. */
    function ButtonLabel(): (caption: string)
      reads this, form
      requires Valid()
      ensures caption == SendingLabel || caption == SendLabel
      ensures caption == SendingLabel <==> form.outstanding == 1
      ensures caption == SendingLabel <==> ButtonDisabled()
    {
      if form.isSubmitting then SendingLabel else SendLabel
    }

    /** The success banner shows exactly in status 'success', and while it
        shows a return to 'idle' is pending at most 5000 ms away. */
    function SuccessBannerShown(): (shown: bool)
      reads this, form
      requires Valid()
      ensures shown <==> submitStatus == Success
      ensures shown ==> timers != [] && now <= timers[0] <= now + ResetDelay
    {
      submitStatus == Success
    }

    /** The error banner shows exactly in status 'error', and while it shows
        a return to 'idle' is pending at most 5000 ms away. */
    function ErrorBannerShown(): (shown: bool)
      reads this, form
      requires Valid()
      ensures shown <==> submitStatus == Error
      ensures shown ==> timers != [] && now <= timers[0] <= now + ResetDelay
    {
      submitStatus == Error
    }

    /** The message rendered under a field: only a non-empty entry shows, so a
        field blanked by typing shows nothing. */
    function ShownError(f: Field): (shown: Option<string>)
      reads this, form
      ensures shown.Some? <==> f in form.errors && form.errors[f] != ""
      ensures shown.Some? ==> shown.value == form.errors[f]
    {
      if f in form.errors && form.errors[f] != "" then Some(form.errors[f]) else None
    }

    /** Typing into a field goes to the hook's `handleChange`; the inputs stay
        enabled while submitting. */
    method Type(f: Field, value: string)
      requires Valid()
      modifies form
      ensures Valid()
      ensures form.values.Get(f) == value
      ensures forall g :: g != f ==> form.values.Get(g) == old(form.values).Get(g)
      ensures form.errors.Keys == old(form.errors).Keys
      ensures f in form.errors ==> form.errors[f] == ""
      ensures forall g :: g != f && g in form.errors ==> form.errors[g] == old(form.errors)[g]
      ensures form.isSubmitting == old(form.isSubmitting) && form.outstanding == old(form.outstanding)
    {
      form.HandleChange(f, value);
    }

    /** A click on the submit button: ignored while the button is disabled;
        otherwise the hook's `handleSubmit` runs, starting the simulated call
        when the values validate. The banner is left as it is. */
    method ClickSubmit() returns (sent: Option<ContactFormData>)
      requires Valid()
      modifies form
      ensures Valid()
      ensures old(form.isSubmitting) ==>
                && sent == None && form.values == old(form.values) && form.errors == old(form.errors)
                && form.isSubmitting && form.outstanding == old(form.outstanding)
      ensures !old(form.isSubmitting) ==>
                && form.errors == Validate(old(form.values)) && form.values == old(form.values)
                && (sent.Some? <==> Validate(old(form.values)) == map[])
                && (sent.Some? ==> sent.value == old(form.values))
                && (form.isSubmitting <==> sent.Some?)
                && (forall f :: ShownError(f).Some? <==> !Acceptable(f, old(form.values).Get(f)))
      ensures submitStatus == old(submitStatus) && timers == old(timers) && now == old(now)
    {
      if form.isSubmitting {
        sent := None;
      } else {
        sent := form.HandleSubmit();
        forall f ensures ShownError(f).Some? <==> !Acceptable(f, old(form.values).Get(f)) {
          ShownErrorAfterValidation(this, old(form.values), f);
        }
      }
    }

    /** The simulated call in `handleFormSubmit` finishes — normally, or by
        throwing into its catch branch. The status becomes 'success' or
        'error' and one more timer is scheduled a full delay from now; no
        pending timer is touched. `handleFormSubmit` then returns normally, so
        the hook takes its success path in both cases: the form is reset even
        when the banner says the message was not sent. */
    method CallCompletes(succeeded: bool)
      requires Valid() && form.isSubmitting
      modifies this, form
      ensures Valid()
      ensures submitStatus == (if succeeded then Success else Error)
      ensures timers == old(timers) + [old(now) + ResetDelay] && now == old(now)
      ensures form.values == InitialValues && form.errors == map[]
      ensures !form.isSubmitting && form.outstanding == 0
    {
      submitStatus := if succeeded then Success else Error;
      timers := timers + [now + ResetDelay];
      form.Settle(true);
    }

    /** Time passes; the event loop fires a timer when it falls due, so time
        cannot pass the earliest pending one. */
    method Wait(dt: nat)
      requires Valid() && (timers == [] || now + dt <= timers[0])
      modifies this
      ensures Valid()
      ensures now == old(now) + dt
      ensures submitStatus == old(submitStatus) && timers == old(timers)
    {
      now := now + dt;
    }

    /** The earliest pending timer fires at its due time and sets the status
        back to 'idle', whatever the status and whichever completion
        scheduled it. */
    method FireTimer()
      requires Valid() && timers != []
      modifies this
      ensures Valid()
      ensures now == old(timers)[0] && timers == old(timers)[1..]
      ensures submitStatus == Idle
    {
      now := timers[0];
      timers := timers[1..];
      submitStatus := Idle;
    }

    /** When a banner is up, the moment it goes: the earliest pending timer,
        which `FireTimer` fires next. It is at most one delay away, so no
        banner stays longer than 5000 ms, though it may go sooner. */
    function NextClear(): (t: int)
      reads this, form
      requires Valid() && submitStatus != Idle
      ensures t in timers && forall i :: 0 <= i < |timers| ==> t <= timers[i]
      ensures now <= t <= now + ResetDelay
    {
      timers[0]
    }
  }

  /** Once the errors are a validation of `values`, a field shows a message
      exactly when its value is not acceptable: the "required" message for a
      blank value, the length or format message otherwise. */
  lemma ShownErrorAfterValidation(cf: ContactForm, values: ContactFormData, f: Field)
    requires cf.form.errors == Validate(values)
    ensures cf.ShownError(f).Some? <==> !Acceptable(f, values.Get(f))
    ensures AllWhitespace(values.Get(f)) ==> cf.ShownError(f) == Some(RequiredMessage(f))
    ensures cf.ShownError(f).Some? && !AllWhitespace(values.Get(f)) ==> cf.ShownError(f) == Some(RuleMessage(f))
  {
    ValidateField(values, f);
  }

  /** The values the submission scenarios type in. */
  const FilledIn := ContactFormData("John Doe", "john@example.com", "Test Subject", "This is a valid test message.")

  /** Types `d` into the four fields, one after the other. */
  method FillFields(cf: ContactForm, d: ContactFormData)
    requires cf.Valid()
    modifies cf.form
    ensures cf.Valid()
    ensures cf.form.values == d
    ensures cf.form.errors.Keys == old(cf.form.errors).Keys
    ensures forall f :: f in cf.form.errors ==> cf.form.errors[f] == ""
    ensures cf.form.isSubmitting == old(cf.form.isSubmitting)
  {
    cf.Type(Name, d.name);
    cf.Type(Email, d.email);
    cf.Type(Subject, d.subject);
    cf.Type(Message, d.message);
    assert cf.form.values.Get(Name) == d.name && cf.form.values.Get(Email) == d.email;
    assert cf.form.values.Get(Subject) == d.subject && cf.form.values.Get(Message) == d.message;
  }

  /** A click on the idle button with values that validate, followed by a
      successful call: the success banner shows and one more timer is due a
      delay from now. */
  method SendSuccessfully(cf: ContactForm)
    requires cf.Valid() && !cf.form.isSubmitting && Validate(cf.form.values) == map[]
    modifies cf, cf.form
    ensures cf.Valid() && !cf.form.isSubmitting
    ensures cf.submitStatus == Success && cf.now == old(cf.now)
    ensures cf.timers == old(cf.timers) + [old(cf.now) + ResetDelay]
  {
    var sent := cf.ClickSubmit();
    assert cf.form.isSubmitting;
    cf.CallCompletes(true);
  }

  /** Submitting an untouched form: nothing is sent, every field shows its
      "required" message, no banner appears and the button still reads "Send
      Message"; typing into the name field then hides its message. */
  method SubmitEmpty() returns (sent: Option<ContactFormData>, shown: seq<Option<string>>, caption: string, banner: bool, nameAfterTyping: Option<string>)
    ensures sent == None
    ensures shown == [Some(NameRequired), Some(EmailRequired), Some(SubjectRequired), Some(MessageRequired)]
    ensures caption == SendLabel && !banner
    ensures nameAfterTyping == None
  {
    var cf := new ContactForm();
    sent := cf.ClickSubmit();
    ValidateInitialValues();
    shown := [cf.ShownError(Name), cf.ShownError(Email), cf.ShownError(Subject), cf.ShownError(Message)];
    caption := cf.ButtonLabel();
    banner := cf.SuccessBannerShown() || cf.ErrorBannerShown();
    cf.Type(Name, "John");
    nameAfterTyping := cf.ShownError(Name);
  }

  /** Valid values are sent; while the call runs the button reads
      "Sending..." and a second click is ignored; when the call succeeds the
      success banner shows and the form is cleared; 5000 ms later the banner
      is gone. */
  method SubmitSucceeds() returns (sent: Option<ContactFormData>, labelWhileSending: string, secondClick: Option<ContactFormData>,
                                   success: bool, valuesAfter: ContactFormData, successLater: bool, labelLater: string)
    ensures sent == Some(FilledIn)
    ensures labelWhileSending == SendingLabel && secondClick == None
    ensures success && valuesAfter == InitialValues
    ensures !successLater && labelLater == SendLabel
  {
    var cf := new ContactForm();
    FillFields(cf, FilledIn);
    ValidateWellFormed();
    sent := cf.ClickSubmit();
    labelWhileSending := cf.ButtonLabel();
    secondClick := cf.ClickSubmit();
    cf.CallCompletes(true);
    success := cf.SuccessBannerShown();
    valuesAfter := cf.form.values;
    cf.Wait(ResetDelay);
    cf.FireTimer();
    successLater := cf.SuccessBannerShown();
    labelLater := cf.ButtonLabel();
  }

  /** The catch branch of `handleFormSubmit` swallows the failure, so the
      hook still resets the form: the error banner says the message was not
      sent while every field has already been emptied. */
  method SubmitFails() returns (errorShown: bool, valuesAfter: ContactFormData)
    ensures errorShown && valuesAfter == InitialValues
  {
    var cf := new ContactForm();
    FillFields(cf, FilledIn);
    ValidateWellFormed();
    var sent := cf.ClickSubmit();
    cf.CallCompletes(false);
    errorShown := cf.ErrorBannerShown();
    valuesAfter := cf.form.values;
  }

  /** Timers are never cancelled: after a success at 0 ms and another at
      2500 ms, the first timer clears the second banner at 5000 ms, only
      2500 ms after it appeared, and the second timer is still pending. */
  method SecondBannerClearedEarly() returns (shownAt: int, clearedAt: int, stillShown: bool, pending: seq<int>)
    ensures shownAt == 2500 && clearedAt == 5000
    ensures !stillShown && pending == [7500]
  {
    var cf := new ContactForm();
    ValidateWellFormed();
    FillFields(cf, FilledIn);
    SendSuccessfully(cf);
    cf.Wait(2500);
    FillFields(cf, FilledIn);
    SendSuccessfully(cf);
    shownAt := cf.now;
    cf.Wait(2500);
    cf.FireTimer();
    clearedAt := cf.now;
    stillShown := cf.SuccessBannerShown();
    pending := cf.timers;
  }
}
