/**
 * The `useForm` hook: one form instance's field values, error map and
 * `isSubmitting` flag, with `handleChange`, `handleSubmit` and `resetForm`.
 *
 * `handleSubmit` awaits the injected `onSubmit` callback. Its synchronous part
 * (validate, store the errors, and on an empty map set `isSubmitting` and call
 * `onSubmit`) is `HandleSubmit`; what runs when the awaited promise settles
 * (reset on resolve, log on reject, clear `isSubmitting` in `finally`) is
 * `Settle`. `outstanding` counts the calls to `onSubmit` whose promise has not
 * settled yet: the hook itself has no guard against a second submit.
 */
module UseForm {
  import opened Validation

  class FormStore {
    var values: ContactFormData
    var errors: FormErrors
    var isSubmitting: bool
    var outstanding: nat

    /** `isSubmitting` is only ever set while some call is outstanding. */
    ghost predicate Valid()
      reads this
    {
      isSubmitting ==> outstanding > 0
    }

    /** The hook's initial state. */
    constructor ()
      ensures Valid()
      ensures values == InitialValues && errors == map[] && !isSubmitting && outstanding == 0
    {
      values := InitialValues;
      errors := map[];
      isSubmitting := false;
      outstanding := 0;
    }

    /** `handleChange`: the field takes the typed value, the others keep
        theirs; the field's error, if it has a key, is "" afterwards (a shown
        message is blanked, the key is never deleted), and every other entry
        is left as it was. */
    method HandleChange(f: Field, value: string)
      requires Valid()
      modifies this
      ensures Valid()
      ensures values.Get(f) == value
      ensures forall g :: g != f ==> values.Get(g) == old(values).Get(g)
      ensures errors.Keys == old(errors).Keys
      ensures f in errors ==> errors[f] == ""
      ensures forall g :: g != f && g in errors ==> errors[g] == old(errors)[g]
      ensures isSubmitting == old(isSubmitting) && outstanding == old(outstanding)
    {
      values := values.With(f, value);
      if f in errors && errors[f] != "" {
        errors := errors[f := ""];
      }
    }

    /** The synchronous part of `handleSubmit`: the errors are always replaced
        by the validation of the current values; `onSubmit` is called with
        those values, exactly once, if and only if that validation is empty,
        and then `isSubmitting` is set and the call is outstanding. */
    method HandleSubmit() returns (submitted: Option<ContactFormData>)
      requires Valid()
      modifies this
      ensures Valid()
      ensures errors == Validate(old(values)) && values == old(values)
      ensures submitted.Some? <==> Validate(old(values)) == map[]
      ensures submitted.Some? ==> submitted.value == old(values)
      ensures isSubmitting == (old(isSubmitting) || submitted.Some?)
      ensures outstanding == old(outstanding) + (if submitted.Some? then 1 else 0)
    {
      var validationErrors := Validate(values);
      errors := validationErrors;
      if validationErrors == map[] {
        isSubmitting := true;
        submitted := Some(values);
        outstanding := outstanding + 1;
      } else {
        submitted := None;
      }
    }

    /** The rest of `handleSubmit`, run when one outstanding `onSubmit` promise
        settles: on resolve the form is reset, on reject values and errors are
        kept (the failure is only logged); either way `isSubmitting` ends up
        false. */
    method Settle(resolved: bool)
      requires Valid() && outstanding > 0
      modifies this
      ensures Valid()
      ensures resolved ==> values == InitialValues && errors == map[]
      ensures !resolved ==> values == old(values) && errors == old(errors)
      ensures !isSubmitting && outstanding == old(outstanding) - 1
    {
      if resolved {
        ResetForm();
      }
      isSubmitting := false;
      outstanding := outstanding - 1;
    }

    /** `resetForm`: back to the initial values, no errors, not submitting,
        whatever the state was before — so a second reset changes nothing. */
    method ResetForm()
      requires Valid()
      modifies this
      ensures Valid()
      ensures values == InitialValues && errors == map[] && !isSubmitting
      ensures outstanding == old(outstanding)
    {
      values := InitialValues;
      errors := map[];
      isSubmitting := false;
    }
  }

  /** Fills every field of a fresh form with the values of the hook's
      submission tests. */
  method FillValid(form: FormStore)
    requires form.Valid() && form.values == InitialValues && form.errors == map[]
    modifies form
    ensures form.Valid()
    ensures form.values == ContactFormData("John Doe", "john@example.com", "Test Subject", "This is a valid test message.")
    ensures form.errors == map[]
    ensures form.isSubmitting == old(form.isSubmitting) && form.outstanding == old(form.outstanding)
  {
    form.HandleChange(Name, "John Doe");
    form.HandleChange(Email, "john@example.com");
    form.HandleChange(Subject, "Test Subject");
    form.HandleChange(Message, "This is a valid test message.");
  }

  /** Submitting an untouched form reports every field and never calls
      `onSubmit`; typing into the name field then blanks its message to ""
      while keeping the key, even though "J" is still too short. */
  method RequiredThenTyping() returns (submitted: Option<ContactFormData>, before: FormErrors, after: FormErrors)
    ensures submitted == None
    ensures before == map[Name := NameRequired, Email := EmailRequired, Subject := SubjectRequired, Message := MessageRequired]
    ensures after == before[Name := ""]
  {
    var form := new FormStore();
    submitted := form.HandleSubmit();
    ValidateInitialValues();
    before := form.errors;
    form.HandleChange(Name, "J");
    after := form.errors;
  }

  /** With valid values `onSubmit` receives them; a resolved call resets the
      form, a rejected one keeps the values. */
  method SubmitAndSettle(resolved: bool) returns (submitted: Option<ContactFormData>, values: ContactFormData, errors: FormErrors, submitting: bool)
    ensures submitted == Some(ContactFormData("John Doe", "john@example.com", "Test Subject", "This is a valid test message."))
    ensures values == (if resolved then InitialValues else submitted.value)
    ensures errors == map[] && !submitting
  {
    var form := new FormStore();
    FillValid(form);
    ValidateWellFormed();
    submitted := form.HandleSubmit();
    form.Settle(resolved);
    values, errors, submitting := form.values, form.errors, form.isSubmitting;
  }

  /** Nothing in the hook stops a second submit: both calls reach `onSubmit`,
      and once the first settles `isSubmitting` is false although the second
      call is still outstanding. */
  method SubmitTwice() returns (first: Option<ContactFormData>, second: Option<ContactFormData>, submitting: bool, outstanding: nat)
    ensures first.Some? && second == first
    ensures !submitting && outstanding == 1
  {
    var form := new FormStore();
    FillValid(form);
    ValidateWellFormed();
    first := form.HandleSubmit();
    second := form.HandleSubmit();
    form.Settle(true);
    submitting, outstanding := form.isSubmitting, form.outstanding;
  }
}
