# Contact form engine

A Dafny model of the contact form of a React landing page. The model has four parts:

- **The validator.** This is `validateEmail` and `validate` in `src/hooks/useForm.ts`. The four fields `name`, `email`, `subject` and `message` are checked independently. A field whose trimmed value is empty gets its "required" message. A non-blank name, subject or message shorter than 2, 3 or 10 UTF-16 code units gets its length message. A non-blank email that the pattern `^[^\s@]+@[^\s@]+\.[^\s@]+$` rejects gets the format message.
- **The `useForm` hook.** It holds the field values, the error map and the `isSubmitting` flag. Its operations are `handleChange`, `handleSubmit` and `resetForm`.
- **The `ContactForm` component.** It has a `submitStatus` of `'idle'`, `'success'` or `'error'`, and a submit button that is disabled while submitting. When a call completes it schedules a 5000 ms timer that returns the status to `'idle'`. It renders error messages, banners and the button caption from that state.
- **The JavaScript string primitives the validator relies on.** These are `trim`, the `\s` character class and `.length`, which counts UTF-16 code units.

Modules:

- `JsText` (`js_text.dfy`) has the string primitives. `Trim` is characterised as removing the maximal whitespace prefix and suffix. Trimming gives "" exactly when the string is all whitespace. `Utf16Length` counts a character outside the Basic Multilingual Plane twice.
- `Validation` (`validation.dfy`) has the per-field checks, `Validate` and the email check.
  - `ValidateEmail` is an executable index-based check. It is proved to accept exactly the strings of the form `a@b.c` where `a`, `b` and `c` are non-empty runs without whitespace or '@'. That is the language of the regular expression.
  - `Validate` is specified against `Acceptable`, a per-field rule. `Acceptable` is stated through whitespace, the pattern's language and the trimmed length, not through the checks themselves. A field has an entry exactly when its value is not acceptable. The map is empty exactly when every field is acceptable. Each entry depends on its own field alone.
- `UseForm` (`use_form.dfy`) has the hook as the class `FormStore`. The `await` in `handleSubmit` is split in two:
  - `HandleSubmit` is the synchronous part: validate, store the errors, and call `onSubmit` when the map is empty.
  - `Settle(resolved)` is what runs when the awaited promise settles.
  
  `outstanding` counts `onSubmit` calls whose promise has not settled.
- `ContactFormComponent` (`contact_form.dfy`) has the component as the class `ContactForm`. It wraps one `FormStore` and keeps an explicit millisecond clock and the due times of the pending timers. The events are typing, clicking, the simulated call completing, time passing and a timer firing. `Valid()` is kept by every event. It says:
  - at most one call is in flight, exactly while the button is disabled;
  - timers are due in scheduling order, none is overdue, and none is more than 5000 ms away;
  - a banner is always followed by a pending timer.

Some behaviour a reader might expect of a contact form is absent from the code. The model follows the code:

- **No re-entrancy guard in the hook.** `handleSubmit` has no guard of its own. Only the disabled button stops a second submission. `UseForm.SubmitTwice` shows two calls reaching `onSubmit`.
- **Timers are never cancelled.** No new submission or other event cancels a pending return to `'idle'`. An earlier timer can clear a later banner after as little as 0 ms (`ContactFormComponent.SecondBannerClearedEarly`).
- **The form is reset on the error path too.** `handleFormSubmit` catches its own failure, so the promise the hook awaits always resolves. The hook therefore resets the form even when the error banner shows (`ContactFormComponent.SubmitFails`). The "values are kept on failure" behaviour belongs to the bare hook with a rejecting `onSubmit` (`UseForm.SubmitAndSettle`).
- **Typing blanks the error instead of deleting it.** The field's error is set to "", and the key stays. An empty message is not rendered (`ContactFormComponent.ContactForm.ShownError`).
- **No `Submitting` status.** There is no such status value. Submitting is the separate `isSubmitting` flag, and the status keeps its old value while a call is in flight.

## Model

| member | source | states |
|---|---|---|
| `JsText.TrimShape` | src/hooks/useForm.ts:28 | `trim` returns its input with a whitespace-only prefix and a whitespace-only suffix removed |
| `JsText.TrimEnds` | src/hooks/useForm.ts:28 | what `trim` returns neither starts nor ends with whitespace, so the removed prefix and suffix are maximal |
| `JsText.TrimEmptyIffAllWhitespace` | src/hooks/useForm.ts:28 | `!s.trim()` holds exactly when every character of `s` is whitespace, in both directions |
| `JsText.Utf16Length` | src/hooks/useForm.ts:30 | `.length` lies between the number of characters and twice that, and equals it when every character is in the Basic Multilingual Plane |
| `Validation.ValidateEmailMatchesPattern` | src/hooks/useForm.ts:20-23 | `validateEmail` accepts a string if and only if it is `a@b.c` with `a`, `b`, `c` non-empty and free of whitespace and '@' |
| `Validation.Validate` | src/hooks/useForm.ts:25-53 | `validate` has an entry for a field exactly when that field's own check reports a message, and the entry is that message |
| `Validation.FieldErrorMeaning` | src/hooks/useForm.ts:28-50 | one field's check reports a message exactly when the value breaks the field's rule: the "required" message for a blank value, the length or format message for any other rejected value |
| `Validation.ValidateField` | src/hooks/useForm.ts:25-53 | `validate` has an entry for a field exactly when its value is not acceptable; blank values get the "required" message and never the length or format one; no message is empty |
| `Validation.ValidateFieldIsLocal` | src/hooks/useForm.ts:25-53 | a field's entry, or its absence, depends on that field's value alone |
| `Validation.ValidateEmptyIffAllAcceptable` | src/hooks/useForm.ts:77 | the error map is empty, which is the condition for submitting, exactly when all four values are acceptable |
| `Validation.TooShort` | src/hooks/useForm.ts:28-50 | a non-blank name, subject or message whose trimmed value has fewer UTF-16 code units than 2, 3 or 10 gets the field's length message, whatever whitespace surrounds it |
| `Validation.ValidateInitialValues` | src/hooks/useForm.ts:13-18 | validating the initial, all-empty values reports all four "required" messages |
| `Validation.ValidateShortValues` | src/components/ContactForm.test.tsx:66-109 | a one-character name, two-character subject and five-character message get the length messages; the empty email gets "required" |
| `Validation.ValidateWellFormed` | src/hooks/useForm.test.ts:178-211 | the hook's valid test values produce no errors |
| `Validation.TestFieldsValid` | src/hooks/useForm.ts:28-50 | the name, subject and message of the valid test values each pass their own check |
| `Validation.WellFormedAddress` | src/hooks/useForm.ts:34-38 | "john@example.com" passes the email check |
| `Validation.ValidateMalformedEmail` | src/hooks/useForm.ts:34-38 | an address without '@' ("not-an-email") is the only error reported when the other three fields hold valid values, and it gets the format message |
| `Validation.ValidateInvalidEmailOnly` | src/components/ContactForm.test.tsx:51-64 | with only "invalid-email" typed, as in the component test, the email gets the format message and the three untouched fields get their "required" messages |
| `Validation.InvalidEmailAddress` | src/hooks/useForm.test.ts:92-109 | "invalid-email" gets the format message |
| `Validation.MalformedAddress` | src/hooks/useForm.ts:34-38 | "not-an-email" gets the format message |
| `Validation.EmailWithWhitespaceIsInvalid` | src/hooks/useForm.ts:34-38 | the pattern sees the untrimmed value: a non-blank address containing whitespace anywhere, even at an end `trim` would remove, gets the format message |
| `Validation.ValidateAstralName` | src/hooks/useForm.ts:30 | a name of one character outside the Basic Multilingual Plane passes the two-character minimum, because `.length` counts two code units |
| `UseForm.FormStore.constructor` | src/hooks/useForm.ts:58-60 | the hook starts with empty values, no errors and not submitting |
| `UseForm.FormStore.HandleChange` | src/hooks/useForm.ts:62-69 | the named field takes the value and the others keep theirs; the field's error, if it has a key, becomes "" with the key kept; every other entry and the submitting state are unchanged |
| `UseForm.FormStore.HandleSubmit` | src/hooks/useForm.ts:71-80 | the errors always become the validation of the current values; `onSubmit` receives those values, once, exactly when that validation is empty, and only then does `isSubmitting` become true |
| `UseForm.FormStore.Settle` | src/hooks/useForm.ts:79-87 | when the awaited call settles, a resolve resets values and errors, a reject keeps both, and `isSubmitting` ends up false either way |
| `UseForm.FormStore.ResetForm` | src/hooks/useForm.ts:90-94 | `resetForm` restores the initial values, empties the errors and clears `isSubmitting` whatever the prior state, so resetting twice equals resetting once |
| `UseForm.FillValid` | src/hooks/useForm.test.ts:181-195 | typing the four valid test values into a fresh form sets exactly those values and leaves no errors |
| `UseForm.RequiredThenTyping` | src/hooks/useForm.test.ts:149-176 | submitting the empty form reports all four "required" messages without calling `onSubmit`; typing "J" then blanks the name's message to "" while keeping its key, though "J" is still too short |
| `UseForm.SubmitAndSettle` | src/hooks/useForm.test.ts:252-321 | valid values reach `onSubmit` unchanged; a resolved call resets the form and a rejected one keeps the values; both end with no errors and not submitting |
| `UseForm.SubmitTwice` | src/hooks/useForm.ts:71-88 | the hook does not guard against a second submit: both reach `onSubmit`, and after the first settles `isSubmitting` is false while a call is still outstanding |
| `ContactFormComponent.ContactForm.constructor` | src/components/ContactForm.tsx:8 | the component starts idle, with no pending timer, and with a fresh hook |
| `ContactFormComponent.ContactForm.ButtonDisabled` | src/components/ContactForm.tsx:126 | the submit button is disabled exactly while a call is in flight |
| `ContactFormComponent.ContactForm.ButtonLabel` | src/components/ContactForm.tsx:126-130 | the caption is one of the two labels; it reads "Sending..." exactly while one call is in flight, which is exactly when the button is disabled |
| `ContactFormComponent.ContactForm.SuccessBannerShown` | src/components/ContactForm.tsx:102-110 | the success banner shows exactly in status 'success'; while it shows, a return to 'idle' is pending, due at most 5000 ms from now |
| `ContactFormComponent.ContactForm.ErrorBannerShown` | src/components/ContactForm.tsx:112-120 | the error banner shows exactly in status 'error'; while it shows, a return to 'idle' is pending, due at most 5000 ms from now |
| `ContactFormComponent.ShownErrorAfterValidation` | src/components/ContactForm.tsx:95-99 | once the errors are a validation of some values, a field renders a message exactly when its value is not acceptable: "required" for a blank value, the length or format message otherwise |
| `ContactFormComponent.ContactForm.Type` | src/components/ContactForm.tsx:39 | typing goes to `handleChange` with the same effect on values and errors, and leaves the invariant intact |
| `ContactFormComponent.ContactForm.ClickSubmit` | src/components/ContactForm.tsx:122-131 | a click while submitting changes nothing; otherwise it has exactly `handleSubmit`'s effect, and afterwards a field renders a message exactly when its value was not acceptable; the banner and timers are untouched |
| `ContactFormComponent.ContactForm.CallCompletes` | src/components/ContactForm.tsx:10-27 | when the call finishes, the status becomes 'success' or 'error' and one more timer is due 5000 ms later, with no pending timer cancelled; because the failure is caught, the hook resets the form either way |
| `ContactFormComponent.ContactForm.Wait` | src/components/ContactForm.tsx:19 | time can advance up to the earliest pending timer with no other change |
| `ContactFormComponent.ContactForm.FireTimer` | src/components/ContactForm.tsx:25 | the earliest timer fires at its due time and sets the status to 'idle' whatever it was |
| `ContactFormComponent.ContactForm.NextClear` | src/components/ContactForm.tsx:19-25 | while a banner is up, the moment it goes is the earliest pending timer, the one `FireTimer` fires next, and that is at most 5000 ms away |
| `ContactFormComponent.FillFields` | src/components/ContactForm.tsx:34-94 | typing a value into each of the four inputs sets exactly those values |
| `ContactFormComponent.SendSuccessfully` | src/components/ContactForm.tsx:10-19 | with values that validate, a click followed by a successful call shows the success banner and adds one timer due 5000 ms later |
| `ContactFormComponent.SubmitEmpty` | src/components/ContactForm.test.tsx:36-49 | submitting the untouched form sends nothing and shows all four "required" messages; no banner shows and the caption stays "Send Message"; typing into the name hides its message |
| `ContactFormComponent.SubmitSucceeds` | src/components/ContactForm.tsx:10-19 | the hook test's valid values are sent; while sending, the caption is "Sending..." and a second click on the disabled button (line 126) is ignored; on success the banner shows and the form is cleared; 5000 ms later the banner is gone |
| `ContactFormComponent.SubmitFails` | src/components/ContactForm.tsx:20-25 | on the catch path the error banner shows while every field has already been emptied |
| `ContactFormComponent.SecondBannerClearedEarly` | src/components/ContactForm.tsx:19 | successes at 0 ms and 2500 ms leave the second banner on screen for only 2500 ms: the first timer clears it at 5000 ms while the second timer is still pending |

## Left out

- React's rendering, memoisation, state batching and stale closures are not modelled. Each event runs against the current state; the hook's state updates are applied at once.
- The 1500 ms simulated call delay and the `console.log`/`console.error` diagnostics are not modelled. Completing the call is an event (`CallCompletes`) whose outcome is a parameter. With the code as written the simulated call never throws, so `CallCompletes(false)` models a catch branch that real failures would reach.
- `handleChange` with an input name outside the four fields is not modelled. Field names are the enum `Field`, and the component only renders those four inputs.
- Lone surrogates in strings are not modelled. Strings are sequences of Unicode scalar values.
- A general regular-expression engine is not modelled. The one pattern is modelled by its language.
- Unmounting the component is not modelled, and neither are timers that fire after unmount.
- Accessibility attributes, styling and the other page components are not modelled.
- The browser's implicit submission by pressing Enter is not modelled. It is treated like a click on the submit button, which the browser also blocks while that button is disabled.
