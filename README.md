# Notify-me form controller, modelled in Dafny

The repository ships one browser script, `assets/notify-me.js`. It drives the back-in-stock
"notify me" form on out-of-stock product pages. A `NotifyMeForm` controller is attached to every
`.notify-me-form` element. The controller opens and closes the form's wrapper and checks the typed
address against `^[^\s@]+@[^\s@]+\.[^\s@]+$`. If the address passes, it puts the submit control
into its loading state and posts the address to the shop's `/contact` endpoint, with a body text
naming the product and variant. It then shows a success, error or fallback message and always
leaves the loading state. A success message arms a timer that closes the form later. Controllers
are bound once on `DOMContentLoaded`, and again by a `MutationObserver` for forms inserted later;
the observer uses a `data-initialized` marker to skip forms it has already bound.

The project has six modules, one file each:

- `Wrappers` (`wrappers.dfy`): `Option`, for elements and attributes that may be absent.
- `EmailValidation` (`email.dfy`):
  - `IsSpace` is the ECMAScript whitespace and line-terminator set. It is the set that both `\s`
    and `String.prototype.trim` use.
  - `Trim` is written with `LeadingSpaces`/`TrailingStart`.
  - `IsValidEmail` is the validator, stated as a string predicate: no space, exactly one `@`, a
    non-empty local part, and a `.` inside the domain part.
  - `MatchesPattern` is the language of the regular expression, read directly off the pattern.
  - `ValidIffPattern` proves the two are the same.
- `Submission` (`submission.dfy`): `submitNotification`. It covers the request value, the
  posted fields and body text, and the mapping from the HTTP outcome to `{success, message}`.
- `FormFlow` (`form_flow.dfy`):
  - The state of one form's elements, as a datatype.
  - Each controller method, as a function from state to state.
  - The lemmas that state what a submit does for each outcome.
- `NotifyMe` (`notify_me_form.dfy`): the `NotifyMeForm` class. Its fields are the attributes,
  classes and values the script toggles. Every method is proved to produce exactly the state that
  the matching `FormFlow` function gives.
- `Binding` (`binding.dfy`): the page as a `Page` class. It holds the forms in document order,
  the set of marked forms, and a multiset with one entry per constructed controller. Its
  methods are the ready-time scan and the observer callback. The lemmas state how many
  controllers each form ends up with.

The awaited collaborator call enters as a parameter. `FormFlow.CallOutcome` is either
`Returned(result)` or `Threw`, and `Submission.HttpOutcome` is either `Responded(ok)` or
`FetchRejected`. A submit is then one sequential step. Auto-close timers are a counter of armed
timers; `FireAutoClose` is the step in which one of them fires.

Two behaviours of the script are easy to misread:

- A transport failure is caught inside `submitNotification`. So it reaches `handleSubmit` as
  `{success: false, message: 'Network error. Please try again.'}`, and that is the text shown. It
  is not the generic fallback. `FormFlow.ConnectedNeverShowsFallback` proves that with the real
  collaborator the fallback text is never shown.
- The ready-time scan does not set the marker (see Findings).

## Model

| member | source | states |
|---|---|---|
| EmailValidation.LeadingSpaces | assets/notify-me.js:42 | the count of leading spaces: that prefix is all space and the next character is not a space |
| EmailValidation.TrailingStart | assets/notify-me.js:42 | where the trailing spaces begin: that suffix is all space and the character before it is not a space |
| EmailValidation.Trim | assets/notify-me.js:42 | the trimmed value is no longer than the input and neither starts nor ends with a space |
| EmailValidation.TrimSplits | assets/notify-me.js:42 | every string is the trimmed value with all-space margins on both sides |
| EmailValidation.TrimStartPadded | assets/notify-me.js:42 | leading space before a string that does not start with a space is exactly what is dropped |
| EmailValidation.TrimEndPadded | assets/notify-me.js:42 | trailing space after a string that does not end with a space is exactly what is dropped |
| EmailValidation.TrimPadded | assets/notify-me.js:42 | padding a string that has no space at its ends, then trimming, gives the string back (with TrimSplits: the trimmed value is unique) |
| EmailValidation.TrimIdempotent | assets/notify-me.js:42 | trimming twice is trimming once |
| EmailValidation.TrimStart | assets/notify-me.js:42 | the leading half of `trim`: drops exactly the `LeadingSpaces` prefix; TrimStartPadded states what it removes |
| EmailValidation.TrimEnd | assets/notify-me.js:42 | the trailing half of `trim`: keeps everything before `TrailingStart`; TrimEndPadded states what it removes |
| EmailValidation.IsValidEmail | assets/notify-me.js:140-143 | the validator as a string predicate (no space, one `@`, non-empty local part, inner `.` in the domain); ValidIffPattern proves it accepts exactly the pattern's language |
| EmailValidation.MatchesPattern | assets/notify-me.js:141 | the language of `^[^\s@]+@[^\s@]+\.[^\s@]+$`, read off the pattern as three non-empty `[^\s@]` runs joined by `@` and `.` |
| EmailValidation.CountOf | assets/notify-me.js:141 | the count of a character is at most the length, and zero exactly when the character is absent |
| EmailValidation.IndexOf | assets/notify-me.js:141 | the first occurrence: it holds the character and nothing before it does |
| EmailValidation.ValidImpliesPattern | assets/notify-me.js:140-143 | every address the validator accepts splits into `[^\s@]+ @ [^\s@]+ . [^\s@]+` |
| EmailValidation.PatternImpliesValid | assets/notify-me.js:140-143 | every string the pattern matches has no space, one `@`, a non-empty local part and an inner `.` in its domain |
| EmailValidation.ValidIffPattern | assets/notify-me.js:140-143 | `isValidEmail` accepts exactly the language of `^[^\s@]+@[^\s@]+\.[^\s@]+$` |
| EmailValidation.NoAtRejected | assets/notify-me.js:141-142 | a string without `@` is rejected |
| EmailValidation.NoDotAfterAtRejected | assets/notify-me.js:141-142 | a string with no `.` after its `@` is rejected |
| EmailValidation.ShapeAccepted | assets/notify-me.js:141-142 | every `local@domain.tld` made of non-empty space-free, `@`-free parts is accepted |
| EmailValidation.PaddedAddressAccepted | assets/notify-me.js:42-45 | a valid address surrounded by spaces still passes, because the value is trimmed first |
| EmailValidation.ExampleAccepted | assets/notify-me.js:141-142 | `a@b.com` is accepted |
| EmailValidation.ExampleRejected | assets/notify-me.js:141-142 | `not-an-email` is rejected |
| Submission.Interpolate | assets/notify-me.js:55-56 | a present data attribute renders as its text, and an absent one as `undefined` |
| Submission.BodyEmbedsIdentifiers | assets/notify-me.js:85 | the body text is "Notify me when product {p} / variant {v} is back in stock.", and both identifiers can be read back at fixed offsets |
| Submission.ContactBody | assets/notify-me.js:85 | the template-literal body text; BodyEmbedsIdentifiers states its layout and that both identifiers can be read back |
| Submission.ContactRequest | assets/notify-me.js:83-91 | the POST to `/contact` with the two `FormData` fields; RequestCarriesEmail states its path and fields |
| Submission.RequestCarriesEmail | assets/notify-me.js:83-91 | the POST goes to `/contact` with exactly two fields: the address unchanged and the body text |
| Submission.SubmitNotification | assets/notify-me.js:87-100 | success exactly for an `ok` response; success exactly when there is no message; every failure message is non-empty |
| Submission.FailuresDistinguished | assets/notify-me.js:96-99 | a rejected response gives "Failed to submit. Please try again." and a transport failure gives "Network error. Please try again." |
| FormFlow.OpenForm | assets/notify-me.js:103-106 | clears the wrapper's `hidden` when there is a wrapper; OpenCloseLaws states its laws |
| FormFlow.CloseForm | assets/notify-me.js:108-110 | sets the wrapper's `hidden` when there is a wrapper; OpenCloseLaws states its laws |
| FormFlow.SetLoading | assets/notify-me.js:112-122 | `disabled` and `btn--loading` follow the flag and a present spinner is hidden exactly when not loading; LoadingAlwaysLeft states the state it leaves |
| FormFlow.ShowMessage | assets/notify-me.js:124-138 | text, visibility, class and a timer for `success`; ShowMessageEffect states the whole effect |
| FormFlow.FireAutoClose | assets/notify-me.js:133-136 | the timer callback: close the form and hide the message; AutoCloseIgnoresLaterActions states it |
| FormFlow.ResetForm | assets/notify-me.js:65 | `form.reset()` empties the input; SuccessOutcome states that a success clears it |
| FormFlow.FailureText | assets/notify-me.js:67 | `response.message` when non-empty, otherwise the fallback; FailureOutcome states what is shown |
| FormFlow.Settle | assets/notify-me.js:59-71 | the `try`/`catch` on the settled call; SuccessOutcome, FailureOutcome and ThrownOutcome state each branch |
| FormFlow.HandleSubmit | assets/notify-me.js:39-75 | one submit event; InvalidEmailNeverLoads, LoadingAlwaysLeft and the outcome lemmas state what it does |
| FormFlow.ShowMessageWellFormed | assets/notify-me.js:124-137 | a timer is armed only when a message element exists |
| FormFlow.HandleSubmitWellFormed | assets/notify-me.js:39-75 | a submit keeps "a pending timer implies a message element" |
| FormFlow.FireAutoCloseWellFormed | assets/notify-me.js:133-136 | a firing timer keeps the same invariant |
| FormFlow.InvalidEmailNeverLoads | assets/notify-me.js:42-48 | an address that fails after trimming shows "Please enter a valid email address." with the `--error` class; submit control, wrapper, input, timers and requests are unchanged; the outcome is irrelevant |
| FormFlow.LoadingAlwaysLeft | assets/notify-me.js:50-74 | on a valid address, for every outcome: exactly one request (trimmed address, the wrapper's identifiers), then the control is enabled, not busy, spinner hidden |
| FormFlow.SuccessOutcome | assets/notify-me.js:63-65 | a success always clears the input; with a message element it shows the thank-you text with the `--success` class and arms one timer, without one it shows nothing and arms none |
| FormFlow.FailureOutcome | assets/notify-me.js:66-68 | a failure keeps the input and arms no timer; with a message element it shows its non-empty message, or else "Something went wrong. Please try again.", with the `--error` class |
| FormFlow.ThrownOutcome | assets/notify-me.js:69-71 | a throwing call is absorbed: the input stays, no timer is armed, and with a message element the fallback text is shown as an error |
| FormFlow.ConnectedNeverShowsFallback | assets/notify-me.js:61-71 | with the real `submitNotification` the fallback text never appears: HTTP non-ok turns into "Failed to submit…", a fetch rejection into "Network error…" |
| FormFlow.ShowMessageEffect | assets/notify-me.js:124-138 | with no element, nothing changes; otherwise the text is set, the element shown, the class becomes exactly the base class plus `--{type}` (default `info`), one timer is armed only for `success`, and nothing else changes |
| FormFlow.OpenCloseLaws | assets/notify-me.js:103-110 | open clears and close sets `hidden`; both are idempotent and undo each other; both are no-ops without a wrapper; they change nothing else |
| FormFlow.AutoCloseIgnoresLaterActions | assets/notify-me.js:132-136 | an armed timer hides the wrapper and the message even after a later open or a later message |
| FormFlow.AcceptedAddress | assets/notify-me.js:42-45 | `a@b.com` trims to itself and passes |
| FormFlow.RejectedAddress | assets/notify-me.js:42-45 | `not-an-email` trims to itself and fails |
| FormFlow.ScenarioAccepted | assets/notify-me.js:39-75 | product 42, variant 7, `a@b.com`, HTTP 200: thank-you text as a success, cleared input, enabled control, one request with both identifiers |
| FormFlow.ScenarioServerError | assets/notify-me.js:39-75 | same inputs, HTTP 500: "Failed to submit. Please try again." as an error, enabled control |
| FormFlow.ScenarioInvalid | assets/notify-me.js:42-48 | `not-an-email`: the validation error and no request |
| NotifyMe.NotifyMeForm.constructor | assets/notify-me.js:10-19 | the controller's fields are the given state of the form's elements |
| NotifyMe.NotifyMeForm.OpenForm | assets/notify-me.js:103-106 | the new state is `FormFlow.OpenForm` of the old one |
| NotifyMe.NotifyMeForm.CloseForm | assets/notify-me.js:108-110 | the new state is `FormFlow.CloseForm` of the old one |
| NotifyMe.NotifyMeForm.SetLoading | assets/notify-me.js:112-122 | the new state is `FormFlow.SetLoading` of the old one |
| NotifyMe.NotifyMeForm.ShowMessage | assets/notify-me.js:124-138 | the new state is `FormFlow.ShowMessage` of the old one, and the state stays well formed |
| NotifyMe.NotifyMeForm.FireAutoClose | assets/notify-me.js:133-136 | the new state is `FormFlow.FireAutoClose` of the old one |
| NotifyMe.NotifyMeForm.Reset | assets/notify-me.js:65 | the new state is `FormFlow.ResetForm` of the old one |
| NotifyMe.NotifyMeForm.HandleSubmit | assets/notify-me.js:39-75 | the new state is `FormFlow.HandleSubmit` of the old state and the outcome, and the state stays well formed |
| Binding.Unmarked | assets/notify-me.js:155 | the selector's result holds exactly the forms on the page without the marker, without repeats |
| Binding.CountDistinct | assets/notify-me.js:148 | each element of a list without repeats occurs once |
| Binding.BatchKeepsBoundOnce | assets/notify-me.js:154-159 | one observer batch keeps "one controller exactly for each marked form" |
| Binding.AllMarked | assets/notify-me.js:155 | when every form is marked, the selector finds nothing |
| Binding.BatchIdempotent | assets/notify-me.js:154-159 | a batch straight after a batch binds nothing |
| Binding.ScanThenBatchBindsTwice | assets/notify-me.js:147-159 | as written: a form present at ready time and not yet marked ends with two more controllers after the ready-time scan and one batch |
| Binding.OneFormBoundTwice | assets/notify-me.js:147-159 | as written: a one-form page has two controllers for that form after the scan and one batch |
| Binding.CorrectedScanBindsOnce | assets/notify-me.js:147-159 | with a marker-guarded scan, every form on the page has exactly one controller after the scan and after a later batch |
| Binding.Page.constructor | assets/notify-me.js:147 | the parsed page: no marker and no controller yet |
| Binding.Page.Insert | assets/notify-me.js:161 | an inserted form joins the page; markers and controllers are unchanged |
| Binding.Page.Remove | assets/notify-me.js:161 | a removed form leaves the page; its marker and controller stay |
| Binding.Page.ContentLoaded | assets/notify-me.js:147-151 | as written: one more controller for every form on the page, and no marker set |
| Binding.Page.MutationBatch | assets/notify-me.js:154-159 | every form on the page is marked afterwards; one controller is added for each form that was unmarked; "one controller per marked form" is kept |
| Binding.Page.ContentLoadedCorrected | assets/notify-me.js:147-151 | the intended ready-time scan: marker-guarded like the observer, so it keeps "one controller per marked form" |

## Left out

- DOM lookup (`closest`, `querySelector`, `dataset`) is left out. The constructor takes the state of the elements it would have found, and an element that is missing is `None`.
- The email input is assumed to be present. `form.reset()` is modelled as restoring it to an empty default value. No other form controls are modelled.
- Event-listener registration in `init` is left out (assets/notify-me.js:21-37). So are `preventDefault` and `focus`, which are browser calls with no state in the model. Each controller adds a click handler to every `.notify-me-trigger` on the page, so one trigger opens every bound form. The model has `OpenForm` per form, but not that fan-out.
- `fetch`, `FormData` and HTTP are left out. The outcome of the awaited call is a parameter.
- A submit is one critical section. The model does not cover interleavings at the `await`, such as a second submit, a timer firing or an open happening while a request is in flight.
- The 5000 ms delay is not modelled. `pendingCloses` counts armed timers and `FireAutoClose` fires one, in any order relative to other steps.
- `console.error` is left out. Logging has no effect on the state.
- The regular-expression engine itself is left out. The pattern is modelled by its language (`MatchesPattern`) and by the validator predicate.
- Characters are Unicode scalar values. A JavaScript string is UTF-16 code units, so lone surrogates cannot be represented.
- A missing submit control or wrapper on the valid path is modelled as the throw that ends the flow. The state is left as it was at that point, not ruled out by a precondition. The cleanup lemmas assume both elements are present.
- `observer.observe` on a missing `document.body` is not modelled.
- The browser delivers the observer's records in one callback per microtask checkpoint, and any child-list change anywhere in `body`'s subtree triggers it, not only the insertion of a form. `Page` does not model that scheduling: `MutationBatch` is one callback, and the caller decides when it runs relative to `Insert`, `Remove` and `ContentLoaded`.
- Each `NotifyMeForm` holds its own copy of its form's element state. In the browser the two controllers that the double binding under Findings creates act on one shared DOM, and the model does not capture that sharing (nor the aliasing of their updates).
- A removed form's controller is never torn down, matching the source. The model keeps its entry.

## Findings

| source | as written | input that shows it | evidently intended | confidence | as-written member | corrected member |
|---|---|---|---|---|---|---|
| assets/notify-me.js:147-159 | the `DOMContentLoaded` scan binds every `.notify-me-form` without setting `data-initialized`, and the observer binds every form lacking that marker | one form present on the page; the ready-time scan runs, then any child-list mutation anywhere in `body` triggers a batch. That form ends with two controllers, so two submit handlers run per submit | each form is bound exactly once, with the scan marking forms as the observer does | high (derived from the code; not executed) | Binding.ScanThenBatchBindsTwice | Binding.Page.ContentLoadedCorrected |
