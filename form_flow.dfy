/** The state of one notify-me form as the script sees it through its DOM handles, and
    what each `NotifyMeForm` method does to it, as functions from state to state.
    `NotifyMe.NotifyMeForm` is proved against these functions; the lemmas at the
    end state what the flow guarantees. */
module FormFlow {
  import opened Wrappers
  import opened EmailValidation
  import opened Submission

  /** The `.notify-me-form-wrapper` around the form: its `hidden` attribute and its
      two data attributes. */
  datatype Wrapper = Wrapper(hidden: bool, productId: Option<string>, variantId: Option<string>)

  /** The `.notify-me-form__submit` control: its `disabled` attribute, its `btn--loading`
      class and, when it holds a `.loading__spinner`, whether that spinner has the
      `hidden` class. */
  datatype SubmitControl = SubmitControl(disabled: bool, busy: bool, spinnerHidden: Option<bool>)

  /** The `.notify-me-form__message` element: its text, its `hidden` property and its
      class attribute. */
  datatype MessageArea = MessageArea(text: string, hidden: bool, className: string)

  /** One form. Absent elements are `None`. The e-mail input is always present.
      `pendingCloses` counts the auto-close timers that are armed and have not fired.
      `requests` lists every request handed to the collaborator, oldest first. */
  datatype FormState = FormState(
    wrapper: Option<Wrapper>,
    submit: Option<SubmitControl>,
    message: Option<MessageArea>,
    email: string,
    pendingCloses: nat,
    requests: seq<SubmissionRequest>)

  /** What the awaited collaborator call did: it returned a result, or it threw. */
  datatype CallOutcome = Returned(result: SubmissionResult) | Threw

  const InvalidEmailMessage := "Please enter a valid email address."
  const SuccessMessage := "Thank you! We'll notify you when this product is back in stock."
  const FallbackMessage := "Something went wrong. Please try again."

  /** A timer is only ever armed by a message element, so one exists while a timer is pending. */
  predicate WellFormed(s: FormState) {
    s.pendingCloses > 0 ==> s.message.Some?
  }

  /** `openForm`: clear the wrapper's `hidden` attribute, if there is a wrapper. */
  function OpenForm(s: FormState): FormState {
    match s.wrapper
    case None => s
    case Some(w) => s.(wrapper := Some(w.(hidden := false)))
  }

  /** `closeForm`: set the wrapper's `hidden` attribute, if there is a wrapper. */
  function CloseForm(s: FormState): FormState {
    match s.wrapper
    case None => s
    case Some(w) => s.(wrapper := Some(w.(hidden := true)))
  }

  /** `setLoading(on)` for a form that has a submit control. */
  function SetLoading(s: FormState, on: bool): FormState
    requires s.submit.Some?
  {
    var spinner := match s.submit.value.spinnerHidden
      case None => None
      case Some(_) => Some(!on);
    s.(submit := Some(SubmitControl(on, on, spinner)))
  }

  /** The `type` argument of `showMessage`, which defaults to `info`. */
  function Severity(kind: Option<string>): string {
    kind.GetOr("info")
  }

  function MessageClass(severity: string): string {
    "notify-me-form__message notify-me-form__message--" + severity
  }

  lemma ClassNames()
    ensures MessageClass("error") == "notify-me-form__message notify-me-form__message--error"
    ensures MessageClass("success") == "notify-me-form__message notify-me-form__message--success"
  {
  }

  /** `showMessage(text, kind)`: nothing without a message element; otherwise write the
      text, show the element, replace its class, and arm an auto-close timer for `success`. */
  function ShowMessage(s: FormState, text: string, kind: Option<string>): FormState {
    match s.message
    case None => s
    case Some(_) =>
      var severity := Severity(kind);
      s.(message := Some(MessageArea(text, false, MessageClass(severity))),
         pendingCloses := if severity == "success" then s.pendingCloses + 1 else s.pendingCloses)
  }

  /** One armed timer fires: `closeForm()` and hide the message element. */
  function FireAutoClose(s: FormState): FormState
    requires WellFormed(s) && s.pendingCloses > 0
  {
    var closed := CloseForm(s);
    closed.(message := Some(closed.message.value.(hidden := true)), pendingCloses := s.pendingCloses - 1)
  }

  /** `form.reset()`: the e-mail input goes back to its (empty) default value. */
  function ResetForm(s: FormState): FormState {
    s.(email := "")
  }

  /** `response.message || 'Something went wrong. Please try again.'`: a missing or
      empty message falls back. */
  function FailureText(res: SubmissionResult): string {
    if res.message.Some? && res.message.value != "" then res.message.value else FallbackMessage
  }

  /** The `try`/`catch` part of `handleSubmit`, once the awaited call has settled. */
  function Settle(s: FormState, outcome: CallOutcome): FormState {
    match outcome
    case Returned(res) =>
      if res.success then ResetForm(ShowMessage(s, SuccessMessage, Some("success")))
      else ShowMessage(s, FailureText(res), Some("error"))
    case Threw => ShowMessage(s, FallbackMessage, Some("error"))
  }

  /** `handleSubmit` for one submit event whose awaited call comes out as `outcome`.
      Without a submit control `setLoading(true)` throws before changing anything; without
      a wrapper reading its data attributes throws after loading was entered. In both
      cases the rejected promise ends the flow there. */
  function HandleSubmit(s: FormState, outcome: CallOutcome): FormState {
    var email := Trim(s.email);
    if !IsValidEmail(email) then ShowMessage(s, InvalidEmailMessage, Some("error"))
    else if s.submit.None? then s
    else
      var loading := SetLoading(s, true);
      match loading.wrapper
      case None => loading
      case Some(w) =>
        var request := SubmissionRequest(email, w.productId, w.variantId);
        var sent := loading.(requests := loading.requests + [request]);
        SetLoading(Settle(sent, outcome), false)
  }

  // ---------------------------------------------------------------- invariants

  lemma ShowMessageWellFormed(s: FormState, text: string, kind: Option<string>)
    requires WellFormed(s)
    ensures WellFormed(ShowMessage(s, text, kind))
  {
  }

  lemma HandleSubmitWellFormed(s: FormState, outcome: CallOutcome)
    requires WellFormed(s)
    ensures WellFormed(HandleSubmit(s, outcome))
  {
  }

  lemma FireAutoCloseWellFormed(s: FormState)
    requires WellFormed(s) && s.pendingCloses > 0
    ensures WellFormed(FireAutoClose(s))
  {
  }

  // ---------------------------------------------------------------- properties

  /** An address that fails validation after trimming shows the error message and does
      nothing else: loading is not entered, the collaborator is not called, and the
      outcome the call would have had makes no difference. */
  lemma InvalidEmailNeverLoads(s: FormState, outcome: CallOutcome, other: CallOutcome)
    requires !IsValidEmail(Trim(s.email))
    ensures var r := HandleSubmit(s, outcome);
      r.submit == s.submit && r.requests == s.requests && r.wrapper == s.wrapper &&
      r.email == s.email && r.pendingCloses == s.pendingCloses &&
      r.message == (if s.message.None? then None
                    else Some(MessageArea("Please enter a valid email address.", false,
                                          "notify-me-form__message notify-me-form__message--error"))) &&
      r == HandleSubmit(s, other)
  {
    ClassNames();
  }

  /** With a submit control and a wrapper, a valid address hands exactly one request to
      the collaborator (the trimmed address and the wrapper's identifiers), and whatever
      the outcome the flow leaves loading: the control is enabled, not busy, and its
      spinner hidden. The wrapper is not touched. */
  lemma LoadingAlwaysLeft(s: FormState, outcome: CallOutcome)
    requires IsValidEmail(Trim(s.email)) && s.submit.Some? && s.wrapper.Some?
    ensures var r := HandleSubmit(s, outcome);
      r.submit == Some(SubmitControl(false, false, if s.submit.value.spinnerHidden.None? then None else Some(true))) &&
      r.requests == s.requests + [SubmissionRequest(Trim(s.email), s.wrapper.value.productId, s.wrapper.value.variantId)] &&
      r.wrapper == s.wrapper
  {
  }

  /** A successful result shows the thank-you message as a success when there is a message
      element, arms one auto-close timer exactly then, and always clears the e-mail input. */
  lemma SuccessOutcome(s: FormState, res: SubmissionResult)
    requires IsValidEmail(Trim(s.email)) && s.submit.Some? && s.wrapper.Some?
    requires res.success
    ensures var r := HandleSubmit(s, Returned(res));
      r.message == (if s.message.None? then None
                    else Some(MessageArea("Thank you! We'll notify you when this product is back in stock.", false,
                                          "notify-me-form__message notify-me-form__message--success"))) &&
      r.email == "" && r.pendingCloses == s.pendingCloses + (if s.message.Some? then 1 else 0)
  {
    ClassNames();
  }

  /** A failed result shows its own message when that is non-empty and the fallback
      otherwise, as an error, when there is a message element; the e-mail stays and no
      timer is armed. */
  lemma FailureOutcome(s: FormState, res: SubmissionResult)
    requires IsValidEmail(Trim(s.email)) && s.submit.Some? && s.wrapper.Some?
    requires !res.success
    ensures var r := HandleSubmit(s, Returned(res));
      r.message == (if s.message.None? then None
                    else Some(MessageArea(if res.message.Some? && res.message.value != "" then res.message.value
                                          else "Something went wrong. Please try again.", false,
                                          "notify-me-form__message notify-me-form__message--error"))) &&
      r.email == s.email && r.pendingCloses == s.pendingCloses
  {
    ClassNames();
  }

  /** A call that throws is absorbed: the fallback message is shown as an error when there
      is a message element; the e-mail stays and no timer is armed. */
  lemma ThrownOutcome(s: FormState)
    requires IsValidEmail(Trim(s.email)) && s.submit.Some? && s.wrapper.Some?
    ensures var r := HandleSubmit(s, Threw);
      r.message == (if s.message.None? then None
                    else Some(MessageArea("Something went wrong. Please try again.", false,
                                          "notify-me-form__message notify-me-form__message--error"))) &&
      r.email == s.email && r.pendingCloses == s.pendingCloses
  {
    ClassNames();
  }

  /** Wired to the real `submitNotification`, the call never throws and every failure has
      a message, so the generic fallback is never what the user sees: a rejected response
      reads "Failed to submit. Please try again." and a transport failure
      "Network error. Please try again.". */
  lemma ConnectedNeverShowsFallback(s: FormState, http: HttpOutcome)
    requires IsValidEmail(Trim(s.email)) && s.submit.Some? && s.wrapper.Some? && s.message.Some?
    ensures var r := HandleSubmit(s, Returned(SubmitNotification(http)));
      r.message.Some? && r.message.value.text != "Something went wrong. Please try again." &&
      (http == Responded(false) ==> r.message.value.text == "Failed to submit. Please try again.") &&
      (http == FetchRejected ==> r.message.value.text == "Network error. Please try again.")
  {
  }

  /** `showMessage` without a message element changes nothing. With one, it writes the
      text, shows the element, sets exactly the base class plus the severity modifier
      (`info` when none is given), and changes nothing else except arming one timer for
      `success`. */
  lemma ShowMessageEffect(s: FormState, text: string, kind: Option<string>)
    ensures var r := ShowMessage(s, text, kind);
      var severity := if kind.None? then "info" else kind.value;
      (s.message.None? ==> r == s) &&
      (s.message.Some? ==>
        r.message == Some(MessageArea(text, false, "notify-me-form__message notify-me-form__message--" + severity)) &&
        r.pendingCloses == (if severity == "success" then s.pendingCloses + 1 else s.pendingCloses) &&
        r.wrapper == s.wrapper && r.submit == s.submit && r.email == s.email && r.requests == s.requests)
  {
  }

  /** `openForm` and `closeForm` only touch the wrapper's `hidden` flag; each is idempotent,
      each undoes the other, and both are no-ops without a wrapper. */
  lemma OpenCloseLaws(s: FormState)
    ensures s.wrapper.Some? ==> OpenForm(s).wrapper.value.hidden == false && CloseForm(s).wrapper.value.hidden == true
    ensures s.wrapper.None? ==> OpenForm(s) == s && CloseForm(s) == s
    ensures OpenForm(OpenForm(s)) == OpenForm(s) && CloseForm(CloseForm(s)) == CloseForm(s)
    ensures OpenForm(CloseForm(s)) == OpenForm(s) && CloseForm(OpenForm(s)) == CloseForm(s)
    ensures OpenForm(s).(wrapper := s.wrapper) == s && CloseForm(s).(wrapper := s.wrapper) == s
  {
  }

  /** A timer that fires hides the form and the message, whatever happened in between:
      it is not cancelled by a later `openForm` or by a later message. */
  lemma AutoCloseIgnoresLaterActions(s: FormState, text: string, kind: Option<string>)
    requires WellFormed(s) && s.pendingCloses > 0
    ensures var r := FireAutoClose(ShowMessage(OpenForm(s), text, kind));
      (s.wrapper.Some? ==> r.wrapper.value.hidden) &&
      r.message.value.hidden && r.message.value.text == text
  {
  }

  // ---------------------------------------------------------------- scenarios

  /** A present wrapper with the given identifiers, a submit control with a spinner and
      a message element, all as the markup renders them before any interaction. */
  function Rendered(productId: string, variantId: string, email: string): FormState {
    FormState(Some(Wrapper(true, Some(productId), Some(variantId))),
              Some(SubmitControl(false, false, Some(true))),
              Some(MessageArea("", true, "notify-me-form__message")),
              email, 0, [])
  }

  lemma AcceptedAddress()
    ensures Trim("a@b.com") == "a@b.com" && IsValidEmail("a@b.com")
  {
    ExampleAccepted();
    TrimPadded([], "a@b.com", []);
    assert [] + "a@b.com" + [] == "a@b.com";
  }

  lemma RejectedAddress()
    ensures Trim("not-an-email") == "not-an-email" && !IsValidEmail("not-an-email")
  {
    ExampleRejected();
    TrimPadded([], "not-an-email", []);
    assert [] + "not-an-email" + [] == "not-an-email";
  }

  /** Product 42, variant 7, `a@b.com`, HTTP 200: the thank-you message as a success and
      a cleared input; the request carried the address and both identifiers. */
  lemma ScenarioAccepted()
    ensures var r := HandleSubmit(Rendered("42", "7", "a@b.com"), Returned(SubmitNotification(Responded(true))));
      r.message == Some(MessageArea("Thank you! We'll notify you when this product is back in stock.", false,
                                    "notify-me-form__message notify-me-form__message--success")) &&
      r.email == "" && r.submit == Some(SubmitControl(false, false, Some(true))) &&
      r.requests == [SubmissionRequest("a@b.com", Some("42"), Some("7"))]
  {
    var s := Rendered("42", "7", "a@b.com");
    AcceptedAddress();
    LoadingAlwaysLeft(s, Returned(SubmitNotification(Responded(true))));
    SuccessOutcome(s, SubmitNotification(Responded(true)));
  }

  /** The same inputs and HTTP 500: the rejection message as an error and an enabled control. */
  lemma ScenarioServerError()
    ensures var r := HandleSubmit(Rendered("42", "7", "a@b.com"), Returned(SubmitNotification(Responded(false))));
      r.message == Some(MessageArea("Failed to submit. Please try again.", false,
                                    "notify-me-form__message notify-me-form__message--error")) &&
      r.submit == Some(SubmitControl(false, false, Some(true))) && r.email == "a@b.com"
  {
    var s := Rendered("42", "7", "a@b.com");
    AcceptedAddress();
    LoadingAlwaysLeft(s, Returned(SubmitNotification(Responded(false))));
    FailureOutcome(s, SubmitNotification(Responded(false)));
  }

  /** `not-an-email`: the validation error, and no request recorded. */
  lemma ScenarioInvalid(outcome: CallOutcome)
    ensures var r := HandleSubmit(Rendered("42", "7", "not-an-email"), outcome);
      r.message == Some(MessageArea("Please enter a valid email address.", false,
                                    "notify-me-form__message notify-me-form__message--error")) &&
      r.requests == [] && r.submit == Some(SubmitControl(false, false, Some(true)))
  {
    RejectedAddress();
    InvalidEmailNeverLoads(Rendered("42", "7", "not-an-email"), outcome, outcome);
  }
}
