/** The `NotifyMeForm` controller: one object per bound form, holding the state of the
    form's DOM elements in its fields. Each method changes the fields step by step the
    way the script toggles attributes and classes, and is proved to produce the state
    that the matching `FormFlow` function describes. */
module NotifyMe {
  import opened Wrappers
  import opened EmailValidation
  import opened Submission
  import FormFlow

  class NotifyMeForm {
    // What the constructor's DOM lookups found. These never change.
    const hasWrapper: bool
    const productId: Option<string>
    const variantId: Option<string>
    const hasSubmit: bool
    const hasSpinner: bool
    const hasMessage: bool

    // The attributes, classes and values the methods toggle.
    var wrapperHidden: bool
    var submitDisabled: bool
    var submitBusy: bool
    var spinnerHidden: bool
    var messageText: string
    var messageHidden: bool
    var messageClass: string
    var email: string
    /** The number of armed auto-close timers that have not fired yet. */
    var pendingCloses: nat
    /** Every request handed to the submission collaborator, oldest first. */
    var requests: seq<SubmissionRequest>

    /** The fields read as a `FormFlow.FormState`; an element that is absent reads as `None`. */
    function State(): FormFlow.FormState
      reads this
    {
      FormFlow.FormState(
        if hasWrapper then Some(FormFlow.Wrapper(wrapperHidden, productId, variantId)) else None,
        if hasSubmit then Some(FormFlow.SubmitControl(submitDisabled, submitBusy, if hasSpinner then Some(spinnerHidden) else None))
        else None,
        if hasMessage then Some(FormFlow.MessageArea(messageText, messageHidden, messageClass)) else None,
        email, pendingCloses, requests)
    }

    ghost predicate Valid()
      reads this
    {
      FormFlow.WellFormed(State())
    }

    /** Bind to a form whose elements are in state `s0`: the element lookups of the
        script's constructor are the presence flags of `s0`. */
    constructor (s0: FormFlow.FormState)
      requires FormFlow.WellFormed(s0)
      ensures Valid() && State() == s0
    {
      hasWrapper := s0.wrapper.Some?;
      productId := if s0.wrapper.Some? then s0.wrapper.value.productId else None;
      variantId := if s0.wrapper.Some? then s0.wrapper.value.variantId else None;
      wrapperHidden := s0.wrapper.Some? && s0.wrapper.value.hidden;
      hasSubmit := s0.submit.Some?;
      submitDisabled := s0.submit.Some? && s0.submit.value.disabled;
      submitBusy := s0.submit.Some? && s0.submit.value.busy;
      hasSpinner := s0.submit.Some? && s0.submit.value.spinnerHidden.Some?;
      spinnerHidden := s0.submit.Some? && s0.submit.value.spinnerHidden.Some? && s0.submit.value.spinnerHidden.value;
      hasMessage := s0.message.Some?;
      messageText := if s0.message.Some? then s0.message.value.text else "";
      messageHidden := s0.message.Some? && s0.message.value.hidden;
      messageClass := if s0.message.Some? then s0.message.value.className else "";
      email := s0.email;
      pendingCloses := s0.pendingCloses;
      requests := s0.requests;
    }

    method OpenForm()
      modifies this
      ensures State() == FormFlow.OpenForm(old(State()))
    {
      if hasWrapper {
        wrapperHidden := false;
      }
    }

    method CloseForm()
      modifies this
      ensures State() == FormFlow.CloseForm(old(State()))
    {
      if hasWrapper {
        wrapperHidden := true;
      }
    }

    /** Only called with a submit control present; without one `setLoading` throws at
        assets/notify-me.js:116. */
    method SetLoading(isLoading: bool)
      requires hasSubmit
      modifies this
      ensures State() == FormFlow.SetLoading(old(State()), isLoading)
    {
      if isLoading {
        submitDisabled := true;
        submitBusy := true;
        if hasSpinner { spinnerHidden := false; }
      } else {
        submitDisabled := false;
        submitBusy := false;
        if hasSpinner { spinnerHidden := true; }
      }
    }

    /** `kind` is the `type` argument; `None` stands for leaving it out. */
    method ShowMessage(text: string, kind: Option<string>)
      requires Valid()
      modifies this
      ensures Valid()
      ensures State() == FormFlow.ShowMessage(old(State()), text, kind)
    {
      if !hasMessage {
        return;
      }
      var severity := kind.GetOr("info");
      messageText := text;
      messageHidden := false;
      messageClass := "notify-me-form__message notify-me-form__message--" + severity;
      if severity == "success" {
        pendingCloses := pendingCloses + 1;
      }
    }

    /** One armed auto-close timer fires. */
    method FireAutoClose()
      requires Valid() && pendingCloses > 0
      modifies this
      ensures Valid()
      ensures State() == FormFlow.FireAutoClose(old(State()))
    {
      CloseForm();
      messageHidden := true;
      pendingCloses := pendingCloses - 1;
    }

    method Reset()
      modifies this
      ensures State() == FormFlow.ResetForm(old(State()))
    {
      email := "";
    }

    /** One submit event. The awaited call to the collaborator comes out as `outcome`. */
    method HandleSubmit(outcome: FormFlow.CallOutcome)
      requires Valid()
      modifies this
      ensures Valid()
      ensures State() == FormFlow.HandleSubmit(old(State()), outcome)
    {
      var trimmed := Trim(email);
      if !IsValidEmail(trimmed) {
        ShowMessage(FormFlow.InvalidEmailMessage, Some("error"));
        return;
      }
      if !hasSubmit {
        // setLoading(true) throws on the missing control and the promise rejects.
        return;
      }
      SetLoading(true);
      if !hasWrapper {
        // Reading the wrapper's data attributes throws and the promise rejects.
        return;
      }
      var request := SubmissionRequest(trimmed, productId, variantId);
      requests := requests + [request];
      match outcome {
        case Returned(res) =>
          if res.success {
            ShowMessage(FormFlow.SuccessMessage, Some("success"));
            Reset();
          } else {
            var text := if res.message.Some? && res.message.value != "" then res.message.value
                        else FormFlow.FallbackMessage;
            ShowMessage(text, Some("error"));
          }
        case Threw =>
          ShowMessage(FormFlow.FallbackMessage, Some("error"));
      }
      SetLoading(false);
    }
  }
}
