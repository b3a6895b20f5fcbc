/** `submitNotification`: the request it posts to the shop's contact endpoint and the
    mapping from the HTTP outcome to the `{success, message}` value it resolves to. */
module Submission {
  import opened Wrappers

  /** The value `handleSubmit` builds per attempt. The two identifiers are read from the
      wrapper's `data-product-id` / `data-variant-id` and are `None` when the attribute
      is missing. */
  datatype SubmissionRequest = SubmissionRequest(email: string, productId: Option<string>, variantId: Option<string>)

  /** `{ success: true }` has no `message`; the failure objects carry one. */
  datatype SubmissionResult = SubmissionResult(success: bool, message: Option<string>)

  /** What `fetch` did: it resolved with a response whose `ok` flag is given (a 2xx
      status), or it rejected without a response (a transport failure). */
  datatype HttpOutcome = Responded(ok: bool) | FetchRejected

  /** The multipart POST `submitNotification` sends. */
  datatype ContactPost = ContactPost(path: string, fields: seq<(string, string)>)

  const ContactPath := "/contact"
  const EmailField := "contact[email]"
  const BodyField := "contact[body]"
  const RejectedMessage := "Failed to submit. Please try again."
  const NetworkErrorMessage := "Network error. Please try again."

  const BodyPrefix := "Notify me when product "
  const BodyMiddle := " / variant "
  const BodySuffix := " is back in stock."

  /** How a template literal renders a `dataset` value: a missing attribute reads as
      `undefined`, which the template turns into the text "undefined". */
  function Interpolate(v: Option<string>): (r: string)
    ensures v.Some? ==> r == v.value
    ensures v.None? ==> r == "undefined"
  {
    v.GetOr("undefined")
  }

  /** The free-text body: "Notify me when product {p} / variant {v} is back in stock." */
  function ContactBody(req: SubmissionRequest): string {
    BodyPrefix + Interpolate(req.productId) + BodyMiddle + Interpolate(req.variantId) + BodySuffix
  }

  /** The request: the trimmed e-mail and the body text, posted to `/contact`. */
  function ContactRequest(req: SubmissionRequest): ContactPost {
    ContactPost(ContactPath, [(EmailField, req.email), (BodyField, ContactBody(req))])
  }

  /** The body text reads back as its five pieces: the identifiers can be recovered at
      fixed offsets, so nothing of them is lost or altered. */
  lemma BodyEmbedsIdentifiers(req: SubmissionRequest)
    ensures var b, p, v := ContactBody(req), Interpolate(req.productId), Interpolate(req.variantId);
      var i := |BodyPrefix| + |p| + |BodyMiddle|;
      |b| == i + |v| + |BodySuffix| &&
      b[..|BodyPrefix|] == "Notify me when product " &&
      b[|BodyPrefix|..|BodyPrefix| + |p|] == p &&
      b[|BodyPrefix| + |p|..i] == " / variant " &&
      b[i..i + |v|] == v &&
      b[i + |v|..] == " is back in stock."
  {
    var p, v := Interpolate(req.productId), Interpolate(req.variantId);
    var b := ContactBody(req);
    var i := |BodyPrefix| + |p| + |BodyMiddle|;
    assert b == (((BodyPrefix + p) + BodyMiddle) + v) + BodySuffix;
    assert b[..|BodyPrefix|] == BodyPrefix;
    assert b[|BodyPrefix|..|BodyPrefix| + |p|] == p;
    assert b[|BodyPrefix| + |p|..i] == BodyMiddle;
    assert b[i..i + |v|] == v;
    assert b[i + |v|..] == BodySuffix;
  }

  /** The posted form carries the e-mail unchanged and the body text, and goes to `/contact`. */
  lemma RequestCarriesEmail(req: SubmissionRequest)
    ensures var post := ContactRequest(req);
      post.path == "/contact" && |post.fields| == 2 &&
      post.fields[0] == ("contact[email]", req.email) &&
      post.fields[1] == ("contact[body]", ContactBody(req))
  {
  }

  /** The whole of `submitNotification` after the `await`: only an `ok` response is a
      success, and every failure carries a non-empty message of its own. */
  function SubmitNotification(outcome: HttpOutcome): (r: SubmissionResult)
    ensures r.success <==> outcome == Responded(true)
    ensures r.success <==> r.message.None?
    ensures r.message.Some? ==> r.message.value != ""
  {
    match outcome
    case Responded(ok) =>
      if ok then SubmissionResult(true, None)
      else SubmissionResult(false, Some(RejectedMessage))
    case FetchRejected => SubmissionResult(false, Some(NetworkErrorMessage))
  }

  /** A rejected response and a transport failure are told apart by their messages. */
  lemma FailuresDistinguished()
    ensures SubmitNotification(Responded(false)).message == Some("Failed to submit. Please try again.")
    ensures SubmitNotification(FetchRejected).message == Some("Network error. Please try again.")
    ensures SubmitNotification(Responded(false)) != SubmitNotification(FetchRejected)
  {
  }
}
