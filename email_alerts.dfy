/** The alerts of `sendEmail`: what the registrant is told about the
    confirmation email, depending on whether EmailJS is usable and on how the
    send completed. */
module EmailAlerts {
  import opened Net
  import JsText

  /** The state of the EmailJS global when `sendEmail` runs. */
  datatype EmailService = NotLoaded | SendMissing | Ready

  /** How an `emailjs.send` promise settled; a rejection carries its `status`
      field, which may be missing. */
  datatype Delivery = Delivered | Rejected(status: Option<int>)

  // The literals are split so that the verifier can read the characters
  // that tell two messages apart.
  const SavedPrefix := "Registration saved! "
  const CompleteAlert := "Registration complete! " + "Check your email for confirmation."
  const TemplateErrorAlert := SavedPrefix + "Email template error (422). " + "Check your EmailJS template variables."
  const BadRequestAlert := SavedPrefix + "Bad request (400). " + "Check your service/template IDs."
  const UnauthorizedAlert := SavedPrefix + "Unauthorized (401). " + "Check your EmailJS public key."
  const FailedPrefix := SavedPrefix + "Email failed to send. Error: "
  const UnavailableAlert := SavedPrefix + "Email service unavailable."

  /** The text `${error.status}` produces: "undefined" exactly when the
      status is missing, otherwise the status in decimal. */
  function StatusText(status: Option<int>): (r: string)
    ensures r == "undefined" <==> status.None?
    ensures |r| >= 1 && (status.Some? ==> (r[0] == '-' <==> status.value < 0))
  {
    match status
    case None => "undefined"
    case Some(code) => JsText.IntToDecimal(code)
  }

  /** The alert for a rejected send. */
  function FailureAlert(status: Option<int>): (msg: string)
    ensures status == Some(422) ==> msg == TemplateErrorAlert
    ensures status == Some(400) ==> msg == BadRequestAlert
    ensures status == Some(401) ==> msg == UnauthorizedAlert
    ensures status !in {Some(422), Some(400), Some(401)} ==> msg == FailedPrefix + StatusText(status)
  {
    if status == Some(422) then TemplateErrorAlert
    else if status == Some(400) then BadRequestAlert
    else if status == Some(401) then UnauthorizedAlert
    else FailedPrefix + StatusText(status)
  }

  /** The alert shown when the send promise settles: the success message,
      or the failure alert for the rejection's status. */
  function CompletionAlert(d: Delivery): (msg: string)
    ensures d.Delivered? ==> msg == CompleteAlert
    ensures d.Rejected? ==> msg == FailureAlert(d.status)
  {
    match d
    case Delivered => CompleteAlert
    case Rejected(status) => FailureAlert(status)
  }

  /** The alert `sendEmail` raises at once, before any send, when EmailJS or
      its `send` function is missing; None when it goes on to send. */
  function ServiceAlert(service: EmailService): (alert: Option<string>)
    ensures alert.None? <==> service == Ready
    ensures alert.Some? ==> alert.value == UnavailableAlert
  {
    if service == Ready then None else Some(UnavailableAlert)
  }

  lemma StatusTextInjective(a: Option<int>, b: Option<int>)
    ensures StatusText(a) == StatusText(b) ==> a == b
  {
    if a.Some? && b.Some? {
      JsText.IntToDecimalInjective(a.value, b.value);
    } else if a.Some? {
      assert StatusText(a)[0] == '-' || JsText.IsDigit(StatusText(a)[0]);
    } else if b.Some? {
      assert StatusText(b)[0] == '-' || JsText.IsDigit(StatusText(b)[0]);
    }
  }

  /** Every status gets its own message: 422, 400 and 401 each have a distinct
      one, and the generic message names the status, so no two statuses (or a
      status and a missing one) are reported alike. */
  lemma FailureAlertInjective(a: Option<int>, b: Option<int>)
    ensures FailureAlert(a) == FailureAlert(b) ==> a == b
  {
    var specific := {Some(422), Some(400), Some(401)};
    var ma, mb := FailureAlert(a), FailureAlert(b);
    if a !in specific && b !in specific {
      if ma == mb {
        assert ma[|FailedPrefix|..] == StatusText(a);
        assert mb[|FailedPrefix|..] == StatusText(b);
        StatusTextInjective(a, b);
      }
    } else {
      AlertTellsStatusClass(a);
      AlertTellsStatusClass(b);
    }
  }

  /** Characters 20 and 26 of a failure alert tell which of the four kinds of
      failure message it is. */
  lemma AlertTellsStatusClass(status: Option<int>)
    ensures var m := FailureAlert(status);
      |m| > 26 &&
      (status == Some(422) <==> m[20] == 'E' && m[26] == 't') &&
      (status == Some(400) <==> m[20] == 'B') &&
      (status == Some(401) <==> m[20] == 'U') &&
      (status !in {Some(422), Some(400), Some(401)} <==> m[20] == 'E' && m[26] == 'f')
  {
  }

  /** The completion alert tells the registrant whether the email went out
      and, when it did not, which status the rejection carried. */
  lemma CompletionAlertTellsOutcome(a: Delivery, b: Delivery)
    ensures CompletionAlert(a) == CompleteAlert <==> a.Delivered?
    ensures CompletionAlert(a) == CompletionAlert(b) ==> a == b
  {
    if a.Rejected? {
      FailureAlertsAreDistinct(a.status);
    }
    if b.Rejected? {
      FailureAlertsAreDistinct(b.status);
    }
    if a.Rejected? && b.Rejected? {
      FailureAlertInjective(a.status, b.status);
    }
  }

  /** Every failure is reported as "Registration saved!", never as the
      success message nor as the unavailability message. */
  lemma FailureAlertsAreDistinct(status: Option<int>)
    ensures FailureAlert(status)[..|SavedPrefix|] == SavedPrefix
    ensures FailureAlert(status) != CompleteAlert
    ensures FailureAlert(status) != UnavailableAlert
  {
    var m := FailureAlert(status);
    AlertTellsStatusClass(status);
    assert m[13] != CompleteAlert[13];
    assert m[26] != UnavailableAlert[26];
  }
}
