/** The specification of the registration form's submit handler: which branch
    it takes for given network answers, and the effects it has, in order, on
    the page and on the outside world. The page itself is in module Page. */
module SubmitFlow {
  import opened Net
  import opened PieAssignment
  import opened EmailCheck
  import opened EmailAlerts
  import opened Registration

  const ProcessingLabel := "Processing..."
  const RetryAlert := "Something went wrong. Please try again."

  /** One observable step of the handler, in the order it happens. */
  datatype Effect =
    | DisableButton(buttonText: string)   // button disabled, relabelled and dimmed
    | RequestCheck(email: string)         // GET ?action=checkEmail
    | RequestCounts                       // GET ?action=getPieCounts
    | ShowResult(text: string)            // result line written and shown
    | HideForm                            // button, inputs and labels hidden
    | RequestSend(params: TemplateParams) // emailjs.send
    | Alert(message: string)              // window.alert
    | PostRecord(record: SavedRecord)     // POST of the new row
    | ResetForm                           // form.reset()
    | EnableButton(buttonText: string)    // button re-enabled with its old label
  {
    /** The steps that go out over the network. */
    predicate IsRequest() {
      RequestCheck? || RequestCounts? || RequestSend? || PostRecord?
    }
  }

  /** Which way the handler goes once the check (and, on a new registration,
      the counts) have answered. */
  datatype Decision = Retry | ShowDuplicate(pieType: Option<string>) | ShowAssigned(pie: Pie)

  datatype Phase = Idle | Submitting | DuplicateShown | AssignedShown

  /** The branch the handler takes on the value the check yields: the catch
      block on `null` (reading `exists` of null throws), the duplicate
      message when `exists` is true, a new registration otherwise. */
  function DecideOn(emailExists: CheckJson, counts: Fetch<CountsJson>): (d: Decision)
    ensures d.Retry? <==> emailExists.JNull?
    ensures d.ShowDuplicate? <==> emailExists.JObject? && emailExists.existsFlag
    ensures d.ShowDuplicate? ==> d.pieType == emailExists.pieType
    ensures d.ShowAssigned? ==> d.pie == AssignPieType(counts)
  {
    if emailExists.JNull? then Retry
    else if emailExists.JObject? && emailExists.existsFlag then ShowDuplicate(emailExists.pieType)
    else ShowAssigned(AssignPieType(counts))
  }

  /** The branch the handler takes on the answers of the network. A check
      that could not be made, or that answered with an HTML page, never stops
      a registration. */
  function Decide(check: Fetch<CheckJson>, counts: Fetch<CountsJson>): (d: Decision)
    ensures check.NetworkError? ==> d == ShowAssigned(AssignPieType(counts))
    ensures check.Received? && LooksLikeHtml(check.text) ==> d == ShowAssigned(AssignPieType(counts))
  {
    DecideOn(CheckEmailExists(check), counts)
  }

  /** The text `${emailExists.pieType}` produces: the stored string, or
      "undefined" when the field is missing. */
  function PieTypeText(pieType: Option<string>): (r: string)
    ensures pieType.Some? ==> r == pieType.value
    ensures pieType.None? ==> r == "undefined"
  {
    if pieType.Some? then pieType.value else "undefined"
  }

  const DuplicatePrefix := "Already Submitted. " + "Your Pie is "
  const AssignedPrefix := "You are bringing a "

  /** The result line for a known email. */
  function DuplicateText(pieType: Option<string>): (r: string)
    ensures |r| == |DuplicatePrefix| + |PieTypeText(pieType)| + 1
  {
    DuplicatePrefix + PieTypeText(pieType) + "."
  }

  /** The stored pie can be read back from the duplicate result line,
      between the fixed prefix and the final full stop. */
  lemma DuplicateTextShowsPie(pieType: Option<string>)
    ensures var r := DuplicateText(pieType);
      && r[..|DuplicatePrefix|] == DuplicatePrefix && r[|r| - 1] == '.'
      && r[|DuplicatePrefix|..|r| - 1] == PieTypeText(pieType)
  {
    var r := DuplicateText(pieType);
    assert r == DuplicatePrefix + PieTypeText(pieType) + ".";
  }

  /** The result line for a new registrant. */
  function AssignedText(pieType: string): (r: string)
    ensures |r| == |AssignedPrefix| + |pieType| + 4
  {
    AssignedPrefix + pieType + " pie"
  }

  /** The assigned pie can be read back from the result line, between the
      fixed prefix and " pie"; so different pies give different lines. */
  lemma AssignedTextShowsPie(pieType: string, other: string)
    ensures var r := AssignedText(pieType);
      && r[..|AssignedPrefix|] == AssignedPrefix && r[|r| - 4..] == " pie"
      && r[|AssignedPrefix|..|r| - 4] == pieType
    ensures AssignedText(pieType) == AssignedText(other) ==> pieType == other
  {
    var r, q := AssignedText(pieType), AssignedText(other);
    assert r == AssignedPrefix + pieType + " pie";
    assert q == AssignedPrefix + other + " pie";
    assert q[|AssignedPrefix|..|q| - 4] == other;
  }

  function PhaseAfter(d: Decision): Phase {
    match d
    case Retry => Idle
    case ShowDuplicate(_) => DuplicateShown
    case ShowAssigned(_) => AssignedShown
  }

  /** What `sendEmail` does at once: ask EmailJS to send, or alert that it
      cannot. */
  function SendEmailTrace(email: string, firstName: string, lastName: string, pieType: string,
                          mail: EmailService): (r: seq<Effect>)
    ensures |r| == 1
    ensures r[0].RequestSend? <==> mail == Ready
    ensures r[0].RequestSend? ==> r[0].params == ParamsFor(email, firstName, lastName, pieType)
    ensures !r[0].RequestSend? ==> r[0] == Alert(UnavailableAlert)
  {
    match ServiceAlert(mail)
    case None => [RequestSend(ParamsFor(email, firstName, lastName, pieType))]
    case Some(message) => [Alert(message)]
  }

  /** What the handler does after the check on a new registration, once the
      counts have been asked for and the pie is known. */
  function NewRegistrationSteps(firstName: string, lastName: string, email: string, pieType: string,
                                mail: EmailService): seq<Effect>
  {
    [ShowResult(AssignedText(pieType)), HideForm]
    + SendEmailTrace(email, firstName, lastName, pieType, mail)
    + [PostRecord(RecordFor(firstName, lastName, email, pieType)), ResetForm]
  }

  /** What the handler does after the check, once it has taken decision `d`.
      `buttonText` is the button's label when the form was submitted. */
  function Outcome(buttonText: string, firstName: string, lastName: string, email: string,
                   d: Decision, mail: EmailService): seq<Effect>
  {
    match d
    case Retry => [EnableButton(buttonText), Alert(RetryAlert)]
    case ShowDuplicate(pieType) => [ShowResult(DuplicateText(pieType)), HideForm]
    case ShowAssigned(pie) => [RequestCounts] + NewRegistrationSteps(firstName, lastName, email, pie.Name(), mail)
  }

  /** Everything a run of the handler does once it has taken decision `d`. */
  function RunTrace(buttonText: string, firstName: string, lastName: string, email: string,
                    d: Decision, mail: EmailService): seq<Effect>
  {
    [DisableButton(ProcessingLabel), RequestCheck(email)] + Outcome(buttonText, firstName, lastName, email, d, mail)
  }

  /** Everything one run of the handler does, in order. */
  function SubmitTrace(buttonText: string, firstName: string, lastName: string, email: string,
                       check: Fetch<CheckJson>, counts: Fetch<CountsJson>, mail: EmailService): (r: seq<Effect>)
    ensures |r| >= 4
    ensures r[0] == DisableButton(ProcessingLabel) && r[1] == RequestCheck(email)
  {
    RunTrace(buttonText, firstName, lastName, email, Decide(check, counts), mail)
  }

  /** Fail open: the handler registers anew whenever the check could not be
      made or did not answer in JSON; it shows a duplicate only when the
      store answered that the email exists, and falls into its catch block
      only when the store answered `null`. */
  lemma DecisionFailsOpen(check: Fetch<CheckJson>, counts: Fetch<CountsJson>)
    ensures check.NetworkError? || LooksLikeHtml(check.text) || check.parsed.ParseError?
            ==> Decide(check, counts) == ShowAssigned(AssignPieType(counts))
    ensures Decide(check, counts).ShowDuplicate? <==>
            check.Received? && !LooksLikeHtml(check.text) && check.parsed.Parsed?
            && check.parsed.value.JObject? && check.parsed.value.existsFlag
    ensures Decide(check, counts).Retry? <==>
            check.Received? && !LooksLikeHtml(check.text) && check.parsed == Parsed(JNull)
  {
    OnlyTheStoreCanReportExisting(check);
    NullOnlyFromTheStore(check);
  }

  /** The button is disabled and relabelled before the first request, and
      nothing re-enables it before any later request. */
  lemma ButtonDisabledBeforeAnyRequest(buttonText: string, firstName: string, lastName: string, email: string,
                                       d: Decision, mail: EmailService)
    ensures var t := RunTrace(buttonText, firstName, lastName, email, d, mail);
      t[0] == DisableButton(ProcessingLabel) && !t[0].IsRequest()
      && forall i :: 0 <= i < |t| && t[i].IsRequest() ==>
           0 < i && forall j :: 0 <= j < i ==> !t[j].EnableButton?
  {
    var t := RunTrace(buttonText, firstName, lastName, email, d, mail);
    OnlyTheCatchReenables(buttonText, firstName, lastName, email, d, mail);
    if d.Retry? {
      assert t == [DisableButton(ProcessingLabel), RequestCheck(email), EnableButton(buttonText), Alert(RetryAlert)];
    }
  }

  /** An email the store already knows: the stored pie is shown and the form
      hidden, nothing is requested after the check, and the outcome does not
      depend on what the counts or the email service would have answered. */
  lemma DuplicateStopsAtTheCheck(buttonText: string, firstName: string, lastName: string, email: string,
                                 pieType: Option<string>, mail: EmailService, otherMail: EmailService,
                                 check: Fetch<CheckJson>, counts: Fetch<CountsJson>, otherCounts: Fetch<CountsJson>)
    ensures var t := RunTrace(buttonText, firstName, lastName, email, ShowDuplicate(pieType), mail);
      && ShowResult(DuplicateText(pieType)) in t
      && HideForm in t
      && (forall e :: e in t && e.IsRequest() ==> e == RequestCheck(email))
      && (forall e :: e in t ==> !e.Alert? && !e.EnableButton?)
      && t == RunTrace(buttonText, firstName, lastName, email, ShowDuplicate(pieType), otherMail)
    ensures Decide(check, counts).ShowDuplicate? ==> Decide(check, counts) == Decide(check, otherCounts)
  {
  }

  /** The effects of a new registration, one by one. */
  lemma NewRegistrationTrace(buttonText: string, firstName: string, lastName: string, email: string,
                             pie: Pie, mail: EmailService)
    ensures RunTrace(buttonText, firstName, lastName, email, ShowAssigned(pie), mail)
            == [DisableButton(ProcessingLabel), RequestCheck(email), RequestCounts,
                ShowResult(AssignedText(pie.Name())), HideForm,
                if mail == Ready then RequestSend(ParamsFor(email, firstName, lastName, pie.Name()))
                else Alert(UnavailableAlert),
                PostRecord(RecordFor(firstName, lastName, email, pie.Name())), ResetForm]
  {
    NewRegistrationSplit(buttonText, firstName, lastName, email, pie, mail);
  }

  /** A new registration's trace: five fixed effects, what `sendEmail` does,
      then the saved row and the reset. */
  lemma NewRegistrationSplit(buttonText: string, firstName: string, lastName: string, email: string,
                             pie: Pie, mail: EmailService)
    ensures RunTrace(buttonText, firstName, lastName, email, ShowAssigned(pie), mail)
            == [DisableButton(ProcessingLabel), RequestCheck(email), RequestCounts,
                ShowResult(AssignedText(pie.Name())), HideForm]
               + SendEmailTrace(email, firstName, lastName, pie.Name(), mail)
               + [PostRecord(RecordFor(firstName, lastName, email, pie.Name())), ResetForm]
  {
  }

  /** A new registration fetches the counts, shows the assigned pie and no
      other result, and hides the form. */
  lemma NewRegistrationShowsAssigned(buttonText: string, firstName: string, lastName: string, email: string,
                                     pie: Pie, mail: EmailService)
    ensures var t := RunTrace(buttonText, firstName, lastName, email, ShowAssigned(pie), mail);
      && RequestCounts in t && HideForm in t
      && ShowResult(AssignedText(pie.Name())) in t
      && (forall e :: e in t && e.ShowResult? ==> e == ShowResult(AssignedText(pie.Name())))
  {
    NewRegistrationSplit(buttonText, firstName, lastName, email, pie, mail);
    var m := SendEmailTrace(email, firstName, lastName, pie.Name(), mail)[0];
    assert SendEmailTrace(email, firstName, lastName, pie.Name(), mail) == [m];
    assert RunTrace(buttonText, firstName, lastName, email, ShowAssigned(pie), mail)
           == [DisableButton(ProcessingLabel), RequestCheck(email), RequestCounts,
               ShowResult(AssignedText(pie.Name())), HideForm, m,
               PostRecord(RecordFor(firstName, lastName, email, pie.Name())), ResetForm];
  }

  /** A new registration saves exactly one row, and that row carries the pie
      that was shown. */
  lemma NewRegistrationSavesOnce(buttonText: string, firstName: string, lastName: string, email: string,
                                 pie: Pie, mail: EmailService)
    ensures var t := RunTrace(buttonText, firstName, lastName, email, ShowAssigned(pie), mail);
      var row := RecordFor(firstName, lastName, email, pie.Name());
      && PostRecord(row) in t
      && (forall e :: e in t && e.PostRecord? ==> e == PostRecord(row))
      && (forall i, j :: 0 <= i < j < |t| && t[i].PostRecord? ==> !t[j].PostRecord?)
  {
    var row := RecordFor(firstName, lastName, email, pie.Name());
    var head := [DisableButton(ProcessingLabel), RequestCheck(email), RequestCounts,
                 ShowResult(AssignedText(pie.Name())), HideForm]
                + SendEmailTrace(email, firstName, lastName, pie.Name(), mail);
    NewRegistrationSplit(buttonText, firstName, lastName, email, pie, mail);
    assert head + [PostRecord(row), ResetForm] == head + [PostRecord(row)] + [ResetForm];
    AtMostOneBetween(head, [PostRecord(row)], [ResetForm], (e: Effect) => e.PostRecord?);
  }

  /** A new registration asks EmailJS exactly once, with the pie that was
      shown, when it is usable, and not at all otherwise. */
  lemma NewRegistrationMailsOnce(buttonText: string, firstName: string, lastName: string, email: string,
                                 pie: Pie, mail: EmailService)
    ensures var t := RunTrace(buttonText, firstName, lastName, email, ShowAssigned(pie), mail);
      var params := ParamsFor(email, firstName, lastName, pie.Name());
      && (mail == Ready ==> RequestSend(params) in t)
      && (forall e :: e in t && e.RequestSend? ==> mail == Ready && e == RequestSend(params))
      && (forall i, j :: 0 <= i < j < |t| && t[i].RequestSend? ==> !t[j].RequestSend?)
  {
    var head := [DisableButton(ProcessingLabel), RequestCheck(email), RequestCounts,
                 ShowResult(AssignedText(pie.Name())), HideForm];
    var mailing := SendEmailTrace(email, firstName, lastName, pie.Name(), mail);
    var tail := [PostRecord(RecordFor(firstName, lastName, email, pie.Name())), ResetForm];
    NewRegistrationSplit(buttonText, firstName, lastName, email, pie, mail);
    if mail == Ready {
      assert mailing == [RequestSend(ParamsFor(email, firstName, lastName, pie.Name()))];
    } else {
      assert mailing == [Alert(UnavailableAlert)];
    }
    AtMostOneBetween(head, mailing, tail, (e: Effect) => e.RequestSend?);
  }

  /** The only alert a new registration raises at once says that EmailJS is
      missing, and it is raised exactly when EmailJS is not usable. */
  lemma NewRegistrationAlertsOnlyUnavailable(buttonText: string, firstName: string, lastName: string, email: string,
                                             pie: Pie, mail: EmailService)
    ensures var t := RunTrace(buttonText, firstName, lastName, email, ShowAssigned(pie), mail);
      && (mail != Ready ==> Alert(UnavailableAlert) in t)
      && (forall e :: e in t && e.Alert? ==> mail != Ready && e == Alert(UnavailableAlert))
  {
    NewRegistrationSplit(buttonText, firstName, lastName, email, pie, mail);
    var mailing := SendEmailTrace(email, firstName, lastName, pie.Name(), mail);
    assert mail == Ready ==> mailing == [RequestSend(ParamsFor(email, firstName, lastName, pie.Name()))];
  }

  /** In `a + b + c`, where `b` is a single effect and no effect of `a` or `c`
      has property `p`, no two effects have `p`. */
  lemma AtMostOneBetween(a: seq<Effect>, b: seq<Effect>, c: seq<Effect>, p: Effect -> bool)
    requires |b| == 1
    requires forall e :: e in a ==> !p(e)
    requires forall e :: e in c ==> !p(e)
    ensures var t := a + b + c; forall i, j :: 0 <= i < j < |t| && p(t[i]) ==> !p(t[j])
  {
    var t := a + b + c;
    assert forall k :: 0 <= k < |a| ==> t[k] == a[k];
    assert forall k :: |a| < k < |t| ==> t[k] == c[k - |a| - 1];
  }

  /** Only the catch block re-enables the button, with the label it had; it
      then makes no request after the check and raises the retry alert. */
  lemma OnlyTheCatchReenables(buttonText: string, firstName: string, lastName: string, email: string,
                              d: Decision, mail: EmailService)
    ensures var t := RunTrace(buttonText, firstName, lastName, email, d, mail);
      && ((exists e :: e in t && e.EnableButton?) <==> d.Retry?)
      && (forall e :: e in t && e.EnableButton? ==> e == EnableButton(buttonText))
      && (d.Retry? ==>
            (forall e :: e in t && e.IsRequest() ==> e == RequestCheck(email))
            && (forall e :: e in t && e.Alert? ==> e == Alert(RetryAlert)))
  {
    match d
    case Retry =>
      RetryTrace(buttonText, firstName, lastName, email, mail);
      assert RunTrace(buttonText, firstName, lastName, email, d, mail)[2] == EnableButton(buttonText);
    case ShowDuplicate(pieType) =>
      assert RunTrace(buttonText, firstName, lastName, email, d, mail)
          == [DisableButton(ProcessingLabel), RequestCheck(email), ShowResult(DuplicateText(pieType)), HideForm];
    case ShowAssigned(pie) =>
      NewRegistrationTrace(buttonText, firstName, lastName, email, pie, mail);
  }

  /** The catch block's trace, one by one. */
  lemma RetryTrace(buttonText: string, firstName: string, lastName: string, email: string, mail: EmailService)
    ensures RunTrace(buttonText, firstName, lastName, email, Retry, mail)
            == [DisableButton(ProcessingLabel), RequestCheck(email), EnableButton(buttonText), Alert(RetryAlert)]
  {
  }
}
