/** The registration page as the submit handler sees it: the button, the
    result line, the form's inputs and labels, and a log of what the handler
    has asked the outside world to do. */
module Page {
  import opened Net
  import opened PieAssignment
  import opened EmailCheck
  import opened EmailAlerts
  import opened Registration
  import opened SubmitFlow

  lemma AppendAssociates<T>(a: seq<T>, b: seq<T>, c: seq<T>)
    ensures a + b + c == a + (b + c)
  {
  }

  /** The page the handler works on. */
  class RegistrationPage {
    var buttonDisabled: bool
    var buttonLabel: string
    var buttonOpacity: string
    var buttonCursor: string
    var buttonHidden: bool
    var resultText: string
    var resultShown: bool
    /** Whether each text or email input of the form is displayed. */
    const inputShown: array<bool>
    /** Whether each label of the form is displayed. */
    const labelShown: array<bool>
    var effects: seq<Effect>

    ghost var phase: Phase
    /** The button's label as the page was loaded. */
    ghost const originalLabel: string

    ghost predicate FieldsShown()
      reads this, inputShown, labelShown
    {
      (forall k :: 0 <= k < inputShown.Length ==> inputShown[k])
      && (forall k :: 0 <= k < labelShown.Length ==> labelShown[k])
    }

    ghost predicate FieldsHidden()
      reads this, inputShown, labelShown
    {
      (forall k :: 0 <= k < inputShown.Length ==> !inputShown[k])
      && (forall k :: 0 <= k < labelShown.Length ==> !labelShown[k])
    }

    /** Between submissions the page is either idle, with the form usable, or
        in one of the two final phases, with the form gone for good. */
    ghost predicate Valid()
      reads this, inputShown, labelShown
    {
      phase != Submitting
      && (phase == Idle ==>
            !buttonDisabled && !buttonHidden && buttonLabel == originalLabel && FieldsShown())
      && (phase != Idle ==>
            buttonDisabled && buttonHidden && buttonLabel == ProcessingLabel && FieldsHidden() && resultShown)
    }

    /** The page as loaded: the button enabled with its label and no inline
        style, every input and label shown, an empty result line. */
    constructor (buttonText: string, inputCount: nat, labelCount: nat)
      ensures Valid() && phase == Idle && originalLabel == buttonText
      ensures buttonOpacity == "" && buttonCursor == "" && resultText == "" && !resultShown
      ensures inputShown.Length == inputCount && labelShown.Length == labelCount
      ensures fresh(inputShown) && fresh(labelShown)
      ensures effects == []
    {
      buttonDisabled, buttonLabel, buttonHidden := false, buttonText, false;
      buttonOpacity, buttonCursor := "", "";
      resultText, resultShown := "", false;
      inputShown := new bool[inputCount](_ => true);
      labelShown := new bool[labelCount](_ => true);
      effects := [];
      phase := Idle;
      originalLabel := buttonText;
    }

    /** `hideFormElements`: hide the button, then every input, then every label. */
    method HideFormElements()
      modifies this`buttonHidden, this`effects, inputShown, labelShown
      ensures buttonHidden && FieldsHidden()
      ensures effects == old(effects) + [HideForm]
    {
      buttonHidden := true;
      for i := 0 to inputShown.Length
        invariant buttonHidden && effects == old(effects)
        invariant forall k :: 0 <= k < i ==> !inputShown[k]
      {
        inputShown[i] := false;
      }
      for i := 0 to labelShown.Length
        invariant buttonHidden && effects == old(effects)
        invariant forall k :: 0 <= k < inputShown.Length ==> !inputShown[k]
        invariant forall k :: 0 <= k < i ==> !labelShown[k]
      {
        labelShown[i] := false;
      }
      effects := effects + [HideForm];
    }

    /** `sendEmail`, up to the point where it hands over to EmailJS. */
    method SendEmail(email: string, firstName: string, lastName: string, pieType: string, mail: EmailService)
      modifies this`effects
      ensures effects == old(effects) + SendEmailTrace(email, firstName, lastName, pieType, mail)
    {
      if mail == Ready {
        var params := ParamsFor(email, firstName, lastName, pieType);
        effects := effects + [RequestSend(params)];
      } else {
        effects := effects + [Alert(UnavailableAlert)];
      }
    }

    /** `saveToGoogleSheets`: post the new row without waiting for it. */
    method SaveToGoogleSheets(firstName: string, lastName: string, email: string, pieType: string)
      modifies this`effects
      ensures effects == old(effects) + [PostRecord(RecordFor(firstName, lastName, email, pieType))]
    {
      var data := RecordFor(firstName, lastName, email, pieType);
      effects := effects + [PostRecord(data)];
    }

    /** The opening lines of the handler: disable the button, show the
        processing label and the disabled style, then ask the store. */
    method BeginSubmission(email: string)
      modifies this`buttonDisabled, this`buttonLabel, this`buttonOpacity, this`buttonCursor
      modifies this`phase, this`effects
      ensures buttonDisabled && buttonLabel == ProcessingLabel
      ensures buttonOpacity == "0.6" && buttonCursor == "not-allowed"
      ensures phase == Submitting
      ensures effects == old(effects) + [DisableButton(ProcessingLabel), RequestCheck(email)]
    {
      buttonDisabled := true;
      buttonLabel := ProcessingLabel;
      buttonOpacity := "0.6";
      buttonCursor := "not-allowed";
      phase := Submitting;
      effects := effects + [DisableButton(ProcessingLabel), RequestCheck(email)];
    }

    /** The catch block: give the button back its label and style and alert. */
    method RecoverFromError(originalButtonText: string)
      modifies this`buttonDisabled, this`buttonLabel, this`buttonOpacity, this`buttonCursor
      modifies this`phase, this`effects
      ensures !buttonDisabled && buttonLabel == originalButtonText
      ensures buttonOpacity == "1" && buttonCursor == "pointer"
      ensures phase == Idle
      ensures effects == old(effects) + [EnableButton(originalButtonText), Alert(RetryAlert)]
    {
      buttonDisabled := false;
      buttonLabel := originalButtonText;
      buttonOpacity := "1";
      buttonCursor := "pointer";
      effects := effects + [EnableButton(originalButtonText), Alert(RetryAlert)];
      phase := Idle;
    }

    /** The duplicate branch: show the stored pie and hide the form. */
    method ShowExisting(pieType: Option<string>)
      modifies this`resultText, this`resultShown, this`buttonHidden, this`phase, this`effects
      modifies inputShown, labelShown
      ensures resultText == DuplicateText(pieType) && resultShown
      ensures buttonHidden && FieldsHidden()
      ensures phase == DuplicateShown
      ensures effects == old(effects) + [ShowResult(DuplicateText(pieType)), HideForm]
    {
      resultText := DuplicateText(pieType);
      resultShown := true;
      effects := effects + [ShowResult(resultText)];
      HideFormElements();
      phase := DuplicateShown;
    }

    /** The new-registration branch: ask for the counts, show the assigned
        pie, hide the form, send the email, save the row, reset the form. */
    method RegisterNew(firstName: string, lastName: string, email: string,
                       counts: Fetch<CountsJson>, mail: EmailService)
      modifies this`resultText, this`resultShown, this`buttonHidden, this`phase, this`effects
      modifies inputShown, labelShown
      ensures resultText == AssignedText(AssignPieType(counts).Name()) && resultShown
      ensures buttonHidden && FieldsHidden()
      ensures phase == AssignedShown
      ensures effects == old(effects) + [RequestCounts]
                + NewRegistrationSteps(firstName, lastName, email, AssignPieType(counts).Name(), mail)
    {
      ghost var before := effects;
      effects := effects + [RequestCounts];
      var pieType := AssignPieType(counts).Name();
      resultText := AssignedText(pieType);
      resultShown := true;
      effects := effects + [ShowResult(resultText)];
      HideFormElements();
      ghost var shown := effects;
      SendEmail(email, firstName, lastName, pieType, mail);
      ghost var mailed := effects;
      SaveToGoogleSheets(firstName, lastName, email, pieType);
      effects := effects + [ResetForm];
      phase := AssignedShown;
      ghost var mailing := SendEmailTrace(email, firstName, lastName, pieType, mail);
      ghost var tail := [PostRecord(RecordFor(firstName, lastName, email, pieType)), ResetForm];
      assert effects == mailed + tail;
      AppendAssociates(shown, mailing, tail);
      assert shown == before + [RequestCounts] + [ShowResult(resultText), HideForm];
      AppendAssociates(before + [RequestCounts], [ShowResult(resultText), HideForm], mailing + tail);
      AppendAssociates(before, [RequestCounts], [ShowResult(resultText), HideForm] + (mailing + tail));
      AppendAssociates([ShowResult(resultText), HideForm], mailing, tail);
    }

    /** The handler after the check has yielded `emailExists`: the catch
        block, the duplicate branch or the new registration. */
    method Respond(originalButtonText: string, firstName: string, lastName: string, email: string,
                   emailExists: CheckJson, counts: Fetch<CountsJson>, mail: EmailService)
      requires phase == Submitting && originalButtonText == originalLabel
      requires buttonDisabled && buttonLabel == ProcessingLabel && !buttonHidden && FieldsShown()
      modifies this, inputShown, labelShown
      ensures Valid()
      ensures effects == old(effects) + Outcome(originalButtonText, firstName, lastName, email,
                                                 DecideOn(emailExists, counts), mail)
      ensures phase == PhaseAfter(DecideOn(emailExists, counts))
      ensures DecideOn(emailExists, counts).Retry? ==>
                !buttonDisabled && buttonLabel == originalButtonText
                && buttonOpacity == "1" && buttonCursor == "pointer"
                && buttonHidden == old(buttonHidden) && unchanged(inputShown, labelShown)
                && resultText == old(resultText) && resultShown == old(resultShown)
      ensures !DecideOn(emailExists, counts).Retry? ==>
                buttonDisabled == old(buttonDisabled) && buttonLabel == old(buttonLabel)
                && buttonOpacity == old(buttonOpacity) && buttonCursor == old(buttonCursor)
                && buttonHidden && FieldsHidden() && resultShown
      ensures DecideOn(emailExists, counts).ShowDuplicate? ==>
                resultText == DuplicateText(emailExists.pieType)
      ensures DecideOn(emailExists, counts).ShowAssigned? ==>
                resultText == AssignedText(AssignPieType(counts).Name())
    {
      if emailExists.JNull? {
        // Reading `exists` of null throws; this is the catch block.
        RecoverFromError(originalButtonText);
        return;
      }
      if emailExists.JObject? && emailExists.existsFlag {
        ShowExisting(emailExists.pieType);
        return;
      }
      AppendAssociates(effects, [RequestCounts],
                       NewRegistrationSteps(firstName, lastName, email, AssignPieType(counts).Name(), mail));
      RegisterNew(firstName, lastName, email, counts, mail);
    }

    /** The submit handler, run to completion with the answers the network
        gives it. */
    method Submit(firstName: string, lastName: string, email: string,
                  check: Fetch<CheckJson>, counts: Fetch<CountsJson>, mail: EmailService)
      requires Valid() && phase == Idle
      modifies this, inputShown, labelShown
      ensures Valid()
      ensures phase == PhaseAfter(Decide(check, counts))
      ensures effects == old(effects) + SubmitTrace(originalLabel, firstName, lastName, email, check, counts, mail)
      ensures !buttonDisabled <==> Decide(check, counts).Retry?
      ensures Decide(check, counts).Retry? ==>
                buttonLabel == old(buttonLabel) && buttonOpacity == "1" && buttonCursor == "pointer"
                && !buttonHidden && FieldsShown()
                && resultText == old(resultText) && resultShown == old(resultShown)
      ensures !Decide(check, counts).Retry? ==>
                buttonLabel == ProcessingLabel && buttonHidden && FieldsHidden() && resultShown
      ensures Decide(check, counts).ShowDuplicate? ==>
                buttonOpacity == "0.6" && buttonCursor == "not-allowed"
                && resultText == DuplicateText(Decide(check, counts).pieType)
      ensures Decide(check, counts).ShowAssigned? ==>
                buttonOpacity == "0.6" && buttonCursor == "not-allowed"
                && resultText == AssignedText(Decide(check, counts).pie.Name())
    {
      ghost var before := effects;
      ghost var d := Decide(check, counts);
      ghost var start := [DisableButton(ProcessingLabel), RequestCheck(email)];
      ghost var rest := Outcome(originalLabel, firstName, lastName, email, d, mail);
      assert SubmitTrace(originalLabel, firstName, lastName, email, check, counts, mail) == start + rest;
      AppendAssociates(before, start, rest);
      var originalButtonText := buttonLabel;
      BeginSubmission(email);
      var emailExists := CheckEmailExists(check);
      assert d == DecideOn(emailExists, counts);
      Respond(originalButtonText, firstName, lastName, email, emailExists, counts, mail);
    }

    /** A press of the submit button (or Enter in a field, which clicks it):
        the browser ignores it while the button is disabled. */
    method Press(firstName: string, lastName: string, email: string,
                 check: Fetch<CheckJson>, counts: Fetch<CountsJson>, mail: EmailService)
      requires Valid()
      modifies this, inputShown, labelShown
      ensures Valid()
      ensures old(buttonDisabled) ==> unchanged(this) && unchanged(inputShown) && unchanged(labelShown)
      ensures !old(buttonDisabled) ==>
                phase == PhaseAfter(Decide(check, counts))
                && effects == old(effects) + SubmitTrace(originalLabel, firstName, lastName, email, check, counts, mail)
                && (!buttonDisabled <==> Decide(check, counts).Retry?)
      ensures !old(buttonDisabled) && Decide(check, counts).Retry? ==>
                buttonLabel == old(buttonLabel) && buttonOpacity == "1" && buttonCursor == "pointer"
                && !buttonHidden && FieldsShown()
                && resultText == old(resultText) && resultShown == old(resultShown)
      ensures !old(buttonDisabled) && !Decide(check, counts).Retry? ==>
                buttonLabel == ProcessingLabel && buttonHidden && FieldsHidden() && resultShown
                && buttonOpacity == "0.6" && buttonCursor == "not-allowed"
      ensures !old(buttonDisabled) && Decide(check, counts).ShowDuplicate? ==>
                resultText == DuplicateText(Decide(check, counts).pieType)
      ensures !old(buttonDisabled) && Decide(check, counts).ShowAssigned? ==>
                resultText == AssignedText(Decide(check, counts).pie.Name())
    {
      if !buttonDisabled {
        Submit(firstName, lastName, email, check, counts, mail);
      }
    }
  }
}
