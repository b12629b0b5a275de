# Pie night registration: the submit flow of `script.js`

This project models the decision core of the pie-night registration page.
A registrant types a first name, a last name and an email and submits the form.
The page disables the button and asks the spreadsheet store whether the email is already registered.

- If the email is already registered, the page shows the pie the registrant was given before and hides the form.
- Otherwise the page reads the sweet and savory tallies and assigns the kind with fewer pies (sweet on a tie).
- It then shows the assignment, hides the form, asks EmailJS to send a confirmation and posts the new row to the store.
- An unexpected exception puts the button back and asks the registrant to try again.

The network, `JSON.parse` and the EmailJS global are inputs to the model.

- `Net.Fetch` is either a network error or the response text together with what `JSON.parse` made of it.
- `EmailAlerts.EmailService` says whether `emailjs` and `emailjs.send` exist.
- `String.prototype.trim` is modelled, on the ECMAScript white-space and line-terminator set, because the "looks like HTML" test depends on it.

Modules:

- `JsText`: `trim`, and the decimal text of an integer in a template literal.
- `PieAssignment`: `assignPieTypeFromSheet` and the running tally it balances.
- `EmailCheck`: `checkEmailExists`, which fails open.
- `EmailAlerts`: the alert texts of `sendEmail`.
- `Registration`: the saved row and the email template parameters.
- `SubmitFlow`: the submit handler as a trace of effects (`Effect`) over a decision (`Decision`), and the properties of that trace.
- `Page`: the class `RegistrationPage`.
  - Its fields are the button's disabled flag, label, opacity, cursor and visibility, the result line, and one array each for the display state of the inputs and of the labels.
  - It keeps a log `effects` of what the handler asked the outside world to do, in order.
  - Its `Submit` method is proved against `SubmitFlow.SubmitTrace` and keeps the invariant `Valid`: idle with the form usable, or finished with the form hidden for good.

The code spells the second pie two ways. The count field read from the store is `savoryCount` (script.js:198), and the log line says "Assigning savory pie" (script.js:202). The value returned and saved is "savoury" (script.js:203). The model follows the returned value: `Pie.Savoury.Name()` is `"savoury"`.

## Model

| member | source | states |
|---|---|---|
| JsText.TrimStart | script.js:144 | the result is a suffix of the input, everything removed is white space, and the result does not start with white space |
| JsText.TrimEnd | script.js:144 | the result is a prefix of the input, everything removed is white space, and the result does not end with white space |
| JsText.Trim | script.js:144 | the result is no longer than the input and neither starts nor ends with white space |
| JsText.TrimIsStretch | script.js:144 | `trim()` is the stretch of the input after its leading white space, and everything before and after that stretch is white space |
| JsText.NatToDecimal | script.js:279 | the text of a natural number is non-empty and made only of decimal digits |
| JsText.IntToDecimal | script.js:279 | the text of an integer is non-empty, starts with "-" exactly when the integer is negative, and is decimal digits after that sign |
| JsText.TrimKeepsFirstVisible | script.js:144 | `trim()` is empty exactly when the text is all white space; otherwise its first character is the text's first character that is not white space |
| JsText.DecimalRoundTrip | script.js:279 | reading back the decimal digits written for a natural number gives that number |
| JsText.IntToDecimalInjective | script.js:279 | two different integers never render as the same text |
| PieAssignment.CountsUnavailable | script.js:193-210 | the counts are usable exactly when the store answered with JSON that is an object (with or without the count fields) or some other non-null value; a network error, an unparseable body and `null` are not |
| PieAssignment.ChooseByCounts | script.js:198-204 | the chosen kind has a count no larger than the other kind's; equal counts give sweet |
| PieAssignment.AssignPieType | script.js:190-211 | a failed fetch, a non-JSON body or a `null` body gives sweet; two numeric counts give the kind chosen by `sweetCount <= savoryCount`; a missing count field or a non-object body gives savoury |
| PieAssignment.AssignedNameIsSweetOrSavoury | script.js:198-210 | the assigned string is always "sweet" or "savoury", and it is "sweet" exactly for `Sweet` |
| PieAssignment.RegistrationsStayBalanced | script.js:197-204 | registrations that each read the current tally keep the two kinds within one pie of each other, and each adds exactly one pie |
| PieAssignment.FromEmptySheet | script.js:197-204 | from an empty sheet, after n registrations there are ceil(n/2) sweet and floor(n/2) savoury pies |
| PieAssignment.ScenarioTallies | script.js:198-210 | 3/3 gives sweet, 4/3 gives savoury, 0/0 gives sweet, an unreachable store gives sweet |
| EmailCheck.LooksLikeHtmlNeedsAngle | script.js:144 | a text taken for HTML contains '<', and a text whose very first character is '<' is always taken for HTML |
| EmailCheck.FailOpen | script.js:146-168 | every failure answer is an object whose `exists` is false, with no pie and with the given message |
| EmailCheck.LooksLikeHtmlIffFirstVisibleIsAngle | script.js:144 | a response is taken for HTML exactly when its first character that is not white space is '<' |
| EmailCheck.CheckEmailExists | script.js:123-170 | a network error, an HTML-looking text and an unparseable text each give `{exists: false}` with their own message; otherwise the parsed value is returned unchanged |
| EmailCheck.OnlyTheStoreCanReportExisting | script.js:143-169 | the check reports an existing email if and only if the store answered, in JSON that does not look like HTML, an object whose `exists` is true |
| EmailCheck.NullOnlyFromTheStore | script.js:150-161 | the check yields `null` if and only if the store's answer was the JSON text `null`; every failure becomes an object |
| EmailAlerts.FailureAlert | script.js:271-280 | status 422, 400 and 401 each give their own message; any other status, or none, gives the generic message followed by the status text |
| EmailAlerts.ServiceAlert | script.js:243-289 | there is no immediate alert exactly when EmailJS and its `send` are both present; otherwise the alert is "Registration saved! Email service unavailable." |
| EmailAlerts.StatusText | script.js:279 | the text is "undefined" exactly when there is no status; otherwise it is non-empty and starts with "-" exactly for a negative status |
| EmailAlerts.CompletionAlert | script.js:259-281 | a delivered email gives the success alert; a rejected one gives the failure alert for its status |
| EmailAlerts.StatusTextInjective | script.js:279 | `${error.status}` tells apart every status, and tells a missing status from any number |
| EmailAlerts.FailureAlertInjective | script.js:271-280 | no two statuses, nor a status and a missing one, get the same failure alert |
| EmailAlerts.AlertTellsStatusClass | script.js:272-280 | fixed characters of the alert identify which of the four branches produced it |
| EmailAlerts.CompletionAlertTellsOutcome | script.js:259-281 | the success alert appears exactly when the send succeeded, and different outcomes give different alerts |
| EmailAlerts.FailureAlertsAreDistinct | script.js:262-284 | every failure alert begins "Registration saved! " and differs from both the success alert and the unavailability alert |
| Registration.RecordFor | script.js:298-304 | the saved row carries the name fields, email and pie as given, and the event date "Sunday October 5th 2025" |
| Registration.ParamsFor | script.js:246-251 | the template gets the email, the pie and the event date, and a name made of first name, one space and last name |
| Registration.RecordAgreesWithEmail | script.js:246-304 | the saved row and the email agree on the address, the pie and the event date |
| SubmitFlow.DecideOn | script.js:69-89 | `null` from the check leads to the catch block, a true `exists` to the duplicate branch carrying the stored pie, anything else to a new registration with the pie `AssignPieType` gives |
| SubmitFlow.Decide | script.js:69-89 | a network error or an HTML-looking response from the check always leads to a new registration with the pie the counts give |
| SubmitFlow.PieTypeText | script.js:76 | `${emailExists.pieType}` is the stored pie when there is one and "undefined" otherwise |
| SubmitFlow.DuplicateText | script.js:76 | the duplicate message is the fixed prefix, the pie text and a final "." |
| SubmitFlow.DuplicateTextShowsPie | script.js:76 | the duplicate message starts "Already Submitted. Your Pie is ", ends with ".", and carries exactly the stored pie between them |
| SubmitFlow.AssignedText | script.js:95 | the assignment message is the fixed prefix, the pie and " pie" |
| SubmitFlow.AssignedTextShowsPie | script.js:95 | the assignment message starts "You are bringing a ", ends with " pie", carries exactly the pie between them, and different pies give different messages |
| SubmitFlow.SendEmailTrace | script.js:238-289 | `sendEmail` makes exactly one effect: a send request with the template parameters for the registrant when EmailJS is usable, and the unavailability alert otherwise |
| SubmitFlow.SubmitTrace | script.js:50-121 | every run makes at least four effects and begins by disabling the button with "Processing..." and then asking the store about the email |
| SubmitFlow.RetryTrace | script.js:110-120 | the catch block gives exactly: disable, check, re-enable with the old label, and the retry alert |
| SubmitFlow.DecisionFailsOpen | script.js:69-89 | a network error, an HTML response or an unparseable response always leads to a new registration; the duplicate branch is taken if and only if the store answered `exists: true`; the catch block if and only if the store answered `null` |
| SubmitFlow.ButtonDisabledBeforeAnyRequest | script.js:53-69 | the first effect disables the button with the label "Processing...", every request comes after it, and no request is preceded by a re-enable |
| SubmitFlow.DuplicateStopsAtTheCheck | script.js:71-83 | a known email shows "Already Submitted. Your Pie is <pie>." and hides the form; it makes no request but the check and raises no alert; the result depends on neither the counts nor EmailJS |
| SubmitFlow.NewRegistrationTrace | script.js:86-108 | a new registration does, in order: disable, check, fetch counts, show the pie, hide the form, send or alert, save the row, reset the form |
| SubmitFlow.NewRegistrationSplit | script.js:86-108 | a new registration's effects are the opening disable and check, then the counts request, the result, the hiding, the send effect, the save and the reset |
| SubmitFlow.NewRegistrationShowsAssigned | script.js:89-99 | a new registration fetches the counts, shows "You are bringing a <pie> pie" and no other result, and hides the form |
| SubmitFlow.NewRegistrationSavesOnce | script.js:101-105 | a new registration saves exactly one row, and that row carries the pie that was shown |
| SubmitFlow.NewRegistrationMailsOnce | script.js:101-102 | a new registration asks EmailJS exactly once, with the shown pie, when it is usable, and never otherwise |
| SubmitFlow.NewRegistrationAlertsOnlyUnavailable | script.js:101-102 | the only immediate alert of a new registration is the unavailability alert, raised exactly when EmailJS is not usable |
| SubmitFlow.OnlyTheCatchReenables | script.js:110-120 | the button is re-enabled if and only if the catch block ran, and then with the label it had before; the catch makes no request after the check and raises only "Something went wrong. Please try again." |
| Page.RegistrationPage.constructor | script.js:55 | a freshly loaded page has an enabled, visible button whose label is the text the handler saves as `originalButtonText`, no inline style, every input and label shown, a hidden empty result line, an empty log, and satisfies `Valid` |
| Page.RegistrationPage.HideFormElements | script.js:172-188 | hides the button, every input and every label, and logs one `HideForm` |
| Page.RegistrationPage.SendEmail | script.js:238-290 | logs the send request with the template parameters when EmailJS is usable, otherwise the unavailability alert |
| Page.RegistrationPage.SaveToGoogleSheets | script.js:292-328 | logs one post of the record for the registrant and the pie |
| Page.RegistrationPage.BeginSubmission | script.js:53-59 | disables the button, sets "Processing...", opacity 0.6 and cursor not-allowed, and logs the disable and the check request |
| Page.RegistrationPage.RecoverFromError | script.js:110-120 | re-enables the button with the saved label, opacity 1 and cursor pointer, and logs the re-enable and the retry alert |
| Page.RegistrationPage.ShowExisting | script.js:71-83 | shows the duplicate message, hides the form and logs both |
| Page.RegistrationPage.RegisterNew | script.js:86-108 | shows the assigned pie and hides the form, and logs the counts request, the result, the hiding, the send, the save and the reset in that order |
| Page.RegistrationPage.Respond | script.js:68-120 | from the state the opening lines leave, restores the invariant `Valid`; after the check, takes the branch `DecideOn` names; on the catch block restores the button and leaves the form and result untouched; otherwise leaves the button disabled, hides the form and shows the branch's text |
| Page.RegistrationPage.Submit | script.js:50-121 | from an idle page, the log grows by exactly `SubmitTrace`, the phase is the one the decision leads to, the invariant `Valid` holds again, and the button is enabled again if and only if the catch block ran |
| Page.RegistrationPage.Press | script.js:337-346 | a press on a disabled button changes nothing; otherwise it ends in exactly the log, phase and invariant `Submit` promises, the button is enabled again only after the catch block (with its label, opacity 1 and cursor pointer, form shown and result untouched), and every other branch leaves the button "Processing...", hidden, at opacity 0.6 with cursor not-allowed, the form hidden and the branch's text shown |

## Left out

- The password gate and its fades (script.js:4-47): a fixed secret compared in the page, plus DOM and timer effects.
- Page initialisation (script.js:331-349) and EmailJS loading (script.js:351-364). Focusing the password input, adding the Enter-key listeners and loading the EmailJS script are not modelled. `Press` stands for the click an Enter key produces, and `EmailService` for whether loading succeeded.
- Press: the HTML form's constraint validation is not modelled. The click at script.js:343 submits the form, and the browser first checks its required `firstName`, `lastName` and `email` fields and the email format; when that check fails, the submit handler at script.js:50 never runs. The model assumes every press on an enabled button reaches the handler.
- Console logging throughout.
- `fetch`, `response.text()`, `JSON.parse`, `encodeURIComponent` and `JSON.stringify` are not modelled. Their outcomes are the inputs `Fetch`, `CheckJson` and `CountsJson`. The posted body is the `SavedRecord` value, not its JSON text.
- CheckEmailExists: `exists` is a boolean. JavaScript truthiness of other values (a string, a number) is not modelled, and a JSON value that is neither null nor an object is one case, `JOther`.
- CheckEmailExists: the `pieType` of an answer is a string or missing. A JSON `null`, number or other value in that field is not modelled; script.js:76 renders such a value through `${}` (for example "null").
- FailureAlert: the status is an integer or missing. A string status (for example "422", which takes the generic branch), a non-integer status, or one of magnitude 10^21 or more (which JavaScript writes in exponent form) is not modelled.
- AssignPieType: counts are unbounded integers. Floating-point counts, and counts of other JSON types compared with `<=` (a string or `null` field), are not modelled. Only a missing field is, and it gives savoury.
- RegistrationsStayBalanced: assumes that every registration reads a tally that already holds every earlier row. It also assumes the store counts a saved "savoury" row under `savoryCount`; the store's code is not part of this model. Two clients reading the same tally at once can unbalance the sheet, and that race is not modelled.
- Submit: one run goes to completion with the network answers given up front. The interleaving of two runs at the `await`s is not modelled; the disabled button is what prevents it in the page.
- The fire-and-forget promises of `sendEmail` and `saveToGoogleSheets` are not modelled as running. Their completion order and the alert a finished send raises (`CompletionAlert`) are not part of the effect log. The log records only the request.
- The store's answer to the POST is not modelled (`no-cors`, so the page only logs it).
- `form.reset()` is logged as `ResetForm`; the reset field values are not modelled.
- The initial inline style of the button and the result line's initial state come from the HTML page. The constructor assumes an empty inline style and an empty, hidden result line.
