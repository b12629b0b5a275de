/** `checkEmailExists`: ask the sheet whether an email is already registered,
    and fail open, so that a store that cannot be reached or does not answer
    in JSON never blocks a registration. */
module EmailCheck {
  import opened Net
  import JsText

  /** The value `checkEmailExists` hands back, as far as the page looks at it:
      `null`, an object with its `exists`, `pieType` and `message` fields
      (missing ones as None), or any other JSON value (which has no `exists`
      property, so reading it gives `undefined`). */
  datatype CheckJson =
    | JNull
    | JObject(existsFlag: bool, pieType: Option<string>, message: Option<string>)
    | JOther

  const HtmlMessage := "Got HTML response instead of JSON"
  const InvalidFormatMessage := "Invalid response format"
  const CheckFailedMessage := "Check failed, proceeding with registration"

  /** The object returned instead of the store's answer: it says the email
      is not registered, carries no pie, and explains why. */
  function FailOpen(message: string): (r: CheckJson)
    ensures r.JObject? && !r.existsFlag
    ensures r.pieType.None? && r.message == Some(message)
  {
    JObject(false, None, Some(message))
  }

  /** The response is taken for an HTML page when its trimmed text starts with '<'. */
  predicate LooksLikeHtml(text: string)
  {
    var t := JsText.Trim(text);
    t != [] && t[0] == '<'
  }

  /** `LooksLikeHtml` holds exactly when the first character that is not
      white space is '<'. */
  lemma LooksLikeHtmlIffFirstVisibleIsAngle(text: string)
    ensures LooksLikeHtml(text) <==>
            exists i :: 0 <= i < |text| && text[i] == '<' && forall k :: 0 <= k < i ==> JsText.IsWhiteSpace(text[k])
  {
    JsText.TrimKeepsFirstVisible(text);
    if exists i :: 0 <= i < |text| && text[i] == '<' && forall k :: 0 <= k < i ==> JsText.IsWhiteSpace(text[k]) {
      var i :| 0 <= i < |text| && text[i] == '<' && forall k :: 0 <= k < i ==> JsText.IsWhiteSpace(text[k]);
      assert !JsText.IsWhiteSpace(text[i]);
      var j :| 0 <= j < |text| && JsText.Trim(text)[0] == text[j] && !JsText.IsWhiteSpace(text[j])
               && forall k :: 0 <= k < j ==> JsText.IsWhiteSpace(text[k]);
      assert i == j;
    }
  }

  /** Only a text containing '<' is taken for HTML, and a text whose very
      first character is '<' always is. */
  lemma LooksLikeHtmlNeedsAngle(text: string)
    ensures LooksLikeHtml(text) ==> '<' in text
    ensures text != [] && text[0] == '<' ==> LooksLikeHtml(text)
  {
    LooksLikeHtmlIffFirstVisibleIsAngle(text);
    if LooksLikeHtml(text) {
      var i :| 0 <= i < |text| && text[i] == '<' && forall k :: 0 <= k < i ==> JsText.IsWhiteSpace(text[k]);
      assert text[i] in text;
    }
  }

  /** `checkEmailExists` on one round trip to the `checkEmail` action. */
  function CheckEmailExists(response: Fetch<CheckJson>): (r: CheckJson)
    ensures response.NetworkError? ==> r == FailOpen(CheckFailedMessage)
    ensures response.Received? && LooksLikeHtml(response.text) ==> r == FailOpen(HtmlMessage)
    ensures response.Received? && !LooksLikeHtml(response.text) && response.parsed.ParseError?
            ==> r == FailOpen(InvalidFormatMessage)
    ensures response.Received? && !LooksLikeHtml(response.text) && response.parsed.Parsed?
            ==> r == response.parsed.value
  {
    match response
    case NetworkError => FailOpen(CheckFailedMessage)
    case Received(text, parsed) =>
      if LooksLikeHtml(text) then FailOpen(HtmlMessage)
      else if parsed.ParseError? then FailOpen(InvalidFormatMessage)
      else parsed.value
  }

  /** Fail open: the check reports an existing registration only when the
      store itself answered, in JSON, an object whose `exists` is true. */
  lemma OnlyTheStoreCanReportExisting(response: Fetch<CheckJson>)
    ensures (CheckEmailExists(response).JObject? && CheckEmailExists(response).existsFlag) <==>
            (response.Received? && !LooksLikeHtml(response.text) && response.parsed.Parsed?
             && response.parsed.value.JObject? && response.parsed.value.existsFlag)
  {
  }

  /** The check yields `null` only when the store answered with the JSON text
      `null`; every failure becomes an object. */
  lemma NullOnlyFromTheStore(response: Fetch<CheckJson>)
    ensures CheckEmailExists(response).JNull? <==>
            (response.Received? && !LooksLikeHtml(response.text) && response.parsed == Parsed(JNull))
  {
  }
}
