/** What a new registration sends out: the row saved to the sheet and the
    parameters of the confirmation email. Both carry the same fixed event date. */
module Registration {

  const EventDate := "Sunday October 5th 2025"

  /** The JSON body `saveToGoogleSheets` posts. */
  datatype SavedRecord = SavedRecord(firstName: string, lastName: string, email: string, pieType: string, eventDate: string)

  /** The parameters `sendEmail` gives the EmailJS template. */
  datatype TemplateParams = TemplateParams(toEmail: string, toName: string, pieType: string, eventDate: string)

  /** `saveToGoogleSheets`' record: the registrant's fields as typed, the
      assigned pie and the event date. */
  function RecordFor(firstName: string, lastName: string, email: string, pieType: string): (r: SavedRecord)
    ensures r.firstName == firstName && r.lastName == lastName && r.email == email
    ensures r.pieType == pieType && r.eventDate == EventDate
  {
    SavedRecord(firstName, lastName, email, pieType, EventDate)
  }

  /** `sendEmail`'s template parameters: the name is first and last name
      joined by one space. */
  function ParamsFor(email: string, firstName: string, lastName: string, pieType: string): (p: TemplateParams)
    ensures p.toEmail == email && p.pieType == pieType && p.eventDate == EventDate
    ensures |p.toName| == |firstName| + 1 + |lastName|
    ensures p.toName[..|firstName|] == firstName && p.toName[|firstName|] == ' '
            && p.toName[|firstName| + 1..] == lastName
  {
    TemplateParams(email, firstName + " " + lastName, pieType, EventDate)
  }

  /** The saved row and the email agree on the address, the pie and the date. */
  lemma RecordAgreesWithEmail(firstName: string, lastName: string, email: string, pieType: string)
    ensures var r, p := RecordFor(firstName, lastName, email, pieType), ParamsFor(email, firstName, lastName, pieType);
      r.email == p.toEmail && r.pieType == p.pieType && r.eventDate == p.eventDate
  {
  }
}
