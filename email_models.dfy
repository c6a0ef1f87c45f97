/** The records the engine reads and builds (the fields of the pydantic models
    in src/models/email_models.py that the engine uses; no validation). */
module EmailModels {
  import opened Wrappers

  datatype EmailAddress = EmailAddress(name: Option<string>, email: string)

  /** An email; `date` is a timestamp in whole seconds. */
  datatype EmailMessage = EmailMessage(
    id: string,
    subject: string,
    sender: EmailAddress,
    body: string,
    date: int)

  datatype EmailClassification = EmailClassification(
    category: string,
    priority: string,
    confidence: real,
    tags: seq<string>)

  datatype EmailAnalysis = EmailAnalysis(
    emailId: string,
    classification: EmailClassification,
    summary: string,
    sentiment: string,
    suggestedResponse: string,
    actionRequired: bool,
    actionItems: seq<string>)
}
