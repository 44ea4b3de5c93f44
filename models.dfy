/** The pydantic validators and defaults of the mail and report models:
    the body limit of an email message, the non-negative record count of
    a report's metadata, and the defaults those models fill in. */
module Models {
  import opened Text

  const MaxBody: nat := 50000

  const TruncationMark: string := "... [truncado]"

  /** `EmailMessage.clean_body`: a body over the limit keeps its first
      `MaxBody` characters followed by the mark. */
  function CleanBody(v: string): (r: string)
    ensures |v| <= MaxBody ==> r == v
    ensures |v| > MaxBody ==> |r| == MaxBody + |TruncationMark| && StartsWith(r, v[..MaxBody])
                              && EndsWith(r, TruncationMark)
  {
    if |v| > MaxBody then
      var r := v[..MaxBody] + TruncationMark;
      StartsWithConcat(v[..MaxBody], TruncationMark);
      assert r[|r| - |TruncationMark|..] == TruncationMark;
      r
    else v
  }

  /** A cleaned body is never longer than the limit plus the mark. */
  lemma CleanBodyBounded(v: string)
    ensures |CleanBody(v)| <= MaxBody + |TruncationMark|
  {
  }

  /** Cleaning a cleaned body truncates it again at the same place, so
      the result does not change. */
  lemma CleanBodyIdempotent(v: string)
    ensures CleanBody(CleanBody(v)) == CleanBody(v)
  {
    if |v| > MaxBody {
      var r := CleanBody(v);
      assert r[..MaxBody] == v[..MaxBody];
    }
  }

  /** `ReportDatasetMetadata.validate_record_count`: a negative count
      raises a `ValueError`; any other is kept. */
  function ValidateRecordCount(value: int): (r: Option<nat>)
    ensures r.Some? <==> value >= 0
    ensures r.Some? ==> r.value == value
  {
    if value < 0 then None else Some(value)
  }

  /** `EmailStatus`, with its wire values. */
  datatype EmailStatus = Unread | Read | Processed | Error

  function StatusValue(s: EmailStatus): (r: string)
  {
    match s
    case Unread => "unread"
    case Read => "read"
    case Processed => "processed"
    case Error => "error"
  }

  /** Two statuses share a wire value only when they are the same. */
  lemma StatusValuesDistinct(s: EmailStatus, t: EmailStatus)
    ensures StatusValue(s) == StatusValue(t) <==> s == t
  {
    if s != t {
      assert StatusValue(s)[0] != StatusValue(t)[0] || |StatusValue(s)| != |StatusValue(t)|;
    }
  }

  /** An attachment: its name, size in bytes and content type. */
  datatype Attachment = Attachment(filename: string, size: int, contentType: Option<string>)

  /** `EmailMessage` without the sender check and the date. */
  datatype EmailMessage = EmailMessage(messageId: string, subject: string, body: string, status: EmailStatus,
                                       attachments: seq<Attachment>, threadId: Option<string>, labels: seq<string>)

  /** `EmailMessage(message_id=…, subject=…, body=…)`: the body passes
      through `clean_body`; status, attachments, thread and labels take
      their defaults. */
  function NewEmailMessage(messageId: string, subject: string, body: string): (m: EmailMessage)
    ensures m.status == Unread && m.attachments == [] && m.labels == [] && m.threadId.None?
    ensures m.body == CleanBody(body) && |m.body| <= MaxBody + |TruncationMark|
  {
    CleanBodyBounded(body);
    EmailMessage(messageId, subject, CleanBody(body), Unread, [], None, [])
  }

  /** `ReportDatasetMetadata` without its timestamps; `parameters` holds
      the request parameters, already rendered as text. */
  datatype ReportMetadata = ReportMetadata(datasetId: string, recordCount: nat, branchId: Option<int>,
                                           durationMs: Option<int>, cacheHit: bool,
                                           parameters: map<string, string>, messageId: string)

  /** `ReportDatasetMetadata(dataset_id=…, generated_at=…, record_count=…)`
      with the generated message id given: construction fails on a
      negative count; the branch and duration are unset, the cache flag
      is off and the parameters are empty. */
  function NewReportMetadata(datasetId: string, recordCount: int, messageId: string): (r: Option<ReportMetadata>)
    ensures r.Some? <==> recordCount >= 0
    ensures r.Some? ==> r.value.recordCount == recordCount && !r.value.cacheHit && r.value.parameters == map[]
                        && r.value.branchId.None? && r.value.durationMs.None?
                        && r.value.messageId == messageId && r.value.datasetId == datasetId
  {
    var count := ValidateRecordCount(recordCount);
    if count.None? then None
    else Some(ReportMetadata(datasetId, count.value, None, None, false, map[], messageId))
  }

  /** A 60000-character body is cut to 50000 characters plus the mark. */
  lemma LongBodyExample(v: string)
    requires |v| == 60000
    ensures |CleanBody(v)| == 50014
  {
  }
}
