/** The message-level logic of the Gmail API mail service: reading
    headers and bodies out of a message's payload tree, deciding whether
    a message was processed successfully and whether its attachments go
    to Drive, and counting the outcomes of a run. */
module Gmail {
  import opened Text
  import opened Seqs
  import Models
  import Validators
  import EmailHtmlParser

  // ---------------------------------------------------------------------
  // Headers

  datatype Header = Header(name: string, value: string)

  /** `_get_header_value`: the value of the first header whose name equals
      `name` in any case, or "" when there is none. */
  function HeaderValue(headers: seq<Header>, name: string): string
  {
    if headers == [] then ""
    else if Lower(headers[0].name) == Lower(name) then headers[0].value
    else HeaderValue(headers[1..], name)
  }

  predicate NameIs(h: Header, name: string)
  {
    Lower(h.name) == Lower(name)
  }

  /** A header with the name, preceded only by headers without it, is the
      one read. */
  lemma {:induction false} HeaderValueAt(headers: seq<Header>, name: string, k: nat)
    requires k < |headers| && NameIs(headers[k], name)
    requires forall j :: 0 <= j < k ==> !NameIs(headers[j], name)
    ensures HeaderValue(headers, name) == headers[k].value
    decreases k
  {
    if k > 0 {
      assert !NameIs(headers[0], name);
      var rest := headers[1..];
      assert rest[k - 1] == headers[k];
      forall j | 0 <= j < k - 1
        ensures !NameIs(rest[j], name)
      {
        assert rest[j] == headers[j + 1];
      }
      HeaderValueAt(rest, name, k - 1);
    }
  }

  /** Without a header of that name the value read is empty. */
  lemma {:induction false} HeaderValueNone(headers: seq<Header>, name: string)
    requires forall k :: 0 <= k < |headers| ==> !NameIs(headers[k], name)
    ensures HeaderValue(headers, name) == ""
  {
    if headers != [] {
      assert !NameIs(headers[0], name);
      var rest := headers[1..];
      forall k | 0 <= k < |rest|
        ensures !NameIs(rest[k], name)
      {
        assert rest[k] == headers[k + 1];
      }
      HeaderValueNone(rest, name);
    }
  }

  /** The header read is the first one with that name; with none, the
      value is empty. */
  lemma HeaderValueFirst(headers: seq<Header>, name: string)
    ensures (forall k :: 0 <= k < |headers| ==> !NameIs(headers[k], name)) ==> HeaderValue(headers, name) == ""
    ensures forall k :: 0 <= k < |headers| && NameIs(headers[k], name)
                        && (forall j :: 0 <= j < k ==> !NameIs(headers[j], name))
                        ==> HeaderValue(headers, name) == headers[k].value
  {
    if forall k :: 0 <= k < |headers| ==> !NameIs(headers[k], name) {
      HeaderValueNone(headers, name);
    }
    forall k | 0 <= k < |headers| && NameIs(headers[k], name)
               && (forall j :: 0 <= j < k ==> !NameIs(headers[j], name))
      ensures HeaderValue(headers, name) == headers[k].value
    {
      HeaderValueAt(headers, name, k);
    }
  }

  // ---------------------------------------------------------------------
  // The payload tree

  /** A payload or a part of one: its MIME type, its body's `data` already
      decoded (`None` when the body has no data), and its nested parts (an
      absent list and an empty one read the same everywhere). */
  datatype Part = Part(mimeType: string, data: Option<string>, parts: seq<Part>)

  /** `_get_all_parts`: the nested parts in pre-order, each part followed
      by all of its own. */
  function AllParts(p: Part): seq<Part>
    decreases p
  {
    Flatten(p.parts)
  }

  function Flatten(ps: seq<Part>): seq<Part>
    decreases ps
  {
    if ps == [] then [] else [ps[0]] + AllParts(ps[0]) + Flatten(ps[1..])
  }

  /** The number of parts in a part's tree, itself included. */
  function Size(p: Part): nat
    decreases p
  {
    1 + SizeAll(p.parts)
  }

  function SizeAll(ps: seq<Part>): nat
    decreases ps
  {
    if ps == [] then 0 else Size(ps[0]) + SizeAll(ps[1..])
  }

  /** Every nested part is listed once: the list is as long as the tree
      has parts below the payload. */
  lemma {:induction false} AllPartsCount(p: Part)
    ensures |AllParts(p)| == Size(p) - 1
    decreases p
  {
    FlattenCount(p.parts);
  }

  lemma {:induction false} FlattenCount(ps: seq<Part>)
    ensures |Flatten(ps)| == SizeAll(ps)
    decreases ps
  {
    if ps != [] {
      AllPartsCount(ps[0]);
      FlattenCount(ps[1..]);
    }
  }

  /** `q` is a part somewhere below `p`. */
  ghost predicate Below(q: Part, p: Part)
    decreases p
  {
    exists i :: 0 <= i < |p.parts| && (q == p.parts[i] || Below(q, p.parts[i]))
  }

  ghost predicate BelowSome(q: Part, ps: seq<Part>)
  {
    exists i :: 0 <= i < |ps| && (q == ps[i] || Below(q, ps[i]))
  }

  /** The list holds exactly the parts below the payload. */
  lemma {:induction false} AllPartsMembers(p: Part, q: Part)
    ensures q in AllParts(p) <==> Below(q, p)
    decreases p
  {
    FlattenMembers(p.parts, q);
  }

  lemma {:induction false} FlattenMembers(ps: seq<Part>, q: Part)
    ensures q in Flatten(ps) <==> BelowSome(q, ps)
    decreases ps
  {
    if ps != [] {
      AllPartsMembers(ps[0], q);
      FlattenMembers(ps[1..], q);
      if BelowSome(q, ps) {
        var i :| 0 <= i < |ps| && (q == ps[i] || Below(q, ps[i]));
        if i > 0 {
          assert ps[1..][i - 1] == ps[i];
        }
      }
      if BelowSome(q, ps[1..]) {
        var i :| 0 <= i < |ps[1..]| && (q == ps[1..][i] || Below(q, ps[1..][i]));
        assert ps[i + 1] == ps[1..][i];
      }
    }
  }

  /** A plain part and a part holding one more give three parts. */
  lemma ThreePartsExample(a: Part, b: Part, c: Part, payload: Part)
    requires a.parts == [] && c.parts == [] && b.parts == [c] && payload.parts == [a, b]
    ensures AllParts(payload) == [a, b, c]
  {
    assert [a, b][1..] == [b];
    assert [b][1..] == [] && [c][1..] == [];
    assert AllParts(c) == Flatten([]) == [];
    assert AllParts(a) == Flatten([]);
    assert AllParts(b) == [c];
    assert Flatten([b]) == [b, c];
    assert Flatten([a, b]) == [a] + [] + [b, c];
  }

  // ---------------------------------------------------------------------
  // The HTML body

  /** A part's own HTML fragment: its data when it is `text/html` with
      data that is not empty. */
  function OwnHtml(p: Part): seq<string>
  {
    if p.mimeType == "text/html" && p.data.Some? && p.data.value != "" then [p.data.value] else []
  }

  /** `_get_html_body`: the part's own fragment and the HTML bodies of its
      parts, the empty ones left out, joined with newlines and stripped. */
  function HtmlBody(p: Part): string
    decreases p
  {
    Strip(Join(EmailHtmlParser.NonEmpty(OwnHtml(p) + HtmlBodies(p.parts)), "\n"))
  }

  function HtmlBodies(ps: seq<Part>): (r: seq<string>)
    ensures |r| == |ps|
    decreases ps
  {
    if ps == [] then [] else [HtmlBody(ps[0])] + HtmlBodies(ps[1..])
  }

  /** The HTML fragments of a tree in pre-order. */
  function HtmlData(p: Part): seq<string>
    decreases p
  {
    OwnHtml(p) + HtmlDataAll(p.parts)
  }

  function HtmlDataAll(ps: seq<Part>): seq<string>
    decreases ps
  {
    if ps == [] then [] else HtmlData(ps[0]) + HtmlDataAll(ps[1..])
  }

  predicate AllBlank(xs: seq<string>)
  {
    forall i :: 0 <= i < |xs| ==> IsBlank(xs[i])
  }

  /** Joining with a newline gives all whitespace exactly when every piece
      is all whitespace. */
  lemma {:induction false} JoinBlank(xs: seq<string>)
    ensures IsBlank(Join(xs, "\n")) <==> AllBlank(xs)
    decreases |xs|
  {
    if |xs| > 1 {
      JoinBlank(xs[1..]);
      var j := xs[0] + "\n" + Join(xs[1..], "\n");
      assert Join(xs, "\n") == j;
      assert forall k :: 0 <= k < |xs[0]| ==> j[k] == xs[0][k];
      assert j[|xs[0]|] == '\n';
      assert forall k :: 0 <= k < |Join(xs[1..], "\n")| ==> j[|xs[0]| + 1 + k] == Join(xs[1..], "\n")[k];
      assert forall k :: 1 <= k < |xs| ==> xs[k] == xs[1..][k - 1];
    }
  }

  /** Leaving out the empty pieces changes nothing about blankness. */
  lemma NonEmptyBlank(xs: seq<string>)
    ensures AllBlank(EmailHtmlParser.NonEmpty(xs)) <==> AllBlank(xs)
  {
    var r := EmailHtmlParser.NonEmpty(xs);
    if AllBlank(xs) {
      forall i | 0 <= i < |r| ensures IsBlank(r[i]) {
        assert r[i] in xs;
      }
    }
    if AllBlank(r) {
      forall i | 0 <= i < |xs| ensures IsBlank(xs[i]) {
        if xs[i] != "" {
          assert xs[i] in r;
        }
      }
    }
  }

  lemma AllBlankConcat(a: seq<string>, b: seq<string>)
    ensures AllBlank(a + b) <==> AllBlank(a) && AllBlank(b)
  {
    if AllBlank(a) && AllBlank(b) {
      forall i | 0 <= i < |a + b| ensures IsBlank((a + b)[i]) {
        if i >= |a| {
          assert (a + b)[i] == b[i - |a|];
        }
      }
    }
    if AllBlank(a + b) {
      forall i | 0 <= i < |a| ensures IsBlank(a[i]) {
        assert (a + b)[i] == a[i];
      }
      forall i | 0 <= i < |b| ensures IsBlank(b[i]) {
        assert (a + b)[|a| + i] == b[i];
      }
    }
  }

  /** The HTML body is empty exactly when every HTML fragment in the tree
      is whitespace. */
  lemma {:induction false} HtmlBodyEmpty(p: Part)
    ensures HtmlBody(p) == "" <==> AllBlank(HtmlData(p))
    decreases p
  {
    var pieces := OwnHtml(p) + HtmlBodies(p.parts);
    var joined := Join(EmailHtmlParser.NonEmpty(pieces), "\n");
    BlankIffStripEmpty(joined);
    JoinBlank(EmailHtmlParser.NonEmpty(pieces));
    NonEmptyBlank(pieces);
    AllBlankConcat(OwnHtml(p), HtmlBodies(p.parts));
    AllBlankConcat(OwnHtml(p), HtmlDataAll(p.parts));
    HtmlBodiesEmpty(p.parts);
  }

  lemma {:induction false} HtmlBodiesEmpty(ps: seq<Part>)
    ensures AllBlank(HtmlBodies(ps)) <==> AllBlank(HtmlDataAll(ps))
    decreases ps
  {
    if ps != [] {
      HtmlBodyEmpty(ps[0]);
      HtmlBodiesEmpty(ps[1..]);
      BlankIffStripEmpty(HtmlBody(ps[0]));
      StripIdempotent(Join(EmailHtmlParser.NonEmpty(OwnHtml(ps[0]) + HtmlBodies(ps[0].parts)), "\n"));
      assert IsBlank(HtmlBody(ps[0])) <==> HtmlBody(ps[0]) == "";
      assert AllBlank([HtmlBody(ps[0])]) <==> IsBlank([HtmlBody(ps[0])][0]);
      assert HtmlBodies(ps) == [HtmlBody(ps[0])] + HtmlBodies(ps[1..]);
      AllBlankConcat([HtmlBody(ps[0])], HtmlBodies(ps[1..]));
      AllBlankConcat(HtmlData(ps[0]), HtmlDataAll(ps[1..]));
    }
  }

  // ---------------------------------------------------------------------
  // The message body

  /** One step of the loop over the parts in `_get_message_body`: plain
      text is always appended, HTML only while nothing is there yet. */
  function BodyStep(body: string, part: Part): string
  {
    if part.mimeType == "text/plain" then
      if part.data.Some? then body + part.data.value else body
    else if part.mimeType == "text/html" && body == "" && part.data.Some? then body + part.data.value
    else body
  }

  /** The body after the loop has seen `ps`. */
  function Accumulated(ps: seq<Part>): string
  {
    if ps == [] then "" else BodyStep(Accumulated(ps[..|ps| - 1]), ps[|ps| - 1])
  }

  /** What `_get_message_body` returns: the payload's own data when it has
      some, otherwise what the loop gathers from the top-level parts; in
      either case stripped. */
  function BodyText(payload: Part): string
  {
    if payload.data.Some? && payload.data.value != "" then Strip(payload.data.value)
    else Strip(Accumulated(payload.parts))
  }

  method MessageBody(payload: Part) returns (body: string)
    ensures body == BodyText(payload)
  {
    body := "";
    if payload.data.Some? && payload.data.value != "" {
      body := payload.data.value;
    } else {
      var i := 0;
      while i < |payload.parts|
        invariant 0 <= i <= |payload.parts|
        invariant body == Accumulated(payload.parts[..i])
      {
        var part := payload.parts[i];
        if part.mimeType == "text/plain" {
          if part.data.Some? {
            body := body + part.data.value;
          }
        } else if part.mimeType == "text/html" {
          if body == "" && part.data.Some? {
            body := body + part.data.value;
          }
        }
        assert payload.parts[..i + 1][..i] == payload.parts[..i];
        i := i + 1;
      }
      assert payload.parts[..i] == payload.parts;
    }
    body := Strip(body);
  }

  /** The data of the plain-text parts, concatenated in order. */
  function PlainText(ps: seq<Part>): string
  {
    if ps == [] then ""
    else
      var last := ps[|ps| - 1];
      PlainText(ps[..|ps| - 1]) + (if last.mimeType == "text/plain" && last.data.Some? then last.data.value else "")
  }

  /** The first HTML part's data that is not empty, or "". */
  function FirstHtml(ps: seq<Part>): string
  {
    if ps == [] then ""
    else
      var front := FirstHtml(ps[..|ps| - 1]);
      var last := ps[|ps| - 1];
      if front == "" && last.mimeType == "text/html" && last.data.Some? then last.data.value else front
  }

  /** With no HTML among the parts, the body is the plain texts joined. */
  lemma {:induction false} PlainOnly(ps: seq<Part>)
    requires forall i :: 0 <= i < |ps| ==> ps[i].mimeType != "text/html"
    ensures Accumulated(ps) == PlainText(ps)
  {
    if ps != [] {
      PlainOnly(ps[..|ps| - 1]);
    }
  }

  /** With no plain text among the parts, the body is the first HTML part
      that has something in it. */
  lemma {:induction false} HtmlFallback(ps: seq<Part>)
    requires forall i :: 0 <= i < |ps| ==> ps[i].mimeType != "text/plain"
    ensures Accumulated(ps) == FirstHtml(ps)
  {
    if ps != [] {
      HtmlFallback(ps[..|ps| - 1]);
    }
  }

  /** A plain part before an HTML one wins: the HTML is ignored. */
  lemma PrefersPlainText(plain: Part, html: Part, payload: Part)
    requires plain.mimeType == "text/plain" && plain.data.Some? && plain.data.value != ""
    requires html.mimeType == "text/html"
    requires payload.data.None? && payload.parts == [plain, html]
    ensures BodyText(payload) == Strip(plain.data.value)
  {
    assert [plain][..0] == [];
    assert Accumulated([plain]) == plain.data.value;
    assert [plain, html][..1] == [plain];
    assert Accumulated(payload.parts) == plain.data.value;
  }

  // ---------------------------------------------------------------------
  // One message

  /** What happens to a message's attachments with Drive: nothing (no
      Drive service or no attachments), the error
      `drive_missing_fecha_generacion`, or an upload under the date. */
  datatype DriveStep = NoUpload | MissingFecha | Upload(fecha: string)

  /** The part of `_process_single_message`'s result this model keeps. */
  datatype MessageReport = MessageReport(success: bool, validationErrors: seq<Validators.StructureError>,
                                         tableErrors: seq<string>, drive: DriveStep)

  /** `_process_single_message` once the subject, the date, the
      attachments and the table's parse and structure errors are known. */
  function ProcessMessage(subject: string, fecha: Option<string>, attachments: seq<Models.Attachment>,
                          pattern: string, parseErrors: seq<string>, structureErrors: seq<string>,
                          driveConfigured: bool): MessageReport
  {
    var checked := Validators.ValidateEmailStructure(subject, fecha, attachments, pattern);
    var tableErrors := parseErrors + structureErrors;
    var drive :=
      if !driveConfigured || attachments == [] then NoUpload
      else if fecha.None? || fecha.value == "" then MissingFecha
      else Upload(fecha.value);
    MessageReport(checked.0 && tableErrors == [], checked.1, tableErrors, drive)
  }

  /** A message succeeds exactly when it passes the structure check and
      its table has no parse or structure error. */
  lemma SuccessIff(subject: string, fecha: Option<string>, attachments: seq<Models.Attachment>,
                   pattern: string, parseErrors: seq<string>, structureErrors: seq<string>, driveConfigured: bool)
    ensures var r := ProcessMessage(subject, fecha, attachments, pattern, parseErrors, structureErrors, driveConfigured);
            r.success <==> r.validationErrors == [] && parseErrors == [] && structureErrors == []
  {
  }

  /** Attachments without a generation date are never uploaded: the Drive
      step records the missing date, and the message fails. */
  lemma MissingFechaSkipsDrive(subject: string, attachments: seq<Models.Attachment>, pattern: string,
                               parseErrors: seq<string>, structureErrors: seq<string>, fecha: Option<string>)
    requires attachments != [] && (fecha.None? || fecha.value == "")
    ensures var r := ProcessMessage(subject, fecha, attachments, pattern, parseErrors, structureErrors, true);
            r.drive == MissingFecha && !r.success
            && Validators.FechaGeneracionMissing in r.validationErrors
  {
  }

  /** An upload happens only with a Drive service, attachments and a
      non-empty date, and it is made under that date. */
  lemma UploadOnlyWithFecha(subject: string, fecha: Option<string>, attachments: seq<Models.Attachment>,
                            pattern: string, parseErrors: seq<string>, structureErrors: seq<string>,
                            driveConfigured: bool)
    ensures var r := ProcessMessage(subject, fecha, attachments, pattern, parseErrors, structureErrors, driveConfigured);
            r.drive.Upload? <==> driveConfigured && attachments != [] && fecha.Some? && fecha.value != ""
    ensures var r := ProcessMessage(subject, fecha, attachments, pattern, parseErrors, structureErrors, driveConfigured);
            r.drive.Upload? ==> r.drive.fecha == fecha.value
  {
  }

  // ---------------------------------------------------------------------
  // A run over the inbox

  /** What became of one listed message: its report's `success`, or an
      exception while fetching or processing it. */
  datatype MessageOutcome = Handled(success: bool) | Raised

  /** The answer of the message listing. */
  datatype Listing = ListingFailed | Listed(messages: seq<MessageOutcome>)

  /** An entry of `details`: a message's result, or a run-level error. */
  datatype Detail = MessageDetail(success: bool) | RunError

  datatype ProcessingResult = ProcessingResult(success: bool, processed: nat, errors: nat, details: seq<Detail>)

  function DetailOf(o: MessageOutcome): Detail
  {
    MessageDetail(o == Handled(true))
  }

  /** The counters and details after the loop has seen `outcomes`. */
  function Tally(outcomes: seq<MessageOutcome>): (r: ProcessingResult)
  {
    if outcomes == [] then ProcessingResult(true, 0, 0, [])
    else
      var front := Tally(outcomes[..|outcomes| - 1]);
      var last := outcomes[|outcomes| - 1];
      if last == Handled(true) then front.(processed := front.processed + 1, details := front.details + [DetailOf(last)])
      else front.(errors := front.errors + 1, details := front.details + [DetailOf(last)])
  }

  /** `process_incoming_emails` given whether authentication worked and
      what the listing returned. */
  function Summary(authenticated: bool, listing: Listing): ProcessingResult
  {
    if !authenticated || listing.ListingFailed? then ProcessingResult(false, 0, 1, [RunError])
    else Tally(listing.messages)
  }

  method ProcessIncomingEmails(authenticated: bool, listing: Listing) returns (r: ProcessingResult)
    ensures r == Summary(authenticated, listing)
  {
    if !authenticated || listing.ListingFailed? {
      return ProcessingResult(false, 0, 1, [RunError]);
    }
    var messages := listing.messages;
    if messages == [] {
      return ProcessingResult(true, 0, 0, []);
    }
    var processed := 0;
    var errors := 0;
    var details: seq<Detail> := [];
    var i := 0;
    while i < |messages|
      invariant 0 <= i <= |messages|
      invariant ProcessingResult(true, processed, errors, details) == Tally(messages[..i])
    {
      var outcome := messages[i];
      if outcome == Handled(true) {
        processed := processed + 1;
      } else {
        errors := errors + 1;
      }
      details := details + [DetailOf(outcome)];
      assert messages[..i + 1][..i] == messages[..i];
      i := i + 1;
    }
    assert messages[..i] == messages;
    r := ProcessingResult(true, processed, errors, details);
  }

  /** After a listing, every message is counted once, as processed or as
      an error, and has its detail in listing order. */
  lemma {:induction false} TallyCounts(outcomes: seq<MessageOutcome>)
    ensures var r := Tally(outcomes);
            && r.success && r.processed + r.errors == |outcomes| && |r.details| == |outcomes|
            && forall i :: 0 <= i < |outcomes| ==> r.details[i] == MessageDetail(outcomes[i] == Handled(true))
  {
    if outcomes != [] {
      TallyCounts(outcomes[..|outcomes| - 1]);
    }
  }

  /** An empty listing is a success with nothing processed. */
  lemma EmptyListing()
    ensures Summary(true, Listed([])) == ProcessingResult(true, 0, 0, [])
  {
  }

  /** A failed login or listing is one error and nothing processed. */
  lemma RunFailure(authenticated: bool, listing: Listing)
    requires !authenticated || listing.ListingFailed?
    ensures var r := Summary(authenticated, listing);
            !r.success && r.processed == 0 && r.errors == 1
  {
  }
}
