/** `TelegramNotificationService`: sends prepared report datasets and alerts
    through the Telegram client, retrying what the client marks as
    retryable, and formats the messages. What the client returns on its
    n-th call is a parameter `reply`; timestamps are parameters too. */
module TelegramNotification {
  import opened Text
  import Dates
  import TelegramClient
  import ReportPreparation

  type Row = ReportPreparation.Row
  type SendResult = TelegramClient.SendResult

  // ---------------------------------------------------------------------
  // Retries

  /** `max(1, max_attempts)`, fixed by the constructor. */
  function ClampAttempts(maxAttempts: int): (r: nat)
    ensures r >= 1 && r >= maxAttempts
    ensures maxAttempts >= 1 ==> r == maxAttempts
  {
    if maxAttempts < 1 then 1 else maxAttempts
  }

  /** A result that ends the retries: a success, or a failure the client
      does not want retried. */
  predicate Final(r: SendResult)
  {
    r.success || !r.shouldRetry
  }

  /** The retries from call number `attempt` (counting from 0) on: the
      result returned and how many calls were made in all. */
  function Attempts(reply: nat -> SendResult, max: nat, attempt: nat): (SendResult, nat)
    requires attempt < max
    decreases max - attempt
  {
    var r := reply(attempt);
    if Final(r) || attempt + 1 == max then (r, attempt + 1)
    else Attempts(reply, max, attempt + 1)
  }

  /** `_send_with_retries` as a value. */
  function Retried(reply: nat -> SendResult, maxAttempts: int): (SendResult, nat)
  {
    Attempts(reply, ClampAttempts(maxAttempts), 0)
  }

  lemma {:induction false} AttemptsSpec(reply: nat -> SendResult, max: nat, attempt: nat)
    requires attempt < max
    ensures var (r, calls) := Attempts(reply, max, attempt);
            attempt < calls <= max && r == reply(calls - 1)
            && (Final(r) || calls == max)
            && forall j :: attempt <= j < calls - 1 ==> !Final(reply(j))
    decreases max - attempt
  {
    if !(Final(reply(attempt)) || attempt + 1 == max) {
      AttemptsSpec(reply, max, attempt + 1);
    }
  }

  /** The client is called at least once and at most `max(1, max_attempts)`
      times; the result is the first success or non-retryable failure, and
      when every call asked for a retry, the last result. */
  lemma RetriedSpec(reply: nat -> SendResult, maxAttempts: int)
    ensures var (r, calls) := Retried(reply, maxAttempts);
            1 <= calls <= ClampAttempts(maxAttempts) && r == reply(calls - 1)
            && (forall j :: 0 <= j < calls - 1 ==> !Final(reply(j)))
            && (Final(r) || calls == ClampAttempts(maxAttempts))
  {
    AttemptsSpec(reply, ClampAttempts(maxAttempts), 0);
  }

  /** `_send_with_retries(text, message_id)`; `calls` counts the calls made
      to the client (the backoff sleeps are left out). */
  method SendWithRetries(reply: nat -> SendResult, maxAttempts: int) returns (result: SendResult, calls: nat)
    ensures (result, calls) == Retried(reply, maxAttempts)
  {
    var max := ClampAttempts(maxAttempts);
    var attempt: nat := 0;
    var last: Option<SendResult> := None;
    while attempt < max
      invariant attempt <= max
      invariant attempt == 0 <==> last.None?
      invariant attempt < max ==> Attempts(reply, max, 0) == Attempts(reply, max, attempt)
      invariant attempt == max ==> Attempts(reply, max, 0) == (last.value, max)
    {
      attempt := attempt + 1;
      var r := reply(attempt - 1);
      if Final(r) {
        return r, attempt;
      }
      last := Some(r);
    }
    return last.value, attempt;
  }

  // ---------------------------------------------------------------------
  // Dataset reports

  /** `TelegramNotificationResult` (durations left out). */
  datatype NotificationResult = NotificationResult(
    success: bool,
    telegramMessageId: Option<int>,
    recordsSent: nat,
    statusCode: int,
    datasetId: string,
    datasetRecords: nat,
    messageId: string,
    errorCode: Option<string>,
    errorDescription: Option<TelegramClient.Json>,
    rawResponse: Option<map<string, TelegramClient.Json>>)

  /** What the dataset fetcher delivers: a prepared report, or the
      preparation error it raised. */
  type Fetched = ReportPreparation.Outcome<ReportPreparation.Report>

  /** The `error_code` a preparation error carries to the notification:
      its own code for a `DatasetValidationError`, "dataset_error" for any
      other `ReportPreparationError`. */
  function FetchErrorCode(e: ReportPreparation.Error): string
  {
    match e
    case MissingRequiredFields(_) => "missing_required_fields"
    case DuplicateRecords => "duplicate_records"
    case InvalidTotalMissionaries(_) => "invalid_total_missionaries"
    case InvalidKpiValue(_) => "invalid_kpi_value"
    case InvalidMissionariesCount(_) => "invalid_missionaries_count"
    case DatasetMissingRows => "dataset_missing_rows"
    case InvalidBranch => "invalid_branch"
    case PreparationFailure => "dataset_error"
  }

  /** The message id of a notification whose fetch failed. */
  function FetchErrorMessageId(e: ReportPreparation.Error): string
  {
    if e.PreparationFailure? then "dataset_preparation_error" else "dataset_validation_error"
  }

  /** `_build_failure_result` */
  function FailureResult(datasetId: string, messageId: string, code: string): (r: NotificationResult)
  {
    NotificationResult(false, None, 0, 0, datasetId, 0, messageId, Some(code), None, None)
  }

  /** A send result carried into a notification result. */
  function FromSend(s: SendResult, datasetId: string, records: nat, messageId: string): (r: NotificationResult)
  {
    NotificationResult(s.success, s.telegramMessageId, s.recordsSent, s.statusCode, datasetId, records,
                       messageId, s.errorCode, s.errorDescription, s.rawResponse)
  }

  /** A notification: its result and the text sent to Telegram, if any. */
  datatype Delivery = Delivery(result: NotificationResult, sent: Option<string>)

  /** `_send_dataset_report`: `fetched` is what the fetcher would return,
      `formatted` the formatter's text for a non-empty dataset, `footer`
      the footer of the empty report. */
  function DatasetReport(enabled: bool, datasetId: string, fetched: Fetched,
                         reply: nat -> SendResult, maxAttempts: int,
                         formatted: string, emptyMessage: string, footer: string): (d: Delivery)
    ensures !enabled ==>
              d.sent.None? && !d.result.success && d.result.messageId == "disabled"
              && d.result.errorCode == Some(TelegramClient.DisabledCode) && d.result.recordsSent == 0
    ensures enabled && fetched.Failure? ==>
              d.sent.None? && !d.result.success && d.result.recordsSent == 0
              && d.result.errorCode == Some(FetchErrorCode(fetched.error))
              && d.result.messageId == FetchErrorMessageId(fetched.error)
    ensures enabled && fetched.Success? ==>
              var report := fetched.value;
              d.sent == Some(if report.metadata.recordCount == 0 then EmptyReport(datasetId, emptyMessage, footer)
                             else formatted)
              && d.result.messageId == report.metadata.messageId
              && d.result.datasetRecords == report.metadata.recordCount
              && d.result.success == Retried(reply, maxAttempts).0.success
              && d.result.recordsSent == Retried(reply, maxAttempts).0.recordsSent
  {
    if !enabled then
      Delivery(NotificationResult(false, None, 0, 0, datasetId, 0, "disabled", Some(TelegramClient.DisabledCode),
                                  Some(TelegramClient.JText(TelegramClient.DisabledDescription)), None), None)
    else match fetched
      case Failure(e) => Delivery(FailureResult(datasetId, FetchErrorMessageId(e), FetchErrorCode(e)), None)
      case Success(report) =>
        var text := if report.metadata.recordCount == 0 then EmptyReport(datasetId, emptyMessage, footer)
                    else formatted;
        var (sent, _) := Retried(reply, maxAttempts);
        RetriedSpec(reply, maxAttempts);
        Delivery(FromSend(sent, datasetId, report.metadata.recordCount, report.metadata.messageId), Some(text))
  }

  /** A disabled client never reaches the fetcher: the notification is the
      same whatever the fetch would have given, and nothing is sent. */
  lemma DisabledIgnoresFetch(datasetId: string, f1: Fetched, f2: Fetched, reply: nat -> SendResult,
                             maxAttempts: int, formatted: string, emptyMessage: string, footer: string)
    ensures DatasetReport(false, datasetId, f1, reply, maxAttempts, formatted, emptyMessage, footer)
            == DatasetReport(false, datasetId, f2, reply, maxAttempts, formatted, emptyMessage, footer)
  {
  }

  // ---------------------------------------------------------------------
  // Message text

  /** `_build_header` */
  function Header(datasetId: string): string
  {
    if datasetId == "upcoming_arrivals" then "📊 <b>Próximos Ingresos al CCM</b>\n\n"
    else if datasetId == "upcoming_birthdays" then "🎊 <b>PRÓXIMOS CUMPLEAÑOS</b>\n"
    else "ℹ️ <b>CCM Notifications</b>\n\n"
  }

  /** The arrivals, the birthdays and every other dataset get three
      different headers, each ending in a line break. */
  lemma HeadersDistinct(other: string)
    requires other != "upcoming_arrivals" && other != "upcoming_birthdays"
    ensures Header("upcoming_arrivals") != Header("upcoming_birthdays")
    ensures Header(other) != Header("upcoming_arrivals") && Header(other) != Header("upcoming_birthdays")
    ensures EndsWith(Header("upcoming_arrivals"), "\n") && EndsWith(Header("upcoming_birthdays"), "\n")
            && EndsWith(Header(other), "\n")
  {
    var a, b, c := Header("upcoming_arrivals"), Header("upcoming_birthdays"), Header(other);
    assert a[0] != b[0] && c[0] != a[0] && c[0] != b[0];
    assert a[|a| - 1..] == "\n" && b[|b| - 1..] == "\n" && c[|c| - 1..] == "\n";
  }

  /** Python truthiness of an optional branch id: None and 0 are falsy. */
  predicate Given(branch: Option<int>)
  {
    branch.Some? && branch.value != 0
  }

  /** `branch_id or default_branch_id or "N/A"` */
  function Rama(branch: Option<int>, defaultBranch: Option<int>): (r: string)
    ensures Given(branch) ==> r == IntToString(branch.value)
    ensures !Given(branch) && Given(defaultBranch) ==> r == IntToString(defaultBranch.value)
    ensures !Given(branch) && !Given(defaultBranch) ==> r == "N/A"
  {
    if Given(branch) then IntToString(branch.value)
    else if Given(defaultBranch) then IntToString(defaultBranch.value)
    else "N/A"
  }

  /** `_build_footer`, with the formatted timestamp as a parameter. */
  function Footer(timestamp: string, branch: Option<int>, defaultBranch: Option<int>): string
  {
    "🕐 " + timestamp + "\n🏢 Rama " + Rama(branch, defaultBranch) + " - CCM Sistema"
  }

  /** `_format_empty_report` */
  function EmptyReport(datasetId: string, emptyMessage: string, footer: string): (r: string)
    ensures StartsWith(r, Header(datasetId)) && EndsWith(r, footer)
  {
    var r := Header(datasetId) + emptyMessage + "\n\n" + footer;
    assert r[..|Header(datasetId)|] == Header(datasetId);
    assert r[|r| - |footer|..] == footer;
    r
  }

  /** The emoji of an alert level, by the lower-cased level; unknown
      levels get the info icon. */
  function AlertEmoji(level: string): (r: string)
    ensures r in {"ℹ️", "⚠️", "🚨", "✅"}
    ensures Lower(level) !in {"warning", "error", "success"} ==> r == "ℹ️"
  {
    var key := Lower(level);
    if key == "warning" then "⚠️"
    else if key == "error" then "🚨"
    else if key == "success" then "✅"
    else "ℹ️"
  }

  /** `_format_alert`, with the footer as a parameter. */
  function FormatAlert(title: string, body: string, level: string, footer: string): (r: string)
    ensures StartsWith(r, AlertEmoji(level))
  {
    var r := AlertEmoji(level) + " <b>" + title + "</b>\n\n" + body + "\n\n" + footer;
    assert r[..|AlertEmoji(level)|] == AlertEmoji(level);
    r
  }

  /** An alert at level "warning", in any letter case, starts with the
      warning sign, and one at an unknown level with the info icon. */
  lemma AlertLevels(title: string, body: string, level: string, footer: string)
    ensures Lower(level) == "warning" ==> StartsWith(FormatAlert(title, body, level, footer), "⚠️")
    ensures Lower(level) !in {"warning", "error", "success"} ==> StartsWith(FormatAlert(title, body, level, footer), "ℹ️")
  {
  }

  /** `_arrival_time_descriptor` */
  function ArrivalTimeDescriptor(diffDays: int): (r: string)
  {
    if diffDays <= 7 then "La próxima semana"
    else if diffDays <= 14 then "En 2 semanas"
    else if diffDays <= 21 then "En 3 semanas"
    else if diffDays <= 30 then "Este mes"
    else "En " + IntToString(diffDays) + " días"
  }

  /** The band a day difference falls in: up to a week, two weeks, three
      weeks, the month, or later. */
  function Band(diffDays: int): (b: nat)
    ensures b <= 4
  {
    if diffDays <= 7 then 0 else if diffDays <= 14 then 1 else if diffDays <= 21 then 2
    else if diffDays <= 30 then 3 else 4
  }

  lemma DecimalAtLeastTwoDigits(n: nat)
    requires n >= 10
    ensures |NatToDecimal(n)| >= 2
  {
  }

  /** Past a month the descriptor is "En N días", and N reads back as the
      day difference. */
  lemma {:induction false} DescriptorDays(diffDays: int)
    requires diffDays > 30
    ensures var r := ArrivalTimeDescriptor(diffDays);
            |r| > 8 && r == "En " + IntToString(diffDays) + " días"
            && ParseInt(r[3..|r| - 5]) == Some(diffDays)
  {
    var s := IntToString(diffDays);
    var r := ArrivalTimeDescriptor(diffDays);
    assert r == "En " + s + " días";
    assert r[3..|r| - 5] == s;
    ParseIntOfString(diffDays);
  }

  /** The descriptor tells the band apart, and past a month the exact day
      difference: equal descriptors come from the same band, and beyond
      30 days from the same difference. */
  lemma {:induction false} DescriptorDeterminesBand(a: int, b: int)
    requires ArrivalTimeDescriptor(a) == ArrivalTimeDescriptor(b)
    ensures Band(a) == Band(b)
    ensures a > 30 ==> a == b
  {
    if a > 30 {
      LaterDescriptorShape(a);
      if b > 30 {
        DescriptorDays(a);
        DescriptorDays(b);
      } else {
        EarlierDescriptorShape(b);
      }
    } else if b > 30 {
      LaterDescriptorShape(b);
      EarlierDescriptorShape(a);
    }
  }

  /** Past a month: "En " then at least two digits. */
  lemma LaterDescriptorShape(d: int)
    requires d > 30
    ensures var r := ArrivalTimeDescriptor(d);
            |r| >= 10 && r[0] == 'E' && r[1] == 'n' && IsDigit(r[4])
  {
    DecimalAtLeastTwoDigits(d);
    var s := IntToString(d);
    assert s == NatToDecimal(d);
    var r := ArrivalTimeDescriptor(d);
    assert r == "En " + s + " días";
    assert r[4] == s[1];
  }

  /** Within a month: a fixed text that is not "En " followed by a digit
      pair. */
  lemma EarlierDescriptorShape(d: int)
    requires d <= 30
    ensures var r := ArrivalTimeDescriptor(d);
            !(|r| >= 10 && r[0] == 'E' && r[1] == 'n' && IsDigit(r[4]))
  {
    var r := ArrivalTimeDescriptor(d);
    if d <= 7 {
      assert r[0] == 'L';
    } else if d <= 14 {
      assert r[4] == ' ';
    } else if d <= 21 {
      assert r[4] == ' ';
    } else {
      assert |r| == 8;
    }
  }

  /** `_format_people_count` */
  function PeopleCount(count: int): (r: string)
  {
    "👥 " + IntToString(count) + " misionero" + (if count != 1 then "s" else "")
  }

  /** The singular is used exactly for one person, and the count reads
      back from the text. */
  lemma {:induction false} PeopleCountSpec(count: int)
    ensures var r := PeopleCount(count);
            var n := |IntToString(count)|;
            (EndsWith(r, "misioneros") <==> count != 1)
            && |r| >= 2 + n && ParseInt(r[2..2 + n]) == Some(count)
  {
    var s := IntToString(count);
    var r := PeopleCount(count);
    if count != 1 {
      assert r == "👥 " + s + " misioneros";
      assert r[|r| - 10..] == "misioneros";
    } else {
      assert r == "👥 " + s + " misionero";
      assert r[|r| - 1] == 'o';
    }
    assert r[2..2 + |s|] == s;
    ParseIntOfString(count);
  }

  // ---------------------------------------------------------------------
  // Grouping

  /** A date field as the formatters read it: a date value, or an ISO
      text `date.fromisoformat` accepts; anything else is no date. A
      ten-character text matching `%Y-%m-%d` has digits everywhere but at
      the two dashes, except that `%d` also takes a blank-padded day,
      which `date.fromisoformat` does not: the guard on `s[8]` rules it out. */
  function DateOf(v: ReportPreparation.Value): (r: Option<Dates.Date>)
    ensures r.Some? ==> Dates.ValidDate(r.value)
  {
    match v
    case Day(k) => if 1 <= k <= Dates.MaxOrdinal then Some(Dates.FromOrdinal(k)) else None
    case Str(s) => if |s| == 10 && Text.IsDigit(s[8]) then Dates.Strptime(s, Dates.IsoDirectives) else None
    case _ => None
  }

  /** A blank-padded day is no ISO date, although `%Y-%m-%d` reads it. */
  lemma BlankPaddedDayIsNoDate()
    ensures Dates.Strptime("2025-01- 5", Dates.IsoDirectives) == Some(Dates.Date(2025, 1, 5))
    ensures DateOf(ReportPreparation.Str("2025-01- 5")) == None
  {
    BlankPaddedMatch();
    BlankPaddedAssign();
  }

  /** The captures `%Y-%m-%d` takes from "2025-01- 5". */
  function BlankPaddedCaptures(): seq<Dates.Capture>
  {
    [Dates.Capture(Dates.Year4, "2025"), Dates.Capture(Dates.Lit('-'), "-"),
     Dates.Capture(Dates.Month, "01"), Dates.Capture(Dates.Lit('-'), "-"),
     Dates.Capture(Dates.Day, " 5")]
  }

  lemma BlankPaddedMatch()
    ensures Dates.MatchFrom(Dates.IsoDirectives, "2025-01- 5") == Some((BlankPaddedCaptures(), []))
  {
    var fmt := Dates.IsoDirectives;
    var caps := BlankPaddedCaptures();
    BlankPaddedMatchFirstDash();
    assert "2025" + "-01- 5" == "2025-01- 5";
    assert Dates.Alternatives(fmt[0], "2025-01- 5") == [4];
    Dates.MatchStep(fmt, "2025", "-01- 5", caps[1..], []);
    assert [Dates.Capture(fmt[0], "2025")] + caps[1..] == caps;
  }

  lemma BlankPaddedMatchFirstDash()
    ensures Dates.MatchFrom(Dates.IsoDirectives[1..], "-01- 5") == Some((BlankPaddedCaptures()[1..], []))
  {
    var fmt := Dates.IsoDirectives;
    var caps := BlankPaddedCaptures();
    BlankPaddedMatchMonth();
    assert fmt[1..][1..] == fmt[2..] && "-" + "01- 5" == "-01- 5";
    assert Dates.Alternatives(fmt[1..][0], "-01- 5") == [1];
    Dates.MatchStep(fmt[1..], "-", "01- 5", caps[2..], []);
    assert [Dates.Capture(fmt[1..][0], "-")] + caps[2..] == caps[1..];
  }

  lemma BlankPaddedMatchMonth()
    ensures Dates.MatchFrom(Dates.IsoDirectives[2..], "01- 5") == Some((BlankPaddedCaptures()[2..], []))
  {
    var fmt := Dates.IsoDirectives;
    var caps := BlankPaddedCaptures();
    BlankPaddedMatchDash();
    assert fmt[2..][1..] == fmt[3..] && "01" + "- 5" == "01- 5";
    assert Dates.Alternatives(fmt[2..][0], "01- 5") == [2];
    Dates.MatchStep(fmt[2..], "01", "- 5", caps[3..], []);
    assert [Dates.Capture(fmt[2..][0], "01")] + caps[3..] == caps[2..];
  }

  lemma BlankPaddedMatchDash()
    ensures Dates.MatchFrom(Dates.IsoDirectives[3..], "- 5") == Some((BlankPaddedCaptures()[3..], []))
  {
    var fmt := Dates.IsoDirectives;
    var caps := BlankPaddedCaptures();
    BlankPaddedMatchDay();
    assert fmt[3..][1..] == fmt[4..] && "-" + " 5" == "- 5";
    assert Dates.Alternatives(fmt[3..][0], "- 5") == [1];
    Dates.MatchStep(fmt[3..], "-", " 5", caps[4..], []);
    assert [Dates.Capture(fmt[3..][0], "-")] + caps[4..] == caps[3..];
  }

  lemma BlankPaddedMatchDay()
    ensures Dates.MatchFrom(Dates.IsoDirectives[4..], " 5") == Some((BlankPaddedCaptures()[4..], []))
  {
    var fmt := Dates.IsoDirectives;
    assert fmt[4..][1..] == [];
    assert Dates.Alternatives(fmt[4..][0], " 5") == [2];
    Dates.MatchStep(fmt[4..], " 5", [], [], []);
    assert " 5" + [] == " 5";
    assert [Dates.Capture(fmt[4..][0], " 5")] + [] == BlankPaddedCaptures()[4..];
  }

  lemma BlankPaddedAssign()
    ensures Dates.Assign(BlankPaddedCaptures(), Dates.Date(1900, 1, 1)) == Some(Dates.Date(2025, 1, 5))
  {
    var caps := BlankPaddedCaptures();
    assert Dates.CaptureNumber(" 5") == Some(5) by {
      assert " 5"[1..] == "5";
    }
    assert Dates.Assign(caps[4..], Dates.Date(2025, 1, 1)) == Some(Dates.Date(2025, 1, 5)) by {
      assert caps[4..][1..] == [];
    }
    assert Dates.Assign(caps[3..], Dates.Date(2025, 1, 1)) == Some(Dates.Date(2025, 1, 5)) by {
      assert caps[3..][1..] == caps[4..];
    }
    assert Dates.CaptureNumber("01") == Some(1) by {
      assert "01"[..1] == "0";
    }
    assert Dates.Assign(caps[2..], Dates.Date(2025, 1, 1)) == Some(Dates.Date(2025, 1, 5)) by {
      assert caps[2..][1..] == caps[3..];
    }
    assert Dates.Assign(caps[1..], Dates.Date(2025, 1, 1)) == Some(Dates.Date(2025, 1, 5)) by {
      assert caps[1..][1..] == caps[2..];
    }
    assert Dates.CaptureNumber("2025") == Some(2025) by {
      assert "2025"[..3] == "202" && "202"[..2] == "20" && "20"[..1] == "2";
    }
  }

  /** A record's arrival date, as a day number. */
  function ArrivalKey(row: Row): Option<int>
  {
    match DateOf(ReportPreparation.Field(row, "arrival_date"))
    case None => None
    case Some(d) => Some(Dates.Ordinal(d))
  }

  /** A date value keys by its own day number, and an ISO date text by the
      day number of that date. */
  lemma ArrivalKeyOfDate(row: Row, d: Dates.Date)
    requires Dates.ValidDate(d)
    ensures ReportPreparation.Field(row, "arrival_date") == ReportPreparation.Day(Dates.Ordinal(d))
            ==> ArrivalKey(row) == Some(Dates.Ordinal(d))
    ensures ReportPreparation.Field(row, "arrival_date") == ReportPreparation.Str(Dates.IsoFormat(d))
            ==> ArrivalKey(row) == Some(Dates.Ordinal(d))
  {
    Dates.FromOrdinalOfOrdinal(d);
    Dates.StrptimeIso(d);
  }

  /** A record's birthday. */
  function BirthDate(row: Row): (r: Option<Dates.Date>)
    ensures r.Some? ==> Dates.ValidDate(r.value)
  {
    DateOf(ReportPreparation.Field(row, "birthday"))
  }

  function MonthKey(row: Row): (r: Option<int>)
    ensures r.Some? ==> 1 <= r.value <= 12
  {
    match BirthDate(row)
    case None => None
    case Some(d) => Some(d.month)
  }

  function DayKey(row: Row): Option<int>
  {
    match BirthDate(row)
    case None => None
    case Some(d) => Some(d.day)
  }

  /** The records with key `k`, in input order. */
  function Members(rows: seq<Row>, key: Row -> Option<int>, k: int): (r: seq<Row>)
    ensures forall row :: row in r ==> row in rows && key(row) == Some(k)
  {
    if rows == [] then []
    else
      var last := rows[|rows| - 1];
      Members(rows[..|rows| - 1], key, k) + (if key(last) == Some(k) then [last] else [])
  }

  /** The keys in the order they first appear, as a dictionary keeps them. */
  function KeyOrder(rows: seq<Row>, key: Row -> Option<int>): seq<int>
  {
    if rows == [] then []
    else
      var init := KeyOrder(rows[..|rows| - 1], key);
      var last := rows[|rows| - 1];
      if key(last).Some? && key(last).value !in init then init + [key(last).value] else init
  }

  predicate Distinct(xs: seq<int>)
  {
    forall i, j :: 0 <= i < j < |xs| ==> xs[i] != xs[j]
  }

  predicate StrictlyAscending(xs: seq<int>)
  {
    forall i, j :: 0 <= i < j < |xs| ==> xs[i] < xs[j]
  }

  /** A dictionary from integer keys to lists of records: its keys in
      insertion order and its content. */
  datatype Groups = Groups(order: seq<int>, members: map<int, seq<Row>>)

  /** The dictionary the grouping loop has filled after `rows`. */
  function GroupsOf(rows: seq<Row>, key: Row -> Option<int>): Groups
  {
    var order := KeyOrder(rows, key);
    Groups(order, map k | k in order :: Members(rows, key, k))
  }

  /** `groups.setdefault(k, []).append(row)` */
  function Add(g: Groups, k: int, row: Row): Groups
  {
    if k in g.members then Groups(g.order, g.members[k := g.members[k] + [row]])
    else Groups(g.order + [k], g.members[k := [row]])
  }

  /** Insertion of one integer into an ascending list. */
  function InsertSorted(x: int, xs: seq<int>): seq<int>
  {
    if xs == [] || x <= xs[0] then [x] + xs else [xs[0]] + InsertSorted(x, xs[1..])
  }

  /** `sorted` on a list of integers. */
  function SortInts(xs: seq<int>): seq<int>
  {
    if xs == [] then [] else InsertSorted(xs[0], SortInts(xs[1..]))
  }

  lemma {:induction false} InsertSortedPerm(x: int, xs: seq<int>)
    ensures multiset(InsertSorted(x, xs)) == multiset(xs) + multiset{x}
  {
    if !(xs == [] || x <= xs[0]) {
      InsertSortedPerm(x, xs[1..]);
      assert xs == [xs[0]] + xs[1..];
    }
  }

  lemma {:induction false} InsertSortedAscending(x: int, xs: seq<int>)
    requires StrictlyAscending(xs) && x !in xs
    ensures StrictlyAscending(InsertSorted(x, xs))
  {
    if xs == [] || x <= xs[0] {
      if xs != [] {
        assert x < xs[0];
      }
    } else {
      var tail := InsertSorted(x, xs[1..]);
      InsertSortedAscending(x, xs[1..]);
      InsertSortedPerm(x, xs[1..]);
      forall k | 0 <= k < |tail|
        ensures xs[0] < tail[k]
      {
        assert tail[k] in multiset(tail);
      }
    }
  }

  /** `sorted` keeps the elements. */
  lemma {:induction false} SortIntsPerm(xs: seq<int>)
    ensures multiset(SortInts(xs)) == multiset(xs)
    ensures forall k :: k in SortInts(xs) <==> k in xs
  {
    if xs != [] {
      SortIntsPerm(xs[1..]);
      InsertSortedPerm(xs[0], SortInts(xs[1..]));
      assert xs == [xs[0]] + xs[1..];
    }
    assert forall k :: k in SortInts(xs) <==> k in multiset(SortInts(xs));
  }

  /** `sorted` on distinct integers orders them strictly. */
  lemma {:induction false} SortIntsAscending(xs: seq<int>)
    requires Distinct(xs)
    ensures StrictlyAscending(SortInts(xs))
  {
    if xs != [] {
      SortIntsAscending(xs[1..]);
      SortIntsPerm(xs[1..]);
      InsertSortedAscending(xs[0], SortInts(xs[1..]));
    }
  }

  /** `sorted((key, groups[key]) for key in groups)`: the entries of the
      dictionary by ascending key. */
  function Listed(g: Groups): seq<(int, seq<Row>)>
    requires forall k :: k in g.order ==> k in g.members
  {
    var ks := SortInts(g.order);
    assert forall i :: 0 <= i < |ks| ==> ks[i] in g.members by {
      SortIntsPerm(g.order);
      forall i | 0 <= i < |ks|
        ensures ks[i] in g.members
      {
        var k := ks[i];
        assert k in ks;
      }
    }
    Pairs(ks, g.members)
  }

  /** Each key of `ks` with its entry, in the order of `ks`. */
  function Pairs(ks: seq<int>, members: map<int, seq<Row>>): (r: seq<(int, seq<Row>)>)
    requires forall i :: 0 <= i < |ks| ==> ks[i] in members
    ensures |r| == |ks| && forall i :: 0 <= i < |ks| ==> r[i] == (ks[i], members[ks[i]])
  {
    if ks == [] then [] else [(ks[0], members[ks[0]])] + Pairs(ks[1..], members)
  }

  /** The groups of `rows` by `key`, by ascending key. */
  function Grouped(rows: seq<Row>, key: Row -> Option<int>): seq<(int, seq<Row>)>
  {
    Listed(GroupsOf(rows, key))
  }

  lemma MembersSnoc(rows: seq<Row>, row: Row, key: Row -> Option<int>, k: int)
    ensures Members(rows + [row], key, k) == Members(rows, key, k) + (if key(row) == Some(k) then [row] else [])
    ensures key(row) != Some(k) ==> Members(rows + [row], key, k) == Members(rows, key, k)
  {
    assert (rows + [row])[..|rows|] == rows;
    assert Members(rows, key, k) + [] == Members(rows, key, k);
  }

  /** Grouping keeps input order: the records of a key from `a + b` are
      those from `a` followed by those from `b`. */
  lemma {:induction false} MembersAppend(a: seq<Row>, b: seq<Row>, key: Row -> Option<int>, k: int)
    ensures Members(a + b, key, k) == Members(a, key, k) + Members(b, key, k)
    decreases |b|
  {
    if b != [] {
      var init := b[..|b| - 1];
      var last := b[|b| - 1];
      assert b == init + [last];
      assert a + b == (a + init) + [last];
      var piece := if key(last) == Some(k) then [last] else [];
      MembersAppend(a, init, key, k);
      MembersSnoc(a + init, last, key, k);
      MembersSnoc(init, last, key, k);
      assert Members(a + b, key, k) == (Members(a, key, k) + Members(init, key, k)) + piece;
      assert Members(b, key, k) == Members(init, key, k) + piece;
    } else {
      assert a + b == a;
    }
  }

  /** The dictionary's keys are distinct and are exactly the keys some
      record has. */
  lemma {:induction false} KeyOrderSpec(rows: seq<Row>, key: Row -> Option<int>)
    ensures Distinct(KeyOrder(rows, key))
    ensures forall k :: k in KeyOrder(rows, key) <==> Members(rows, key, k) != []
  {
    if rows != [] {
      KeyOrderSpec(rows[..|rows| - 1], key);
    }
  }

  /** Every record with a key is among the records of that key. */
  lemma {:induction false} MembersComplete(rows: seq<Row>, key: Row -> Option<int>, n: nat)
    requires n < |rows| && key(rows[n]).Some?
    ensures rows[n] in Members(rows, key, key(rows[n]).value)
  {
    var init := rows[..|rows| - 1];
    if n < |rows| - 1 {
      assert init[n] == rows[n];
      MembersComplete(init, key, n);
    }
  }

  /** `_group_arrivals` and the grouping inside `_group_birthdays`: records
      without a key are dropped, every other record sits in the one group
      of its key, groups come by ascending key and none is empty, and each
      group holds its records in input order. */
  lemma GroupedSpec(rows: seq<Row>, key: Row -> Option<int>)
    ensures var g := Grouped(rows, key);
            (forall i, j :: 0 <= i < j < |g| ==> g[i].0 < g[j].0)
            && (forall i :: 0 <= i < |g| ==> g[i].1 == Members(rows, key, g[i].0) && g[i].1 != [])
            && (forall i, row :: 0 <= i < |g| && row in g[i].1 ==> row in rows && key(row) == Some(g[i].0))
            && (forall n :: 0 <= n < |rows| && key(rows[n]).Some? ==>
                  exists i :: 0 <= i < |g| && g[i].0 == key(rows[n]).value && rows[n] in g[i].1)
  {
    GroupedEntries(rows, key);
    var g := Grouped(rows, key);
    forall n | 0 <= n < |rows| && key(rows[n]).Some?
      ensures exists i :: 0 <= i < |g| && g[i].0 == key(rows[n]).value && rows[n] in g[i].1
    {
      GroupedComplete(rows, key, n);
    }
  }

  /** The listed groups are the sorted keys, each with its records. */
  lemma GroupedEntries(rows: seq<Row>, key: Row -> Option<int>)
    ensures var g := Grouped(rows, key);
            var ks := SortInts(KeyOrder(rows, key));
            |g| == |ks| && StrictlyAscending(ks)
            && (forall i :: 0 <= i < |g| ==> g[i] == (ks[i], Members(rows, key, ks[i])) && g[i].1 != [])
  {
    var g := Grouped(rows, key);
    var order := KeyOrder(rows, key);
    var ks := SortInts(order);
    KeyOrderSpec(rows, key);
    SortIntsPerm(order);
    SortIntsAscending(order);
    forall i | 0 <= i < |g|
      ensures g[i] == (ks[i], Members(rows, key, ks[i])) && g[i].1 != []
    {
      var k := ks[i];
      assert k in ks;
      assert k in order;
    }
  }

  /** A record with a key is listed in the group of that key. */
  lemma GroupedComplete(rows: seq<Row>, key: Row -> Option<int>, n: nat)
    requires n < |rows| && key(rows[n]).Some?
    ensures var g := Grouped(rows, key);
            exists i :: 0 <= i < |g| && g[i].0 == key(rows[n]).value && rows[n] in g[i].1
  {
    var g := Grouped(rows, key);
    var order := KeyOrder(rows, key);
    var ks := SortInts(order);
    GroupedEntries(rows, key);
    var k := key(rows[n]).value;
    MembersComplete(rows, key, n);
    KeyOrderSpec(rows, key);
    assert k in order;
    SortIntsPerm(order);
    assert k in ks;
    var i :| 0 <= i < |ks| && ks[i] == k;
    assert g[i].0 == k && rows[n] in g[i].1;
  }

  /** One record without a key leaves the grouping dictionary alone. */
  lemma GroupsSnocNone(rows: seq<Row>, row: Row, key: Row -> Option<int>)
    requires key(row).None?
    ensures GroupsOf(rows + [row], key) == GroupsOf(rows, key)
  {
    assert (rows + [row])[..|rows|] == rows;
    var g := GroupsOf(rows, key);
    var g' := GroupsOf(rows + [row], key);
    assert g'.order == g.order;
    forall j | j in g'.members
      ensures g'.members[j] == g.members[j]
    {
      MembersSnoc(rows, row, key, j);
    }
  }

  /** One record with key `k` is appended to the list of `k`. */
  lemma GroupsSnocSome(rows: seq<Row>, row: Row, key: Row -> Option<int>, k: int)
    requires key(row) == Some(k)
    ensures GroupsOf(rows + [row], key) == Add(GroupsOf(rows, key), k, row)
  {
    assert (rows + [row])[..|rows|] == rows;
    var g := GroupsOf(rows, key);
    var g' := GroupsOf(rows + [row], key);
    var a := Add(g, k, row);
    assert g'.order == a.order;
    forall j | j in g'.order
      ensures g'.members[j] == a.members[j]
    {
      AddedMembers(rows, row, key, k, j);
    }
  }

  /** The records of one key once a record with key `k` is appended. */
  lemma AddedMembers(rows: seq<Row>, row: Row, key: Row -> Option<int>, k: int, j: int)
    requires key(row) == Some(k)
    requires j in KeyOrder(rows + [row], key)
    ensures j in Add(GroupsOf(rows, key), k, row).members
    ensures Add(GroupsOf(rows, key), k, row).members[j] == Members(rows + [row], key, j)
  {
    assert (rows + [row])[..|rows|] == rows;
    MembersSnoc(rows, row, key, j);
    var g := GroupsOf(rows, key);
    if j != k {
      assert j in g.order;
    } else if k !in g.order {
      KeyOrderSpec(rows, key);
    }
  }

  /** One record added to the grouping dictionary. */
  lemma GroupsSnoc(rows: seq<Row>, row: Row, key: Row -> Option<int>)
    ensures key(row).None? ==> GroupsOf(rows + [row], key) == GroupsOf(rows, key)
    ensures key(row).Some? ==> GroupsOf(rows + [row], key) == Add(GroupsOf(rows, key), key(row).value, row)
  {
    if key(row).Some? {
      GroupsSnocSome(rows, row, key, key(row).value);
    } else {
      GroupsSnocNone(rows, row, key);
    }
  }

  /** `_group_arrivals`: fills the dictionary record by record, then lists
      it by ascending arrival date. */
  method GroupArrivals(records: seq<Row>) returns (groups: seq<(int, seq<Row>)>)
    ensures groups == Grouped(records, ArrivalKey)
  {
    var buckets := Groups([], map[]);
    for i := 0 to |records|
      invariant buckets == GroupsOf(records[..i], ArrivalKey)
    {
      var record := records[i];
      assert records[..i + 1] == records[..i] + [record];
      GroupsSnoc(records[..i], record, ArrivalKey);
      var arrival := ArrivalKey(record);
      if arrival.None? {
        continue;
      }
      buckets := Add(buckets, arrival.value, record);
    }
    assert records[..|records|] == records;
    groups := Listed(buckets);
  }

  const MonthNames: seq<string> :=
    ["ENERO", "FEBRERO", "MARZO", "ABRIL", "MAYO", "JUNIO", "JULIO",
     "AGOSTO", "SEPTIEMBRE", "OCTUBRE", "NOVIEMBRE", "DICIEMBRE"]

  /** `month_names.get(month, str(month))` */
  function MonthName(month: int): (r: string)
    ensures 1 <= month <= 12 ==> r == MonthNames[month - 1]
  {
    if 1 <= month <= 12 then MonthNames[month - 1] else IntToString(month)
  }

  /** A dictionary of dictionaries, as `_group_birthdays` fills it: outer
      keys in insertion order, each to the inner dictionary of its records. */
  datatype Nested = Nested(order: seq<int>, groups: map<int, Groups>)

  /** The nested dictionary after `rows`, by `outer` then `inner` key. */
  function NestedOf(rows: seq<Row>, outer: Row -> Option<int>, inner: Row -> Option<int>): Nested
  {
    var order := KeyOrder(rows, outer);
    Nested(order, map m | m in order :: GroupsOf(Members(rows, outer, m), inner))
  }

  /** `months.setdefault(month, {}).setdefault(day, []).append(row)` */
  function AddNested(n: Nested, m: int, d: int, row: Row): Nested
  {
    var g := if m in n.groups then n.groups[m] else Groups([], map[]);
    if m in n.groups then Nested(n.order, n.groups[m := Add(g, d, row)])
    else Nested(n.order + [m], n.groups[m := Add(g, d, row)])
  }

  /** What `_group_birthdays` returns: months by name, days by number. */
  function BirthdayGroups(rows: seq<Row>): seq<(string, seq<(int, seq<Row>)>)>
  {
    MonthEntries(SortInts(KeyOrder(rows, MonthKey)), rows)
  }

  /** Each month of `ms` by name, with the day groups of its records. */
  function MonthEntries(ms: seq<int>, rows: seq<Row>): (r: seq<(string, seq<(int, seq<Row>)>)>)
    ensures |r| == |ms|
    ensures forall i :: 0 <= i < |ms| ==> r[i] == (MonthName(ms[i]), Grouped(Members(rows, MonthKey, ms[i]), DayKey))
  {
    if ms == [] then []
    else [(MonthName(ms[0]), Grouped(Members(rows, MonthKey, ms[0]), DayKey))] + MonthEntries(ms[1..], rows)
  }

  /** Both keys come from the birthday: a record has both or neither. */
  lemma BirthdayKeys(row: Row)
    ensures BirthDate(row).None? ==> MonthKey(row).None? && DayKey(row).None?
    ensures BirthDate(row).Some? ==> MonthKey(row) == Some(BirthDate(row).value.month)
                                     && DayKey(row) == Some(BirthDate(row).value.day)
  {
  }

  lemma NestedMonthSnoc(rows: seq<Row>, row: Row, outer: Row -> Option<int>, inner: Row -> Option<int>, m: int)
    requires outer(row) == Some(m) && inner(row).Some?
    ensures var n := NestedOf(rows, outer, inner);
            var g := if m in n.groups then n.groups[m] else Groups([], map[]);
            GroupsOf(Members(rows + [row], outer, m), inner) == Add(g, inner(row).value, row)
  {
    var before := Members(rows, outer, m);
    MembersSnoc(rows, row, outer, m);
    GroupsSnoc(before, row, inner);
    KeyOrderSpec(rows, outer);
    if m !in KeyOrder(rows, outer) {
      assert before == [];
      assert GroupsOf(before, inner) == Groups([], map[]);
    }
  }

  /** One record added to the nested dictionary. */
  lemma NestedSnoc(rows: seq<Row>, row: Row, outer: Row -> Option<int>, inner: Row -> Option<int>)
    requires outer(row).Some? <==> inner(row).Some?
    ensures outer(row).None? ==> NestedOf(rows + [row], outer, inner) == NestedOf(rows, outer, inner)
    ensures outer(row).Some? ==>
              NestedOf(rows + [row], outer, inner) == AddNested(NestedOf(rows, outer, inner), outer(row).value, inner(row).value, row)
  {
    if outer(row).Some? {
      NestedSnocSome(rows, row, outer, inner, outer(row).value);
    } else {
      NestedSnocNone(rows, row, outer, inner);
    }
  }

  lemma NestedSnocNone(rows: seq<Row>, row: Row, outer: Row -> Option<int>, inner: Row -> Option<int>)
    requires outer(row).None?
    ensures NestedOf(rows + [row], outer, inner) == NestedOf(rows, outer, inner)
  {
    assert (rows + [row])[..|rows|] == rows;
    var n := NestedOf(rows, outer, inner);
    var n' := NestedOf(rows + [row], outer, inner);
    assert n'.order == n.order;
    forall j | j in n'.groups
      ensures n'.groups[j] == n.groups[j]
    {
      MembersSnoc(rows, row, outer, j);
    }
  }

  lemma NestedSnocSome(rows: seq<Row>, row: Row, outer: Row -> Option<int>, inner: Row -> Option<int>, m: int)
    requires outer(row) == Some(m) && inner(row).Some?
    ensures NestedOf(rows + [row], outer, inner) == AddNested(NestedOf(rows, outer, inner), m, inner(row).value, row)
  {
    NestedOrderSnoc(rows, row, outer, inner, m);
    NestedGroupsSnoc(rows, row, outer, inner, m);
  }

  /** Every inner dictionary after the record is the one `AddNested` leaves. */
  lemma NestedGroupsSnoc(rows: seq<Row>, row: Row, outer: Row -> Option<int>, inner: Row -> Option<int>, m: int)
    requires outer(row) == Some(m) && inner(row).Some?
    requires NestedOf(rows + [row], outer, inner).groups.Keys
             == AddNested(NestedOf(rows, outer, inner), m, inner(row).value, row).groups.Keys
    ensures NestedOf(rows + [row], outer, inner).groups
            == AddNested(NestedOf(rows, outer, inner), m, inner(row).value, row).groups
  {
    var n' := NestedOf(rows + [row], outer, inner);
    var a := AddNested(NestedOf(rows, outer, inner), m, inner(row).value, row);
    forall j | j in n'.groups
      ensures n'.groups[j] == a.groups[j]
    {
      NestedEntrySnoc(rows, row, outer, inner, m, j);
    }
  }

  lemma NestedEntrySnoc(rows: seq<Row>, row: Row, outer: Row -> Option<int>, inner: Row -> Option<int>, m: int, j: int)
    requires outer(row) == Some(m) && inner(row).Some?
    requires j in NestedOf(rows + [row], outer, inner).groups
    requires j in AddNested(NestedOf(rows, outer, inner), m, inner(row).value, row).groups
    ensures NestedOf(rows + [row], outer, inner).groups[j]
            == AddNested(NestedOf(rows, outer, inner), m, inner(row).value, row).groups[j]
  {
    if j == m {
      NestedMonthSnoc(rows, row, outer, inner, m);
    } else {
      NestedOtherSnoc(rows, row, outer, inner, j);
    }
  }

  /** A new record's outer key joins the order (and the map) exactly when
      it is new. */
  lemma NestedOrderSnoc(rows: seq<Row>, row: Row, outer: Row -> Option<int>, inner: Row -> Option<int>, m: int)
    requires outer(row) == Some(m) && inner(row).Some?
    ensures var n := NestedOf(rows, outer, inner);
            var a := AddNested(n, m, inner(row).value, row);
            NestedOf(rows + [row], outer, inner).order == a.order
            && NestedOf(rows + [row], outer, inner).groups.Keys == a.groups.Keys
  {
    assert (rows + [row])[..|rows|] == rows;
  }

  /** The inner dictionary of another outer key is untouched. */
  lemma NestedOtherSnoc(rows: seq<Row>, row: Row, outer: Row -> Option<int>, inner: Row -> Option<int>, j: int)
    requires outer(row) != Some(j)
    requires j in NestedOf(rows + [row], outer, inner).groups
    ensures j in NestedOf(rows, outer, inner).groups
    ensures NestedOf(rows + [row], outer, inner).groups[j] == NestedOf(rows, outer, inner).groups[j]
  {
    assert (rows + [row])[..|rows|] == rows;
    MembersSnoc(rows, row, outer, j);
  }

  /** The filling loop of `_group_birthdays`. */
  method FillBirthdays(records: seq<Row>) returns (months: Nested)
    ensures months == NestedOf(records, MonthKey, DayKey)
  {
    months := Nested([], map[]);
    for i := 0 to |records|
      invariant months == NestedOf(records[..i], MonthKey, DayKey)
    {
      var record := records[i];
      assert records[..i + 1] == records[..i] + [record];
      BirthdayKeys(record);
      NestedSnoc(records[..i], record, MonthKey, DayKey);
      var birthday := BirthDate(record);
      if birthday.None? {
        continue;
      }
      months := AddNested(months, birthday.value.month, birthday.value.day, record);
    }
    assert records[..|records|] == records;
  }

  /** `_group_birthdays`: fills the nested dictionary record by record, then
      lists months and, inside each, days by ascending number. */
  method GroupBirthdays(records: seq<Row>) returns (result: seq<(string, seq<(int, seq<Row>)>)>)
    ensures result == BirthdayGroups(records)
  {
    var months := FillBirthdays(records);
    var sorted := SortInts(months.order);
    BirthdayCount(records, months);
    result := [];
    for j := 0 to |sorted|
      invariant |result| == j
      invariant forall k :: 0 <= k < j ==> result[k] == BirthdayGroups(records)[k]
    {
      var m := sorted[j];
      BirthdayStep(records, months, result, j);
      result := result + [(MonthName(m), Listed(months.groups[m]))];
    }
  }

  /** One more month listed keeps the listing a prefix of the result. */
  lemma BirthdayStep(rows: seq<Row>, n: Nested, result: seq<(string, seq<(int, seq<Row>)>)>, j: int)
    requires n == NestedOf(rows, MonthKey, DayKey)
    requires 0 <= j < |SortInts(n.order)| && |result| == j
    requires forall k :: 0 <= k < j ==> result[k] == BirthdayGroups(rows)[k]
    ensures var m := SortInts(n.order)[j];
            m in n.groups
            && (forall k :: k in n.groups[m].order ==> k in n.groups[m].members)
            && var r := result + [(MonthName(m), Listed(n.groups[m]))];
               forall k :: 0 <= k < j + 1 ==> r[k] == BirthdayGroups(rows)[k]
  {
    BirthdayEntry(rows, n, j);
  }

  /** `_group_birthdays` lists one entry per month it filled. */
  lemma BirthdayCount(rows: seq<Row>, n: Nested)
    requires n == NestedOf(rows, MonthKey, DayKey)
    ensures |BirthdayGroups(rows)| == |SortInts(n.order)|
  {
  }

  /** The j-th entry `_group_birthdays` lists, read off the filled
      dictionary. */
  lemma BirthdayEntry(rows: seq<Row>, n: Nested, j: int)
    requires n == NestedOf(rows, MonthKey, DayKey)
    requires 0 <= j < |SortInts(n.order)|
    ensures var m := SortInts(n.order)[j];
            m in n.groups
            && (forall k :: k in n.groups[m].order ==> k in n.groups[m].members)
            && j < |BirthdayGroups(rows)|
            && BirthdayGroups(rows)[j] == (MonthName(m), Listed(n.groups[m]))
  {
    var m := SortInts(n.order)[j];
    SortIntsPerm(n.order);
    assert m in SortInts(n.order);
    assert m in n.order;
    assert n.groups[m] == GroupsOf(Members(rows, MonthKey, m), DayKey);
  }

  /** Birthdays come by ascending month under its Spanish name, each month
      with the day groups of the records born in it. */
  lemma BirthdayGroupsSpec(rows: seq<Row>)
    ensures var r := BirthdayGroups(rows);
            var ms := SortInts(KeyOrder(rows, MonthKey));
            |r| == |ms| && StrictlyAscending(ms)
            && (forall i :: 0 <= i < |r| ==>
                  1 <= ms[i] <= 12 && r[i].0 == MonthNames[ms[i] - 1]
                  && r[i].1 == Grouped(Members(rows, MonthKey, ms[i]), DayKey))
  {
    var order := KeyOrder(rows, MonthKey);
    var ms := SortInts(order);
    KeyOrderSpec(rows, MonthKey);
    SortIntsPerm(order);
    SortIntsAscending(order);
    forall i | 0 <= i < |ms|
      ensures 1 <= ms[i] <= 12
    {
      var m := ms[i];
      assert m in ms;
      var row := Members(rows, MonthKey, m)[0];
      assert MonthKey(row) == Some(m);
    }
  }

  /** Inside a month the days come in ascending order, and every record
      listed under a day was born on that month and day. */
  lemma BirthdayMonthSpec(rows: seq<Row>, month: int)
    ensures var g := Grouped(Members(rows, MonthKey, month), DayKey);
            (forall j, k :: 0 <= j < k < |g| ==> g[j].0 < g[k].0)
            && (forall j, row :: 0 <= j < |g| && row in g[j].1 ==>
                  row in rows && MonthKey(row) == Some(month) && DayKey(row) == Some(g[j].0))
  {
    GroupedSpec(Members(rows, MonthKey, month), DayKey);
  }
}
