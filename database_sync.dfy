/** The sync of one generation folder into `ccm_generaciones`
    (`DatabaseSyncService`): the report and its dictionary form, the
    dedup-then-insert of a file's records, the reading of a workbook's
    rows, the ordering of the listed files and the resumable loop over
    them. */
module DatabaseSync {
  import opened Text
  import opened SyncRecords
  import opened SyncState
  import opened Seqs

  // ---- the report -----------------------------------------------------------

  /** One entry of `processed_files`. */
  datatype ProcessedFile = ProcessedFile(fileId: string, filename: string, inserted: nat, skipped: nat, rowsTotal: nat)

  /** One entry of `errors`; `message` is the text of the exception. */
  datatype SyncError =
    | ListingFailed(message: string)
    | DownloadFailed(message: string, fileId: string)
    | InsertFailed(message: string, fileId: string)
    | ExcelReadFailed(message: string, fileId: string)

  function ErrorCode(e: SyncError): string
  {
    match e
    case ListingFailed(_) => "drive_listing_failed"
    case DownloadFailed(_, _) => "drive_download_failed"
    case InsertFailed(_, _) => "db_insert_failed"
    case ExcelReadFailed(_, _) => "excel_read_failed"
  }

  /** `DatabaseSyncReport`; the duration is measured by the caller. */
  datatype Report = Report(
    fechaGeneracion: string,
    folder: string,
    processed: seq<ProcessedFile>,
    inserted: nat,
    skipped: nat,
    errors: seq<SyncError>,
    durationSeconds: real,
    continuation: Option<string>)

  /** A JSON value. */
  datatype Json =
    | JNull
    | JInt(i: int)
    | JNum(r: real)
    | JStr(s: string)
    | JArray(items: seq<Json>)
    | JObject(fields: map<string, Json>)

  function OptStr(o: Option<string>): Json
  {
    match o case None => JNull case Some(s) => JStr(s)
  }

  function ProcessedJson(p: ProcessedFile): Json
  {
    JObject(map[
      "file_id" := JStr(p.fileId),
      "filename" := JStr(p.filename),
      "inserted" := JInt(p.inserted),
      "skipped" := JInt(p.skipped),
      "rows_total" := JInt(p.rowsTotal)])
  }

  function ErrorJson(e: SyncError): Json
  {
    match e
    case ListingFailed(m) => JObject(map["code" := JStr(ErrorCode(e)), "message" := JStr(m)])
    case _ => JObject(map["code" := JStr(ErrorCode(e)), "message" := JStr(e.message), "file_id" := JStr(e.fileId)])
  }

  function MapJson<T>(xs: seq<T>, f: T -> Json): (r: seq<Json>)
    ensures |r| == |xs| && forall i :: 0 <= i < |xs| ==> r[i] == f(xs[i])
  {
    if xs == [] then [] else [f(xs[0])] + MapJson(xs[1..], f)
  }

  /** `DatabaseSyncReport.to_dict` */
  function ToDict(r: Report): (d: map<string, Json>)
    ensures d.Keys == {"fecha_generacion", "drive_folder_id", "processed_files", "inserted_count",
                       "skipped_count", "errors", "duration_seconds", "continuation_token"}
  {
    map[
      "fecha_generacion" := JStr(r.fechaGeneracion),
      "drive_folder_id" := JStr(r.folder),
      "processed_files" := JArray(MapJson(r.processed, ProcessedJson)),
      "inserted_count" := JInt(r.inserted),
      "skipped_count" := JInt(r.skipped),
      "errors" := JArray(MapJson(r.errors, ErrorJson)),
      "duration_seconds" := JNum(r.durationSeconds),
      "continuation_token" := OptStr(r.continuation)]
  }

  // Reading the dictionary back: the partner of `ToDict`.

  function StrField(o: map<string, Json>, k: string): Option<string>
  {
    if k in o && o[k].JStr? then Some(o[k].s) else None
  }

  function NatField(o: map<string, Json>, k: string): Option<nat>
  {
    if k in o && o[k].JInt? && o[k].i >= 0 then Some(o[k].i) else None
  }

  function ProcessedOfJson(j: Json): Option<ProcessedFile>
  {
    if !j.JObject? then None
    else
      var o := j.fields;
      match (StrField(o, "file_id"), StrField(o, "filename"))
      case (Some(id), Some(name)) =>
        (match (NatField(o, "inserted"), NatField(o, "skipped"), NatField(o, "rows_total"))
         case (Some(i), Some(s), Some(t)) => Some(ProcessedFile(id, name, i, s, t))
         case _ => None)
      case _ => None
  }

  function ErrorOfJson(j: Json): Option<SyncError>
  {
    if !j.JObject? then None
    else
      var o := j.fields;
      match (StrField(o, "code"), StrField(o, "message"), StrField(o, "file_id"))
      case (Some(c), Some(m), id) =>
        if c == "drive_listing_failed" then Some(ListingFailed(m))
        else if id.None? then None
        else if c == "drive_download_failed" then Some(DownloadFailed(m, id.value))
        else if c == "db_insert_failed" then Some(InsertFailed(m, id.value))
        else if c == "excel_read_failed" then Some(ExcelReadFailed(m, id.value))
        else None
      case _ => None
  }

  function AllOf<T>(js: seq<Json>, f: Json -> Option<T>): (r: Option<seq<T>>)
    ensures r.Some? ==> |r.value| == |js|
  {
    if js == [] then Some([])
    else
      match (f(js[0]), AllOf(js[1..], f))
      case (Some(x), Some(xs)) => Some([x] + xs)
      case _ => None
  }

  function ListField<T>(o: map<string, Json>, k: string, f: Json -> Option<T>): Option<seq<T>>
  {
    if k in o && o[k].JArray? then AllOf(o[k].items, f) else None
  }

  function RealField(o: map<string, Json>, k: string): Option<real>
  {
    if k in o && o[k].JNum? then Some(o[k].r) else None
  }

  /** A `null` or text entry: `Some(None)` for `null`. */
  function OptStrField(o: map<string, Json>, k: string): Option<Option<string>>
  {
    if k !in o then None
    else if o[k].JNull? then Some(None)
    else if o[k].JStr? then Some(Some(o[k].s))
    else None
  }

  function FromDict(d: map<string, Json>): Option<Report>
  {
    var fecha := StrField(d, "fecha_generacion");
    var folder := StrField(d, "drive_folder_id");
    var processed := ListField(d, "processed_files", ProcessedOfJson);
    var inserted := NatField(d, "inserted_count");
    var skipped := NatField(d, "skipped_count");
    var errors := ListField(d, "errors", ErrorOfJson);
    var duration := RealField(d, "duration_seconds");
    var continuation := OptStrField(d, "continuation_token");
    if fecha.None? || folder.None? || processed.None? || inserted.None? || skipped.None?
       || errors.None? || duration.None? || continuation.None? then None
    else
      Some(Report(fecha.value, folder.value, processed.value, inserted.value, skipped.value,
                  errors.value, duration.value, continuation.value))
  }

  lemma {:induction false} AllOfMapJson<T>(xs: seq<T>, f: T -> Json, g: Json -> Option<T>)
    requires forall x :: g(f(x)) == Some(x)
    ensures AllOf(MapJson(xs, f), g) == Some(xs)
  {
    if xs != [] {
      AllOfMapJson(xs[1..], f, g);
      assert MapJson(xs, f)[1..] == MapJson(xs[1..], f);
      assert [xs[0]] + xs[1..] == xs;
    }
  }

  lemma ProcessedRoundTrip(p: ProcessedFile)
    ensures ProcessedOfJson(ProcessedJson(p)) == Some(p)
  {
  }

  lemma ErrorRoundTrip(e: SyncError)
    ensures ErrorOfJson(ErrorJson(e)) == Some(e)
  {
  }

  lemma DictScalars(r: Report)
    ensures StrField(ToDict(r), "fecha_generacion") == Some(r.fechaGeneracion)
    ensures StrField(ToDict(r), "drive_folder_id") == Some(r.folder)
    ensures NatField(ToDict(r), "inserted_count") == Some(r.inserted)
    ensures NatField(ToDict(r), "skipped_count") == Some(r.skipped)
    ensures RealField(ToDict(r), "duration_seconds") == Some(r.durationSeconds)
    ensures OptStrField(ToDict(r), "continuation_token") == Some(r.continuation)
  {
  }

  lemma DictLists(r: Report)
    ensures ListField(ToDict(r), "processed_files", ProcessedOfJson) == Some(r.processed)
    ensures ListField(ToDict(r), "errors", ErrorOfJson) == Some(r.errors)
  {
    var d := ToDict(r);
    assert d["processed_files"] == JArray(MapJson(r.processed, ProcessedJson));
    assert d["errors"] == JArray(MapJson(r.errors, ErrorJson));
    ProcessedListBack(r.processed);
    ErrorListBack(r.errors);
  }

  lemma ProcessedListBack(ps: seq<ProcessedFile>)
    ensures AllOf(MapJson(ps, ProcessedJson), ProcessedOfJson) == Some(ps)
  {
    forall p ensures ProcessedOfJson(ProcessedJson(p)) == Some(p) {
      ProcessedRoundTrip(p);
    }
    AllOfMapJson(ps, ProcessedJson, ProcessedOfJson);
  }

  lemma ErrorListBack(es: seq<SyncError>)
    ensures AllOf(MapJson(es, ErrorJson), ErrorOfJson) == Some(es)
  {
    forall e ensures ErrorOfJson(ErrorJson(e)) == Some(e) {
      ErrorRoundTrip(e);
    }
    AllOfMapJson(es, ErrorJson, ErrorOfJson);
  }

  /** `to_dict` loses nothing: the report can be read back from it. */
  lemma ToDictRoundTrip(r: Report)
    ensures FromDict(ToDict(r)) == Some(r)
  {
    DictScalars(r);
    DictLists(r);
    ReadBack(ToDict(r), r);
  }

  /** A dictionary whose entries hold the fields of `r` reads back as `r`. */
  lemma ReadBack(d: map<string, Json>, r: Report)
    requires StrField(d, "fecha_generacion") == Some(r.fechaGeneracion)
    requires StrField(d, "drive_folder_id") == Some(r.folder)
    requires ListField(d, "processed_files", ProcessedOfJson) == Some(r.processed)
    requires NatField(d, "inserted_count") == Some(r.inserted)
    requires NatField(d, "skipped_count") == Some(r.skipped)
    requires ListField(d, "errors", ErrorOfJson) == Some(r.errors)
    requires RealField(d, "duration_seconds") == Some(r.durationSeconds)
    requires OptStrField(d, "continuation_token") == Some(r.continuation)
    ensures FromDict(d) == Some(r)
  {
  }

  // ---- dedup-then-insert ----------------------------------------------------

  /** The result of `_persist_records`: the `(inserted, skipped)` pair, or
      the database's rejection of the insert (`SQLAlchemyError`). */
  datatype PersistOutcome = Persisted(inserted: nat, skipped: nat) | Rejected

  /** The records whose id the table does not hold yet, in batch order. */
  function Unstored(records: seq<MissionaryRecord>, table: map<int, MissionaryRecord>): (r: seq<MissionaryRecord>)
    ensures |r| <= |records|
    ensures forall x :: x in r <==> x in records && x.id !in table
  {
    if records == [] then []
    else (if records[0].id in table then [] else [records[0]]) + Unstored(records[1..], table)
  }

  predicate DistinctIds(rs: seq<MissionaryRecord>)
  {
    forall i, j :: 0 <= i < j < |rs| ==> rs[i].id != rs[j].id
  }

  function Ids(rs: seq<MissionaryRecord>): (r: set<int>)
    ensures forall x :: x in rs ==> x.id in r
    ensures forall id :: id in r ==> exists x :: x in rs && x.id == id
  {
    set x | x in rs :: x.id
  }

  /** The table after inserting each record under its id. */
  function InsertAll(table: map<int, MissionaryRecord>, rs: seq<MissionaryRecord>): (t: map<int, MissionaryRecord>)
    ensures t.Keys == table.Keys + Ids(rs)
    decreases |rs|
  {
    if rs == [] then table
    else InsertAll(table[rs[0].id := rs[0]], rs[1..])
  }

  /** `_persist_records` on a table given as a map from id to row: an empty
      batch or one whose ids are all stored inserts nothing; otherwise the
      new records go in as one insert, which the database rejects whole
      when two of them share an id. */
  function Persist(table: map<int, MissionaryRecord>, records: seq<MissionaryRecord>): (PersistOutcome, map<int, MissionaryRecord>)
  {
    if records == [] then (Persisted(0, 0), table)
    else
      var incoming := Unstored(records, table);
      if incoming == [] then (Persisted(0, |records|), table)
      else if !DistinctIds(incoming) then (Rejected, table)
      else (Persisted(|incoming|, |records| - |incoming|), InsertAll(table, incoming))
  }

  lemma {:induction false} InsertAllKeeps(table: map<int, MissionaryRecord>, rs: seq<MissionaryRecord>, id: int)
    requires id in table && id !in Ids(rs)
    ensures InsertAll(table, rs)[id] == table[id]
    decreases |rs|
  {
    if rs != [] {
      assert rs[0] in rs;
      assert id !in Ids(rs[1..]) by {
        forall x | x in rs[1..] ensures x.id != id {
          assert x in rs;
        }
      }
      InsertAllKeeps(table[rs[0].id := rs[0]], rs[1..], id);
    }
  }

  lemma {:induction false} InsertAllStores(table: map<int, MissionaryRecord>, rs: seq<MissionaryRecord>, k: nat)
    requires DistinctIds(rs) && k < |rs|
    ensures InsertAll(table, rs)[rs[k].id] == rs[k]
    decreases |rs|
  {
    if k == 0 {
      InsertAllKeeps(table[rs[0].id := rs[0]], rs[1..], rs[0].id);
    } else {
      InsertAllStores(table[rs[0].id := rs[0]], rs[1..], k - 1);
      assert rs[1..][k - 1] == rs[k];
    }
  }

  /** The counts add up to the batch size. */
  lemma PersistCounts(table: map<int, MissionaryRecord>, records: seq<MissionaryRecord>)
    ensures Persist(table, records).0.Persisted? ==>
      Persist(table, records).0.inserted + Persist(table, records).0.skipped == |records|
  {
  }

  /** Rows already stored are never overwritten, and after a successful
      persist the table holds every id of the batch and no other new id. */
  lemma PersistNeverOverwrites(table: map<int, MissionaryRecord>, records: seq<MissionaryRecord>)
    ensures forall id :: id in table ==> id in Persist(table, records).1 && Persist(table, records).1[id] == table[id]
    ensures Persist(table, records).0.Persisted? ==> Persist(table, records).1.Keys == table.Keys + Ids(records)
    ensures Persist(table, records).0.Rejected? ==> Persist(table, records).1 == table
  {
    var incoming := Unstored(records, table);
    UnstoredIds(records, table);
    if records != [] && incoming != [] && DistinctIds(incoming) {
      forall id | id in table ensures InsertAll(table, incoming)[id] == table[id] {
        InsertAllKeeps(table, incoming, id);
      }
    }
  }

  /** The ids of the records not yet stored are new, and with the stored
      ones they make up all the ids of the batch. */
  lemma UnstoredIds(records: seq<MissionaryRecord>, table: map<int, MissionaryRecord>)
    ensures table.Keys !! Ids(Unstored(records, table))
    ensures table.Keys + Ids(Unstored(records, table)) == table.Keys + Ids(records)
  {
    var incoming := Unstored(records, table);
    forall id | id in Ids(incoming) ensures id !in table && id in Ids(records) {
      var x :| x in incoming && x.id == id;
    }
    forall id | id in Ids(records) && id !in table ensures id in Ids(incoming) {
      var x :| x in records && x.id == id;
      assert x in incoming;
    }
  }

  /** Each new record is stored as given. */
  lemma PersistStoresNew(table: map<int, MissionaryRecord>, records: seq<MissionaryRecord>, k: nat)
    requires k < |records| && records[k].id !in table && Persist(table, records).0.Persisted?
    ensures records[k].id in Persist(table, records).1
    ensures DistinctIds(Unstored(records, table)) ==> Persist(table, records).1[records[k].id] == records[k]
  {
    var incoming := Unstored(records, table);
    assert records[k] in incoming;
    var j :| 0 <= j < |incoming| && incoming[j] == records[k];
    InsertAllStores(table, incoming, j);
  }

  /** The insert is rejected exactly when two new records share an id. */
  lemma PersistRejectsDuplicates(table: map<int, MissionaryRecord>, records: seq<MissionaryRecord>)
    ensures Persist(table, records).0.Rejected? <==> !DistinctIds(Unstored(records, table))
  {
  }

  lemma {:induction false} UnstoredOfFresh(records: seq<MissionaryRecord>, table: map<int, MissionaryRecord>)
    requires forall x :: x in records ==> x.id !in table
    ensures Unstored(records, table) == records
  {
    if records != [] {
      UnstoredOfFresh(records[1..], table);
      assert records[0] in records;
      assert [records[0]] + records[1..] == records;
    }
  }

  lemma {:induction false} UnstoredOfStored(records: seq<MissionaryRecord>, table: map<int, MissionaryRecord>)
    requires forall x :: x in records ==> x.id in table
    ensures Unstored(records, table) == []
  {
    if records != [] {
      assert records[0] in records;
      UnstoredOfStored(records[1..], table);
    }
  }

  /** The same batch twice: all new the first time, all skipped the second. */
  lemma PersistTwice(table: map<int, MissionaryRecord>, records: seq<MissionaryRecord>)
    requires records != [] && DistinctIds(records)
    requires forall x :: x in records ==> x.id !in table
    ensures Persist(table, records).0 == Persisted(|records|, 0)
    ensures Persist(Persist(table, records).1, records).0 == Persisted(0, |records|)
  {
    UnstoredOfFresh(records, table);
    var t := Persist(table, records).1;
    assert t.Keys == table.Keys + Ids(records);
    UnstoredOfStored(records, t);
  }

  /** Two records with the same new id make the whole batch fail. */
  lemma DuplicateNewIdsRejected(table: map<int, MissionaryRecord>, a: MissionaryRecord, b: MissionaryRecord)
    requires a.id == b.id && a.id !in table
    ensures Persist(table, [a, b]) == (Rejected, table)
  {
    assert Unstored([a, b], table) == [a, b];
  }

  // ---- reading a workbook -----------------------------------------------------

  /** What `load_workbook` makes of the downloaded bytes: unreadable, a
      workbook without sheets, or the rows of its first sheet. */
  datatype Workbook = Unreadable(message: string) | NoSheet | FirstSheet(rows: seq<seq<Cell>>)

  /** The outcome of `from_row` for each row. */
  function Outcomes(rows: seq<seq<Cell>>): (r: seq<RowOutcome>)
    ensures |r| == |rows|
  {
    if rows == [] then [] else Outcomes(rows[..|rows| - 1]) + [FromRow(rows[|rows| - 1])]
  }

  lemma {:induction false} OutcomesAt(rows: seq<seq<Cell>>, k: nat)
    requires k < |rows|
    ensures Outcomes(rows)[k] == FromRow(rows[k])
  {
    if k < |rows| - 1 {
      OutcomesAt(rows[..|rows| - 1], k);
    }
  }

  /** The records among the outcomes, in order. */
  function Kept(outcomes: seq<RowOutcome>): (r: seq<MissionaryRecord>)
    ensures |r| <= |outcomes|
  {
    if outcomes == [] then []
    else
      var last := outcomes[|outcomes| - 1];
      Kept(outcomes[..|outcomes| - 1]) + (if last.Parsed? then [last.record] else [])
  }

  /** The records of the given rows in order; rows that `from_row`
      discards are dropped. */
  function RecordsOf(rows: seq<seq<Cell>>): seq<MissionaryRecord>
  {
    Kept(Outcomes(rows))
  }

  /** One more outcome adds its record, if it has one. */
  lemma KeptSnoc(outcomes: seq<RowOutcome>, o: RowOutcome)
    ensures Kept(outcomes + [o]) == Kept(outcomes) + (if o.Parsed? then [o.record] else [])
  {
    assert (outcomes + [o])[..|outcomes|] == outcomes;
  }

  /** One more row adds its record, if it has one. */
  lemma RecordsOfSnoc(rows: seq<seq<Cell>>, row: seq<Cell>)
    ensures RecordsOf(rows + [row]) == RecordsOf(rows) + (if FromRow(row).Parsed? then [FromRow(row).record] else [])
  {
    assert (rows + [row])[..|rows|] == rows;
    KeptSnoc(Outcomes(rows), FromRow(row));
  }

  /** `_parse_excel_rows`: the first row is the header and is never read. */
  function ParsedWorkbook(wb: Workbook, fileId: string): (seq<MissionaryRecord>, seq<SyncError>)
  {
    match wb
    case Unreadable(m) => ([], [ExcelReadFailed(m, fileId)])
    case NoSheet => ([], [])
    case FirstSheet(rows) => if |rows| < 2 then ([], []) else (RecordsOf(rows[1..]), [])
  }

  /** An outcome that is a record contributes it. */
  lemma {:induction false} KeptComplete(outcomes: seq<RowOutcome>, k: nat)
    requires k < |outcomes| && outcomes[k].Parsed?
    ensures outcomes[k].record in Kept(outcomes)
  {
    var front := outcomes[..|outcomes| - 1];
    if k < |front| {
      assert front[k] == outcomes[k];
      KeptComplete(front, k);
    }
  }

  /** Every kept record is the outcome of some row. */
  lemma {:induction false} KeptSound(outcomes: seq<RowOutcome>, x: MissionaryRecord) returns (k: nat)
    requires x in Kept(outcomes)
    ensures k < |outcomes| && outcomes[k] == Parsed(x)
  {
    var front := outcomes[..|outcomes| - 1];
    if x in Kept(front) {
      k := KeptSound(front, x);
      assert outcomes[k] == front[k];
    } else {
      k := |outcomes| - 1;
    }
  }

  /** A record comes out of the rows exactly when some row parses to it. */
  lemma RecordsOfFaithful(rows: seq<seq<Cell>>, x: MissionaryRecord)
    ensures x in RecordsOf(rows) <==> exists k :: 0 <= k < |rows| && FromRow(rows[k]) == Parsed(x)
  {
    var outcomes := Outcomes(rows);
    if x in Kept(outcomes) {
      var k := KeptSound(outcomes, x);
      OutcomesAt(rows, k);
      assert FromRow(rows[k]) == Parsed(x);
    }
    if exists k :: 0 <= k < |rows| && FromRow(rows[k]) == Parsed(x) {
      var k :| 0 <= k < |rows| && FromRow(rows[k]) == Parsed(x);
      OutcomesAt(rows, k);
      KeptComplete(outcomes, k);
    }
  }

  /** The number of outcomes that are records. */
  function Accepted(outcomes: seq<RowOutcome>): nat
  {
    if outcomes == [] then 0
    else Accepted(outcomes[1..]) + (if outcomes[0].Parsed? then 1 else 0)
  }

  lemma {:induction false} AcceptedSnoc(outcomes: seq<RowOutcome>, o: RowOutcome)
    ensures Accepted(outcomes + [o]) == Accepted(outcomes) + (if o.Parsed? then 1 else 0)
  {
    if outcomes != [] {
      assert (outcomes + [o])[1..] == outcomes[1..] + [o];
      AcceptedSnoc(outcomes[1..], o);
    }
  }

  /** Every row that parses gives one record: there are as many records as
      accepted rows. */
  lemma {:induction false} KeptCount(outcomes: seq<RowOutcome>)
    ensures |Kept(outcomes)| == Accepted(outcomes)
  {
    if outcomes != [] {
      var front := outcomes[..|outcomes| - 1];
      KeptCount(front);
      assert outcomes == front + [outcomes[|outcomes| - 1]];
      AcceptedSnoc(front, outcomes[|outcomes| - 1]);
    }
  }

  /** The header row has no influence on the result. */
  lemma HeaderIgnored(h1: seq<Cell>, h2: seq<Cell>, body: seq<seq<Cell>>, fileId: string)
    ensures ParsedWorkbook(FirstSheet([h1] + body), fileId) == ParsedWorkbook(FirstSheet([h2] + body), fileId)
  {
    assert ([h1] + body)[1..] == body;
    assert ([h2] + body)[1..] == body;
  }

  // ---- ordering the listed files ----------------------------------------------

  /** A listed file: the Drive metadata the loop reads. */
  datatype FileMeta = FileMeta(id: Option<string>, name: Option<string>, modifiedTime: Option<string>)

  /** The sort key `item.get("modifiedTime", item.get("name", ""))`: one
      string, the modification time when present, else the name. */
  function SortKey(f: FileMeta): string
  {
    if f.modifiedTime.Some? then f.modifiedTime.value
    else if f.name.Some? then f.name.value
    else ""
  }

  predicate SortedByKey(s: seq<FileMeta>)
  {
    forall i, j :: 0 <= i < j < |s| ==> LessOrEqual(SortKey(s[i]), SortKey(s[j]))
  }

  /** Puts `x` after every element whose key is not greater than its own. */
  function InsertByKey(x: FileMeta, s: seq<FileMeta>): (r: seq<FileMeta>)
    ensures multiset(r) == multiset(s) + multiset{x}
  {
    if s == [] then [x]
    else if !LessOrEqual(SortKey(s[0]), SortKey(x)) then [x] + s
    else
      assert s == [s[0]] + s[1..];
      [s[0]] + InsertByKey(x, s[1..])
  }

  /** `sorted(files, key=...)`: a stable sort on the key. */
  function SortFiles(files: seq<FileMeta>): (r: seq<FileMeta>)
    ensures multiset(r) == multiset(files)
  {
    if files == [] then []
    else
      assert files == files[..|files| - 1] + [files[|files| - 1]];
      InsertByKey(files[|files| - 1], SortFiles(files[..|files| - 1]))
  }

  lemma {:induction false} InsertByKeySorted(x: FileMeta, s: seq<FileMeta>)
    requires SortedByKey(s)
    ensures SortedByKey(InsertByKey(x, s))
  {
    if s != [] {
      if !LessOrEqual(SortKey(s[0]), SortKey(x)) {
        LessOrEqualTotal(SortKey(s[0]), SortKey(x));
        forall j | 0 <= j < |s| ensures LessOrEqual(SortKey(x), SortKey(s[j])) {
          if j > 0 {
            LessOrEqualTransitive(SortKey(x), SortKey(s[0]), SortKey(s[j]));
          }
        }
      } else {
        InsertByKeySorted(x, s[1..]);
        var r := InsertByKey(x, s[1..]);
        forall j | 0 <= j < |r| ensures LessOrEqual(SortKey(s[0]), SortKey(r[j])) {
          assert r[j] in multiset(r);
          if r[j] != x {
            assert r[j] in multiset(s[1..]);
            var k :| 0 <= k < |s[1..]| && s[1..][k] == r[j];
            assert s[k + 1] == r[j];
          }
        }
      }
    }
  }

  /** The sorted files are ordered by key and are the listed files. */
  lemma {:induction false} SortFilesSorted(files: seq<FileMeta>)
    ensures SortedByKey(SortFiles(files))
    ensures multiset(SortFiles(files)) == multiset(files)
  {
    if files != [] {
      SortFilesSorted(files[..|files| - 1]);
      InsertByKeySorted(files[|files| - 1], SortFiles(files[..|files| - 1]));
    }
  }

  /** The files with a given key, in order. */
  function WithKey(s: seq<FileMeta>, k: string): (r: seq<FileMeta>)
    ensures |r| <= |s|
  {
    if s == [] then []
    else if SortKey(s[0]) == k then [s[0]] + WithKey(s[1..], k)
    else WithKey(s[1..], k)
  }

  lemma {:induction false} WithKeyAppend(a: seq<FileMeta>, b: seq<FileMeta>, k: string)
    ensures WithKey(a + b, k) == WithKey(a, k) + WithKey(b, k)
  {
    if a == [] {
      assert a + b == b;
    } else {
      assert (a + b)[0] == a[0];
      assert (a + b)[1..] == a[1..] + b;
      WithKeyAppend(a[1..], b, k);
    }
  }

  lemma {:induction false} WithKeyNone(s: seq<FileMeta>, k: string)
    requires forall i :: 0 <= i < |s| ==> SortKey(s[i]) != k
    ensures WithKey(s, k) == []
  {
    if s != [] {
      WithKeyNone(s[1..], k);
    }
  }

  lemma {:induction false} InsertByKeyStable(x: FileMeta, s: seq<FileMeta>, k: string)
    requires SortedByKey(s)
    ensures WithKey(InsertByKey(x, s), k) == WithKey(s, k) + (if SortKey(x) == k then [x] else [])
  {
    if s == [] {
    } else if !LessOrEqual(SortKey(s[0]), SortKey(x)) {
      InsertFrontStable(x, s, k);
    } else {
      InsertByKeyStable(x, s[1..], k);
      WithKeyAppend([s[0]], InsertByKey(x, s[1..]), k);
      WithKeyAppend([s[0]], s[1..], k);
      HeadRest(s);
    }
  }

  /** A file placed before the first larger key: no file after it shares its key. */
  lemma InsertFrontStable(x: FileMeta, s: seq<FileMeta>, k: string)
    requires SortedByKey(s) && s != [] && !LessOrEqual(SortKey(s[0]), SortKey(x))
    ensures WithKey([x] + s, k) == WithKey(s, k) + (if SortKey(x) == k then [x] else [])
  {
    WithKeyAppend([x], s, k);
    if SortKey(x) == k {
      LessOrEqualTotal(k, k);
      forall i | 0 <= i < |s| ensures SortKey(s[i]) != k {
        if i > 0 {
          assert LessOrEqual(SortKey(s[0]), SortKey(s[i]));
        }
      }
      WithKeyNone(s, k);
    }
  }

  /** The sort is stable: files that share a key keep their listing order. */
  lemma {:induction false} SortFilesStable(files: seq<FileMeta>, k: string)
    ensures WithKey(SortFiles(files), k) == WithKey(files, k)
  {
    if files != [] {
      var front := files[..|files| - 1];
      var x := files[|files| - 1];
      SortFilesStable(front, k);
      SortFilesSorted(front);
      InsertByKeyStable(x, SortFiles(front), k);
      WithKeyAppend(front, [x], k);
      FrontLast(files);
    }
  }


  // ---- the sync loop ------------------------------------------------------------

  /** What `download_file` gives for a file id. */
  datatype Download = Fetched(workbook: Workbook) | FetchFailed(message: string)

  /** What `list_folder_files` gives for the folder. */
  datatype Listing = Listed(files: seq<FileMeta>) | ListFailed(message: string)

  /** The outside world during one run: the Drive's answers, the text of
      the database's rejection of an insert, and the `updated_at` text of
      the state writes. */
  datatype World = World(listing: Listing, download: string -> Download, insertError: string, now: string)

  /** Python truthiness of an optional string. */
  predicate Truthy(o: Option<string>)
  {
    o.Some? && o.value != ""
  }

  /** Python's `a or b` on optional strings. */
  function Or(a: Option<string>, b: Option<string>): (r: Option<string>)
    ensures Truthy(r) <==> Truthy(a) || Truthy(b)
    ensures Truthy(a) ==> r == a
  {
    if Truthy(a) then a else b
  }

  /** The loop variables `skip_mode` and `continuation_override`. */
  datatype Gate = Gate(skipMode: bool, override: Option<string>)

  /** The checks at the head of the loop for a file with a truthy id:
      whether the file is attempted, and the gate for the next file. */
  function Admit(g: Gate, id: string, skipUntil: Option<string>): (bool, Gate)
  {
    if Truthy(g.override) && id != g.override.value then (false, g)
    else
      var h := if Truthy(g.override) then g.(override := None) else g;
      if h.skipMode then (false, h.(skipMode := skipUntil != Some(id)))
      else (true, h)
  }

  /** `file_meta.get("name", "archivo.xlsx")` */
  function FileName(f: FileMeta): string
  {
    if f.name.Some? then f.name.value else "archivo.xlsx"
  }

  /** The run so far: the loop variables, the report's lists, the table and
      the state file. */
  datatype Progress = Progress(
    gate: Gate,
    inserted: nat,
    skipped: nat,
    processed: seq<ProcessedFile>,
    errors: seq<SyncError>,
    continuation: Option<string>,
    table: map<int, MissionaryRecord>,
    state: StateFile,
    halted: bool)

  /** A failure on file `id`: the error is reported, the file is marked
      interrupted and becomes the continuation token, and the loop stops. */
  function Interrupted(p: Progress, e: SyncError, id: string, folder: string, now: string): Progress
  {
    p.(errors := p.errors + [e],
       state := Written(p.state, folder, State(None, Some(id)), now),
       continuation := Some(id),
       halted := true)
  }

  /** File `entry.fileId` is done: it is reported and marked processed. */
  function Done(p: Progress, entry: ProcessedFile, table: map<int, MissionaryRecord>, folder: string, now: string): Progress
  {
    p.(processed := p.processed + [entry],
       table := table,
       state := Written(p.state, folder, State(Some(entry.fileId), None), now))
  }

  /** The loop body for an attempted file. */
  function Attempt(p: Progress, id: string, name: string, folder: string, w: World): Progress
  {
    match w.download(id)
    case FetchFailed(m) => Interrupted(p, DownloadFailed(m, id), id, folder, w.now)
    case Fetched(wb) => Store(p, id, name, folder, w, ParsedWorkbook(wb, id))
  }

  /** The rest of the loop body once the workbook is read: `parsed` holds
      its records and its read errors. */
  function Store(p: Progress, id: string, name: string, folder: string, w: World,
                 parsed: (seq<MissionaryRecord>, seq<SyncError>)): Progress
  {
    var q := p.(errors := p.errors + parsed.1);
    if parsed.0 == [] then Done(q, ProcessedFile(id, name, 0, 0, 0), q.table, folder, w.now)
    else
      var persisted := Persist(q.table, parsed.0);
      match persisted.0
      case Rejected => Interrupted(q, InsertFailed(w.insertError, id), id, folder, w.now)
      case Persisted(i, k) =>
        Done(q.(inserted := q.inserted + i, skipped := q.skipped + k),
             ProcessedFile(id, name, i, k, |parsed.0|), persisted.1, folder, w.now)
  }

  /** One iteration of the loop over the sorted files. */
  function Step(p: Progress, f: FileMeta, folder: string, skipUntil: Option<string>, w: World): Progress
  {
    if p.halted || !Truthy(f.id) then p
    else
      var admitted := Admit(p.gate, f.id.value, skipUntil);
      if !admitted.0 then p.(gate := admitted.1)
      else Attempt(p.(gate := admitted.1), f.id.value, FileName(f), folder, w)
  }

  /** The loop over `files`, stopping at the first failure. */
  function Run(p: Progress, files: seq<FileMeta>, folder: string, skipUntil: Option<string>, w: World): Progress
    decreases |files|
  {
    if files == [] then p
    else Run(Step(p, files[0], folder, skipUntil, w), files[1..], folder, skipUntil, w)
  }

  /** The run's starting point once the state is loaded and the files listed. */
  function Start(table: map<int, MissionaryRecord>, file: StateFile, skipUntil: Option<string>, override: Option<string>): Progress
  {
    Progress(Gate(Truthy(skipUntil) && !Truthy(override), override), 0, 0, [], [], None, table, file, false)
  }

  /** `sync_generation`: the report, the table and the state file after
      one run over `table` and `file`; `duration` is the measured time. */
  function Sync(table: map<int, MissionaryRecord>, file: StateFile, fecha: string, folder: string,
                force: bool, w: World, duration: real): (Report, map<int, MissionaryRecord>, StateFile)
  {
    var loaded := LoadFrom(file, folder);
    var skipUntil := if force then None else loaded.lastProcessed;
    var override := if force then None else loaded.continuation;
    match w.listing
    case ListFailed(m) =>
      (Report(fecha, folder, [], 0, 0, [ListingFailed(m)], duration, Or(override, skipUntil)), table, file)
    case Listed(files) =>
      var last := Run(Start(table, file, skipUntil, override), SortFiles(files), folder, skipUntil, w);
      var after := if last.halted then last.state else Cleared(last.state, folder);
      var token := if Truthy(last.continuation) then last.continuation else None;
      (Report(fecha, folder, last.processed, last.inserted, last.skipped, last.errors, duration, token), last.table, after)
  }

  /** Once a failure has stopped the loop, later files change nothing. */
  lemma {:induction false} HaltedStays(p: Progress, files: seq<FileMeta>, folder: string, skipUntil: Option<string>, w: World)
    requires p.halted
    ensures Run(p, files, folder, skipUntil, w) == p
    decreases |files|
  {
    if files != [] {
      HaltedStays(p, files[1..], folder, skipUntil, w);
    }
  }

  // ---- what a run guarantees -----------------------------------------------------

  function SumInserted(ps: seq<ProcessedFile>): nat
  {
    if ps == [] then 0 else SumInserted(ps[..|ps| - 1]) + ps[|ps| - 1].inserted
  }

  function SumSkipped(ps: seq<ProcessedFile>): nat
  {
    if ps == [] then 0 else SumSkipped(ps[..|ps| - 1]) + ps[|ps| - 1].skipped
  }

  /** The totals are the sums over the processed files. */
  predicate Counted(p: Progress)
  {
    p.inserted == SumInserted(p.processed) && p.skipped == SumSkipped(p.processed)
  }

  lemma SumsSnoc(ps: seq<ProcessedFile>, x: ProcessedFile)
    ensures SumInserted(ps + [x]) == SumInserted(ps) + x.inserted
    ensures SumSkipped(ps + [x]) == SumSkipped(ps) + x.skipped
  {
    assert (ps + [x])[..|ps|] == ps;
  }

  lemma StepCounted(p: Progress, f: FileMeta, folder: string, skipUntil: Option<string>, w: World)
    requires Counted(p)
    ensures Counted(Step(p, f, folder, skipUntil, w))
  {
    if !p.halted && Truthy(f.id) {
      var admitted := Admit(p.gate, f.id.value, skipUntil);
      if admitted.0 {
        AttemptCounted(p.(gate := admitted.1), f.id.value, FileName(f), folder, w);
      }
    }
  }

  lemma AttemptCounted(p: Progress, id: string, name: string, folder: string, w: World)
    requires Counted(p)
    ensures Counted(Attempt(p, id, name, folder, w))
  {
    if w.download(id).Fetched? {
      StoreCounted(p, id, name, folder, w, ParsedWorkbook(w.download(id).workbook, id));
    }
  }

  lemma StoreCounted(p: Progress, id: string, name: string, folder: string, w: World,
                     parsed: (seq<MissionaryRecord>, seq<SyncError>))
    requires Counted(p)
    ensures Counted(Store(p, id, name, folder, w, parsed))
  {
    var q := p.(errors := p.errors + parsed.1);
    if parsed.0 == [] {
      DoneCounted(q, ProcessedFile(id, name, 0, 0, 0), q.table, folder, w.now);
    } else if Persist(q.table, parsed.0).0.Persisted? {
      StorePersistedCounted(p, id, name, folder, w, parsed);
    }
  }

  lemma StorePersistedCounted(p: Progress, id: string, name: string, folder: string, w: World,
                              parsed: (seq<MissionaryRecord>, seq<SyncError>))
    requires Counted(p) && parsed.0 != []
    requires Persist(p.table, parsed.0).0.Persisted?
    ensures Counted(Store(p, id, name, folder, w, parsed))
  {
    var outcome := Persist(p.table, parsed.0).0;
    var r := Store(p, id, name, folder, w, parsed);
    var e := ProcessedFile(id, name, outcome.inserted, outcome.skipped, |parsed.0|);
    assert r.processed == p.processed + [e];
    assert r.inserted == p.inserted + outcome.inserted && r.skipped == p.skipped + outcome.skipped;
    SumsSnoc(p.processed, e);
  }

  lemma DoneCounted(p: Progress, entry: ProcessedFile, table: map<int, MissionaryRecord>, folder: string, now: string)
    requires p.inserted == SumInserted(p.processed) + entry.inserted
    requires p.skipped == SumSkipped(p.processed) + entry.skipped
    ensures Counted(Done(p, entry, table, folder, now))
  {
    SumsSnoc(p.processed, entry);
  }

  lemma {:induction false} RunCounted(p: Progress, files: seq<FileMeta>, folder: string, skipUntil: Option<string>, w: World)
    requires Counted(p)
    ensures Counted(Run(p, files, folder, skipUntil, w))
    decreases |files|
  {
    if files != [] {
      StepCounted(p, files[0], folder, skipUntil, w);
      RunCounted(Step(p, files[0], folder, skipUntil, w), files[1..], folder, skipUntil, w);
    }
  }

  /** `inserted_count` and `skipped_count` are the sums over `processed_files`. */
  lemma SyncTotals(table: map<int, MissionaryRecord>, file: StateFile, fecha: string, folder: string,
                   force: bool, w: World, duration: real)
    ensures Sync(table, file, fecha, folder, force, w, duration).0.inserted == SumInserted(Sync(table, file, fecha, folder, force, w, duration).0.processed)
    ensures Sync(table, file, fecha, folder, force, w, duration).0.skipped == SumSkipped(Sync(table, file, fecha, folder, force, w, duration).0.processed)
  {
    if w.listing.Listed? {
      var loaded := LoadFrom(file, folder);
      var skipUntil := if force then None else loaded.lastProcessed;
      var override := if force then None else loaded.continuation;
      RunCounted(Start(table, file, skipUntil, override), SortFiles(w.listing.files), folder, skipUntil, w);
    }
  }

  /** The file a failure names: the one being downloaded or inserted. */
  function FailedFile(e: SyncError): Option<string>
  {
    match e
    case DownloadFailed(_, id) => Some(id)
    case InsertFailed(_, id) => Some(id)
    case _ => None
  }

  /** A stopped run has reported a download or insert failure on the file
      that is now the continuation token and is marked interrupted; a run
      that has not stopped has no continuation token. */
  predicate Settled(p: Progress, folder: string)
  {
    if p.halted then
      Truthy(p.continuation) && LoadFrom(p.state, folder) == State(None, p.continuation)
      && p.errors != [] && FailedFile(p.errors[|p.errors| - 1]) == p.continuation
    else p.continuation == None
  }

  lemma StepSettled(p: Progress, f: FileMeta, folder: string, skipUntil: Option<string>, w: World)
    requires Settled(p, folder)
    ensures Settled(Step(p, f, folder, skipUntil, w), folder)
  {
    if !p.halted && Truthy(f.id) {
      var admitted := Admit(p.gate, f.id.value, skipUntil);
      if admitted.0 {
        AttemptSettled(p.(gate := admitted.1), f.id.value, FileName(f), folder, w);
      }
    }
  }

  lemma AttemptSettled(p: Progress, id: string, name: string, folder: string, w: World)
    requires !p.halted && p.continuation == None && Truthy(Some(id))
    ensures Settled(Attempt(p, id, name, folder, w), folder)
  {
    match w.download(id)
    case FetchFailed(m) =>
      LoadAfterWrite(p.state, folder, State(None, Some(id)), w.now);
      var errors := p.errors + [DownloadFailed(m, id)];
      assert errors[|errors| - 1] == DownloadFailed(m, id);
    case Fetched(wb) =>
      StoreSettled(p, id, name, folder, w, ParsedWorkbook(wb, id));
  }

  lemma StoreSettled(p: Progress, id: string, name: string, folder: string, w: World,
                     parsed: (seq<MissionaryRecord>, seq<SyncError>))
    requires !p.halted && p.continuation == None && Truthy(Some(id))
    ensures Settled(Store(p, id, name, folder, w, parsed), folder)
  {
    LoadAfterWrite(p.state, folder, State(None, Some(id)), w.now);
    var errors := p.errors + parsed.1 + [InsertFailed(w.insertError, id)];
    assert errors[|errors| - 1] == InsertFailed(w.insertError, id);
  }

  lemma {:induction false} RunSettled(p: Progress, files: seq<FileMeta>, folder: string, skipUntil: Option<string>, w: World)
    requires Settled(p, folder)
    ensures Settled(Run(p, files, folder, skipUntil, w), folder)
    decreases |files|
  {
    if files != [] {
      StepSettled(p, files[0], folder, skipUntil, w);
      RunSettled(Step(p, files[0], folder, skipUntil, w), files[1..], folder, skipUntil, w);
    }
  }

  /** After a listed run: without a continuation token the folder's state is
      cleared; with one, the last error is the download or insert failure
      of that file and the folder's state marks it interrupted. */
  lemma SyncOutcome(table: map<int, MissionaryRecord>, file: StateFile, fecha: string, folder: string,
                    force: bool, w: World, duration: real)
    requires w.listing.Listed?
    ensures Sync(table, file, fecha, folder, force, w, duration).0.continuation == None ==>
              LoadFrom(Sync(table, file, fecha, folder, force, w, duration).2, folder) == Blank
    ensures Sync(table, file, fecha, folder, force, w, duration).0.continuation != None ==>
              var report := Sync(table, file, fecha, folder, force, w, duration).0;
              Truthy(report.continuation)
              && LoadFrom(Sync(table, file, fecha, folder, force, w, duration).2, folder) == State(None, report.continuation)
              && report.errors != [] && FailedFile(report.errors[|report.errors| - 1]) == report.continuation
  {
    var loaded := LoadFrom(file, folder);
    var skipUntil := if force then None else loaded.lastProcessed;
    var override := if force then None else loaded.continuation;
    var last := Run(Start(table, file, skipUntil, override), SortFiles(w.listing.files), folder, skipUntil, w);
    RunSettled(Start(table, file, skipUntil, override), SortFiles(w.listing.files), folder, skipUntil, w);
    if !last.halted {
      LoadAfterClear(last.state, folder);
    }
  }

  lemma StepKeepsOthers(p: Progress, f: FileMeta, folder: string, other: string, skipUntil: Option<string>, w: World)
    requires other != folder
    ensures LoadFrom(Step(p, f, folder, skipUntil, w).state, other) == LoadFrom(p.state, other)
  {
    if !p.halted && Truthy(f.id) && Admit(p.gate, f.id.value, skipUntil).0 {
      var id := f.id.value;
      WriteKeepsOthers(p.state, folder, other, State(None, Some(id)), w.now);
      WriteKeepsOthers(p.state, folder, other, State(Some(id), None), w.now);
    }
  }

  lemma {:induction false} RunKeepsOthers(p: Progress, files: seq<FileMeta>, folder: string, other: string,
                                          skipUntil: Option<string>, w: World)
    requires other != folder
    ensures LoadFrom(Run(p, files, folder, skipUntil, w).state, other) == LoadFrom(p.state, other)
    decreases |files|
  {
    if files != [] {
      StepKeepsOthers(p, files[0], folder, other, skipUntil, w);
      RunKeepsOthers(Step(p, files[0], folder, skipUntil, w), files[1..], folder, other, skipUntil, w);
    }
  }

  /** A run reads and writes only its own folder's state. */
  lemma SyncKeepsOthers(table: map<int, MissionaryRecord>, file: StateFile, fecha: string, folder: string,
                        other: string, force: bool, w: World, duration: real)
    requires other != folder
    ensures LoadFrom(Sync(table, file, fecha, folder, force, w, duration).2, other) == LoadFrom(file, other)
  {
    if w.listing.Listed? {
      var loaded := LoadFrom(file, folder);
      var skipUntil := if force then None else loaded.lastProcessed;
      var override := if force then None else loaded.continuation;
      var start := Start(table, file, skipUntil, override);
      RunKeepsOthers(start, SortFiles(w.listing.files), folder, other, skipUntil, w);
      ClearKeepsOthers(Run(start, SortFiles(w.listing.files), folder, skipUntil, w).state, folder, other);
    }
  }

  /** Rows already in the table stay as they are. */
  predicate KeepsRows(before: map<int, MissionaryRecord>, after: map<int, MissionaryRecord>)
  {
    forall id :: id in before ==> id in after && after[id] == before[id]
  }

  lemma StepKeepsRows(p: Progress, f: FileMeta, folder: string, skipUntil: Option<string>, w: World)
    ensures KeepsRows(p.table, Step(p, f, folder, skipUntil, w).table)
  {
    if !p.halted && Truthy(f.id) && Admit(p.gate, f.id.value, skipUntil).0 {
      var id := f.id.value;
      match w.download(id)
      case FetchFailed(_) =>
      case Fetched(wb) =>
        PersistNeverOverwrites(p.table, ParsedWorkbook(wb, id).0);
    }
  }

  lemma {:induction false} RunKeepsRows(p: Progress, files: seq<FileMeta>, folder: string, skipUntil: Option<string>, w: World)
    ensures KeepsRows(p.table, Run(p, files, folder, skipUntil, w).table)
    decreases |files|
  {
    if files != [] {
      var q := Step(p, files[0], folder, skipUntil, w);
      StepKeepsRows(p, files[0], folder, skipUntil, w);
      RunKeepsRows(q, files[1..], folder, skipUntil, w);
    }
  }

  /** A run never changes a row that was already stored. */
  lemma SyncKeepsRows(table: map<int, MissionaryRecord>, file: StateFile, fecha: string, folder: string,
                      force: bool, w: World, duration: real)
    ensures KeepsRows(table, Sync(table, file, fecha, folder, force, w, duration).1)
  {
    if w.listing.Listed? {
      var loaded := LoadFrom(file, folder);
      var skipUntil := if force then None else loaded.lastProcessed;
      var override := if force then None else loaded.continuation;
      RunKeepsRows(Start(table, file, skipUntil, override), SortFiles(w.listing.files), folder, skipUntil, w);
    }
  }

  /** A failed listing writes no state and no row, and hands back the resume
      point it loaded (`continuation_token or last_processed_file_id`). */
  lemma SyncListingFailure(table: map<int, MissionaryRecord>, file: StateFile, fecha: string, folder: string,
                           force: bool, w: World, duration: real)
    requires w.listing.ListFailed?
    ensures Sync(table, file, fecha, folder, force, w, duration).1 == table
    ensures Sync(table, file, fecha, folder, force, w, duration).2 == file
    ensures Sync(table, file, fecha, folder, force, w, duration).0.errors == [ListingFailed(w.listing.message)]
    ensures Sync(table, file, fecha, folder, force, w, duration).0.processed == []
    ensures var loaded := LoadFrom(file, folder);
            Sync(table, file, fecha, folder, force, w, duration).0.continuation
            == (if force then None else Or(loaded.continuation, loaded.lastProcessed))
  {
  }

  /** A file whose workbook yields no record is still recorded as processed,
      with zero counts, and marked processed. */
  lemma EmptyFileRecorded(p: Progress, f: FileMeta, folder: string, skipUntil: Option<string>, w: World)
    requires !p.halted && Truthy(f.id) && Admit(p.gate, f.id.value, skipUntil).0
    requires w.download(f.id.value).Fetched?
    requires ParsedWorkbook(w.download(f.id.value).workbook, f.id.value).0 == []
    ensures !Step(p, f, folder, skipUntil, w).halted
    ensures Step(p, f, folder, skipUntil, w).processed == p.processed + [ProcessedFile(f.id.value, FileName(f), 0, 0, 0)]
    ensures Step(p, f, folder, skipUntil, w).table == p.table
    ensures LoadFrom(Step(p, f, folder, skipUntil, w).state, folder) == State(Some(f.id.value), None)
  {
    LoadAfterWrite(p.state, folder, State(Some(f.id.value), None), w.now);
  }

  // ---- which files a run attempts ------------------------------------------------

  /** The truthy ids of the files, in order. */
  function TruthyIds(files: seq<FileMeta>): seq<string>
  {
    if files == [] then []
    else if Truthy(files[0].id) then [files[0].id.value] + TruthyIds(files[1..])
    else TruthyIds(files[1..])
  }

  function ProcessedIds(ps: seq<ProcessedFile>): (r: seq<string>)
    ensures |r| == |ps|
  {
    if ps == [] then [] else ProcessedIds(ps[..|ps| - 1]) + [ps[|ps| - 1].fileId]
  }

  /** The files attempted so far: the processed ones, then the one that
      stopped the run. */
  function Attempted(p: Progress): seq<string>
  {
    ProcessedIds(p.processed) + (if p.halted && p.continuation.Some? then [p.continuation.value] else [])
  }

  /** The ids from the first occurrence of `t` on; none when `t` is absent. */
  function FromFirst(ids: seq<string>, t: string): seq<string>
  {
    if ids == [] then []
    else if ids[0] == t then ids
    else FromFirst(ids[1..], t)
  }

  /** The ids after the first occurrence of `l`; none when `l` is absent. */
  function AfterFirst(ids: seq<string>, l: Option<string>): seq<string>
  {
    if ids == [] then []
    else if Some(ids[0]) == l then ids[1..]
    else AfterFirst(ids[1..], l)
  }

  lemma {:induction false} FromFirstAt(ids: seq<string>, t: string, k: nat)
    requires k < |ids| && ids[k] == t && t !in ids[..k]
    ensures FromFirst(ids, t) == ids[k..]
  {
    if k > 0 {
      assert ids[0] in ids[..k];
      forall x | x in ids[1..][..k - 1] ensures x in ids[..k] {
        var j :| 0 <= j < k - 1 && ids[1..][..k - 1][j] == x;
        assert ids[..k][j + 1] == x;
      }
      FromFirstAt(ids[1..], t, k - 1);
      assert ids[1..][k - 1..] == ids[k..];
    }
  }

  lemma {:induction false} FromFirstAbsent(ids: seq<string>, t: string)
    requires t !in ids
    ensures FromFirst(ids, t) == []
  {
    if ids != [] {
      assert forall x :: x in ids[1..] ==> x in ids;
      FromFirstAbsent(ids[1..], t);
    }
  }

  lemma {:induction false} AfterFirstAt(ids: seq<string>, l: string, k: nat)
    requires k < |ids| && ids[k] == l && l !in ids[..k]
    ensures AfterFirst(ids, Some(l)) == ids[k + 1..]
  {
    if k > 0 {
      assert ids[0] in ids[..k];
      forall x | x in ids[1..][..k - 1] ensures x in ids[..k] {
        var j :| 0 <= j < k - 1 && ids[1..][..k - 1][j] == x;
        assert ids[..k][j + 1] == x;
      }
      AfterFirstAt(ids[1..], l, k - 1);
      assert ids[1..][k..] == ids[k + 1..];
    }
  }

  lemma {:induction false} AfterFirstAbsent(ids: seq<string>, l: string)
    requires l !in ids
    ensures AfterFirst(ids, Some(l)) == []
  {
    if ids != [] {
      assert forall x :: x in ids[1..] ==> x in ids;
      AfterFirstAbsent(ids[1..], l);
    }
  }

  /** A continuation token switches skipping by the last processed id off. */
  predicate GateOk(g: Gate)
  {
    Truthy(g.override) ==> !g.skipMode
  }

  /** The ids the loop will still attempt, from the gate it is in. */
  function Pending(g: Gate, ids: seq<string>, skipUntil: Option<string>): seq<string>
  {
    if Truthy(g.override) then FromFirst(ids, g.override.value)
    else if g.skipMode then AfterFirst(ids, skipUntil)
    else ids
  }

  /** The ids a run starts to attempt, from the loaded state: with `force`
      all of them; with a continuation token, the files from that one on
      (it is processed again); with a last processed id, the files after
      it; otherwise all. */
  function Selected(loaded: State, force: bool, ids: seq<string>): seq<string>
  {
    if force then ids
    else if Truthy(loaded.continuation) then FromFirst(ids, loaded.continuation.value)
    else if Truthy(loaded.lastProcessed) then AfterFirst(ids, loaded.lastProcessed)
    else ids
  }

  predicate IsPrefix(a: seq<string>, b: seq<string>)
  {
    |a| <= |b| && b[..|a|] == a
  }

  lemma AdmitPending(g: Gate, id: string, rest: seq<string>, skipUntil: Option<string>)
    requires GateOk(g)
    ensures GateOk(Admit(g, id, skipUntil).1)
    ensures Pending(g, [id] + rest, skipUntil)
         == (if Admit(g, id, skipUntil).0 then [id] else []) + Pending(Admit(g, id, skipUntil).1, rest, skipUntil)
  {
    assert ([id] + rest)[0] == id && ([id] + rest)[1..] == rest;
  }

  lemma ProcessedIdsSnoc(ps: seq<ProcessedFile>, x: ProcessedFile)
    ensures ProcessedIds(ps + [x]) == ProcessedIds(ps) + [x.fileId]
  {
    assert (ps + [x])[..|ps|] == ps;
  }

  /** An attempt either stops the run on that file or appends one entry for
      it; the gate is untouched. */
  lemma AttemptFailed(p: Progress, id: string, name: string, folder: string, w: World)
    requires w.download(id).FetchFailed?
    ensures Attempt(p, id, name, folder, w) == Interrupted(p, DownloadFailed(w.download(id).message, id), id, folder, w.now)
  {
  }

  lemma AttemptFetched(p: Progress, id: string, name: string, folder: string, w: World)
    requires w.download(id).Fetched?
    ensures Attempt(p, id, name, folder, w) == Store(p, id, name, folder, w, ParsedWorkbook(w.download(id).workbook, id))
  {
  }

  lemma StoreEmpty(p: Progress, id: string, name: string, folder: string, w: World,
                   parsed: (seq<MissionaryRecord>, seq<SyncError>))
    requires parsed.0 == []
    ensures Store(p, id, name, folder, w, parsed)
         == Done(p.(errors := p.errors + parsed.1), ProcessedFile(id, name, 0, 0, 0), p.table, folder, w.now)
  {
  }

  lemma StoreRejected(p: Progress, id: string, name: string, folder: string, w: World,
                      parsed: (seq<MissionaryRecord>, seq<SyncError>))
    requires parsed.0 != [] && Persist(p.table, parsed.0).0.Rejected?
    ensures Store(p, id, name, folder, w, parsed)
         == Interrupted(p.(errors := p.errors + parsed.1), InsertFailed(w.insertError, id), id, folder, w.now)
  {
  }

  lemma StorePersisted(p: Progress, id: string, name: string, folder: string, w: World,
                       parsed: (seq<MissionaryRecord>, seq<SyncError>))
    requires parsed.0 != [] && Persist(p.table, parsed.0).0.Persisted?
    ensures var persisted := Persist(p.table, parsed.0);
            var q := p.(errors := p.errors + parsed.1,
                        inserted := p.inserted + persisted.0.inserted, skipped := p.skipped + persisted.0.skipped);
            var entry := ProcessedFile(id, name, persisted.0.inserted, persisted.0.skipped, |parsed.0|);
            Store(p, id, name, folder, w, parsed) == Done(q, entry, persisted.1, folder, w.now)
  {
  }

  lemma AttemptShape(p: Progress, id: string, name: string, folder: string, w: World)
    requires !p.halted
    ensures Attempt(p, id, name, folder, w).gate == p.gate
    ensures Attempt(p, id, name, folder, w).halted ==>
              Attempt(p, id, name, folder, w).processed == p.processed
              && Attempt(p, id, name, folder, w).continuation == Some(id)
    ensures !Attempt(p, id, name, folder, w).halted ==>
              exists e: ProcessedFile :: e.fileId == id && Attempt(p, id, name, folder, w).processed == p.processed + [e]
  {
    if w.download(id).Fetched? {
      StoreShape(p, id, name, folder, w, ParsedWorkbook(w.download(id).workbook, id));
    }
  }

  lemma StoreShape(p: Progress, id: string, name: string, folder: string, w: World,
                   parsed: (seq<MissionaryRecord>, seq<SyncError>))
    requires !p.halted
    ensures Store(p, id, name, folder, w, parsed).gate == p.gate
    ensures Store(p, id, name, folder, w, parsed).halted ==>
              Store(p, id, name, folder, w, parsed).processed == p.processed
              && Store(p, id, name, folder, w, parsed).continuation == Some(id)
    ensures !Store(p, id, name, folder, w, parsed).halted ==>
              exists e: ProcessedFile :: e.fileId == id && Store(p, id, name, folder, w, parsed).processed == p.processed + [e]
  {
    var r := Store(p, id, name, folder, w, parsed);
    if parsed.0 == [] {
      var e := ProcessedFile(id, name, 0, 0, 0);
      assert e.fileId == id && r.processed == p.processed + [e];
    } else {
      var q := p.(errors := p.errors + parsed.1);
      var persisted := Persist(q.table, parsed.0);
      match persisted.0
      case Rejected =>
      case Persisted(i, k) =>
        var e := ProcessedFile(id, name, i, k, |parsed.0|);
        assert e.fileId == id && r.processed == p.processed + [e];
    }
  }

  lemma AttemptAttempted(p: Progress, id: string, name: string, folder: string, w: World)
    requires !p.halted
    ensures Attempted(Attempt(p, id, name, folder, w)) == Attempted(p) + [id]
    ensures Attempt(p, id, name, folder, w).gate == p.gate
  {
    var r := Attempt(p, id, name, folder, w);
    AttemptShape(p, id, name, folder, w);
    if !r.halted {
      var e: ProcessedFile :| e.fileId == id && r.processed == p.processed + [e];
      ProcessedIdsSnoc(p.processed, e);
    }
  }

  lemma {:induction false} RunAttempts(p: Progress, files: seq<FileMeta>, folder: string, skipUntil: Option<string>, w: World)
    requires !p.halted && GateOk(p.gate)
    ensures IsPrefix(Attempted(Run(p, files, folder, skipUntil, w)),
                     Attempted(p) + Pending(p.gate, TruthyIds(files), skipUntil))
    ensures !Run(p, files, folder, skipUntil, w).halted ==>
              Attempted(Run(p, files, folder, skipUntil, w)) == Attempted(p) + Pending(p.gate, TruthyIds(files), skipUntil)
    decreases |files|
  {
    if files == [] {
      assert Attempted(p) + Pending(p.gate, TruthyIds(files), skipUntil) == Attempted(p);
    } else {
      var q := Step(p, files[0], folder, skipUntil, w);
      var rest := files[1..];
      assert Run(p, files, folder, skipUntil, w) == Run(q, rest, folder, skipUntil, w);
      StepPending(p, files, folder, skipUntil, w);
      if q.halted {
        HaltedStays(q, rest, folder, skipUntil, w);
      } else {
        RunAttempts(q, rest, folder, skipUntil, w);
      }
    }
  }

  /** One step moves the attempted ids it admits from the pending list to
      the attempted list. */
  lemma StepPending(p: Progress, files: seq<FileMeta>, folder: string, skipUntil: Option<string>, w: World)
    requires !p.halted && GateOk(p.gate) && files != []
    ensures var q := Step(p, files[0], folder, skipUntil, w);
            (!q.halted ==> GateOk(q.gate))
            && Attempted(p) + Pending(p.gate, TruthyIds(files), skipUntil)
               == Attempted(q) + Pending(q.gate, TruthyIds(files[1..]), skipUntil)
  {
    var f := files[0];
    var q := Step(p, f, folder, skipUntil, w);
    var rest := TruthyIds(files[1..]);
    var admitted, g := StepEffect(p, f, folder, skipUntil, w);
    var head := if admitted then [f.id.value] else [];
    if !Truthy(f.id) {
      assert TruthyIds(files) == rest;
    } else {
      assert TruthyIds(files) == [f.id.value] + rest;
      AdmitPending(p.gate, f.id.value, rest, skipUntil);
    }
    ShiftPending(Attempted(p), Attempted(q), head, Pending(p.gate, TruthyIds(files), skipUntil), Pending(g, rest, skipUntil));
  }

  lemma ShiftPending(done: seq<string>, done': seq<string>, head: seq<string>, pending: seq<string>, pending': seq<string>)
    requires done' == done + head && pending == head + pending'
    ensures done + pending == done' + pending'
  {
  }

  /** What one step does to the attempted ids and the gate: `admitted`
      tells whether the file was attempted, `g` is the gate after it. */
  lemma StepEffect(p: Progress, f: FileMeta, folder: string, skipUntil: Option<string>, w: World)
    returns (admitted: bool, g: Gate)
    requires !p.halted
    ensures Truthy(f.id) ==> (admitted, g) == Admit(p.gate, f.id.value, skipUntil)
    ensures !Truthy(f.id) ==> !admitted && g == p.gate
    ensures Attempted(Step(p, f, folder, skipUntil, w)) == Attempted(p) + (if admitted then [f.id.value] else [])
    ensures Step(p, f, folder, skipUntil, w).gate == g
  {
    if !Truthy(f.id) {
      admitted, g := false, p.gate;
      var q := Step(p, f, folder, skipUntil, w);
      assert q.processed == p.processed && q.halted == p.halted && q.gate == p.gate;
    } else {
      admitted, g := Admit(p.gate, f.id.value, skipUntil).0, Admit(p.gate, f.id.value, skipUntil).1;
      if admitted {
        StepAdmittedAttempted(p, f, folder, skipUntil, w);
      } else {
        var q := Step(p, f, folder, skipUntil, w);
        assert q.processed == p.processed && q.halted == p.halted && q.gate == g;
      }
    }
  }

  /** An admitted file is added to the attempted ids. */
  lemma StepAdmittedAttempted(p: Progress, f: FileMeta, folder: string, skipUntil: Option<string>, w: World)
    requires !p.halted && Truthy(f.id) && Admit(p.gate, f.id.value, skipUntil).0
    ensures Attempted(Step(p, f, folder, skipUntil, w)) == Attempted(p) + [f.id.value]
    ensures Step(p, f, folder, skipUntil, w).gate == Admit(p.gate, f.id.value, skipUntil).1
  {
    var p' := p.(gate := Admit(p.gate, f.id.value, skipUntil).1);
    assert Attempted(p') == Attempted(p);
    AttemptAttempted(p', f.id.value, FileName(f), folder, w);
  }

  /** The gate a run starts in leaves exactly the selected ids pending. */
  lemma StartPending(table: map<int, MissionaryRecord>, file: StateFile, loaded: State, force: bool, ids: seq<string>)
    ensures var skipUntil := if force then None else loaded.lastProcessed;
            var override := if force then None else loaded.continuation;
            GateOk(Start(table, file, skipUntil, override).gate)
            && Pending(Start(table, file, skipUntil, override).gate, ids, skipUntil) == Selected(loaded, force, ids)
  {
  }

  /** The resume rules: the files a run attempts (the processed ones, then
      the one named by the continuation token) are, in sort order, a prefix
      of the selected ids, and all of them when the run did not stop. */
  lemma SyncAttempts(table: map<int, MissionaryRecord>, file: StateFile, fecha: string, folder: string,
                     force: bool, w: World, duration: real)
    requires w.listing.Listed?
    ensures var report := Sync(table, file, fecha, folder, force, w, duration).0;
            var tried := ProcessedIds(report.processed) + (if report.continuation.Some? then [report.continuation.value] else []);
            var selected := Selected(LoadFrom(file, folder), force, TruthyIds(SortFiles(w.listing.files)));
            IsPrefix(tried, selected) && (report.continuation == None ==> tried == selected)
  {
    var loaded := LoadFrom(file, folder);
    var skipUntil := if force then None else loaded.lastProcessed;
    var override := if force then None else loaded.continuation;
    var sorted := SortFiles(w.listing.files);
    var last := Run(Start(table, file, skipUntil, override), sorted, folder, skipUntil, w);
    SyncReportsRun(table, file, fecha, folder, force, w, duration);
    StartAttempts(table, file, folder, force, sorted, w);
    TriedOfAttempted(Sync(table, file, fecha, folder, force, w, duration).0, last,
                     Selected(loaded, force, TruthyIds(sorted)), folder);
  }

  /** A run from the loaded state attempts, in order, a prefix of the
      selected ids, all of them when it does not stop, and ends settled. */
  lemma StartAttempts(table: map<int, MissionaryRecord>, file: StateFile, folder: string, force: bool,
                      sorted: seq<FileMeta>, w: World)
    ensures var loaded := LoadFrom(file, folder);
            var skipUntil := if force then None else loaded.lastProcessed;
            var override := if force then None else loaded.continuation;
            var last := Run(Start(table, file, skipUntil, override), sorted, folder, skipUntil, w);
            var selected := Selected(loaded, force, TruthyIds(sorted));
            Settled(last, folder) && IsPrefix(Attempted(last), selected)
            && (!last.halted ==> Attempted(last) == selected)
  {
    var loaded := LoadFrom(file, folder);
    var skipUntil := if force then None else loaded.lastProcessed;
    var override := if force then None else loaded.continuation;
    var start := Start(table, file, skipUntil, override);
    StartPending(table, file, loaded, force, TruthyIds(sorted));
    RunAttempts(start, sorted, folder, skipUntil, w);
    RunSettled(start, sorted, folder, skipUntil, w);
    assert Attempted(start) == [];
  }

  /** The report of a listed run carries the run's processed files, and
      its continuation token only when the run stopped. */
  lemma SyncReportsRun(table: map<int, MissionaryRecord>, file: StateFile, fecha: string, folder: string,
                       force: bool, w: World, duration: real)
    requires w.listing.Listed?
    ensures var loaded := LoadFrom(file, folder);
            var skipUntil := if force then None else loaded.lastProcessed;
            var override := if force then None else loaded.continuation;
            var last := Run(Start(table, file, skipUntil, override), SortFiles(w.listing.files), folder, skipUntil, w);
            var report := Sync(table, file, fecha, folder, force, w, duration).0;
            report.processed == last.processed
            && report.continuation == (if Truthy(last.continuation) then last.continuation else None)
  {
  }

  /** The ids a report says were tried are the attempted ids of the run it
      reports. */
  lemma TriedOfAttempted(report: Report, last: Progress, selected: seq<string>, folder: string)
    requires Settled(last, folder)
    requires report.processed == last.processed
    requires report.continuation == (if Truthy(last.continuation) then last.continuation else None)
    requires IsPrefix(Attempted(last), selected)
    requires !last.halted ==> Attempted(last) == selected
    ensures var tried := ProcessedIds(report.processed) + (if report.continuation.Some? then [report.continuation.value] else []);
            IsPrefix(tried, selected) && (report.continuation == None ==> tried == selected)
  {
    var tried := ProcessedIds(report.processed) + (if report.continuation.Some? then [report.continuation.value] else []);
    assert report.continuation == (if last.halted then last.continuation else None);
    assert tried == Attempted(last);
  }

  /** With `force` and no failure, every listed file with an id is processed,
      in sort order. */
  lemma ForcedRunProcessesAll(table: map<int, MissionaryRecord>, file: StateFile, fecha: string, folder: string,
                              w: World, duration: real)
    requires w.listing.Listed?
    requires Sync(table, file, fecha, folder, true, w, duration).0.continuation == None
    ensures ProcessedIds(Sync(table, file, fecha, folder, true, w, duration).0.processed) == TruthyIds(SortFiles(w.listing.files))
  {
    SyncAttempts(table, file, fecha, folder, true, w, duration);
  }

  /** When the stored resume point is not among the listed ids, every file is
      skipped, and the run still counts as complete and clears the state. */
  lemma MissingResumePointSkipsAll(table: map<int, MissionaryRecord>, file: StateFile, fecha: string, folder: string,
                                   w: World, duration: real)
    requires w.listing.Listed?
    requires var s := LoadFrom(file, folder);
             (Truthy(s.continuation) && s.continuation.value !in TruthyIds(SortFiles(w.listing.files)))
             || (!Truthy(s.continuation) && Truthy(s.lastProcessed)
                 && s.lastProcessed.value !in TruthyIds(SortFiles(w.listing.files)))
    ensures Sync(table, file, fecha, folder, false, w, duration).0.processed == []
    ensures Sync(table, file, fecha, folder, false, w, duration).0.continuation == None
    ensures LoadFrom(Sync(table, file, fecha, folder, false, w, duration).2, folder) == Blank
  {
    var s := LoadFrom(file, folder);
    var ids := TruthyIds(SortFiles(w.listing.files));
    if Truthy(s.continuation) {
      FromFirstAbsent(ids, s.continuation.value);
    } else {
      AfterFirstAbsent(ids, s.lastProcessed.value);
    }
    SyncAttempts(table, file, fecha, folder, false, w, duration);
    SyncOutcome(table, file, fecha, folder, false, w, duration);
  }

  /** The service: the destination table, the state repository and the
      outside world it talks to. */
  class SyncService {
    var table: map<int, MissionaryRecord>
    const repo: StateRepository
    const world: World

    constructor(initial: map<int, MissionaryRecord>, repo: StateRepository, world: World)
      ensures table == initial && this.repo == repo && this.world == world
    {
      table := initial;
      this.repo := repo;
      this.world := world;
    }

    /** `_persist_records` */
    method PersistRecords(records: seq<MissionaryRecord>) returns (outcome: PersistOutcome)
      modifies this
      ensures (outcome, table) == Persist(old(table), records)
    {
      if records == [] {
        return Persisted(0, 0);
      }
      var incoming := Unstored(records, table);
      if incoming == [] {
        return Persisted(0, |records|);
      }
      if !DistinctIds(incoming) {
        return Rejected;
      }
      table := InsertAll(table, incoming);
      outcome := Persisted(|incoming|, |records| - |incoming|);
    }

    /** `sync_generation(fecha_generacion, drive_folder_id, force=force)`;
        `duration` is the time the caller measured for the run. */
    method SyncGeneration(fecha: string, folder: string, force: bool, duration: real) returns (report: Report)
      modifies this, repo
      ensures (report, table, repo.file) == Sync(old(table), old(repo.file), fecha, folder, force, world, duration)
    {
      report := Report(fecha, folder, [], 0, 0, [], 0.0, None);
      var loaded := repo.Load(folder);
      var skipUntil := if force then None else loaded.lastProcessed;
      var override := if force then None else loaded.continuation;
      if world.listing.ListFailed? {
        report := report.(errors := report.errors + [ListingFailed(world.listing.message)],
                          durationSeconds := duration,
                          continuation := Or(override, skipUntil));
        assert report.errors == [ListingFailed(world.listing.message)];
        return;
      }
      var sorted := SortFiles(world.listing.files);
      var skipMode := Truthy(skipUntil);
      if Truthy(override) {
        skipMode := false;
      }
      var insertedTotal: nat, skippedTotal: nat := 0, 0;
      var halted := false;
      ghost var start := Start(table, repo.file, skipUntil, override);
      var i := 0;
      while i < |sorted| && !halted
        invariant 0 <= i <= |sorted|
        invariant report.fechaGeneracion == fecha && report.folder == folder
        invariant report.inserted == 0 && report.skipped == 0 && report.durationSeconds == 0.0
        invariant Run(Progress(Gate(skipMode, override), insertedTotal, skippedTotal, report.processed, report.errors,
                               report.continuation, table, repo.file, halted), sorted[i..], folder, skipUntil, world)
               == Run(start, sorted, folder, skipUntil, world)
      {
        var f := sorted[i];
        DropCons(sorted, i);
        i := i + 1;
        skipMode, override, insertedTotal, skippedTotal, report, halted :=
          VisitFile(f, folder, skipUntil, skipMode, override, insertedTotal, skippedTotal, report);
      }
      ghost var last := Progress(Gate(skipMode, override), insertedTotal, skippedTotal, report.processed, report.errors,
                                 report.continuation, table, repo.file, halted);
      if halted {
        HaltedStays(last, sorted[i..], folder, skipUntil, world);
      } else {
        assert sorted[i..] == [];
        repo.Clear(folder);
      }
      report := report.(inserted := insertedTotal, skipped := skippedTotal, durationSeconds := duration);
      if !Truthy(report.continuation) {
        report := report.(continuation := None);
      }
    }

    /** One pass of the loop of `sync_generation` over the file `f`: a
        file without an id is passed over, the override and the skip
        marker are consulted, and an admitted file is attempted. */
    method VisitFile(f: FileMeta, folder: string, skipUntil: Option<string>, skipMode: bool, override: Option<string>,
                     inserted: nat, skipped: nat, report: Report)
      returns (skipMode': bool, override': Option<string>, inserted': nat, skipped': nat, report': Report, halted: bool)
      modifies this, repo
      ensures report'.fechaGeneracion == report.fechaGeneracion && report'.folder == report.folder
      ensures report'.inserted == report.inserted && report'.skipped == report.skipped
      ensures report'.durationSeconds == report.durationSeconds
      ensures Progress(Gate(skipMode', override'), inserted', skipped', report'.processed, report'.errors,
                       report'.continuation, table, repo.file, halted)
           == Step(Progress(Gate(skipMode, override), inserted, skipped, report.processed, report.errors,
                            report.continuation, old(table), old(repo.file), false), f, folder, skipUntil, world)
    {
      skipMode', override', inserted', skipped', report', halted := skipMode, override, inserted, skipped, report, false;
      if Truthy(f.id) {
        var id := f.id.value;
        if Truthy(override) && id != override.value {
          // not yet the file the interrupted run stopped at
        } else {
          if Truthy(override) {
            override' := None;
          }
          if skipMode {
            if skipUntil == Some(id) {
              skipMode' := false;
            }
          } else {
            inserted', skipped', report', halted :=
              ProcessFile(id, FileName(f), folder, inserted, skipped, report, Gate(skipMode', override'));
          }
        }
      }
    }

    /** The part of the loop body of `sync_generation` that handles an
        attempted file: download, parse, persist and record the outcome. */
    method ProcessFile(id: string, name: string, folder: string, inserted: nat, skipped: nat, report: Report, ghost gate: Gate)
      returns (inserted': nat, skipped': nat, report': Report, halted: bool)
      modifies this, repo
      ensures report'.fechaGeneracion == report.fechaGeneracion && report'.folder == report.folder
      ensures report'.inserted == report.inserted && report'.skipped == report.skipped
      ensures report'.durationSeconds == report.durationSeconds
      ensures Progress(gate, inserted', skipped', report'.processed, report'.errors, report'.continuation, table, repo.file, halted)
           == Attempt(Progress(gate, inserted, skipped, report.processed, report.errors, report.continuation,
                               old(table), old(repo.file), false), id, name, folder, world)
    {
      ghost var p := Progress(gate, inserted, skipped, report.processed, report.errors, report.continuation,
                              table, repo.file, false);
      var download := world.download(id);
      if download.FetchFailed? {
        report' := report.(errors := report.errors + [DownloadFailed(download.message, id)]);
        repo.MarkInterrupted(folder, id, world.now);
        report' := report'.(continuation := Some(id));
        inserted', skipped', halted := inserted, skipped, true;
        AttemptFailed(p, id, name, folder, world);
        return;
      }
      var records, parsingErrors := ParseExcelRows(download.workbook, id);
      AttemptFetched(p, id, name, folder, world);
      inserted', skipped', report', halted := StoreRecords(id, name, folder, inserted, skipped, report, gate, records, parsingErrors);
    }

    /** The rest of that loop body once the workbook is read: record the
        read errors, then persist the records and record the outcome. */
    method StoreRecords(id: string, name: string, folder: string, inserted: nat, skipped: nat, report: Report, ghost gate: Gate,
                        records: seq<MissionaryRecord>, parsingErrors: seq<SyncError>)
      returns (inserted': nat, skipped': nat, report': Report, halted: bool)
      modifies this, repo
      ensures report'.fechaGeneracion == report.fechaGeneracion && report'.folder == report.folder
      ensures report'.inserted == report.inserted && report'.skipped == report.skipped
      ensures report'.durationSeconds == report.durationSeconds
      ensures Progress(gate, inserted', skipped', report'.processed, report'.errors, report'.continuation, table, repo.file, halted)
           == Store(Progress(gate, inserted, skipped, report.processed, report.errors, report.continuation,
                             old(table), old(repo.file), false), id, name, folder, world, (records, parsingErrors))
    {
      ghost var p := Progress(gate, inserted, skipped, report.processed, report.errors, report.continuation,
                              table, repo.file, false);
      inserted', skipped', report', halted := inserted, skipped, report, false;
      report' := report'.(errors := report'.errors + parsingErrors);
      if records == [] {
        report' := report'.(processed := report'.processed + [ProcessedFile(id, name, 0, 0, 0)]);
        repo.MarkProcessed(folder, id, world.now);
        StoreEmpty(p, id, name, folder, world, (records, parsingErrors));
        assert Progress(gate, inserted', skipped', report'.processed, report'.errors, report'.continuation, table, repo.file, halted)
            == Store(p, id, name, folder, world, (records, parsingErrors));
        return;
      }
      var outcome := PersistRecords(records);
      if outcome.Rejected? {
        report' := report'.(errors := report'.errors + [InsertFailed(world.insertError, id)]);
        repo.MarkInterrupted(folder, id, world.now);
        report' := report'.(continuation := Some(id));
        halted := true;
        StoreRejected(p, id, name, folder, world, (records, parsingErrors));
        assert Progress(gate, inserted', skipped', report'.processed, report'.errors, report'.continuation, table, repo.file, halted)
            == Store(p, id, name, folder, world, (records, parsingErrors));
        return;
      }
      StorePersisted(p, id, name, folder, world, (records, parsingErrors));
      inserted' := inserted' + outcome.inserted;
      skipped' := skipped' + outcome.skipped;
      report' := report'.(processed := report'.processed + [ProcessedFile(id, name, outcome.inserted, outcome.skipped, |records|)]);
      repo.MarkProcessed(folder, id, world.now);
    }

    /** `_parse_excel_rows` */
    method ParseExcelRows(wb: Workbook, fileId: string) returns (records: seq<MissionaryRecord>, errors: seq<SyncError>)
      ensures (records, errors) == ParsedWorkbook(wb, fileId)
    {
      if wb.Unreadable? {
        return [], [ExcelReadFailed(wb.message, fileId)];
      }
      if wb.NoSheet? || |wb.rows| < 2 {
        return [], [];
      }
      var body := wb.rows[1..];
      records, errors := [], [];
      var i := 0;
      while i < |body|
        invariant 0 <= i <= |body|
        invariant records == RecordsOf(body[..i])
      {
        TakeSnoc(body, i);
        RecordsOfSnoc(body[..i], body[i]);
        var outcome := FromRow(body[i]);
        if outcome.Parsed? {
          records := records + [outcome.record];
        }
        i := i + 1;
      }
      TakeAll(body);
    }
  }
}
