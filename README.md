# ccmwf core in Dafny

A Dafny model of the core of ccmwf, the back office of a missionary
training centre (CCM). It reads arrival e-mails, files their attachments
in Google Drive, loads the generation workbooks into the
`ccm_generaciones` table, prepares report datasets and sends them to
Telegram. The model covers the logic of those steps, without their I/O:

- **Database sync** (`database_sync_service.py`). The text modules support it:
  - `Dates` holds civil dates and the `strptime` subset;
  - `Text` holds stripping, casing and integer parsing;
  - `Seqs` holds sequence identities.

  The model contains:
  - the cell coercions and `MissionaryRecord.from_row` (`SyncRecords`);
  - the per-folder resume state (`SyncState.StateRepository`, a class over the state document);
  - the dedup-then-insert of a batch, the reading of a workbook's rows, and the resumable loop of `sync_generation` (`DatabaseSync.SyncService`).

  The loop is proved equal to the specification function `Sync`. The resume, interrupt, clear and totals rules are proved of `Sync`.
- **Drive file names** (`DriveNames`):
  - sanitising, prefix and duplicate stripping;
  - the 100-character cap;
  - unique names against the names already in a folder;
  - the primary-district guess.
- **Report cache and preparation**:
  - `Cache.InMemoryCacheStrategy`, a TTL map with usage counters;
  - `ReportPreparation`: the dataset validations, the cache key, branch authorisation, and the hit, stale and miss decision of `_run_pipeline`.
- **Telegram**:
  - `TelegramClient`: how one `sendMessage` outcome is classified;
  - `TelegramNotification`: the bounded retry loop, the dataset report flow, and the grouping and wording of the messages.
- **Arrival e-mails**:
  - `EmailHtmlParser`: choosing the data table;
  - `EmailContent`: extracting the generation date;
  - `Validators`: the structure check;
  - `Gmail`: the payload-tree helpers, the success and Drive decisions, and the run counters.
- **Small validators**:
  - `LoggingUtils`: the logging context;
  - `Models`: model validators and defaults;
  - `Config`: settings validators.

Classes (`SyncState.StateRepository`, `DatabaseSync.SyncService`,
`Cache.InMemoryCacheStrategy`, `ReportPreparation.ReportPreparationService`)
stand for the source objects whose fields change. Each of their methods is
proved against a function of the old state. Loops in the source are
methods with invariants, proved equal to a specification function.

## Model

| member | source | states |
|---|---|---|
| Dates.OrdinalInjective | src/app/services/database_sync_service.py:75-76 | distinct dates have distinct day numbers |
| Dates.OrdinalOnto | src/app/services/database_sync_service.py:75-76 | every day number from 1 to the one of 9999-12-31 belongs to a date |
| Dates.FromOrdinal | src/app/services/database_sync_service.py:75-76 | the one valid date whose day number is `k` |
| Dates.FromOrdinalOfOrdinal | src/app/services/database_sync_service.py:75-76 | converting a date to its day number and back gives the date |
| Dates.SerialToDate | src/app/services/database_sync_service.py:73-79 | 1899-12-30 plus `n` days, None exactly when the result leaves years 1 to 9999 (where Python raises) |
| Dates.SerialOfDate | src/app/services/database_sync_service.py:73-79 | every representable date is the image of exactly one serial number |
| Dates.IsoFormat | src/app/services/database_sync_service.py:69-72 | ten characters, `YYYY-MM-DD`, dashes at 4 and 7 |
| Dates.IsoFormatInjective | src/app/services/database_sync_service.py:69-72 | two valid dates with the same ISO text are the same date |
| Dates.Strptime | src/app/services/database_sync_service.py:95-100 | a date only when the whole string matches and the fields form a valid date |
| Dates.ParseWithFormats | src/app/services/database_sync_service.py:95-100 | the first format that parses decides; every result is a valid date |
| Dates.FirstFormatWins | src/app/services/database_sync_service.py:95-100 | formats before the first that parses are ignored, and None comes only when no format parses |
| Dates.MatchFirstAlternative | src/app/services/database_sync_service.py:97 | the matcher keeps the first alternative of the first directive that leads to a match |
| Dates.StrptimeIso | src/app/services/database_sync_service.py:85 | an ISO date string parses back to its date under `%Y-%m-%d` |
| Dates.DayFirstRejectsIso | src/app/services/database_sync_service.py:121-122 | a format starting with `%d` and a separator cannot match an ISO string |
| Text.Lower | src/app/services/database_sync_service.py:62 | `str.lower()` character by character, same length |
| Text.Upper | src/app/config.py:72 | `str.upper()` character by character, same length |
| Text.Title | src/app/services/database_sync_service.py:230 | a character is upper-cased when the one before it is not cased and lower-cased otherwise |
| Text.TitleIdempotent | src/app/services/database_sync_service.py:230 | title-casing twice is title-casing once |
| Text.LowerIdempotent | src/app/services/database_sync_service.py:62 | lower-casing twice is lower-casing once |
| Text.Strip | src/app/services/database_sync_service.py:50 | `str.strip()`: the slice between leading and trailing whitespace |
| Text.StripSlice | src/app/services/database_sync_service.py:50 | the stripped text is that slice of the input, with only whitespace outside it |
| Text.StripIdempotent | src/app/services/database_sync_service.py:50 | stripping twice is stripping once |
| Text.BlankIffStripEmpty | src/app/services/database_sync_service.py:50 | a string is whitespace-only iff it strips to "" |
| Text.Find | src/app/services/validators.py:42 | a scanning substring test, equal to `p in s` |
| Text.Join | src/app/services/drive_service.py:421 | `sep.join(parts)` |
| Text.Split | src/app/services/drive_service.py:456 | the pieces between the occurrences of a one-character separator |
| Text.JoinSplit | src/app/services/drive_service.py:456 | joining the pieces of a split with the separator gives the string back |
| Text.ParseInt | src/app/services/database_sync_service.py:203 | `int(s)` in base 10: an optional sign and digits with single underscores; None where Python raises |
| Text.ParseIntOfString | src/app/services/database_sync_service.py:203 | `int(str(n)) == n` for every integer |
| Text.IntToString | src/app/services/database_sync_service.py:203 | `str(n)`: an optional minus and digits |
| Text.AsciiFold | src/app/services/email_html_parser.py:195-196 | the ASCII text NFKD leaves once non-ASCII characters are dropped: every output character is ASCII |
| SyncRecords.NormalizeBoolean | src/app/services/database_sync_service.py:57-63 | a null cell gives the default, a bool passes through, anything else is true exactly when its stripped lower-case text is one of the seven truthy words |
| SyncRecords.TrimmedText | src/app/services/database_sync_service.py:47-54 | text with no surrounding whitespace is not null and strips to itself |
| SyncRecords.TrimmedWord | src/app/services/database_sync_service.py:57-63 | trimmed text reads as true iff its lower-case form is a truthy word |
| SyncRecords.BooleanTextRoundTrip | src/app/services/database_sync_service.py:57-63 | "True"/"False" and "true"/"false" read back as the boolean they spell |
| SyncRecords.NumericTruthyWord | src/app/services/database_sync_service.py:63 | of the truthy words only "1" is made of digits and signs |
| SyncRecords.IntReadsAsText | src/app/services/database_sync_service.py:57-63 | an integer cell is true iff its decimal text is a truthy word |
| SyncRecords.BooleanOfInt | src/app/services/database_sync_service.py:57-63 | of the integers only 1 reads as true |
| SyncRecords.VerdaderoIsTrue | src/app/services/database_sync_service.py:63 | "Verdadero" in any case reads as true |
| SyncRecords.ZeroIsFalse | src/app/services/database_sync_service.py:63 | the integer 0 reads as false |
| SyncRecords.CellDate | src/app/services/database_sync_service.py:66-101 | a null cell has no date; dates and datetimes keep their date; numbers count days from 1899-12-30; text is stripped and read by the first format that parses; every date returned is a valid calendar date |
| SyncRecords.NormalizeDate | src/app/services/database_sync_service.py:66-101 | the ISO text of the cell's date under the nine general formats, None exactly when there is none |
| SyncRecords.NormalizeFechaPresencial | src/app/services/database_sync_service.py:103-131 | the ISO text of the cell's date under the four day-first arrival formats, None exactly when there is none |
| SyncRecords.IsoTextIsStripped | src/app/services/database_sync_service.py:82-84 | the ISO text of a date is not null and strips to itself |
| SyncRecords.NormalizeDateIdempotent | src/app/services/database_sync_service.py:66-101 | normalising an already-normalised date gives it back |
| SyncRecords.PresencialReadsIso | src/app/services/database_sync_service.py:117-127 | an ISO string fails both day-first formats and is read by the third arrival format |
| SyncRecords.NormalizeFechaPresencialIdempotent | src/app/services/database_sync_service.py:103-131 | normalising an already-normalised arrival date gives it back |
| SyncRecords.DayFirstMatch | src/app/services/database_sync_service.py:121 | `%d/%m/%Y` matches a one-digit day, slash, one-digit month, slash and four digits, capturing each |
| SyncRecords.DayFirstAssign | src/app/services/database_sync_service.py:121 | those captures assign the day, month and year |
| SyncRecords.DayFirstPresencial | src/app/services/database_sync_service.py:103-131 | a day-first date with one-digit day and month normalises to the ISO text of (year, month, day) |
| SyncRecords.FechaPresencialExample | src/tests/test_database_sync_service.py:127-142 | "3/7/2025" normalises to "2025-07-03" |
| SyncRecords.SerialCell | src/app/services/database_sync_service.py:73-78 | whole-number cells are read as serial day numbers |
| SyncRecords.FalseCell | src/app/services/database_sync_service.py:73-78 | False is read as serial 0 |
| SyncRecords.SerialExamples | src/app/services/database_sync_service.py:73-78 | serial 1 is "1899-12-31"; serial 0 and False are "1899-12-30" |
| SyncRecords.Columns | src/app/services/database_sync_service.py:225-259 | the first 34 columns, a column past the end of the row read as None |
| SyncRecords.TextOf | src/app/services/database_sync_service.py:225-259 | a text column is None exactly for None or "", otherwise the stripped text |
| SyncRecords.SafeInt | src/app/services/database_sync_service.py:216-222 | None or "" gives None; otherwise the integer the stripped text spells, if any |
| SyncRecords.FromRow | src/app/services/database_sync_service.py:178-271 | an empty row is discarded as having no id, a None or "" id as missing, an id whose stripped text is not an integer as invalid; otherwise the record carries that id, no `tratamiento`, and is active |
| SyncRecords.PaddingIsEmpty | src/app/services/database_sync_service.py:225-259 | padding a row with None cells does not change its record |
| SyncRecords.IntTextIsStripped | src/app/services/database_sync_service.py:203 | an integer id cell reads back as that integer |
| SyncRecords.EmptyCellDefaults | src/app/services/database_sync_service.py:216-259 | a None cell gives None in text, integer and date columns and False in boolean ones |
| SyncRecords.IntIdRow | src/app/services/database_sync_service.py:178-271 | a row holding only an integer id gives the all-default record, with an empty name, and is still returned |
| SyncRecords.EmptyColumnsRecord | src/app/services/database_sync_service.py:225-259 | all-None columns give every field its default |
| SyncRecords.MexicoText | src/app/services/database_sync_service.py:230 | the country cell "mexico" is stored as "Mexico" |
| SyncRecords.IdText | src/app/services/database_sync_service.py:203 | the id cell "101" reads as 101 |
| SyncRecords.RowFields | src/app/services/database_sync_service.py:224-259 | a row with a valid id is parsed; its id, country and arrival date come from columns 0, 5 and 33 |
| SyncRecords.RowExample | src/tests/test_database_sync_service.py:93-140 | a row with id "101" and country "mexico" gives record 101 with country "Mexico" |
| SyncRecords.WordIsNoNumber | src/app/services/database_sync_service.py:202-214 | a cell whose text does not end in a digit (such as "nan", "True") has no id |
| SyncRecords.BlankIdIsInvalid | src/app/services/database_sync_service.py:191-214 | a whitespace-only id cell is rejected as invalid, not as missing |
| SyncRecords.NaNIdIsInvalid | src/app/services/database_sync_service.py:191-214 | a NaN id cell is rejected as invalid |
| SyncRecords.BoolIdIsInvalid | src/app/services/database_sync_service.py:191-214 | a boolean id cell is rejected as invalid |
| SyncRecords.EmptyTextIdIsMissing | src/app/services/database_sync_service.py:191-200 | only None and "" count as a missing id |
| SyncRecords.IdIgnoresWhitespace | src/app/services/database_sync_service.py:203 | whitespace around the id text is ignored |
| SyncRecords.TextColumnKeepsText | src/app/services/database_sync_service.py:225-259 | a text column keeps any text but "" in stripped form, so whitespace-only text becomes "" and not None |
| SyncRecords.NaNTextColumn | src/app/services/database_sync_service.py:225-259 | a NaN cell in a text column becomes the text "nan" |
| SyncRecords.PayloadFaithful | src/app/services/database_sync_service.py:273-315 | two records with the same payload are the same record, and both audit columns carry the batch timestamp |
| SyncState.LoadFrom | src/app/services/database_sync_service.py:353-365 | a missing or corrupt file gives the blank state; otherwise the folder's two stored fields, absent ones as None |
| SyncState.Written | src/app/services/database_sync_service.py:367-382 | the folder's entry becomes the given state stamped with `now`; a corrupt or missing file starts from no folder; other entries stay |
| SyncState.Cleared | src/app/services/database_sync_service.py:393-408 | a corrupt file is deleted; the folder's entry is removed and the file deleted when no folder is left; otherwise nothing changes |
| SyncState.StateRepository.MarkProcessed | src/app/services/database_sync_service.py:384-385 | the file becomes `Written` of the old file with last processed = the file id and no token |
| SyncState.StateRepository.MarkInterrupted | src/app/services/database_sync_service.py:387-391 | the file becomes `Written` of the old file with no last processed and token = the file id |
| SyncState.StateRepository.Clear | src/app/services/database_sync_service.py:393-408 | the file becomes `Cleared` of the old file |
| SyncState.LoadAfterWrite | src/app/services/database_sync_service.py:353-382 | a folder reads back the state last written for it |
| SyncState.WriteKeepsOthers | src/app/services/database_sync_service.py:367-382 | writing one folder leaves what every other folder loads unchanged |
| SyncState.WriteOnCorruptDropsOthers | src/app/services/database_sync_service.py:368-374 | on a corrupt file a write keeps no entry but the written one |
| SyncState.LoadAfterClear | src/app/services/database_sync_service.py:353-408 | a cleared folder loads as blank |
| SyncState.ClearKeepsOthers | src/app/services/database_sync_service.py:393-408 | clearing one folder leaves what every other folder loads unchanged |
| SyncState.ClearIdempotent | src/app/services/database_sync_service.py:393-408 | clearing twice is clearing once |
| SyncState.ClearAbsentIsNoOp | src/app/services/database_sync_service.py:402-403 | clearing a folder with no entry leaves a readable document as it is |
| DatabaseSync.ToDict | src/app/services/database_sync_service.py:327-339 | the eight keys of the report dictionary, each holding its field |
| DatabaseSync.ToDictRoundTrip | src/app/services/database_sync_service.py:327-339 | `to_dict` loses nothing: the report reads back from its dictionary |
| DatabaseSync.PersistCounts | src/app/services/database_sync_service.py:748-766 | inserted plus skipped is the batch size |
| DatabaseSync.PersistNeverOverwrites | src/app/services/database_sync_service.py:755-766 | stored rows are never overwritten; after success the table holds exactly the old ids plus the batch's; a rejected batch changes nothing |
| DatabaseSync.UnstoredIds | src/app/services/database_sync_service.py:756-757 | the records kept for insertion have new ids, and with the stored ids they cover the batch |
| DatabaseSync.PersistStoresNew | src/app/services/database_sync_service.py:762-765 | each new record is stored as given |
| DatabaseSync.PersistRejectsDuplicates | src/app/services/database_sync_service.py:764 | the insert is rejected exactly when two new records share an id |
| DatabaseSync.PersistTwice | src/app/services/database_sync_service.py:748-766 | a fresh batch inserts all its records the first time and skips all of them the second |
| DatabaseSync.DuplicateNewIdsRejected | src/app/services/database_sync_service.py:764 | two records with the same new id make the whole batch fail and leave the table unchanged |
| DatabaseSync.RecordsOfFaithful | src/app/services/database_sync_service.py:733-743 | a record comes out of the rows exactly when some row parses to it |
| DatabaseSync.KeptCount | src/app/services/database_sync_service.py:733-743 | there are as many records as rows that parse |
| DatabaseSync.HeaderIgnored | src/app/services/database_sync_service.py:734 | the header row has no influence on the result |
| DatabaseSync.SortFilesSorted | src/app/services/database_sync_service.py:543 | the sorted files are ordered by key and are a permutation of the listed files |
| DatabaseSync.SortFilesStable | src/app/services/database_sync_service.py:543 | files that share a key keep their listing order |
| DatabaseSync.HaltedStays | src/app/services/database_sync_service.py:577-655 | once a failure has stopped the loop, later files change nothing |
| DatabaseSync.SyncTotals | src/app/services/database_sync_service.py:657-688 | `inserted_count` and `skipped_count` are the sums over `processed_files` |
| DatabaseSync.SyncOutcome | src/app/services/database_sync_service.py:598-685 | a run without a token clears the folder's state; with one, the state holds that token and the last error is the failure of that file |
| DatabaseSync.SyncKeepsOthers | src/app/services/database_sync_service.py:514-685 | a run reads and writes only its own folder's state |
| DatabaseSync.SyncKeepsRows | src/app/services/database_sync_service.py:748-766 | a run never changes a row that was already stored |
| DatabaseSync.SyncListingFailure | src/app/services/database_sync_service.py:518-541 | a failed listing writes no state and no row, reports one `drive_listing_failed` error and hands back `continuation_token or last_processed_file_id` |
| DatabaseSync.EmptyFileRecorded | src/app/services/database_sync_service.py:610-630 | a file with no record is recorded as processed with zero counts and marked processed |
| DatabaseSync.SyncAttempts | src/app/services/database_sync_service.py:545-565 | the files a run tries (the processed ones, then the token's file) are a prefix, in sort order, of the files the resume rules select, and all of them when no token is returned |
| DatabaseSync.StartAttempts | src/app/services/database_sync_service.py:514-565 | from the loaded state a run attempts a prefix of the selected ids, all of them when it does not stop |
| DatabaseSync.SyncReportsRun | src/app/services/database_sync_service.py:673-691 | the report carries the run's processed files, and its token only when the run stopped |
| DatabaseSync.ForcedRunProcessesAll | src/app/services/database_sync_service.py:515-516 | with `force` and no failure, every listed file with an id is processed, in sort order |
| DatabaseSync.MissingResumePointSkipsAll | src/app/services/database_sync_service.py:545-565 | when the stored last-processed id is not among the listed ids every file is skipped, and the run still clears the state |
| DatabaseSync.SyncService.PersistRecords | src/app/services/database_sync_service.py:748-766 | the outcome and the new table are `Persist` of the old table and the batch |
| DatabaseSync.SyncService.SyncGeneration | src/app/services/database_sync_service.py:492-704 | the report, the new table and the new state file are `Sync` of the old ones, so every lemma about `Sync` holds of the method |
| DatabaseSync.SyncService.ProcessFile | src/app/services/database_sync_service.py:577-682 | one attempted file moves the loop's progress exactly as the specification's attempt step does |
| DatabaseSync.SyncService.ParseExcelRows | src/app/services/database_sync_service.py:706-746 | the records and errors are `ParsedWorkbook` of the workbook: an unreadable one gives one `excel_read_failed` error, a missing sheet or one under two rows nothing, otherwise the records of the rows after the header |
| DatabaseSync.SyncService.VisitFile | src/app/services/database_sync_service.py:552-682 | one pass of the loop moves the gate, the totals, the report, the table and the state file exactly as the `Step` function does, and leaves the report's date, folder and counts alone |
| DatabaseSync.SyncService.StoreRecords | src/app/services/database_sync_service.py:602-682 | once the workbook is read, the totals, the report, the table and the state file move exactly as the `Store` function does |
| DatabaseSync.SyncService.constructor | src/app/services/database_sync_service.py:461-477 | the service starts from the given table, state repository and Drive folder contents |
| SyncState.StateRepository.constructor | src/app/services/database_sync_service.py:349-351 | the repository starts from the given state file |
| Cache.Lookup | src/app/services/cache_strategies.py:69-91 | an entry whose expiry is strictly before now is removed and counted as an expiration and a miss; otherwise a stored key is a hit returning its value and anything else a miss; every other key keeps its presence, value and expiry |
| Cache.Stored | src/app/services/cache_strategies.py:93-105 | a given ttl that is not positive leaves the cache as it was; otherwise the value is stored, a write is counted, and the expiry is now + ttl (or absent without a ttl); every other key keeps its presence, value and expiry |
| Cache.Invalidated | src/app/services/cache_strategies.py:107-113 | the key and its expiry are gone; an invalidation is counted only when the key was stored; every other key keeps its presence, value and expiry |
| Cache.InvalidatePrefixExact | src/app/services/cache_strategies.py:115-131 | after invalidating a prefix, a key remains exactly when it was stored and does not start with the prefix; remaining values and expiries are unchanged; invalidations grow by the number of keys removed |
| Cache.OperationsKeepValid | src/app/services/cache_strategies.py:69-131 | get, set, invalidate and invalidate_prefix keep every expiry attached to a stored key |
| Cache.CountersNeverDecrease | src/app/services/cache_strategies.py:69-135 | no operation lowers any of the five metrics counters |
| Cache.ExpiryBoundary | src/app/services/cache_strategies.py:74-91 | a value set with a positive ttl is a hit up to and including its expiry instant, and after it a miss that drops the entry |
| Cache.MissWriteHit | src/app/services/cache_strategies.py:63-105 | on a fresh cache, a miss, a set and a later get within the ttl give metrics of one hit, one miss, one write and nothing else |
| Cache.InMemoryCacheStrategy.constructor | src/app/services/cache_strategies.py:63-67 | a new strategy holds no entries, no expiries and zero metrics, so every expiry is attached to a stored key |
| Cache.InMemoryCacheStrategy.Get | src/app/services/cache_strategies.py:69-91 | returns the value and leaves the state that `Lookup` gives for the old state; keeps every expiry attached to a stored key |
| Cache.InMemoryCacheStrategy.Set | src/app/services/cache_strategies.py:93-105 | the new state is `Stored` of the old state; keeps every expiry attached to a stored key |
| Cache.InMemoryCacheStrategy.Invalidate | src/app/services/cache_strategies.py:107-113 | the new state is `Invalidated` of the old state; keeps every expiry attached to a stored key |
| Cache.InMemoryCacheStrategy.InvalidatePrefix | src/app/services/cache_strategies.py:115-131 | the new state is `PrefixInvalidated` of the old state, whose exact effect `InvalidatePrefixExact` states; keeps every expiry attached to a stored key |
| Cache.PrefixKeepsValid | src/app/services/cache_strategies.py:115-131 | removing the keys under a prefix keeps every expiry attached to a stored key |
| ReportPreparation.KeyPart | src/app/services/report_preparation_service.py:105-108 | a key component is None exactly for None or blank text; text is stripped; other values are kept |
| ReportPreparation.UniqueKey | src/app/services/report_preparation_service.py:102-111 | the key has one component per unique field |
| ReportPreparation.BaseError | src/app/services/report_preparation_service.py:84-124 | a failure is either missing_required_fields or duplicate_records, and a missing-field failure names the first row with a missing field |
| ReportPreparation.SeenKeysExact | src/app/services/report_preparation_service.py:109-121 | the set of seen keys holds exactly the keys of rows with at least one meaningful component |
| ReportPreparation.BaseErrorNoneIff | src/app/services/report_preparation_service.py:84-124 | base validation passes exactly when every row has all required fields and no two rows share a meaningful key |
| ReportPreparation.AllPresentSnoc | src/app/services/report_preparation_service.py:90-101 | all rows have their required fields exactly when the rows before the last do and the last does |
| ReportPreparation.KeysDistinctSnoc | src/app/services/report_preparation_service.py:113-121 | appending a row keeps keys distinct exactly when its key is not meaningful or was not seen before |
| ReportPreparation.ValidateBase | src/app/services/report_preparation_service.py:84-124 | the loop with its `seen` set returns exactly the error `BaseError` specifies |
| ReportPreparation.BaseErrorPrefix | src/app/services/report_preparation_service.py:90-121 | the first error raised in a prefix of the rows is the error of the whole sequence |
| ReportPreparation.AllInRangeCons | src/app/services/report_preparation_service.py:166-177 | a run of rows is in range exactly when its first row is and the rest are |
| ReportPreparation.RangeErrorSpec | src/app/services/report_preparation_service.py:164-247 | the range check passes exactly when every value is within its bounds; a failure names the first row out of range with the pipeline's own error code |
| ReportPreparation.RangeErrorNoneIff | src/app/services/report_preparation_service.py:164-247 | the range check passes exactly when all rows from the index on are in range |
| ReportPreparation.RangeErrorFirst | src/app/services/report_preparation_service.py:164-247 | a range failure is reported for a row out of range with every earlier row in range |
| ReportPreparation.ValidateRows | src/app/services/report_preparation_service.py:164-247 | the pipeline's `_validate` (base checks, then its value bounds: 0..500 totals, 0..500 KPI values, 0..200 arrival counts, none for birthdays) returns exactly `Validated` |
| ReportPreparation.Transformed | src/app/services/report_preparation_service.py:126-136 | transformation succeeds exactly when the model accepts every row, and then yields each row's dump in order |
| ReportPreparation.DumpFailure | src/app/services/report_preparation_service.py:160-162 | when some row is rejected, names an index of a rejected row |
| ReportPreparation.TransformRows | src/app/services/report_preparation_service.py:126-136 | the transform and serialize loop returns exactly `Transformed` |
| ReportPreparation.PreparedSpec | src/app/services/report_preparation_service.py:63-80 | preparation succeeds exactly when the dataset is non-empty or allowed empty, validation passes and the model accepts every row; the result then has one dumped row per input row |
| ReportPreparation.ModelRejection | src/app/services/report_preparation_service.py:69-70 | rows that pass validation but that the model rejects fail with a preparation error, not a validation error |
| ReportPreparation.EmptyDataset | src/app/services/report_preparation_service.py:138-144 | an empty dataset fails with dataset_missing_rows unless the pipeline allows empty results (arrivals, birthdays), which return no rows |
| ReportPreparation.OutOfRangeRejected | src/app/services/report_preparation_service.py:164-247 | any row with a value outside its pipeline's bounds makes preparation fail |
| ReportPreparation.Fresh | src/app/services/report_preparation_service.py:71-80 | a prepared report has record_count equal to the number of its rows and is not a cache hit |
| ReportPreparation.Prepare | src/app/services/report_preparation_service.py:63-80 | returns exactly `Fresh` for the loaded rows |
| ReportPreparation.RecordCount | src/app/services/report_preparation_service.py:70-74 | record_count equals the number of loaded rows and each data row is the model dump of the matching input row |
| ReportPreparation.InsertSpec | src/app/services/report_preparation_service.py:423 | inserting into a key-sorted parameter list keeps it sorted and adds exactly the new item |
| ReportPreparation.InsertItems | src/app/services/report_preparation_service.py:423 | insertion adds exactly one copy of the item to the multiset of items |
| ReportPreparation.InsertSorted | src/app/services/report_preparation_service.py:423 | insertion keeps a key-sorted list sorted |
| ReportPreparation.SortSpec | src/app/services/report_preparation_service.py:423 | `sorted(params)` yields a key-sorted permutation of the parameters |
| ReportPreparation.SameItemsSameKeys | src/app/services/report_preparation_service.py:423 | permutations have the same key set |
| ReportPreparation.ConsKeepsDistinct | src/app/services/report_preparation_service.py:423 | prepending an item with a new key keeps keys distinct |
| ReportPreparation.InsertKeepsDistinct | src/app/services/report_preparation_service.py:423 | inserting an item with a new key keeps keys distinct |
| ReportPreparation.TailKeys | src/app/services/report_preparation_service.py:423 | the tail of a sorted distinct-key list is sorted, distinct, and lacks the head's key |
| ReportPreparation.InsertKeys | src/app/services/report_preparation_service.py:423 | insertion adds exactly the item's key to the key set |
| ReportPreparation.SortKeepsDistinct | src/app/services/report_preparation_service.py:423 | sorting keeps dictionary keys distinct |
| ReportPreparation.SortedHeadsEqual | src/app/services/report_preparation_service.py:423 | two key-sorted permutations of a distinct-key list start with the same item |
| ReportPreparation.TailMultiset | src/app/services/report_preparation_service.py:423 | the tail's items are the list's items less its head |
| ReportPreparation.TailSorted | src/app/services/report_preparation_service.py:423 | the tail of a sorted (distinct-key) list is sorted (distinct-key) |
| ReportPreparation.SortedUnique | src/app/services/report_preparation_service.py:423 | two key-sorted permutations of a distinct-key parameter list are equal |
| ReportPreparation.CacheKeyOrderIndependent | src/app/services/report_preparation_service.py:421-424 | the cache key does not depend on the order the keyword parameters were given in |
| ReportPreparation.GlobalKeyApart | src/app/services/report_preparation_service.py:422-424 | the key of a request without a branch ("global") never equals the key of a request for a numbered branch |
| ReportPreparation.DefaultBranch | src/app/services/report_preparation_service.py:287 | a given non-zero default branch is kept; None or 0 falls back to the configured current branch |
| ReportPreparation.TtlSeconds | src/app/services/report_preparation_service.py:289-290 | the ttl is minutes times 60, and 0 for a non-positive setting |
| ReportPreparation.ResolveBranchSpec | src/app/services/report_preparation_service.py:426-448 | the explicit branch wins over the default; with authorised branches configured, a resolved branch that is None or not authorised fails with invalid_branch; otherwise the resolved branch is returned |
| ReportPreparation.ReportPreparationService.constructor | src/app/services/report_preparation_service.py:278-291 | the service keeps the authorised branches, the resolved default branch, the ttl in seconds, the models and the cache strategy it is given |
| ReportPreparation.ReportPreparationService.RunPipeline | src/app/services/report_preparation_service.py:305-419 | the result and the new cache state are those of `Run` on the old cache state |
| ReportPreparation.ReportPreparationService.Serve | src/app/services/report_preparation_service.py:315-419 | the result and the new cache state are those of `Served` on the old cache state |
| ReportPreparation.ReportPreparationService.Refresh | src/app/services/report_preparation_service.py:350-419 | the result is `Fresh`; a successful report is stored under the key exactly when caching is on, and otherwise the cache is unchanged |
| ReportPreparation.ReportPreparationService.Invalidate | src/app/services/report_preparation_service.py:456-465 | the cache afterwards is the old cache with every key under the prefix as written removed |
| ReportPreparation.InvalidationOvermatches | src/app/services/report_preparation_service.py:462-464 | as written, the prefix for a dataset and branch 1 is a prefix of the same dataset's keys for branch 14 |
| ReportPreparation.ScopedWithinInvalidation | src/app/services/report_preparation_service.py:462-464 | every key the corrected prefix matches is matched by the prefix as written, so the source drops at least the intended reports |
| ReportPreparation.DatasetIdsApart | src/app/services/report_preparation_service.py:148-251 | the four dataset ids differ pairwise at a common position |
| ReportPreparation.IdPrefixesApart | src/app/services/report_preparation_service.py:424 | a key for one dataset id never starts with a prefix naming a different id |
| ReportPreparation.BranchTextMatch | src/app/services/report_preparation_service.py:422-424 | a key's branch part followed by ':' starts with a branch number and ':' only when it is that branch |
| ReportPreparation.ScopedPrefixSameId | src/app/services/report_preparation_service.py:422-424 | the corrected prefix for a dataset and a branch matches a key of that dataset exactly when the key is for that branch |
| ReportPreparation.ScopedPrefixOtherId | src/app/services/report_preparation_service.py:424 | the corrected prefix never matches a key of another dataset id |
| ReportPreparation.CacheKeyHead | src/app/services/report_preparation_service.py:424 | every cache key starts with "report:" and its dataset id |
| ReportPreparation.ScopedPrefixHead | src/app/services/report_preparation_service.py:462-464 | the corrected prefix for a dataset starts with "report:" and its id |
| ReportPreparation.DatasetPrefixSameId | src/app/services/report_preparation_service.py:462-464 | the prefix for a whole dataset matches every key of that dataset |
| ReportPreparation.ScopedPrefixExact | src/app/services/report_preparation_service.py:456-465 | the corrected prefix for a pipeline and a branch matches exactly the keys of that pipeline and that branch |
| ReportPreparation.DatasetPrefixExact | src/app/services/report_preparation_service.py:456-465 | the prefix for a pipeline without a branch matches exactly that pipeline's keys |
| ReportPreparation.BranchOnlyMatchesNothing | src/app/services/report_preparation_service.py:462-464 | a branch given without a dataset yields "report::branch:<n>", which no pipeline's key starts with |
| ReportPreparation.SecondCallHits | src/app/services/report_preparation_service.py:315-348 | a second identical request within the ttl returns the first report marked as a cache hit, whatever the repository would now return |
| ReportPreparation.StaleEntryRefreshed | src/app/services/report_preparation_service.py:329-332 | an unexpired entry older than the ttl is invalidated (counted once) and the report is prepared again and stored |
| ReportPreparation.DisabledCacheUntouched | src/app/services/report_preparation_service.py:315 | with a ttl of 0 the cache is neither read nor written and no report is a hit |
| ReportPreparation.StaleOnlyPastTtl | src/app/services/report_preparation_service.py:450-454 | with the cache off every entry is stale; with it on, an entry is stale exactly when its age exceeds the ttl, and an older entry is stale whenever a younger one is |
| DriveNames.SplitExt | src/app/services/drive_service.py:407 | `os.path.splitext`: stem and extension concatenate to the path; a non-empty extension starts at the last dot of the last component, holds no further dot or slash, and follows a non-empty stem |
| DriveNames.EnforceMaxLengthBounds | src/app/services/drive_service.py:526-535 | names of at most 100 characters are unchanged; longer ones are cut to 100 when the extension is shorter than 100; the extension is kept, a non-empty name stays non-empty, and the name never grows |
| DriveNames.EnforceMaxLengthChars | src/app/services/drive_service.py:526-535 | every character of the capped name comes from the name |
| DriveNames.EnforceMaxLengthNoDouble | src/app/services/drive_service.py:526-535 | capping never creates a double underscore |
| DriveNames.ReplaceReserved | src/app/services/drive_service.py:442 | each reserved character (and, for components, each dot) becomes `_`; every other character is kept in place; no reserved character is left |
| DriveNames.SpacesToUnderscore | src/app/services/drive_service.py:443 | no whitespace is left, and every character is `_` or comes from the input |
| DriveNames.SqueezeUnderscores | src/app/services/drive_service.py:445 | no double underscore is left, every character comes from the input, and the first character is kept |
| DriveNames.StripUnderscores | src/app/services/drive_service.py:444 | the result neither starts nor ends with `_` and is no longer than the input |
| DriveNames.StripUnderscoresChars | src/app/services/drive_service.py:444 | every character of the stripped value comes from the value |
| DriveNames.SanitizedClean | src/app/services/drive_service.py:440-446 | the sanitised name before capping is non-empty and has no reserved character, whitespace or double underscore |
| DriveNames.SanitizeFilenameClean | src/app/services/drive_service.py:440-446 | `_sanitize_filename` never returns an empty name, and its result has no reserved character, no whitespace and no double underscore |
| DriveNames.LetterPrefixLength | src/app/services/drive_service.py:481-482 | counts the leading one-letter tokens: all of them are single letters and the next one is not |
| DriveNames.StripSingleLetterComponentPrefix | src/app/services/drive_service.py:476-486 | the loop returns exactly `LetterPrefixStripped` |
| DriveNames.AllLettersStripToEmpty | src/app/services/drive_service.py:483-484 | a value made only of one-letter tokens strips to the empty string |
| DriveNames.FirstTokenKept | src/app/services/drive_service.py:485-486 | when the first token is not a single letter, only the underscores at both ends go (or the value is kept if nothing remains) |
| DriveNames.FirstTokenUnchanged | src/app/services/drive_service.py:476-486 | a value whose first token is not one letter and that has no underscore at either end comes back unchanged |
| DriveNames.StripLeadingGenderPrefix | src/app/services/drive_service.py:449-473 | the loop returns exactly `GenderStripped` |
| DriveNames.GenderStrippedShape | src/app/services/drive_service.py:449-473 | the name never gets longer, and a name whose first token is not a single letter is returned unchanged |
| DriveNames.SanitizeComponent | src/app/services/drive_service.py:489-500 | returns exactly `ComponentSanitized` |
| DriveNames.ComponentSanitizedClean | src/app/services/drive_service.py:489-500 | a sanitised district has no reserved character, whitespace, dot or double underscore, and no underscore at either end |
| DriveNames.Form | src/app/services/drive_service.py:510 | a token's form holds only lower-case ASCII letters and digits |
| DriveNames.Forms | src/app/services/drive_service.py:506-519 | every form collected counts (it is longer than one letter) |
| DriveNames.KeptTokens | src/app/services/drive_service.py:509-520 | never more tokens are kept than there were |
| DriveNames.NonEmpty | src/app/services/drive_service.py:522 | `filter(None, …)` keeps only non-empty tokens |
| DriveNames.RemoveDuplicateTokens | src/app/services/drive_service.py:503-523 | the loop returns exactly `Deduplicated` |
| DriveNames.KeptSnoc | src/app/services/drive_service.py:509-520 | one step of the loop: a token without a form is kept; a single-letter form or a form seen before drops it; a new form is kept and recorded |
| DriveNames.KeptDistinct | src/app/services/drive_service.py:514-519 | the kept tokens never share a counting form, and none has a single-letter form |
| DriveNames.KeptCoversForms | src/app/services/drive_service.py:517-520 | every counting form of the tokens survives among the kept tokens |
| DriveNames.DeduplicatedShape | src/app/services/drive_service.py:522-523 | the extension is kept, and a name whose tokens all vanish comes back unchanged |
| DriveNames.SuffixShape | src/app/services/drive_service.py:572 | up to a thousand tries the suffix is `_` and the 14-digit timestamp (15 characters), followed after the first try by `_` and the counter |
| DriveNames.AttemptFits | src/app/services/drive_service.py:573-576 | when suffix and extension leave room, a try is the trimmed base, the suffix and the extension, at most 100 characters |
| DriveNames.SuffixesApart | src/app/services/drive_service.py:572-575 | two different tries among the first thousand end two equally long names differently |
| DriveNames.CandidatesDiffer | src/app/services/drive_service.py:571-581 | with an extension of at most 79 characters, the first thousand tries are pairwise different names of at most 100 characters |
| DriveNames.GenerateUniqueFilename | src/app/services/drive_service.py:537-581 | the name returned is never among the existing names; a free desired name is returned unchanged; otherwise the result is the first free timestamped try (every earlier try is taken), at most 100 characters |
| DriveNames.CandidatesRepeat | src/app/services/drive_service.py:571-581 | with a one-character base and a 99-character extension every try equals the desired name itself |
| DriveNames.LongNameKeepsOneChar | src/app/services/drive_service.py:534-535 | a stem of two characters or more before a 99-character extension is cut to its first character |
| DriveNames.SeparatorRun | src/app/services/drive_service.py:623 | the length of the leading run of separators (whitespace, `_`, `-`, `:`) |
| DriveNames.LineTail | src/app/services/drive_service.py:623 | what `(.+)$` captures: non-empty, no line break, the whole text or all but a final line break |
| DriveNames.Backtrack | src/app/services/drive_service.py:623 | the capture found when the separator run gives back characters, or none when no split works |
| DriveNames.CleanDistrictCandidate | src/app/services/drive_service.py:613-636 | the loop returns exactly `DistrictCleaned` |
| DriveNames.CleanedSettled | src/app/services/drive_service.py:622-626 | the cleaned value is stripped, has no letter-and-separator prefix left, and is no longer than the input |
| DriveNames.CleanedUnprefixed | src/app/services/drive_service.py:616-626 | a value without a letter-and-separator prefix is only stripped |
| DriveNames.LetterPrefixDropped | src/app/services/drive_service.py:623 | an ASCII letter, a run of separators and the rest: the pattern captures the rest |
| DriveNames.LetterPrefixCleaned | src/app/services/drive_service.py:622-626 | a letter and separators before a value with no such prefix of its own are removed by the cleaning |
| DriveNames.CleanedExample | src/app/services/drive_service.py:614 | "F District 10C" is cleaned to "District 10C" |
| DriveNames.ColumnCandidateSound | src/app/services/drive_service.py:597-609 | a column offers a district only when its key contains "distrito" in lower case and its value is non-blank text, and what it offers is cleaned, non-empty, stripped and holds a digit |
| DriveNames.Offers | src/app/services/drive_service.py:594-609 | one offer per column, in row and column order |
| DriveNames.GuessPrimaryDistrict | src/app/services/drive_service.py:584-610 | the loops return exactly `GuessedDistrict` |
| DriveNames.ScanRow | src/app/services/drive_service.py:597-609 | the scan of one row finds the first offer in it, or hands over to the rows after it |
| DriveNames.RowAdvance | src/app/services/drive_service.py:594-609 | one row of the outer loop: the first candidate among the remaining rows is found in this row or in the next ones |
| DriveNames.FirstCandidateIsFirst | src/app/services/drive_service.py:594-610 | the guess is the district of the first column offering one, and there is none exactly when no column offers one |
| DriveNames.FormatFilename | src/app/services/drive_service.py:398-437 | returns exactly `Formatted` |
| DriveNames.JoinComponents | src/app/services/drive_service.py:410-423 | the date, the district and the base, each without its one-letter prefix, non-empty ones joined by `_` ("archivo" when none), then the extension |
| DriveNames.CombinedNonEmpty | src/app/services/drive_service.py:416-421 | the joined components are never empty |
| DriveNames.FormattedShape | src/app/services/drive_service.py:398-437 | `format_filename` never returns an empty name, nor one longer than 100 characters unless its extension is that long |
| DriveNames.SanitizedWords | src/app/services/drive_service.py:440-446 | `_sanitize_filename` turns the spaces between words into single underscores and changes nothing else |
| DriveNames.ComponentWords | src/app/services/drive_service.py:489-500 | `_sanitize_component` joins the words of a district with underscores |
| DriveNames.DeduplicatedWords | src/app/services/drive_service.py:503-523 | words with distinct forms have nothing to remove |
| DriveNames.GenderKept | src/app/services/drive_service.py:449-473 | a name whose first word is not a single letter has no prefix to drop |
| DriveNames.FormattedWords | src/app/services/drive_service.py:398-437 | for a date, a district of words and a name of words with an extension, all forms distinct and no leading single letters, the result is the words joined by `_` followed by the extension |
| DriveNames.FormatFilenameExample | src/tests/test_drive_service.py:42-46 | `format_filename("20250110", "Distrito Norte", "Reporte Final (v1).pdf")` is "20250110_Distrito_Norte_Reporte_Final_(v1).pdf" |
| EmailHtmlParser.Texts | src/app/services/email_html_parser.py:69 | one stripped text per cell, in order |
| EmailHtmlParser.NonEmpty | src/app/services/email_html_parser.py:70 | exactly the non-empty texts, never more than there were |
| EmailHtmlParser.StripCount | src/app/services/email_html_parser.py:85 | the count of non-blank texts is at most the number of texts and is 0 exactly when all are blank |
| EmailHtmlParser.HeaderIndex | src/app/services/email_html_parser.py:72-79 | the header row is a qualifying row (a `th` cell or more than one non-empty text, and some non-empty text), and no earlier row qualifies; none exactly when no row qualifies |
| EmailHtmlParser.DataRows | src/app/services/email_html_parser.py:84-91 | every data row has at least two non-blank cells |
| EmailHtmlParser.Values | src/app/services/email_html_parser.py:204 | the values of a row dictionary in order |
| EmailHtmlParser.Get | src/app/services/email_html_parser.py:178 | `d.get(key)` is present exactly for the keys of the dictionary |
| EmailHtmlParser.Put | src/app/services/email_html_parser.py:103 | after `d[key] = value` the key maps to the value, every other key is unchanged, and the key set grows by the key |
| EmailHtmlParser.RowOf | src/app/services/email_html_parser.py:103 | the row dictionary's keys are exactly the headers |
| EmailHtmlParser.RowOfLookup | src/app/services/email_html_parser.py:103 | a header maps to the cell under the last column carrying that label |
| EmailHtmlParser.Padded | src/app/services/email_html_parser.py:102 | the row is extended with empty strings to at least the header count, its cells unchanged |
| EmailHtmlParser.NormalizeText | src/app/services/email_html_parser.py:192-197 | the normalised text is ASCII and holds no upper-case letter |
| EmailHtmlParser.FindAnySpec | src/app/services/email_html_parser.py:143-155 | a header matches exactly when one of the fragments occurs in it |
| EmailHtmlParser.Without | src/app/services/email_html_parser.py:188 | `replace(c, "")` leaves no `c` and never lengthens the text |
| EmailHtmlParser.WithoutMembers | src/app/services/email_html_parser.py:188 | removing `c` keeps every other character |
| EmailHtmlParser.LooksNumericSpec | src/app/services/email_html_parser.py:185-189 | a value looks numeric exactly when, commas and spaces removed, it is digits with at most one decimal point and at least one digit |
| EmailHtmlParser.DropPointDigits | src/app/services/email_html_parser.py:189 | removing the first point leaves only digits exactly when the text is digits around that one point with at least one digit |
| EmailHtmlParser.NormalizedRows | src/app/services/email_html_parser.py:97-106 | never more normalised rows than data rows |
| EmailHtmlParser.NormalizedRowsSpec | src/app/services/email_html_parser.py:97-106 | every normalised row is a non-blank data row, padded and keyed by header, that does not echo the headers |
| EmailHtmlParser.ParseTableErrors | src/app/services/email_html_parser.py:93-111 | a table has no result exactly when no row qualifies as the header row, and the error is then headers_missing; a result has headers, and rows_missing is reported exactly when no data row survives |
| EmailHtmlParser.ParseTableSpec | src/app/services/email_html_parser.py:55-111 | the headers are the non-empty texts of the first qualifying row, the extra texts are the non-empty texts above it, and the rows are the normalised data rows below it |
| EmailHtmlParser.ParseTableElement | src/app/services/email_html_parser.py:55-111 | returns exactly `ParseTable` |
| EmailHtmlParser.ScanTable | src/app/services/email_html_parser.py:61-91 | the row-scanning loop returns exactly `Scanned` |
| EmailHtmlParser.ScannedSnoc | src/app/services/email_html_parser.py:64-91 | one more row: below the header row it is a data row when it has two non-blank cells; above, it becomes the header row or adds its non-empty texts to the extras |
| EmailHtmlParser.NormalizeRows | src/app/services/email_html_parser.py:97-106 | the normalisation loop returns exactly `NormalizedRows` |
| EmailHtmlParser.NormalizedHeaders | src/app/services/email_html_parser.py:120 | each header normalised, in order |
| EmailHtmlParser.KeywordMatches | src/app/services/email_html_parser.py:124 | the number of keyword headers is at most the number of headers and is 0 exactly when none matches |
| EmailHtmlParser.Filter | src/app/services/email_html_parser.py:162-166 | the filtered list holds exactly the elements kept |
| EmailHtmlParser.RowNumericCells | src/app/services/email_html_parser.py:177-180 | a row contributes at most one numeric cell per numeric header |
| EmailHtmlParser.NumericCellsBound | src/app/services/email_html_parser.py:175-180 | there are never more numeric cells than rows times numeric headers |
| EmailHtmlParser.NumericSignalBounds | src/app/services/email_html_parser.py:158-182 | the denominator counts one cell per numeric header and row, and the numerator never exceeds it, so the ratio lies between 0 and 1 |
| EmailHtmlParser.NumericSignal | src/app/services/email_html_parser.py:158-182 | returns exactly the numerator and denominator of `NumericSignalOf` |
| EmailHtmlParser.CountNumericCells | src/app/services/email_html_parser.py:175-180 | the outer loop counts exactly `NumericCells` |
| EmailHtmlParser.FilterList | src/app/services/email_html_parser.py:162-166 | the loop returns exactly `Filter` |
| EmailHtmlParser.CountRowNumericCells | src/app/services/email_html_parser.py:177-180 | the inner loop counts exactly `RowNumericCells` |
| EmailHtmlParser.ScoreBounds | src/app/services/email_html_parser.py:114-140 | the score is ten per keyword header plus the row count capped at 50, within the bonuses (+5 numeric, +3 "generacion") and less 5 with fewer than two keyword headers |
| EmailHtmlParser.KeywordTableWins | src/app/services/email_html_parser.py:132-138 | a table with at least two keyword headers beats one with none unless the second has at least twenty more rows (counted up to 50) |
| EmailHtmlParser.NoKeywordScore | src/app/services/email_html_parser.py:132-138 | without a keyword header the score is at most the capped row count |
| EmailHtmlParser.Candidates | src/app/services/email_html_parser.py:36-37 | one parse result per table, in order |
| EmailHtmlParser.Scores | src/app/services/email_html_parser.py:42 | one score per candidate that parsed |
| EmailHtmlParser.BestIndex | src/app/services/email_html_parser.py:43-44 | the best is none exactly when no candidate parsed; otherwise a parsed candidate scoring at least every other and strictly more than every earlier one |
| EmailHtmlParser.Fallback | src/app/services/email_html_parser.py:38-40 | every fallback error comes from a candidate without a table |
| EmailHtmlParser.FallbackUniform | src/app/services/email_html_parser.py:38-51 | when every failing candidate reports the same single error, the fallback holds only it, and is empty exactly when every candidate parsed |
| EmailHtmlParser.FallbackOfTables | src/app/services/email_html_parser.py:38-51 | the fallback errors are all headers_missing, and there are none exactly when every table parsed |
| EmailHtmlParser.InsertDistinct | src/app/services/email_html_parser.py:51 | inserting keeps exactly the old elements and the new one |
| EmailHtmlParser.SortedDistinct | src/app/services/email_html_parser.py:51 | `sorted(set(xs))` holds exactly the elements of the list |
| EmailHtmlParser.SortedDistinctSorted | src/app/services/email_html_parser.py:51 | `sorted(set(xs))` is strictly ascending |
| EmailHtmlParser.SortedDistinctConstant | src/app/services/email_html_parser.py:51 | sorting the distinct values of a non-empty list of one value gives that value alone |
| EmailHtmlParser.PrimaryTableMissing | src/app/services/email_html_parser.py:22-31 | blank HTML reports html_missing, and no tables reports table_missing, before any table is looked at |
| EmailHtmlParser.PrimaryTableIsBest | src/app/services/email_html_parser.py:33-48 | when some table parses, the table returned is a parsed candidate scoring at least as high as every parsed candidate and strictly higher than every earlier one |
| EmailHtmlParser.ChooseIsBest | src/app/services/email_html_parser.py:43-48 | with some candidate parsed, the choice is the candidate `BestIndex` names |
| EmailHtmlParser.BestCandidate | src/app/services/email_html_parser.py:43-44 | the candidate `BestIndex` picks parsed, and its score is maximal and strictly above every earlier parsed score |
| EmailHtmlParser.NoHeaderRowAnywhere | src/app/services/email_html_parser.py:50-52 | when no table has a header row the only error is headers_missing; table_candidate_missing cannot occur with at least one table |
| EmailHtmlParser.ExtractPrimaryTable | src/app/services/email_html_parser.py:13-52 | returns exactly `PrimaryTable` |
| EmailContent.AliasesAreMonths | src/app/services/email_content_utils.py:9-25 | every alias maps to a two-digit month number 01..12 |
| EmailContent.Lookup | src/app/services/email_content_utils.py:42 | `_MONTH_ALIASES.get(key)`: a result comes from an entry with that key, and none means no entry has it |
| EmailContent.NormalizeMonthName | src/app/services/email_content_utils.py:37-42 | a recognised month name yields a month number 01..12 |
| EmailContent.MonthIn | src/app/services/email_content_utils.py:37-42 | a month found is the number of some alias |
| EmailContent.MonthInLookup | src/app/services/email_content_utils.py:40-42 | the month is the alias lookup of the accent-folded, lower-cased and stripped name |
| EmailContent.FoldLower | src/app/services/email_content_utils.py:40-41 | folding accents and lower-casing commute |
| EmailContent.MonthIgnoresCase | src/app/services/email_content_utils.py:41 | names equal up to case resolve to the same month |
| EmailContent.Run | src/app/services/email_content_utils.py:28 | the longest run of characters of a class from a position: all in the class, and the next one is not |
| EmailContent.RunExact | src/app/services/email_content_utils.py:28 | a run that ends where the class ends is the longest |
| EmailContent.Step | src/app/services/email_content_utils.py:28 | where the scanner ends a literal or repetition is a place it may end |
| EmailContent.WordEnd | src/app/services/email_content_utils.py:32 | where the optional `de\s+` ends is a place it may end, past its start |
| EmailContent.ScanSound | src/app/services/email_content_utils.py:27-34 | whatever the scanner finds is a match of the pattern's tokens |
| EmailContent.ScanComplete | src/app/services/email_content_utils.py:27-34 | whenever the tokens match from a position, the scanner finds that match |
| EmailContent.ScanIff | src/app/services/email_content_utils.py:27-34 | the scanner returns a match exactly when the tokens match there that way |
| EmailContent.PatternSeparated | src/app/services/email_content_utils.py:27-34 | both patterns are separated: each token's class excludes the first character of the next, so a match is unique |
| EmailContent.MatchAtComplete | src/app/services/email_content_utils.py:52 | wherever the pattern matches, the match at that position has that match's groups |
| EmailContent.SearchIsLeftmost | src/app/services/email_content_utils.py:52 | `pattern.search` returns the match at the leftmost position where the pattern matches, and none when it matches nowhere |
| EmailContent.ZeroFill2 | src/app/services/email_content_utils.py:56 | `zfill(2)` of a one- or two-digit day is two characters ending with its last digit and starting with '0' for one digit |
| EmailContent.Formatted | src/app/services/email_content_utils.py:64 | the date is eight digits with the month in positions 4-5 |
| EmailContent.ParseOne | src/app/services/email_content_utils.py:51-65 | a date found by one pattern is eight digits with a valid month in the middle |
| EmailContent.UnknownFirstMonth | src/app/services/email_content_utils.py:52-62 | only the leftmost match is read: when its month is unknown the pattern yields nothing, whatever later matches exist |
| EmailContent.ParsedWithConcat | src/app/services/email_content_utils.py:51-67 | patterns are tried in order; a later one is consulted only when the earlier ones yield nothing |
| EmailContent.ParsedWithOne | src/app/services/email_content_utils.py:51-67 | with one pattern the result is that pattern's |
| EmailContent.EmptyHasNoDate | src/app/services/email_content_utils.py:51-67 | no pattern finds a date in an empty text |
| EmailContent.FirstPatternWins | src/app/services/email_content_utils.py:51-65 | a date the first pattern finds is the result |
| EmailContent.ParseWithPatterns | src/app/services/email_content_utils.py:45-67 | the loop returns exactly `ParsedWith` |
| EmailContent.TableSources | src/app/services/email_content_utils.py:99-102 | one table source per text, each with both patterns |
| EmailContent.NonEmptySnoc | src/app/services/email_content_utils.py:100-102 | the non-empty texts of a longer list are those of the shorter one, then the new text if non-empty |
| EmailContent.FirstFechaFirst | src/app/services/email_content_utils.py:106-128 | the date is that of the first source yielding one, every earlier source yields none, and there is none exactly when no source yields one |
| EmailContent.FirstFechaConcat | src/app/services/email_content_utils.py:106-117 | an earlier source with a date decides the result; otherwise the later sources do |
| EmailContent.BodyWins | src/app/services/email_content_utils.py:95-96 | a date in the body wins over the HTML, the tables and the subject |
| EmailContent.SubjectLast | src/app/services/email_content_utils.py:103-104 | the subject is searched, with the generic pattern alone, only when no other source yields a date |
| EmailContent.AppendTableSources | src/app/services/email_content_utils.py:99-102 | appends one table source per non-empty text, in order |
| EmailContent.CollectSources | src/app/services/email_content_utils.py:93-104 | builds exactly the source list `Sources` |
| EmailContent.ExtractFechaGeneracion | src/app/services/email_content_utils.py:70-128 | returns exactly `Extracted` |
| EmailContent.RowTextsMembers | src/app/services/email_content_utils.py:142-144 | a text comes from the rows exactly when it is a non-empty value of one of them |
| EmailContent.TableTextsMembers | src/app/services/email_content_utils.py:131-149 | the collected texts are exactly the non-empty headers, row values and extra texts |
| EmailContent.CollectTableTexts | src/app/services/email_content_utils.py:131-149 | the loops return exactly `TableTexts` |
| EmailContent.EneroIsJanuary | src/app/services/email_content_utils.py:10 | "enero" names month 01 |
| EmailContent.WholeTextDate | src/app/services/email_content_utils.py:52-65 | a first match spanning the text and naming a known month gives the text's date |
| EmailContent.GeneracionExample | src/tests/test_email_service.py:74 | "Generación del 15 de enero de 2025" in the body gives 20250115 |
| TelegramClient.NewClient | src/app/services/telegram_client.py:41-63 | construction fails exactly when the client is enabled and the bot token or the chat id is empty; otherwise the client keeps all three settings |
| TelegramClient.SafeJson | src/app/services/telegram_client.py:284-291 | the body is returned exactly when it decodes to a JSON object |
| TelegramClient.ExtractMessageId | src/app/services/telegram_client.py:272-281 | an id is returned only from an object under "result", and whenever that object carries an integer (or boolean) "message_id" |
| TelegramClient.ShouldRetry | src/app/services/telegram_client.py:294-297 | a missing or null API code is retried; an integer code is retried exactly when it is 429, 500, 502, 503 or 504; a text or boolean code is not (an array or object code, where the source raises, is also answered "no retry") |
| TelegramClient.Failed | src/app/services/telegram_client.py:102-112 | a failed send delivers nothing: not a success, no records sent, no message id, with its error code, status and retry flag |
| TelegramClient.SendMessage | src/app/services/telegram_client.py:77-261 | a send succeeds exactly when the client is enabled, the status is 200, the body is a non-empty JSON object and its "ok" is truthy; then one record is sent, no retry is asked, and the message id is extracted; a failure sends none and carries an error code |
| TelegramClient.DisabledClient | src/app/services/telegram_client.py:95-112 | a disabled client reports telegram_disabled with status 0, no raw response and no retry, whatever the transport would do |
| TelegramClient.TransportFailures | src/app/services/telegram_client.py:129-170 | a timeout is telegram_timeout and any other HTTP error telegram_http_error, both retried |
| TelegramClient.UnexpectedStatus | src/app/services/telegram_client.py:174-193 | a status other than 200 is telegram_unexpected_status, retried exactly for status 500 or above, keeping the body when it is an object |
| TelegramClient.EmptyBody | src/app/services/telegram_client.py:195-215 | a 200 whose body is not a non-empty JSON object is telegram_empty_body, retried, with no raw response |
| TelegramClient.ApiError | src/app/services/telegram_client.py:239-261 | a 200 object whose "ok" is not truthy is telegram_api_error with Telegram's description (or the fixed fallback), the retry decision of `_should_retry` on its "error_code", and the object as raw response |
| TelegramClient.ApiCodeRetry | src/app/services/telegram_client.py:294-297 | an API error with an integer code is retried exactly for rate limiting and server errors |
| TelegramNotification.ClampAttempts | src/app/services/telegram_notification_service.py:67 | the attempt count is at least 1 and at least the setting, and equals a setting of 1 or more |
| TelegramNotification.AttemptsSpec | src/app/services/telegram_notification_service.py:302-309 | from a given attempt, the calls stop at the first final reply or at the maximum, and the result is the last reply |
| TelegramNotification.RetriedSpec | src/app/services/telegram_notification_service.py:298-312 | the client is called at least once and at most max(1, max_attempts) times; every call before the last asked for a retry; the result is the last reply, which is final unless the attempts ran out |
| TelegramNotification.SendWithRetries | src/app/services/telegram_notification_service.py:298-312 | the loop returns exactly the result and call count of `Retried` |
| TelegramNotification.DatasetReport | src/app/services/telegram_notification_service.py:171-296 | a disabled client gives telegram_disabled and sends nothing; a failed fetch gives its error code and sends nothing; otherwise the empty report or the formatted text is sent with retries, and the result carries the send's success, the report's message id and record count |
| TelegramNotification.DisabledIgnoresFetch | src/app/services/telegram_notification_service.py:181-206 | a disabled client never reaches the fetcher: the result is the same whatever the fetch would give |
| TelegramNotification.Rama | src/app/services/telegram_notification_service.py:329 | the branch shown is the given branch, else the default branch, else "N/A" (0 counts as not given) |
| TelegramNotification.EmptyReport | src/app/services/telegram_notification_service.py:314-317 | the empty report starts with the dataset's header and ends with the footer |
| TelegramNotification.AlertEmoji | src/app/services/telegram_notification_service.py:403-408 | the emoji is one of the four icons, and the info icon for any level other than warning, error or success in any letter case |
| TelegramNotification.FormatAlert | src/app/services/telegram_notification_service.py:402-411 | an alert starts with the emoji of its level |
| TelegramNotification.AlertLevels | src/app/services/telegram_notification_service.py:403-409 | a "warning" alert in any letter case starts with the warning sign; an unknown level with the info icon |
| TelegramNotification.Band | src/app/services/telegram_notification_service.py:414-423 | one of five bands |
| TelegramNotification.DescriptorDays | src/app/services/telegram_notification_service.py:423 | past 30 days the descriptor is "En N días" and N reads back as the day difference |
| TelegramNotification.DescriptorDeterminesBand | src/app/services/telegram_notification_service.py:414-423 | equal descriptors come from the same band, and past 30 days from the same day difference |
| TelegramNotification.PeopleCountSpec | src/app/services/telegram_notification_service.py:426-428 | the plural is used exactly when the count is not 1, and the count reads back from the text |
| TelegramNotification.DateOf | src/app/services/telegram_notification_service.py:433-437 | a date read from a field is a valid calendar date |
| TelegramNotification.BlankPaddedDayIsNoDate | src/app/services/telegram_notification_service.py:434-435 | a blank-padded day such as "2025-01- 5", which `%Y-%m-%d` reads but `date.fromisoformat` rejects, is not read as a date |
| TelegramNotification.ArrivalKeyOfDate | src/app/services/telegram_notification_service.py:433-440 | a date value and its ISO text give the same grouping key |
| TelegramNotification.SortIntsPerm | src/app/services/telegram_notification_service.py:442 | `sorted` keeps exactly the keys |
| TelegramNotification.SortIntsAscending | src/app/services/telegram_notification_service.py:442 | `sorted` on distinct keys orders them strictly |
| TelegramNotification.MembersAppend | src/app/services/telegram_notification_service.py:441 | `setdefault(...).append` keeps input order within a group |
| TelegramNotification.KeyOrderSpec | src/app/services/telegram_notification_service.py:431-441 | the dictionary's keys are distinct and are exactly the keys some record has |
| TelegramNotification.MembersComplete | src/app/services/telegram_notification_service.py:441 | every record with a key is in that key's list |
| TelegramNotification.GroupedSpec | src/app/services/telegram_notification_service.py:430-442 | groups come by strictly ascending date, each non-empty and holding exactly the records of its date in input order; records without a date are dropped and every other record is in its date's group |
| TelegramNotification.GroupedEntries | src/app/services/telegram_notification_service.py:442 | the listed groups are the sorted keys, each with its records |
| TelegramNotification.GroupedComplete | src/app/services/telegram_notification_service.py:430-442 | a record with a date is listed in the group of that date |
| TelegramNotification.GroupArrivals | src/app/services/telegram_notification_service.py:430-442 | the loop returns exactly `Grouped` by arrival date |
| TelegramNotification.MonthName | src/app/services/telegram_notification_service.py:447-460 | months 1 to 12 get their Spanish names in capitals |
| TelegramNotification.BirthdayKeys | src/app/services/telegram_notification_service.py:463-471 | a record has both a month and a day key, taken from its birthday, or neither |
| TelegramNotification.FillBirthdays | src/app/services/telegram_notification_service.py:461-472 | the filling loop returns exactly the nested dictionary `NestedOf` |
| TelegramNotification.GroupBirthdays | src/app/services/telegram_notification_service.py:444-479 | returns exactly `BirthdayGroups` |
| TelegramNotification.BirthdayCount | src/app/services/telegram_notification_service.py:474-478 | one entry per month filled |
| TelegramNotification.BirthdayGroupsSpec | src/app/services/telegram_notification_service.py:474-479 | birthdays come by strictly ascending month under its Spanish name, each month with the day groups of the records born in it |
| TelegramNotification.BirthdayMonthSpec | src/app/services/telegram_notification_service.py:476-477 | inside a month the days ascend strictly, and every record under a day was born on that month and day |
| TelegramNotification.HeadersDistinct | src/app/services/telegram_notification_service.py:319-325 | the arrivals, the birthdays and any other dataset get three different headers, each ending in a line break |
| Config.ValidateLogLevel | src/app/config.py:69-75 | an accepted level is one of DEBUG, INFO, WARNING, ERROR, CRITICAL and is the upper-cased input; a rejected input upper-cases to none of them |
| Config.ValidateAppEnv | src/app/config.py:77-83 | an accepted environment is development, staging or production and is the lower-cased input; a rejected input lower-cases to none of them |
| Config.LogLevelAnyCase | src/app/config.py:72-75 | any spelling of a valid level that upper-cases to it is accepted as that level |
| Config.AppEnvAnyCase | src/app/config.py:80-83 | any spelling of a valid environment that lower-cases to it is accepted as that environment |
| Config.LogLevelIdempotent | src/app/config.py:69-75 | validating an accepted level again gives the same level |
| Config.AppEnvIdempotent | src/app/config.py:77-83 | validating an accepted environment again gives the same environment |
| Config.DefaultsValid | src/app/config.py:38-39 | the defaults "INFO" and "development" pass their own validators |
| Config.Examples | src/app/config.py:69-83 | "warning" is accepted as "WARNING"; "Prod" is rejected |
| Models.CleanBody | src/app/models.py:43-48 | a body of at most 50000 characters is kept; a longer one becomes its first 50000 characters followed by the truncation mark |
| Models.CleanBodyBounded | src/app/models.py:43-48 | a cleaned body never exceeds 50000 characters plus the mark |
| Models.CleanBodyIdempotent | src/app/models.py:43-48 | cleaning a cleaned body changes nothing |
| Models.ValidateRecordCount | src/app/models.py:92-96 | a record count is accepted exactly when it is not negative, and is kept unchanged |
| Models.StatusValuesDistinct | src/app/models.py:12-17 | two statuses have the same value exactly when they are the same status |
| Models.NewEmailMessage | src/app/models.py:31-48 | a new message is unread, with no attachments, no labels, no thread id, and its body cleaned |
| Models.NewReportMetadata | src/app/models.py:80-96 | metadata is created exactly for a non-negative record count, with the defaults: no branch, no duration, not a cache hit, no parameters |
| Models.LongBodyExample | src/app/models.py:46-47 | a 60000-character body is cut to 50014 characters |
| Validators.CollapseShape | src/app/services/validators.py:15 | `re.sub(r"\s+", " ", …)` leaves no two whitespace characters in a row and only plain spaces |
| Validators.CollapseSingleSpaced | src/app/services/validators.py:15 | a single-spaced text is left as it is |
| Validators.NormalizeShape | src/app/services/validators.py:14-15 | a normalised text is stripped, single-spaced and lower-case |
| Validators.NormalizedFixed | src/app/services/validators.py:14-15 | a normalised text normalises to itself |
| Validators.NormalizeIdempotent | src/app/services/validators.py:14-15 | normalising twice is normalising once |
| Validators.ValidateEmailStructure | src/app/services/validators.py:18-60 | the email is valid exactly when there is no error; subject_pattern_mismatch exactly when the normalised subject is empty or lacks the normalised pattern; fecha_generacion_missing exactly when the date is absent or empty; attachments_missing exactly when there are none; pdf_attachment_missing exactly when there are some and none is a PDF by type or name; errors come in that order |
| Validators.AttachmentErrorsExclusive | src/app/services/validators.py:49-58 | attachments_missing and pdf_attachment_missing never occur together |
| Validators.TextAttachmentNotPdf | src/app/services/validators.py:52-56 | a text/plain attachment named "info.txt" is not a PDF |
| Validators.MissingPartsExample | src/app/services/validators.py:38-60 | a mismatched subject, no date and one non-PDF attachment give exactly the three errors in order |
| LoggingUtils.Defaults | src/app/logging_utils.py:10-20 | the default context holds exactly the nine mandatory fields, all None |
| LoggingUtils.EnsureLogContext | src/app/logging_utils.py:23-52 | the context holds every mandatory field and exactly the keys of the defaults, the base and the overrides |
| LoggingUtils.EnsurePrecedence | src/app/logging_utils.py:41-50 | an override wins over the etapa argument, which wins over the base, which wins over the None default |
| LoggingUtils.EtapaKeptFromBase | src/app/logging_utils.py:43-47 | without an etapa argument or override the base's etapa is kept |
| LoggingUtils.SetFields | src/app/logging_utils.py:79 | exactly the fields whose value is not None are kept, with their values |
| LoggingUtils.BindSpec | src/app/logging_utils.py:55-84 | a field set in the extras is bound with that value; otherwise a field set in the context is; any other field keeps the logger's binding |
| LoggingUtils.BindNothing | src/app/logging_utils.py:81-82 | with nothing set in the context or the extras the logger comes back unchanged |
| LoggingUtils.BindEtapaOnly | src/app/logging_utils.py:23-84 | binding a context built from an etapa alone binds only etapa |
| Gmail.HeaderValueFirst | src/app/services/gmail_oauth_service.py:476-481 | the value of the first header whose name matches case-insensitively, or "" when none does |
| Gmail.AllPartsCount | src/app/services/gmail_oauth_service.py:525-535 | the list of all parts has one entry per part below the payload |
| Gmail.FlattenCount | src/app/services/gmail_oauth_service.py:529-533 | flattening a list of parts lists every part and its descendants once |
| Gmail.AllPartsMembers | src/app/services/gmail_oauth_service.py:525-535 | a part is listed exactly when it lies below the payload |
| Gmail.FlattenMembers | src/app/services/gmail_oauth_service.py:529-533 | a part is in the flattened list exactly when it lies below one of the parts |
| Gmail.ThreePartsExample | src/app/services/gmail_oauth_service.py:529-533 | two parts, the second with one child, are listed in depth-first order: first, second, child |
| Gmail.HtmlBodies | src/app/services/gmail_oauth_service.py:518-521 | one HTML body per child part |
| Gmail.JoinBlank | src/app/services/gmail_oauth_service.py:523 | a newline-joined text is blank exactly when every piece is |
| Gmail.HtmlBodyEmpty | src/app/services/gmail_oauth_service.py:507-523 | the HTML body is empty exactly when every HTML fragment in the tree is blank |
| Gmail.HtmlBodiesEmpty | src/app/services/gmail_oauth_service.py:518-521 | the children's HTML bodies are all blank exactly when all their fragments are |
| Gmail.MessageBody | src/app/services/gmail_oauth_service.py:483-505 | the loop returns exactly `BodyText` |
| Gmail.PlainOnly | src/app/services/gmail_oauth_service.py:494-498 | without HTML parts the collected body is the plain parts' text concatenated |
| Gmail.HtmlFallback | src/app/services/gmail_oauth_service.py:499-503 | without plain parts the collected body is the first HTML part carrying data |
| Gmail.PrefersPlainText | src/app/services/gmail_oauth_service.py:492-505 | a plain part with text before an HTML part gives the plain text, stripped |
| Gmail.SuccessIff | src/app/services/gmail_oauth_service.py:346-361 | a message succeeds exactly when it has no validation error, no parse error and no table-structure error |
| Gmail.MissingFechaSkipsDrive | src/app/services/gmail_oauth_service.py:370-375 | with attachments and no generation date, no upload is attempted, drive_missing_fecha_generacion is reported and the message fails |
| Gmail.UploadOnlyWithFecha | src/app/services/gmail_oauth_service.py:370-389 | an upload is attempted exactly when Drive is configured, there are attachments and a generation date, and it uses that date |
| Gmail.ProcessIncomingEmails | src/app/services/gmail_oauth_service.py:147-286 | returns exactly `Summary` |
| Gmail.TallyCounts | src/app/services/gmail_oauth_service.py:217-252 | after a listing the run succeeds, successes plus failures and exceptions number the messages, and each message has its detail, in order, whose success is true exactly when it was handled successfully |
| Gmail.EmptyListing | src/app/services/gmail_oauth_service.py:193-203 | no new messages gives a success with nothing processed, no errors and no details |
| Gmail.RunFailure | src/app/services/gmail_oauth_service.py:156-191 | a failed authentication or listing gives a failure with one error and nothing processed |

## Left out

- DatabaseSync.Persist: a batch fails only when one of its ids is already stored or appears twice. Other `SQLAlchemyError`s are not modelled, for example a lost connection or a failure while reading the stored ids (src/app/services/database_sync_service.py:632-655). Where they matter, the `db_insert_failed` path is the same.
- SyncRecords.Cell: the only float cell is NaN. A fractional Excel serial, and any other float, is not modelled. Serial dates are whole days.
- Text.Lower, Text.Upper, Text.Title: casing covers ASCII and the Latin-1 letters only. Python's full Unicode mappings (for example `"ß".title() == "Ss"`, or `"ÿ".upper()` leaving Latin-1) are not modelled.
- Text.AsciiFold: characters outside Latin-1 are dropped, where NFKD would map many of them to ASCII (for example "ā" to "a", "ﬁ" to "fi"). Text.FoldChar is the same.
- Text.IsAlpha: letters of ASCII and Latin-1 only, where `str.isalpha` accepts every Unicode letter. A one-letter token such as "Ω" is therefore not a letter in the model, so DriveNames.StripLeadingGenderPrefix and DriveNames.StripSingleLetterComponentPrefix (src/app/services/drive_service.py:461 and :481) keep a prefix "Ω_" that the source drops. DriveNames.RemoveDuplicateTokens is exact, because it tests only ASCII text.
- Text.IsDigit: ASCII digits only, where Python's `\d` and `str.isdigit` accept every Unicode digit. This carries over to EmailHtmlParser.LooksNumeric, to the date patterns of EmailContent, and to Text.ParseInt.
- Dates.Strptime: `%b` is matched in the C locale (English three-letter month names), digits are ASCII, and only the directives of the sync's date formats are modelled.
- TelegramNotification.DateOf: a text is read as a date only in the ten-character `YYYY-MM-DD` form with digits around the two dashes (a blank-padded day is rejected, see BlankPaddedDayIsNoDate); any other text counts as "no date", so the record is skipped, where `date.fromisoformat` raises instead (src/app/services/telegram_notification_service.py:435 and :465). The other ISO 8601 forms that `date.fromisoformat` accepts from Python 3.11 on (such as `20250105`) are also read as no date.
- EmailHtmlParser.PrimaryTable: HTML parsing is not modelled. `tables` stands for what BeautifulSoup's `find_all("table")` returns, and is not tied to the text `html`. A table arrives as its rows of stripped cell texts.
- Cache.Lookup: every stored key counts as a hit, while the source counts a hit only when the stored value is not None (src/app/services/cache_strategies.py:83-84). The model never stores None.
- DriveNames.GenerateUniqueFilename:
  - It requires an extension of at most 79 characters. With a longer one every candidate can be cut back to the taken name, and the source then never returns (see Findings).
  - It also requires at most 1000 existing names, because the source reads one listing page of `pageSize=1000` (src/app/services/drive_service.py:547).
- ReportPreparation.Transformed: pydantic's per-field coercion of each dataset model is a parameter `models`. It returns a row's JSON dump, or nothing when the model rejects the row. The field types of the four models are not modelled.
- DatabaseSync.ParsedWorkbook: openpyxl decoding is not modelled. A workbook arrives as unreadable (with its message), without a sheet, or as the rows of its first sheet.
- DatabaseSync.World: the Drive listing, each download, and the database's error text are parameters. The `updated_at` stamp of the state file is one value per run.
- SyncState.StateFile: the JSON file is a value, valid or corrupt. File-system errors other than a corrupt document are not modelled.
- TelegramClient.Json: only integer numbers. A float such as `500.0` in an error code is not modelled.
- TelegramClient.ShouldRetry: an `error_code` that is a JSON array or object is unhashable, so `api_error_code in {...}` raises TypeError (src/app/services/telegram_client.py:297), outside any handler in `send_message`. The model answers "no retry" instead of raising.
- TelegramClient.SendMessage: the HTTP exchange is a parameter: a timeout, another transport failure, or a status and a body.
- TelegramNotification: the backoff sleeps, the durations and the message ids made from the clock are left out. The footer timestamp is a parameter. The text of the dataset messages (`_format_upcoming_arrivals` and `_format_upcoming_birthdays`, src/app/services/telegram_notification_service.py:332-400) is a parameter `formatted` of TelegramNotification.DatasetReport; only their pieces (headers, grouping, day descriptors, people counts) are modelled.
- Gmail.MessageBody: base64 decoding is not modelled, and a part's data is its decoded text. A part missing its `mimeType` or `body` keys, which raises `KeyError` in the source, is not modelled.
- Gmail.Summary:
  - Fetching and processing a message is one outcome per message: success, failure, or an exception.
  - The general `except` of `process_incoming_emails` is modelled only as a failed login or a failed listing.
  - `validate_table_structure` is called but not defined in validators.py; its errors are a parameter of `ProcessMessage`.
- LoggingUtils.BindLogContext: a logger is the map of what it has bound. structlog's logger objects and their output are not modelled.
- The clocks, the uuid-based message ids and every `duration_seconds` are parameters or left out. The cache's `time.time()` is the parameter `now`.
- The thread lock of the in-memory cache and the async/await of the mail services are left out.
- Left out, because they are network or library code:
  - `RedisCacheStrategy` and `create_cache_strategy` (src/app/services/cache_strategies.py:138-231);
  - the Drive, Gmail, IMAP and OAuth transport;
  - `email_service.py`, the SQL views of the report repository, and `main.py`.
- Left out, because they are not part of this model:
  - `GmailOAuthService.close`, which resets the service's credentials;
  - `DriveService.set_oauth_credentials`.

## Findings

| source | as written | input that shows it | evidently intended | confidence | as-written member | corrected member |
|---|---|---|---|---|---|---|
| src/app/services/report_preparation_service.py:456-465 | `invalidate(dataset_id, branch_id)` drops every key starting with `report:<id>:branch:<n>` | `invalidate("branch_summary", 1)` also drops the cached entries of branch 14 (and 10-19, 100-199, …), since `report:<id>:branch:14:…` starts with `report:<id>:branch:1` | drop only the keys of that branch: prefix `report:<id>:branch:<n>:` | high (not executed) | ReportPreparation.InvalidationOvermatches | ReportPreparation.ScopedPrefixExact |
| src/app/services/drive_service.py:570-581 | `_generate_unique_filename` loops until a candidate is free, and `_enforce_max_length` cuts each candidate back to 100 characters | a taken name with a one-character base and a 99-character extension: every candidate is cut back to the taken name, so `while True` never ends | a loop that always ends with a name not yet in the folder; the corrected method does, for every extension of at most 79 characters | high (not executed) | DriveNames.CandidatesRepeat | DriveNames.GenerateUniqueFilename |
