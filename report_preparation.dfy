/** The dataset pipelines of the report preparation service: each loads
    rows from the report repository, checks them (required fields, unique
    keys, a range per dataset, emptiness), passes each through the
    dataset's row model and returns them with their count. */
module ReportPreparation {
  import opened Text
  import opened Seqs
  import Cache

  /** A cell of a row as the repository returns it: absent or None, text,
      an integer, or a date (its day number). */
  datatype Value = Null | Str(s: string) | Num(n: int) | Day(ordinal: int)

  type Row = map<string, Value>

  /** `row.get(field)` */
  function Field(row: Row, name: string): Value
  {
    if name in row then row[name] else Null
  }

  /** The failures of a preparation. All but `PreparationFailure` are a
      `DatasetValidationError` with that `error_code`; `PreparationFailure`
      is a `ReportPreparationError`, which the service raises for a
      repository error and for any other exception (such as comparing a
      text or a date with a number in a range check). */
  datatype Error =
    | MissingRequiredFields(index: nat)
    | DuplicateRecords
    | InvalidTotalMissionaries(index: nat)
    | InvalidKpiValue(index: nat)
    | InvalidMissionariesCount(index: nat)
    | DatasetMissingRows
    | InvalidBranch
    | PreparationFailure

  datatype Outcome<T> = Success(value: T) | Failure(error: Error)

  /** The four dataset pipelines. */
  datatype Pipeline = BranchSummary | DistrictKpi | UpcomingArrivals | UpcomingBirthdays

  function DatasetId(p: Pipeline): string
  {
    match p
    case BranchSummary => "branch_summary"
    case DistrictKpi => "district_kpi"
    case UpcomingArrivals => "upcoming_arrivals"
    case UpcomingBirthdays => "upcoming_birthdays"
  }

  function RequiredFields(p: Pipeline): seq<string>
  {
    match p
    case BranchSummary => ["branch_id", "district", "total_missionaries"]
    case DistrictKpi => ["branch_id", "district", "metric", "value"]
    case UpcomingArrivals => ["district", "arrival_date", "missionaries_count"]
    case UpcomingBirthdays => ["missionary_name", "birthday"]
  }

  function UniqueFields(p: Pipeline): seq<string>
  {
    match p
    case BranchSummary => ["branch_id", "district"]
    case DistrictKpi => ["branch_id", "district", "metric"]
    case UpcomingArrivals => ["district", "arrival_date"]
    case UpcomingBirthdays => ["missionary_id", "missionary_name", "birthday"]
  }

  /** `allow_empty` */
  predicate AllowEmpty(p: Pipeline)
  {
    p == UpcomingArrivals || p == UpcomingBirthdays
  }

  /** The range check a pipeline adds to the base validation: the field,
      its bounds, and none for birthdays. */
  datatype Bounds = Bounds(field: string, lo: int, hi: int)

  function RangeOf(p: Pipeline): Option<Bounds>
  {
    match p
    case BranchSummary => Some(Bounds("total_missionaries", 0, 500))
    case DistrictKpi => Some(Bounds("value", 0, 500))
    case UpcomingArrivals => Some(Bounds("missionaries_count", 0, 200))
    case UpcomingBirthdays => None
  }

  /** The error a pipeline raises for an out-of-range value in row `index`. */
  function OutOfRange(p: Pipeline, index: nat): Error
  {
    match p
    case BranchSummary => InvalidTotalMissionaries(index)
    case DistrictKpi => InvalidKpiValue(index)
    case UpcomingArrivals => InvalidMissionariesCount(index)
    case UpcomingBirthdays => PreparationFailure
  }

  // ---------------------------------------------------------------------
  // Base validation

  /** A required value is missing when it is None or blank text. */
  predicate IsMissing(v: Value)
  {
    v.Null? || (v.Str? && IsBlank(v.s))
  }

  predicate HasMissing(row: Row, required: seq<string>)
  {
    exists i :: 0 <= i < |required| && IsMissing(Field(row, required[i]))
  }

  /** A key component: text is stripped, and blank text counts as None. */
  function KeyPart(v: Value): (r: Value)
    ensures r.Null? <==> v.Null? || (v.Str? && IsBlank(v.s))
    ensures r.Str? ==> v.Str? && r.s == Strip(v.s)
    ensures !v.Str? ==> r == v
  {
    if v.Str? then
      BlankIffStripEmpty(v.s);
      if Strip(v.s) == [] then Null else Str(Strip(v.s))
    else v
  }

  function UniqueKey(row: Row, unique: seq<string>): (key: seq<Value>)
    ensures |key| == |unique|
  {
    seq(|unique|, i requires 0 <= i < |unique| => KeyPart(Field(row, unique[i])))
  }

  /** A key with at least one component that is not None takes part in the
      duplicate check; a key of Nones is exempt. */
  predicate Meaningful(key: seq<Value>)
  {
    exists i :: 0 <= i < |key| && !key[i].Null?
  }

  /** The meaningful keys of `rows` (`seen_unique` after them). */
  function SeenKeys(rows: seq<Row>, unique: seq<string>): set<seq<Value>>
    decreases |rows|
  {
    if rows == [] then {}
    else
      var key := UniqueKey(rows[|rows| - 1], unique);
      SeenKeys(rows[..|rows| - 1], unique) + (if Meaningful(key) then {key} else {})
  }

  /** The check of row `index` once `seen` holds the keys before it. */
  function RowError(row: Row, index: nat, required: seq<string>, unique: seq<string>, seen: set<seq<Value>>): Option<Error>
  {
    if HasMissing(row, required) then Some(MissingRequiredFields(index))
    else
      var key := UniqueKey(row, unique);
      if Meaningful(key) && key in seen then Some(DuplicateRecords) else None
  }

  /** `BaseDatasetPipeline._validate`: the first failing row decides. */
  function BaseError(rows: seq<Row>, required: seq<string>, unique: seq<string>): (r: Option<Error>)
    ensures r.Some? ==> r.value.MissingRequiredFields? || r.value.DuplicateRecords?
    ensures r.Some? && r.value.MissingRequiredFields? ==>
              r.value.index < |rows| && HasMissing(rows[r.value.index], required)
    decreases |rows|
  {
    if rows == [] then None
    else
      var front := rows[..|rows| - 1];
      var e := BaseError(front, required, unique);
      if e.Some? then e
      else RowError(rows[|rows| - 1], |rows| - 1, required, unique, SeenKeys(front, unique))
  }

  /** The keys seen are exactly the meaningful keys of the rows. */
  lemma {:induction false} SeenKeysExact(rows: seq<Row>, unique: seq<string>, key: seq<Value>)
    ensures key in SeenKeys(rows, unique) <==>
              exists i :: 0 <= i < |rows| && Meaningful(UniqueKey(rows[i], unique)) && UniqueKey(rows[i], unique) == key
    decreases |rows|
  {
    if rows != [] {
      var front := rows[..|rows| - 1];
      SeenKeysExact(front, unique, key);
      if key in SeenKeys(front, unique) {
        var i :| 0 <= i < |front| && Meaningful(UniqueKey(front[i], unique)) && UniqueKey(front[i], unique) == key;
        assert rows[i] == front[i];
      }
      if exists i :: 0 <= i < |rows| && Meaningful(UniqueKey(rows[i], unique)) && UniqueKey(rows[i], unique) == key {
        var i :| 0 <= i < |rows| && Meaningful(UniqueKey(rows[i], unique)) && UniqueKey(rows[i], unique) == key;
        if i < |rows| - 1 {
          assert front[i] == rows[i];
        }
      }
    }
  }

  /** No required field is missing in any row. */
  predicate AllPresent(rows: seq<Row>, required: seq<string>)
  {
    forall i :: 0 <= i < |rows| ==> !HasMissing(rows[i], required)
  }

  /** No two rows share a meaningful key. */
  predicate KeysDistinct(rows: seq<Row>, unique: seq<string>)
  {
    forall i, j :: 0 <= i < j < |rows| && Meaningful(UniqueKey(rows[i], unique)) ==>
      UniqueKey(rows[i], unique) != UniqueKey(rows[j], unique)
  }

  /** The base validation passes exactly when every required field is
      present in every row and no two rows share a meaningful key. */
  lemma {:induction false} BaseErrorNoneIff(rows: seq<Row>, required: seq<string>, unique: seq<string>)
    ensures BaseError(rows, required, unique).None? <==> AllPresent(rows, required) && KeysDistinct(rows, unique)
    decreases |rows|
  {
    if rows != [] {
      BaseErrorNoneIff(rows[..|rows| - 1], required, unique);
      AllPresentSnoc(rows, required);
      KeysDistinctSnoc(rows, unique);
    }
  }

  lemma AllPresentSnoc(rows: seq<Row>, required: seq<string>)
    requires rows != []
    ensures AllPresent(rows, required) <==>
              AllPresent(rows[..|rows| - 1], required) && !HasMissing(rows[|rows| - 1], required)
  {
    var front := rows[..|rows| - 1];
    assert forall i :: 0 <= i < |front| ==> front[i] == rows[i];
  }

  /** Distinct keys stay distinct without the last row, and the last
      row's key, when meaningful, was not seen before. */
  lemma KeysDistinctDropLast(rows: seq<Row>, unique: seq<string>)
    requires rows != [] && KeysDistinct(rows, unique)
    ensures var n := |rows| - 1;
            var last := UniqueKey(rows[n], unique);
            KeysDistinct(rows[..n], unique) && !(Meaningful(last) && last in SeenKeys(rows[..n], unique))
  {
    var n := |rows| - 1;
    var front := rows[..n];
    SeenKeysExact(front, unique, UniqueKey(rows[n], unique));
    assert forall i :: 0 <= i < n ==> front[i] == rows[i];
    forall i, j | 0 <= i < j < n && Meaningful(UniqueKey(front[i], unique))
      ensures UniqueKey(front[i], unique) != UniqueKey(front[j], unique)
    {
      assert UniqueKey(rows[i], unique) != UniqueKey(rows[j], unique);
    }
  }

  /** A last row whose key is not meaningful or not seen before keeps
      distinct keys distinct. */
  lemma KeysDistinctAddLast(rows: seq<Row>, unique: seq<string>)
    requires rows != []
    requires var n := |rows| - 1;
             var last := UniqueKey(rows[n], unique);
             KeysDistinct(rows[..n], unique) && !(Meaningful(last) && last in SeenKeys(rows[..n], unique))
    ensures KeysDistinct(rows, unique)
  {
    var n := |rows| - 1;
    var front := rows[..n];
    SeenKeysExact(front, unique, UniqueKey(rows[n], unique));
    assert forall i :: 0 <= i < n ==> front[i] == rows[i];
    forall i, j | 0 <= i < j < |rows| && Meaningful(UniqueKey(rows[i], unique))
      ensures UniqueKey(rows[i], unique) != UniqueKey(rows[j], unique)
    {
      if j < n {
        assert UniqueKey(front[i], unique) != UniqueKey(front[j], unique);
      }
    }
  }

  /** The last row keeps the keys distinct exactly when its key is not
      meaningful or not among the keys seen before it. */
  lemma KeysDistinctSnoc(rows: seq<Row>, unique: seq<string>)
    requires rows != []
    ensures var n := |rows| - 1;
            var last := UniqueKey(rows[n], unique);
            KeysDistinct(rows, unique) <==>
              KeysDistinct(rows[..n], unique) && !(Meaningful(last) && last in SeenKeys(rows[..n], unique))
  {
    if KeysDistinct(rows, unique) {
      KeysDistinctDropLast(rows, unique);
    } else {
      var n := |rows| - 1;
      var last := UniqueKey(rows[n], unique);
      if KeysDistinct(rows[..n], unique) && !(Meaningful(last) && last in SeenKeys(rows[..n], unique)) {
        KeysDistinctAddLast(rows, unique);
      }
    }
  }

  /** `BaseDatasetPipeline._validate` as the loop it is: `seen` gathers the
      meaningful keys, and the rows come back unchanged when all pass. */
  method ValidateBase(rows: seq<Row>, required: seq<string>, unique: seq<string>) returns (r: Option<Error>)
    ensures r == BaseError(rows, required, unique)
  {
    var seen: set<seq<Value>> := {};
    var i := 0;
    while i < |rows|
      invariant 0 <= i <= |rows|
      invariant BaseError(rows[..i], required, unique).None?
      invariant seen == SeenKeys(rows[..i], unique)
    {
      assert rows[..i + 1][..i] == rows[..i];
      var row := rows[i];
      if HasMissing(row, required) {
        BaseErrorPrefix(rows, i + 1, required, unique);
        return Some(MissingRequiredFields(i));
      }
      var key := UniqueKey(row, unique);
      if Meaningful(key) {
        if key in seen {
          BaseErrorPrefix(rows, i + 1, required, unique);
          return Some(DuplicateRecords);
        }
        seen := seen + {key};
      }
      i := i + 1;
    }
    assert rows[..i] == rows;
    return None;
  }

  /** An error in a prefix is the error of the whole sequence. */
  lemma {:induction false} BaseErrorPrefix(rows: seq<Row>, k: nat, required: seq<string>, unique: seq<string>)
    requires k <= |rows|
    requires BaseError(rows[..k], required, unique).Some?
    ensures BaseError(rows, required, unique) == BaseError(rows[..k], required, unique)
    decreases |rows| - k
  {
    if k < |rows| {
      assert rows[..k + 1][..k] == rows[..k];
      BaseErrorPrefix(rows, k + 1, required, unique);
    } else {
      assert rows[..k] == rows;
    }
  }

  // ---------------------------------------------------------------------
  // Range checks and the whole validation

  /** The range check of one row: a missing value passes, a number must lie
      within the bounds, and any other value cannot be compared with a
      number. */
  function RowRange(b: Bounds, p: Pipeline, row: Row, index: nat): Option<Error>
  {
    var v := Field(row, b.field);
    if v.Null? then None
    else if !v.Num? then Some(PreparationFailure)
    else if v.n < b.lo || v.n > b.hi then Some(OutOfRange(p, index))
    else None
  }

  /** The pipeline's range check over `rows[i..]`: the first failing row. */
  function RangeError(b: Bounds, p: Pipeline, rows: seq<Row>, i: nat): Option<Error>
    requires i <= |rows|
    decreases |rows| - i
  {
    if i == |rows| then None
    else
      var e := RowRange(b, p, rows[i], i);
      if e.Some? then e else RangeError(b, p, rows, i + 1)
  }

  /** The row's value for the field is missing or a number within bounds. */
  predicate InRange(b: Bounds, row: Row)
  {
    Field(row, b.field).Null? || (Field(row, b.field).Num? && b.lo <= Field(row, b.field).n <= b.hi)
  }

  /** Every row's value for the field is missing or a number within bounds. */
  predicate AllInRange(b: Bounds, rows: seq<Row>)
  {
    forall i :: 0 <= i < |rows| ==> InRange(b, rows[i])
  }

  lemma AllInRangeCons(b: Bounds, rows: seq<Row>, i: nat, k: nat)
    requires i < k <= |rows|
    ensures AllInRange(b, rows[i..k]) <==> InRange(b, rows[i]) && AllInRange(b, rows[i + 1..k])
  {
    SliceCons(rows, i, k);
    var t, u := rows[i..k], rows[i + 1..k];
    assert forall j :: 0 <= j < |u| ==> u[j] == t[j + 1];
  }

  /** The range check passes exactly when every value is in range; when it
      fails, the error names the first row that is out of range, with the
      pipeline's code, or is a failure to compare. */
  lemma RangeErrorSpec(b: Bounds, p: Pipeline, rows: seq<Row>, i: nat)
    requires i <= |rows|
    ensures RangeError(b, p, rows, i).None? <==> AllInRange(b, rows[i..])
    ensures RangeError(b, p, rows, i).Some? ==>
              exists k :: i <= k < |rows| && RowRange(b, p, rows[k], k) == RangeError(b, p, rows, i)
                          && AllInRange(b, rows[i..k])
  {
    RangeErrorNoneIff(b, p, rows, i);
    RangeErrorFirst(b, p, rows, i);
  }

  lemma {:induction false} RangeErrorNoneIff(b: Bounds, p: Pipeline, rows: seq<Row>, i: nat)
    requires i <= |rows|
    ensures RangeError(b, p, rows, i).None? <==> AllInRange(b, rows[i..])
    decreases |rows| - i
  {
    if i < |rows| {
      RangeErrorNoneIff(b, p, rows, i + 1);
      AllInRangeCons(b, rows, i, |rows|);
    }
  }

  lemma {:induction false} RangeErrorFirst(b: Bounds, p: Pipeline, rows: seq<Row>, i: nat)
    requires i <= |rows|
    ensures RangeError(b, p, rows, i).Some? ==>
              exists k :: i <= k < |rows| && RowRange(b, p, rows[k], k) == RangeError(b, p, rows, i)
                          && AllInRange(b, rows[i..k])
    decreases |rows| - i
  {
    if i < |rows| {
      RangeErrorFirst(b, p, rows, i + 1);
      if RowRange(b, p, rows[i], i).Some? {
        assert rows[i..i] == [];
      } else if RangeError(b, p, rows, i + 1).Some? {
        var k :| i + 1 <= k < |rows| && RowRange(b, p, rows[k], k) == RangeError(b, p, rows, i + 1)
                 && AllInRange(b, rows[i + 1..k]);
        AllInRangeCons(b, rows, i, k);
      }
    }
  }

  /** `_validate` of a pipeline: the base validation, then its range check;
      the rows come back unchanged. */
  function Validated(p: Pipeline, rows: seq<Row>): Outcome<seq<Row>>
  {
    var base := BaseError(rows, RequiredFields(p), UniqueFields(p));
    if base.Some? then Failure(base.value)
    else if RangeOf(p).Some? && RangeError(RangeOf(p).value, p, rows, 0).Some? then
      Failure(RangeError(RangeOf(p).value, p, rows, 0).value)
    else Success(rows)
  }

  method ValidateRows(p: Pipeline, rows: seq<Row>) returns (r: Outcome<seq<Row>>)
    ensures r == Validated(p, rows)
  {
    var base := ValidateBase(rows, RequiredFields(p), UniqueFields(p));
    if base.Some? {
      return Failure(base.value);
    }
    if RangeOf(p).None? {
      return Success(rows);
    }
    var b := RangeOf(p).value;
    var i := 0;
    while i < |rows|
      invariant 0 <= i <= |rows|
      invariant RangeError(b, p, rows, 0) == RangeError(b, p, rows, i)
    {
      var e := RowRange(b, p, rows[i], i);
      if e.Some? {
        return Failure(e.value);
      }
      i := i + 1;
    }
    return Success(rows);
  }

  /** `_transform` followed by `_serialize` for one row: the pipeline's
      pydantic model built from the row and dumped as JSON, or `None` when
      the model rejects the row. Pydantic's field coercion is not part of
      this model, so the service takes it as a parameter. */
  type Dump = (Pipeline, Row) -> Option<Row>

  /** Every row passes the pipeline's model. */
  predicate AllDump(models: Dump, p: Pipeline, rows: seq<Row>)
  {
    forall i :: 0 <= i < |rows| ==> models(p, rows[i]).Some?
  }

  /** The dumped rows in order, or `None` when the model rejects any row. */
  function Transformed(models: Dump, p: Pipeline, rows: seq<Row>): (r: Option<seq<Row>>)
    ensures r.Some? <==> AllDump(models, p, rows)
    ensures r.Some? ==> |r.value| == |rows| && forall i :: 0 <= i < |rows| ==> r.value[i] == models(p, rows[i]).value
  {
    if rows == [] then Some([])
    else
      var head := models(p, rows[0]);
      var tail := Transformed(models, p, rows[1..]);
      if head.None? then None
      else if tail.None? then
        assert !models(p, rows[1..][DumpFailure(models, p, rows[1..])]).Some?;
        None
      else Some([head.value] + tail.value)
  }

  /** A row the model rejects, when some row is rejected. */
  ghost function DumpFailure(models: Dump, p: Pipeline, rows: seq<Row>): (k: nat)
    requires !AllDump(models, p, rows)
    ensures k < |rows| && models(p, rows[k]).None?
  {
    var k :| 0 <= k < |rows| && models(p, rows[k]).None?; k
  }

  /** The list comprehension of `_transform` and the loop of `_serialize`:
      the first rejected row ends the preparation. */
  method TransformRows(models: Dump, p: Pipeline, rows: seq<Row>) returns (r: Option<seq<Row>>)
    ensures r == Transformed(models, p, rows)
  {
    var out: seq<Row> := [];
    var i := 0;
    while i < |rows|
      invariant 0 <= i <= |rows| && |out| == i
      invariant forall j :: 0 <= j < i ==> models(p, rows[j]).Some? && out[j] == models(p, rows[j]).value
    {
      var dumped := models(p, rows[i]);
      if dumped.None? {
        return None;
      }
      out := out + [dumped.value];
      i := i + 1;
    }
    r := Some(out);
    assert Transformed(models, p, rows).Some?;
    assert Transformed(models, p, rows).value == out;
  }

  /** `prepare` up to the metadata: an empty load fails unless the pipeline
      allows it, then the validation, then the same emptiness check, then
      the model of every row; an exception from a model surfaces as a
      `ReportPreparationError`. */
  function Prepared(models: Dump, p: Pipeline, rows: seq<Row>): Outcome<seq<Row>>
  {
    if rows == [] && !AllowEmpty(p) then Failure(DatasetMissingRows)
    else
      var v := Validated(p, rows);
      if v.Failure? then Failure(v.error)
      else if v.value == [] && !AllowEmpty(p) then Failure(DatasetMissingRows)
      else
        var t := Transformed(models, p, v.value);
        if t.None? then Failure(PreparationFailure) else Success(t.value)
  }

  /** Preparation succeeds exactly when the rows are non-empty or the
      pipeline allows empty datasets, every required field is present, no
      meaningful key repeats, every value is in range and the model accepts
      every row; the data is then the rows as the model dumps them, one
      for one and in order. */
  lemma PreparedSpec(models: Dump, p: Pipeline, rows: seq<Row>)
    ensures Prepared(models, p, rows).Success? <==>
              (rows != [] || AllowEmpty(p))
              && AllPresent(rows, RequiredFields(p)) && KeysDistinct(rows, UniqueFields(p))
              && (RangeOf(p).Some? ==> AllInRange(RangeOf(p).value, rows))
              && AllDump(models, p, rows)
    ensures Prepared(models, p, rows).Success? ==>
              var data := Prepared(models, p, rows).value;
              |data| == |rows| && forall i :: 0 <= i < |rows| ==> data[i] == models(p, rows[i]).value
  {
    BaseErrorNoneIff(rows, RequiredFields(p), UniqueFields(p));
    if RangeOf(p).Some? {
      RangeErrorSpec(RangeOf(p).value, p, rows, 0);
      assert rows[0..] == rows;
    }
  }

  /** Rows that pass every check but one the model rejects fail with a
      `ReportPreparationError`, not with a validation code. */
  lemma ModelRejection(models: Dump, p: Pipeline, rows: seq<Row>, k: nat)
    requires Validated(p, rows).Success? && rows != [] && k < |rows| && models(p, rows[k]).None?
    ensures Prepared(models, p, rows) == Failure(PreparationFailure)
  {
    assert !AllDump(models, p, Validated(p, rows).value);
  }

  /** An empty dataset fails with `dataset_missing_rows` unless the
      pipeline is arrivals or birthdays, which return it as it is. */
  lemma EmptyDataset(models: Dump, p: Pipeline)
    ensures Prepared(models, p, []) == if p in {UpcomingArrivals, UpcomingBirthdays} then Success([]) else Failure(DatasetMissingRows)
  {
  }

  /** A value out of range makes the pipeline fail with its own code (when
      nothing fails before it). */
  lemma {:induction false} OutOfRangeRejected(models: Dump, p: Pipeline, rows: seq<Row>, k: nat)
    requires RangeOf(p).Some? && k < |rows|
    requires Field(rows[k], RangeOf(p).value.field).Num?
    requires !(RangeOf(p).value.lo <= Field(rows[k], RangeOf(p).value.field).n <= RangeOf(p).value.hi)
    ensures Prepared(models, p, rows).Failure?
  {
    PreparedSpec(models, p, rows);
    assert !AllInRange(RangeOf(p).value, rows);
  }

  // ---------------------------------------------------------------------
  // Reports

  /** `ReportDatasetMetadata` without the duration and the parameters. */
  datatype Metadata = Metadata(datasetId: string, generatedAt: real, recordCount: nat,
                               branch: Option<int>, cacheHit: bool, messageId: string)

  /** `ReportDatasetResult`; it is also what the cache holds. */
  datatype Report = Report(metadata: Metadata, data: seq<Row>)

  /** What the repository returns for a pipeline: rows or an error. */
  datatype Loaded = Rows(rows: seq<Row>) | RepositoryError

  /** `pipeline.prepare()` with the request's message id set, at time `now`. */
  function Fresh(models: Dump, p: Pipeline, branch: Option<int>, loaded: Loaded, now: real, messageId: string): (r: Outcome<Report>)
    ensures r.Success? ==> r.value.metadata.recordCount == |r.value.data| && !r.value.metadata.cacheHit
                           && r.value.metadata.generatedAt == now
  {
    match loaded
    case RepositoryError => Failure(PreparationFailure)
    case Rows(rows) =>
      var v := Prepared(models, p, rows);
      if v.Failure? then Failure(v.error)
      else Success(Report(Metadata(DatasetId(p), now, |v.value|, branch, false, messageId), v.value))
  }

  method Prepare(models: Dump, p: Pipeline, branch: Option<int>, rows: seq<Row>, now: real, messageId: string) returns (r: Outcome<Report>)
    ensures r == Fresh(models, p, branch, Rows(rows), now, messageId)
  {
    if rows == [] && !AllowEmpty(p) {
      return Failure(DatasetMissingRows);
    }
    var cleaned := ValidateRows(p, rows);
    if cleaned.Failure? {
      return Failure(cleaned.error);
    }
    if cleaned.value == [] && !AllowEmpty(p) {
      return Failure(DatasetMissingRows);
    }
    var data := TransformRows(models, p, cleaned.value);
    if data.None? {
      return Failure(PreparationFailure);
    }
    return Success(Report(Metadata(DatasetId(p), now, |data.value|, branch, false, messageId), data.value));
  }

  /** `record_count` is the number of rows the repository returned, and
      the data holds each of them as the model dumps it, in order. */
  lemma RecordCount(models: Dump, p: Pipeline, branch: Option<int>, rows: seq<Row>, now: real, messageId: string)
    requires Fresh(models, p, branch, Rows(rows), now, messageId).Success?
    ensures var r := Fresh(models, p, branch, Rows(rows), now, messageId).value;
            && r.metadata.recordCount == |rows| && |r.data| == |rows|
            && forall i :: 0 <= i < |rows| ==> r.data[i] == models(p, rows[i]).value
  {
    PreparedSpec(models, p, rows);
  }

  // ---------------------------------------------------------------------
  // Cache keys

  /** The request parameters as the dict's items in insertion order, each
      value already rendered as `str` renders it. */
  type Params = seq<(string, string)>

  predicate KeySorted(ps: Params)
  {
    forall i, j :: 0 <= i < j < |ps| ==> LessOrEqual(ps[i].0, ps[j].0)
  }

  /** A dict never holds a key twice. */
  predicate DistinctKeys(ps: Params)
  {
    forall i, j :: 0 <= i < j < |ps| ==> ps[i].0 != ps[j].0
  }

  function KeysOf(ps: Params): set<string>
  {
    set i | 0 <= i < |ps| :: ps[i].0
  }

  /** Inserts `x` before the first item whose key is not below its own. */
  function InsertByKey(x: (string, string), ps: Params): Params
  {
    if ps == [] then [x]
    else if LessOrEqual(x.0, ps[0].0) then [x] + ps
    else [ps[0]] + InsertByKey(x, ps[1..])
  }

  /** Inserting into a key-sorted list keeps it sorted and adds `x` to its
      items. */
  lemma InsertSpec(x: (string, string), ps: Params)
    requires KeySorted(ps)
    ensures KeySorted(InsertByKey(x, ps))
    ensures multiset(InsertByKey(x, ps)) == multiset(ps) + multiset{x}
  {
    InsertSorted(x, ps);
    InsertItems(x, ps);
  }

  lemma {:induction false} InsertItems(x: (string, string), ps: Params)
    ensures multiset(InsertByKey(x, ps)) == multiset(ps) + multiset{x}
    decreases |ps|
  {
    if ps != [] && !LessOrEqual(x.0, ps[0].0) {
      InsertItems(x, ps[1..]);
      HeadRest(ps);
    }
  }

  lemma {:induction false} InsertSorted(x: (string, string), ps: Params)
    requires KeySorted(ps)
    ensures KeySorted(InsertByKey(x, ps))
    decreases |ps|
  {
    if ps == [] {
    } else if LessOrEqual(x.0, ps[0].0) {
      forall j | 0 <= j < |ps|
        ensures LessOrEqual(x.0, ps[j].0)
      {
        if j > 0 {
          LessOrEqualTransitive(x.0, ps[0].0, ps[j].0);
        }
      }
    } else {
      LessOrEqualTotal(x.0, ps[0].0);
      var tail := ps[1..];
      InsertSorted(x, tail);
      InsertItems(x, tail);
      var rest := InsertByKey(x, tail);
      forall j | 0 <= j < |rest|
        ensures LessOrEqual(ps[0].0, rest[j].0)
      {
        assert rest[j] in multiset(rest);
        if rest[j] != x {
          assert rest[j] in multiset(tail);
          var k :| 0 <= k < |tail| && tail[k] == rest[j];
          assert ps[k + 1] == tail[k];
        }
      }
      assert InsertByKey(x, ps) == [ps[0]] + rest;
    }
  }

  /** `sorted(params)`: the items ordered by key. */
  function SortByKey(ps: Params): Params
  {
    if ps == [] then [] else InsertByKey(ps[0], SortByKey(ps[1..]))
  }

  /** Sorting yields a key-sorted list of the same items. */
  lemma {:induction false} SortSpec(ps: Params)
    ensures KeySorted(SortByKey(ps))
    ensures multiset(SortByKey(ps)) == multiset(ps)
    decreases |ps|
  {
    if ps != [] {
      var sorted := SortByKey(ps[1..]);
      SortSpec(ps[1..]);
      InsertSpec(ps[0], sorted);
      assert SortByKey(ps) == InsertByKey(ps[0], sorted);
      assert multiset(ps) == multiset(ps[1..]) + multiset{ps[0]} by {
        assert ps == [ps[0]] + ps[1..];
      }
    }
  }

  /** Lists holding the same items have the same keys. */
  lemma SameItemsSameKeys(a: Params, b: Params)
    requires multiset(a) == multiset(b)
    ensures KeysOf(a) == KeysOf(b)
  {
    forall k | k in KeysOf(a)
      ensures k in KeysOf(b)
    {
      var i :| 0 <= i < |a| && a[i].0 == k;
      assert a[i] in multiset(b);
      var j :| 0 <= j < |b| && b[j] == a[i];
    }
    forall k | k in KeysOf(b)
      ensures k in KeysOf(a)
    {
      var j :| 0 <= j < |b| && b[j].0 == k;
      assert b[j] in multiset(a);
      var i :| 0 <= i < |a| && a[i] == b[j];
    }
  }

  /** Putting an item with a new key in front keeps the keys distinct. */
  lemma ConsKeepsDistinct(y: (string, string), ps: Params)
    requires DistinctKeys(ps) && y.0 !in KeysOf(ps)
    ensures DistinctKeys([y] + ps)
  {
    var r := [y] + ps;
    forall i, j | 0 <= i < j < |r|
      ensures r[i].0 != r[j].0
    {
      assert r[j] == ps[j - 1];
      if i > 0 {
        assert r[i] == ps[i - 1];
      }
    }
  }

  /** Inserting an item whose key is new keeps the keys distinct. */
  lemma {:induction false} InsertKeepsDistinct(x: (string, string), ps: Params)
    requires KeySorted(ps) && DistinctKeys(ps) && x.0 !in KeysOf(ps)
    ensures DistinctKeys(InsertByKey(x, ps))
    decreases |ps|
  {
    if ps == [] || LessOrEqual(x.0, ps[0].0) {
      ConsKeepsDistinct(x, ps);
    } else {
      var tail := ps[1..];
      TailKeys(ps);
      InsertKeepsDistinct(x, tail);
      var rest := InsertByKey(x, tail);
      InsertKeys(x, tail);
      ConsKeepsDistinct(ps[0], rest);
    }
  }

  /** The tail of a sorted list with distinct keys is one too, and does not
      hold the head's key. */
  lemma TailKeys(ps: Params)
    requires ps != [] && KeySorted(ps) && DistinctKeys(ps)
    ensures KeySorted(ps[1..]) && DistinctKeys(ps[1..])
    ensures KeysOf(ps[1..]) <= KeysOf(ps) && ps[0].0 !in KeysOf(ps[1..])
  {
    var tail := ps[1..];
    assert forall i :: 0 <= i < |tail| ==> tail[i] == ps[i + 1];
  }

  /** Inserting adds exactly the item's key. */
  lemma InsertKeys(x: (string, string), ps: Params)
    requires KeySorted(ps)
    ensures KeysOf(InsertByKey(x, ps)) == KeysOf(ps) + {x.0}
  {
    InsertSpec(x, ps);
    assert multiset(InsertByKey(x, ps)) == multiset(ps + [x]);
    SameItemsSameKeys(InsertByKey(x, ps), ps + [x]);
    assert forall i :: 0 <= i < |ps| ==> (ps + [x])[i] == ps[i];
    assert (ps + [x])[|ps|] == x;
  }

  /** Sorting keeps the keys distinct. */
  lemma {:induction false} SortKeepsDistinct(ps: Params)
    requires DistinctKeys(ps)
    ensures DistinctKeys(SortByKey(ps))
    decreases |ps|
  {
    if ps != [] {
      var tail := ps[1..];
      assert forall i :: 0 <= i < |tail| ==> tail[i] == ps[i + 1];
      SortKeepsDistinct(tail);
      SortSpec(tail);
      SameItemsSameKeys(SortByKey(tail), tail);
      assert ps[0].0 !in KeysOf(tail);
      InsertKeepsDistinct(ps[0], SortByKey(tail));
    }
  }

  /** Two key-sorted lists holding the same items, the first without
      repeated keys, start with the same item. */
  lemma SortedHeadsEqual(a: Params, b: Params)
    requires KeySorted(a) && KeySorted(b) && DistinctKeys(a)
    requires multiset(a) == multiset(b) && a != []
    ensures b != [] && a[0] == b[0]
  {
    assert |b| == |multiset(b)| == |multiset(a)| == |a|;
    assert a[0] in multiset(b) && b[0] in multiset(a);
    var j :| 0 <= j < |b| && b[j] == a[0];
    var i :| 0 <= i < |a| && a[i] == b[0];
    if i != 0 {
      assert LessOrEqual(a[0].0, a[i].0);
      if j != 0 {
        assert LessOrEqual(b[0].0, b[j].0);
      }
      LessOrEqualAntisymmetric(a[0].0, a[i].0);
      assert false;
    }
  }

  lemma TailMultiset(a: Params)
    requires a != []
    ensures multiset(a[1..]) == multiset(a) - multiset{a[0]}
  {
    assert a == [a[0]] + a[1..];
  }

  lemma TailSorted(a: Params)
    requires a != []
    ensures KeySorted(a) ==> KeySorted(a[1..])
    ensures DistinctKeys(a) ==> DistinctKeys(a[1..])
  {
    var t := a[1..];
    assert forall i :: 0 <= i < |t| ==> t[i] == a[i + 1];
  }

  /** Two key-sorted item lists without repeated keys that hold the same
      items are the same list. */
  lemma {:induction false} SortedUnique(a: Params, b: Params)
    requires KeySorted(a) && KeySorted(b) && DistinctKeys(a)
    requires multiset(a) == multiset(b)
    ensures a == b
    decreases |a|
  {
    if a != [] {
      SortedHeadsEqual(a, b);
      TailMultiset(a);
      TailMultiset(b);
      TailSorted(a);
      TailSorted(b);
      SortedUnique(a[1..], b[1..]);
      assert a == [a[0]] + a[1..] && b == [b[0]] + b[1..];
    } else {
      assert |b| == |multiset(b)|;
    }
  }

  /** `k=v` */
  function Item(kv: (string, string)): string
  {
    kv.0 + "=" + kv.1
  }

  function ParamsText(ps: Params): string
  {
    Join(seq(|ps|, i requires 0 <= i < |ps| => Item(ps[i])), "|")
  }

  /** The branch part of a key: the number, or "global" when none. */
  function BranchPart(branch: Option<int>): string
  {
    if branch.Some? then IntToString(branch.value) else "global"
  }

  /** `_build_cache_key` */
  function CacheKey(dataset: string, branch: Option<int>, params: Params): string
  {
    "report:" + dataset + ":branch:" + BranchPart(branch) + ":" + ParamsText(SortByKey(params))
  }

  /** The key does not depend on the order the parameters were given in. */
  lemma CacheKeyOrderIndependent(dataset: string, branch: Option<int>, p1: Params, p2: Params)
    requires DistinctKeys(p1) && multiset(p1) == multiset(p2)
    ensures CacheKey(dataset, branch, p1) == CacheKey(dataset, branch, p2)
  {
    SortKeepsDistinct(p1);
    SortSpec(p1);
    SortSpec(p2);
    SortedUnique(SortByKey(p1), SortByKey(p2));
  }

  /** The key of a request without a branch never equals the key of a
      request for a branch. */
  lemma GlobalKeyApart(dataset: string, b: int, p1: Params, p2: Params)
    ensures CacheKey(dataset, None, p1) != CacheKey(dataset, Some(b), p2)
  {
    var n := |"report:" + dataset + ":branch:"|;
    var k1 := CacheKey(dataset, None, p1);
    var k2 := CacheKey(dataset, Some(b), p2);
    assert k1[n] == 'g';
    assert k2[n] == IntToString(b)[0];
  }

  // ---------------------------------------------------------------------
  // The service

  /** `default_branch_id or settings.rama_actual`: a default of 0, falsy
      in Python, falls back like None. */
  function DefaultBranch(given: Option<int>, current: Option<int>): (r: Option<int>)
    ensures given.Some? && given.value != 0 ==> r == given
    ensures (given.None? || given.value == 0) ==> r == current
  {
    if given.Some? && given.value != 0 then given else current
  }

  /** `max(report_cache_ttl_minutes, 0) * 60` */
  function TtlSeconds(minutes: int): (r: nat)
    ensures minutes <= 0 ==> r == 0
    ensures minutes > 0 ==> r == minutes * 60
  {
    if minutes > 0 then minutes * 60 else 0
  }

  /** `_resolve_branch` */
  function ResolveBranch(explicit: Option<int>, default: Option<int>, allowed: set<int>): (r: Outcome<Option<int>>)
  {
    var resolved := if explicit.Some? then explicit else default;
    if allowed != {} && (resolved.None? || resolved.value !in allowed) then Failure(InvalidBranch)
    else Success(resolved)
  }

  /** An explicit branch wins over the default; with authorised branches
      configured, a resolved branch that is None or not among them is
      rejected with `invalid_branch`, and with none configured every branch
      is accepted. */
  lemma ResolveBranchSpec(explicit: Option<int>, default: Option<int>, allowed: set<int>)
    ensures var resolved := if explicit.Some? then explicit else default;
            && (ResolveBranch(explicit, default, allowed).Success? ==> ResolveBranch(explicit, default, allowed).value == resolved)
            && (ResolveBranch(explicit, default, allowed).Failure? <==>
                  allowed != {} && (resolved.None? || resolved.value !in allowed))
            && (ResolveBranch(explicit, default, allowed).Failure? ==> ResolveBranch(explicit, default, allowed).error == InvalidBranch)
  {
  }

  /** `_is_cache_stale`: with the cache disabled every entry is stale;
      otherwise an entry is stale once its age exceeds the ttl. */
  predicate IsCacheStale(ttl: nat, age: real)
  {
    ttl == 0 || age > ttl as real
  }

  /** With the cache on, an entry stays fresh up to and including the ttl
      and only grows staler with age; with it off, every entry is stale. */
  lemma StaleOnlyPastTtl(ttl: nat, age: real, older: real)
    requires age <= older
    ensures ttl == 0 ==> IsCacheStale(ttl, age)
    ensures ttl > 0 ==> (IsCacheStale(ttl, age) <==> age > ttl as real)
    ensures IsCacheStale(ttl, age) ==> IsCacheStale(ttl, older)
  {
  }

  /** The service's settings: the authorised branches, the default branch
      and the ttl in seconds (the cache is enabled when it is positive). */
  datatype Settings = Settings(allowed: set<int>, defaultBranch: Option<int>, ttl: nat)

  /** `_run_pipeline` on the cache contents `c`: the result and the new
      contents. */
  function Run(s: Settings, models: Dump, c: Cache.Contents<Report>, p: Pipeline, explicit: Option<int>, params: Params,
               now: real, loaded: Loaded, messageId: string): (Outcome<Report>, Cache.Contents<Report>)
  {
    var resolved := ResolveBranch(explicit, s.defaultBranch, s.allowed);
    if resolved.Failure? then (Failure(resolved.error), c)
    else Served(s, models, c, p, resolved.value, CacheKey(DatasetId(p), resolved.value, params), now, loaded, messageId)
  }

  /** `_run_pipeline` once the branch is resolved and the key built: a
      fresh cached entry is a hit, a stale one is dropped, and otherwise
      the report is prepared afresh. */
  function Served(s: Settings, models: Dump, c: Cache.Contents<Report>, p: Pipeline, branch: Option<int>, key: string,
                  now: real, loaded: Loaded, messageId: string): (Outcome<Report>, Cache.Contents<Report>)
  {
    var looked := if s.ttl > 0 then Cache.Lookup(c, key, now) else (None, c);
    var cached := looked.0;
    var c1 := looked.1;
    if cached.Some? && !IsCacheStale(s.ttl, now - cached.value.metadata.generatedAt) then
      (Success(cached.value.(metadata := cached.value.metadata.(cacheHit := true))), c1)
    else
      var c2 := if cached.Some? then Cache.Invalidated(c1, key) else c1;
      var prepared := Fresh(models, p, branch, loaded, now, messageId);
      if prepared.Success? && s.ttl > 0 then (prepared, Cache.Stored(c2, key, prepared.value, Some(s.ttl), now))
      else (prepared, c2)
  }

  /** `ReportPreparationService` over an in-memory cache. */
  class ReportPreparationService {
    const settings: Settings
    const models: Dump
    const cache: Cache.InMemoryCacheStrategy<Report>

    constructor(defaultBranchId: Option<int>, currentBranch: Option<int>, authorised: set<int>,
                ttlMinutes: int, rowModels: Dump, strategy: Cache.InMemoryCacheStrategy<Report>)
      ensures settings == Settings(authorised, DefaultBranch(defaultBranchId, currentBranch), TtlSeconds(ttlMinutes))
      ensures models == rowModels && cache == strategy
    {
      settings := Settings(authorised, DefaultBranch(defaultBranchId, currentBranch), TtlSeconds(ttlMinutes));
      models := rowModels;
      cache := strategy;
    }

    /** `_run_pipeline`: `loaded` is what the repository returns for this
        request, `now` the clock and `messageId` the request's id. */
    method RunPipeline(p: Pipeline, explicit: Option<int>, params: Params, now: real, loaded: Loaded, messageId: string)
      returns (r: Outcome<Report>)
      modifies cache
      ensures (r, cache.State()) == Run(settings, models, old(cache.State()), p, explicit, params, now, loaded, messageId)
    {
      var resolved := ResolveBranch(explicit, settings.defaultBranch, settings.allowed);
      if resolved.Failure? {
        return Failure(resolved.error);
      }
      r := Serve(p, resolved.value, CacheKey(DatasetId(p), resolved.value, params), now, loaded, messageId);
    }

    /** `_run_pipeline` past the branch check: look the key up when the
        cache is on, answer a fresh hit, drop a stale entry, else refresh. */
    method Serve(p: Pipeline, branch: Option<int>, key: string, now: real, loaded: Loaded, messageId: string)
      returns (r: Outcome<Report>)
      modifies cache
      ensures (r, cache.State()) == Served(settings, models, old(cache.State()), p, branch, key, now, loaded, messageId)
    {
      var cached: Option<Report> := None;
      if settings.ttl > 0 {
        cached := cache.Get(key, now);
      }
      if cached.Some? {
        if IsCacheStale(settings.ttl, now - cached.value.metadata.generatedAt) {
          cache.Invalidate(key);
        } else {
          return Success(cached.value.(metadata := cached.value.metadata.(cacheHit := true)));
        }
      }
      r := Refresh(p, branch, key, loaded, now, messageId);
    }

    /** The miss path of `_run_pipeline`: prepare afresh and store a
        successful report when caching is on. */
    method Refresh(p: Pipeline, branch: Option<int>, key: string, loaded: Loaded, now: real, messageId: string)
      returns (r: Outcome<Report>)
      modifies cache
      ensures r == Fresh(models, p, branch, loaded, now, messageId)
      ensures cache.State() == if r.Success? && settings.ttl > 0
                               then Cache.Stored(old(cache.State()), key, r.value, Some(settings.ttl), now)
                               else old(cache.State())
    {
      match loaded
      case RepositoryError =>
        return Failure(PreparationFailure);
      case Rows(rows) =>
        r := Prepare(models, p, branch, rows, now, messageId);
        if r.Success? && settings.ttl > 0 {
          cache.Set(key, r.value, Some(settings.ttl), now);
        }
    }

    /** `invalidate(dataset_id, branch_id)` as written: it drops every key
        under `InvalidationPrefix`, which for a branch also takes in the
        branches whose number extends it (see `InvalidationOvermatches`). */
    method Invalidate(dataset: Option<string>, branch: Option<int>)
      modifies cache
      ensures cache.State() == Cache.PrefixInvalidated(old(cache.State()), InvalidationPrefix(dataset, branch))
    {
      cache.InvalidatePrefix(InvalidationPrefix(dataset, branch));
    }
  }

  /** The prefix `invalidate` drops, as written: every report without
      arguments, otherwise the dataset and branch given, each empty when
      absent. */
  function InvalidationPrefix(dataset: Option<string>, branch: Option<int>): string
  {
    if dataset.None? && branch.None? then "report:"
    else
      var datasetPart := if dataset.Some? then dataset.value else "";
      var branchPart := if branch.Some? then IntToString(branch.value) else "";
      "report:" + datasetPart + ":branch:" + branchPart
  }

  /** The prefix with the branch closed by the ':' that follows it in every
      key, so that branch 1 no longer takes in branch 14. */
  function ScopedPrefix(dataset: Option<string>, branch: Option<int>): string
  {
    if dataset.Some? && branch.Some? then InvalidationPrefix(dataset, branch) + ":"
    else InvalidationPrefix(dataset, branch)
  }

  /** As written, invalidating branch 1 of a dataset also drops the
      dataset's reports for branch 14. */
  lemma InvalidationOvermatches(dataset: string, params: Params)
    ensures StartsWith(CacheKey(dataset, Some(14), params), InvalidationPrefix(Some(dataset), Some(1)))
  {
    var head := "report:" + dataset + ":branch:";
    var prefix := head + "1";
    assert IntToString(14) == "14" && IntToString(1) == "1";
    assert InvalidationPrefix(Some(dataset), Some(1)) == prefix;
    assert head + "14" == prefix + "4";
    StartsWithConcat(prefix, "4");
    StartsWithExtend(head + "14", prefix, ":");
    StartsWithExtend(head + "14" + ":", prefix, ParamsText(SortByKey(params)));
  }

  /** The prefix as written takes in at least every key the corrected one
      does, so no report of the requested branch survives `invalidate`. */
  lemma ScopedWithinInvalidation(key: string, dataset: Option<string>, branch: Option<int>)
    requires StartsWith(key, ScopedPrefix(dataset, branch))
    ensures StartsWith(key, InvalidationPrefix(dataset, branch))
  {
    var p := InvalidationPrefix(dataset, branch);
    if dataset.Some? && branch.Some? {
      assert key[..|p|] == (p + ":")[..|p|];
    }
  }

  /** Two distinct pipelines' dataset ids differ at a position both have. */
  lemma DatasetIdsApart(p: Pipeline, q: Pipeline) returns (k: nat)
    requires p != q
    ensures k < |DatasetId(p)| && k < |DatasetId(q)| && DatasetId(p)[k] != DatasetId(q)[k]
  {
    k := if p.BranchSummary? || q.BranchSummary? || p.DistrictKpi? || q.DistrictKpi? then 0 else 9;
  }

  /** A key for one dataset id never starts with a prefix naming another
      id that differs from it at a position `k` both have. */
  lemma IdPrefixesApart(id1: string, id2: string, k: nat, key: string, prefix: string)
    requires k < |id1| && k < |id2| && id1[k] != id2[k]
    requires StartsWith(key, "report:" + id2) && StartsWith(prefix, "report:" + id1)
    ensures !StartsWith(key, prefix)
  {
    assert key[7 + k] == ("report:" + id2)[7 + k] == id2[k];
    assert prefix[7 + k] == ("report:" + id1)[7 + k] == id1[k];
  }

  /** After a common head, a key's branch part followed by ':' starts with
      a branch number and ':' only when it is that branch. */
  lemma BranchTextMatch(head: string, branch: Option<int>, rest: string, b: int)
    requires StartsWith(head + BranchPart(branch) + ":" + rest, head + IntToString(b) + ":")
    ensures branch == Some(b)
  {
    var n := |head|;
    var key := head + BranchPart(branch) + ":" + rest;
    var prefix := head + IntToString(b) + ":";
    var text := IntToString(b);
    var m := |text|;
    assert key[n] == prefix[n] == text[0];
    assert BranchPart(None)[0] == 'g';
    assert branch.Some?;
    var other := IntToString(branch.value);
    assert key[n + |other|] == ':' && prefix[n + m] == ':';
    assert forall i :: n <= i < n + m ==> prefix[i] == text[i - n];
    assert forall i :: n <= i < n + |other| ==> key[i] == other[i - n];
    assert |other| == m;
    assert other == key[n..n + m] == prefix[n..n + m] == text;
    ParseIntOfString(b);
    ParseIntOfString(branch.value);
  }

  /** The corrected prefix for a dataset and a branch matches a key of
      that dataset exactly when it is for that branch. */
  lemma ScopedPrefixSameId(id: string, b: int, branch: Option<int>, params: Params)
    ensures StartsWith(CacheKey(id, branch, params), ScopedPrefix(Some(id), Some(b))) <==> branch == Some(b)
  {
    var key := CacheKey(id, branch, params);
    var prefix := ScopedPrefix(Some(id), Some(b));
    var rest := ParamsText(SortByKey(params));
    var head := "report:" + id + ":branch:";
    assert key == head + BranchPart(branch) + ":" + rest;
    assert prefix == head + IntToString(b) + ":";
    if StartsWith(key, prefix) {
      BranchTextMatch(head, branch, rest, b);
    }
    if branch == Some(b) {
      assert key == prefix + rest;
    }
  }

  /** A corrected prefix never matches a key of a dataset id that differs
      from its own at a common position `k`. */
  lemma ScopedPrefixOtherId(id1: string, b: Option<int>, id2: string, k: nat, branch: Option<int>, params: Params)
    requires k < |id1| && k < |id2| && id1[k] != id2[k]
    ensures !StartsWith(CacheKey(id2, branch, params), ScopedPrefix(Some(id1), b))
  {
    CacheKeyHead(id2, branch, params);
    ScopedPrefixHead(id1, b);
    IdPrefixesApart(id1, id2, k, CacheKey(id2, branch, params), ScopedPrefix(Some(id1), b));
  }

  lemma CacheKeyHead(id: string, branch: Option<int>, params: Params)
    ensures StartsWith(CacheKey(id, branch, params), "report:" + id)
  {
    var head := "report:" + id;
    var s1 := head + ":branch:";
    var s2 := s1 + BranchPart(branch);
    var s3 := s2 + ":";
    assert StartsWith(head, head);
    StartsWithExtend(head, head, ":branch:");
    StartsWithExtend(s1, head, BranchPart(branch));
    StartsWithExtend(s2, head, ":");
    StartsWithExtend(s3, head, ParamsText(SortByKey(params)));
  }

  lemma ScopedPrefixHead(id: string, b: Option<int>)
    ensures StartsWith(ScopedPrefix(Some(id), b), "report:" + id)
  {
    var tail := if b.Some? then IntToString(b.value) + ":" else "";
    assert ScopedPrefix(Some(id), b) == ("report:" + id) + (":branch:" + tail);
    StartsWithConcat("report:" + id, ":branch:" + tail);
  }

  /** The prefix for a whole dataset matches every key of that dataset. */
  lemma DatasetPrefixSameId(id: string, branch: Option<int>, params: Params)
    ensures StartsWith(CacheKey(id, branch, params), ScopedPrefix(Some(id), None))
  {
    var prefix := "report:" + id + ":branch:";
    assert ScopedPrefix(Some(id), None) == prefix;
    var s2 := prefix + BranchPart(branch);
    var s3 := s2 + ":";
    assert StartsWith(prefix, prefix);
    StartsWithExtend(prefix, prefix, BranchPart(branch));
    StartsWithExtend(s2, prefix, ":");
    StartsWithExtend(s3, prefix, ParamsText(SortByKey(params)));
  }

  /** The corrected prefix for a pipeline and a branch matches exactly the
      keys of that pipeline and that branch. */
  lemma ScopedPrefixExact(p: Pipeline, b: int, q: Pipeline, branch: Option<int>, params: Params)
    ensures StartsWith(CacheKey(DatasetId(q), branch, params), ScopedPrefix(Some(DatasetId(p)), Some(b)))
            <==> q == p && branch == Some(b)
  {
    var k := 0;
    if p != q {
      k := DatasetIdsApart(p, q);
    }
    if p == q {
      ScopedPrefixSameId(DatasetId(p), b, branch, params);
    } else {
      ScopedPrefixOtherId(DatasetId(p), Some(b), DatasetId(q), k, branch, params);
    }
  }

  /** The prefix for a pipeline alone matches exactly that pipeline's keys. */
  lemma DatasetPrefixExact(p: Pipeline, q: Pipeline, branch: Option<int>, params: Params)
    ensures StartsWith(CacheKey(DatasetId(q), branch, params), ScopedPrefix(Some(DatasetId(p)), None)) <==> q == p
  {
    var k := 0;
    if p != q {
      k := DatasetIdsApart(p, q);
    }
    if p == q {
      DatasetPrefixSameId(DatasetId(p), branch, params);
    } else {
      ScopedPrefixOtherId(DatasetId(p), None, DatasetId(q), k, branch, params);
    }
  }

  /** A branch given without a dataset yields the prefix "report::branch:",
      which no pipeline's key starts with: such a call drops nothing. */
  lemma BranchOnlyMatchesNothing(b: int, q: Pipeline, branch: Option<int>, params: Params)
    ensures !StartsWith(CacheKey(DatasetId(q), branch, params), ScopedPrefix(None, Some(b)))
  {
    var key := CacheKey(DatasetId(q), branch, params);
    var prefix := ScopedPrefix(None, Some(b));
    assert prefix[7] == ':';
    assert key[7] == DatasetId(q)[0];
  }

  // ---------------------------------------------------------------------
  // Cache behaviour of `_run_pipeline`

  /** A second identical request within the ttl is a cache hit: it returns
      the first report, marked as a hit, whatever the repository would
      return now. */
  lemma SecondCallHits(s: Settings, models: Dump, c: Cache.Contents<Report>, p: Pipeline, explicit: Option<int>, params: Params,
                       now1: real, now2: real, loaded1: Loaded, loaded2: Loaded, id1: string, id2: string)
    requires s.ttl > 0 && now1 <= now2 <= now1 + s.ttl as real
    requires Run(s, models, c, p, explicit, params, now1, loaded1, id1).0.Success?
    requires !Run(s, models, c, p, explicit, params, now1, loaded1, id1).0.value.metadata.cacheHit
    ensures var (first, c1) := Run(s, models, c, p, explicit, params, now1, loaded1, id1);
            Run(s, models, c1, p, explicit, params, now2, loaded2, id2).0
              == Success(first.value.(metadata := first.value.metadata.(cacheHit := true)))
  {
  }

  /** An entry older than the ttl is dropped, counted as an invalidation,
      and the report is prepared again. */
  lemma StaleEntryRefreshed(s: Settings, models: Dump, c: Cache.Contents<Report>, p: Pipeline, explicit: Option<int>, params: Params,
                            now: real, loaded: Loaded, id: string, branch: Option<int>)
    requires s.ttl > 0
    requires ResolveBranch(explicit, s.defaultBranch, s.allowed) == Success(branch)
    requires var key := CacheKey(DatasetId(p), branch, params);
             key in c.store && !Cache.Expired(c, key, now)
             && now - c.store[key].metadata.generatedAt > s.ttl as real
    ensures var (r, c1) := Run(s, models, c, p, explicit, params, now, loaded, id);
            && r == Fresh(models, p, branch, loaded, now, id)
            && c1.metrics.invalidations == c.metrics.invalidations + 1
            && (r.Success? ==> !r.value.metadata.cacheHit
                               && c1.store[CacheKey(DatasetId(p), branch, params)] == r.value)
  {
  }

  /** With a ttl of 0 the cache is never read or written and no report is
      a hit. */
  lemma DisabledCacheUntouched(s: Settings, models: Dump, c: Cache.Contents<Report>, p: Pipeline, explicit: Option<int>, params: Params,
                               now: real, loaded: Loaded, id: string)
    requires s.ttl == 0
    ensures var (r, c1) := Run(s, models, c, p, explicit, params, now, loaded, id);
            c1 == c && (r.Success? ==> !r.value.metadata.cacheHit)
  {
  }
}
