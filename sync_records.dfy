/** Spreadsheet cells to missionary records: the null test, the boolean and
    date coercions, `MissionaryRecord.from_row` and the insert payload of
    the `ccm_generaciones` table. */
module SyncRecords {
  import opened Text
  import opened Dates

  /** A spreadsheet cell as the workbook reader hands it over. */
  datatype Cell =
    | Empty                                   // None
    | Str(s: string)
    | Int(i: int)
    | Bool(b: bool)
    | NaN                                     // float("nan")
    | DateCell(date: CivilDate)
    | DateTimeCell(date: CivilDate, hour: Hour, minute: Minute, second: Minute)

  type Hour = h: int | 0 <= h < 24
  type Minute = m: int | 0 <= m < 60

  /** `str(cell)` */
  function CellText(c: Cell): string
  {
    match c
    case Empty => "None"
    case Str(s) => s
    case Int(i) => IntToString(i)
    case Bool(b) => if b then "True" else "False"
    case NaN => "nan"
    case DateCell(d) => IsoFormat(d)
    case DateTimeCell(d, h, m, sec) => IsoFormat(d) + " " + Pad2(h) + ":" + Pad2(m) + ":" + Pad2(sec)
  }

  /** `_is_null`: None, a blank string or NaN. */
  predicate IsNull(c: Cell)
  {
    c.Empty? || (c.Str? && IsBlank(c.s)) || c.NaN?
  }

  /** The cells that `value in (None, "", float("nan"))` catches: a NaN
      cell is a different float object, so only None and "" match. */
  predicate IsMissingMarker(c: Cell)
  {
    c == Empty || c == Str("")
  }

  const TruthyWords: set<string> := {"1", "true", "verdadero", "sí", "si", "x", "yes"}

  /** `_normalize_boolean(value, default)` */
  function NormalizeBoolean(c: Cell, default: bool): (r: bool)
    ensures IsNull(c) ==> r == default
    ensures c.Bool? ==> r == c.b
    ensures !IsNull(c) && !c.Bool? ==> (r <==> Lower(Strip(CellText(c))) in TruthyWords)
  {
    if IsNull(c) then default
    else if c.Bool? then c.b
    else Lower(Strip(CellText(c))) in TruthyWords
  }

  /** Text that neither starts nor ends with whitespace is a non-null cell
      that strips to itself. */
  lemma TrimmedText(t: string)
    requires t != [] && !IsSpace(t[0]) && !IsSpace(t[|t| - 1])
    ensures !IsNull(Str(t)) && Strip(t) == t
  {
    StripUnchanged(t);
  }

  /** Trimmed text reads as true exactly when its lower-case form is one
      of the truthy words. */
  lemma TrimmedWord(t: string, default: bool)
    requires t != [] && !IsSpace(t[0]) && !IsSpace(t[|t| - 1])
    ensures NormalizeBoolean(Str(t), default) == (Lower(t) in TruthyWords)
  {
    TrimmedText(t);
  }

  lemma LowerTrue() ensures Lower("True") == "true" { }
  lemma LowerFalse() ensures Lower("False") == "false" { }
  lemma LowerVerdadero() ensures Lower("Verdadero") == "verdadero" { }
  lemma LowerZero() ensures Lower("0") == "0" { }

  lemma TrueReadsTrue(default: bool)
    ensures NormalizeBoolean(Str("True"), default)
  {
    TrimmedWord("True", default);
    LowerTrue();
  }

  lemma FalseReadsFalse(default: bool)
    ensures !NormalizeBoolean(Str("False"), default)
  {
    TrimmedWord("False", default);
    LowerFalse();
  }

  /** A boolean written out as text reads back as the same boolean. */
  lemma BooleanTextRoundTrip(b: bool, default: bool)
    ensures NormalizeBoolean(Str(CellText(Bool(b))), default) == b
  {
    if b {
      TrueReadsTrue(default);
    } else {
      FalseReadsFalse(default);
    }
  }

  /** Of the truthy words only "1" is made of digits and signs. */
  lemma NumericTruthyWord(s: string)
    requires |s| >= 1 && (IsDigit(s[0]) || s[0] == '-')
    ensures s in TruthyWords <==> s == "1"
  {
  }

  /** An integer cell reads as true exactly when its decimal text is a
      truthy word. */
  lemma IntReadsAsText(i: int, default: bool)
    ensures NormalizeBoolean(Int(i), default) == (IntToString(i) in TruthyWords)
  {
    var s := IntToString(i);
    IntTextIsStripped(i);
    LowerOfDecimal(i);
    assert CellText(Int(i)) == s;
    assert Lower(Strip(CellText(Int(i)))) == s;
  }

  lemma OneText(i: int)
    ensures IntToString(i) == "1" <==> i == 1
  {
    ParseIntOfString(i);
    assert ParseInt("1") == Some(1);
  }

  /** Of the integers only 1 reads as true. */
  lemma BooleanOfInt(i: int, default: bool)
    ensures NormalizeBoolean(Int(i), default) == (i == 1)
  {
    IntReadsAsText(i, default);
    NumericTruthyWord(IntToString(i));
    OneText(i);
  }

  lemma VerdaderoIsTrue(default: bool)
    ensures NormalizeBoolean(Str("Verdadero"), default)
  {
    TrimmedWord("Verdadero", default);
    LowerVerdadero();
  }

  lemma ZeroIsFalse(default: bool)
    ensures !NormalizeBoolean(Str("0"), default)
  {
    TrimmedWord("0", default);
    LowerZero();
  }

  /** The formats `_normalize_date` tries, in order: `%Y-%m-%d`, `%d/%m/%Y`,
      `%Y/%m/%d`, `%d-%m-%Y`, `%m/%d/%Y`, `%d-%b-%Y`, `%d-%b-%y`,
      `%d %b %Y`, `%Y%m%d`. */
  const DateFormats: seq<seq<Directive>> := [
    IsoDirectives,
    [Day, Lit('/'), Month, Lit('/'), Year4],
    [Year4, Lit('/'), Month, Lit('/'), Day],
    [Day, Lit('-'), Month, Lit('-'), Year4],
    [Month, Lit('/'), Day, Lit('/'), Year4],
    [Day, Lit('-'), MonthAbbrev, Lit('-'), Year4],
    [Day, Lit('-'), MonthAbbrev, Lit('-'), Year2],
    [Day, Spaces, MonthAbbrev, Spaces, Year4],
    [Year4, Month, Day]
  ]

  /** The formats `_normalize_fecha_presencial` tries, in order:
      `%d/%m/%Y`, `%d-%m-%Y`, `%Y-%m-%d`, `%m/%d/%Y`. */
  const PresencialFormats: seq<seq<Directive>> := [
    [Day, Lit('/'), Month, Lit('/'), Year4],
    [Day, Lit('-'), Month, Lit('-'), Year4],
    IsoDirectives,
    [Month, Lit('/'), Day, Lit('/'), Year4]
  ]

  /** The date a cell denotes under the given text formats: dates and
      datetimes as they are, whole numbers as days after 1899-12-30
      (booleans count as 0 and 1), text by the first format that parses. */
  function CellDate(c: Cell, fmts: seq<seq<Directive>>): (r: Option<Date>)
    ensures r.Some? ==> ValidDate(r.value)
  {
    if IsNull(c) then None
    else
      match c
      case DateTimeCell(d, _, _, _) => Some(d)
      case DateCell(d) => Some(d)
      case Int(n) => SerialToDate(n)
      case Bool(b) => SerialToDate(if b then 1 else 0)
      case Str(s) => ParseWithFormats(Strip(s), fmts)
      case _ => None
  }

  function IsoOf(d: Option<Date>): (r: Option<string>)
    requires d.Some? ==> ValidDate(d.value)
    ensures r.Some? <==> d.Some?
    ensures r.Some? ==> r.value == IsoFormat(d.value)
  {
    match d
    case None => None
    case Some(x) => Some(IsoFormat(x))
  }

  /** `_normalize_date`: None or the ISO text of a valid date. */
  function NormalizeDate(c: Cell): (r: Option<string>)
    ensures r.Some? <==> CellDate(c, DateFormats).Some?
    ensures r.Some? ==> r.value == IsoFormat(CellDate(c, DateFormats).value)
  {
    IsoOf(CellDate(c, DateFormats))
  }

  /** `_normalize_fecha_presencial`: as `NormalizeDate`, with its own
      shorter, day-first list of formats. */
  function NormalizeFechaPresencial(c: Cell): (r: Option<string>)
    ensures r.Some? <==> CellDate(c, PresencialFormats).Some?
    ensures r.Some? ==> r.value == IsoFormat(CellDate(c, PresencialFormats).value)
  {
    IsoOf(CellDate(c, PresencialFormats))
  }

  lemma IsoTextIsStripped(d: Date)
    requires ValidDate(d)
    ensures !IsNull(Str(IsoFormat(d)))
    ensures Strip(IsoFormat(d)) == IsoFormat(d)
  {
    var s := IsoFormat(d);
    assert !IsSpace(s[0]) && !IsSpace(s[9]) by {
      assert IsDigit(s[0]) && IsDigit(s[9]);
    }

  }

  /** Normalising an already-normalised date gives it back. */
  lemma NormalizeDateIdempotent(c: Cell)
    requires NormalizeDate(c).Some?
    ensures NormalizeDate(Str(NormalizeDate(c).value)) == NormalizeDate(c)
  {
    var d := CellDate(c, DateFormats).value;
    IsoTextIsStripped(d);
    StrptimeIso(d);
    assert ParseWithFormats(IsoFormat(d), DateFormats) == Some(d);
  }

  /** An ISO date string is read by the third arrival-date format: the
      two day-first formats before it cannot match it. */
  lemma PresencialReadsIso(d: Date)
    requires ValidDate(d)
    ensures ParseWithFormats(IsoFormat(d), PresencialFormats) == Some(d)
  {
    var s := IsoFormat(d);
    StrptimeIso(d);
    DayFirstRejectsIso(d, '/', [Month, Lit('/'), Year4]);
    DayFirstRejectsIso(d, '-', [Month, Lit('-'), Year4]);
    assert [Day, Lit('/')] + [Month, Lit('/'), Year4] == PresencialFormats[0];
    assert [Day, Lit('-')] + [Month, Lit('-'), Year4] == PresencialFormats[1];
    assert Strptime(s, PresencialFormats[0]) == None;
    assert Strptime(s, PresencialFormats[1]) == None;
    assert PresencialFormats[2..][0] == IsoDirectives;
    assert ParseWithFormats(s, PresencialFormats[2..]) == Some(d);
    assert PresencialFormats[1..][1..] == PresencialFormats[2..];
    assert ParseWithFormats(s, PresencialFormats[1..]) == Some(d);
  }

  /** Normalising an already-normalised arrival date gives it back. */
  lemma NormalizeFechaPresencialIdempotent(c: Cell)
    requires NormalizeFechaPresencial(c).Some?
    ensures NormalizeFechaPresencial(Str(NormalizeFechaPresencial(c).value)) == NormalizeFechaPresencial(c)
  {
    var d := CellDate(c, PresencialFormats).value;
    IsoTextIsStripped(d);
    PresencialReadsIso(d);
    assert CellDate(Str(IsoFormat(d)), PresencialFormats) == Some(d);
  }

  // ---- A day-first arrival date ---------------------------------------

  /** What `%d/%m/%Y` captures from a one-digit day and month. */
  function DayFirstCaptures(d: char, m: char, y: string): seq<Capture>
  {
    [Capture(Day, [d]), Capture(Lit('/'), "/"), Capture(Month, [m]), Capture(Lit('/'), "/"), Capture(Year4, y)]
  }

  /** `%Y` as the last directive takes four digits and leaves nothing. */
  lemma YearLast(y: string)
    requires |y| == 4 && forall k :: 0 <= k < 4 ==> IsDigit(y[k])
    ensures MatchFrom([Year4], y) == Some(([Capture(Year4, y)], []))
  {
    assert Alternatives(Year4, y + []) == [4];
    assert [Year4][1..] == [];
    MatchStep([Year4], y, [], [], []);
    assert y + [] == y;
    assert MatchFrom([Year4], y) == Some(([Capture([Year4][0], y)] + [], []));
    assert [Capture([Year4][0], y)] + [] == [Capture(Year4, y)];
  }

  /** A separator directive takes its one character. */
  lemma SlashStep(fmt: seq<Directive>, tail: string, caps: seq<Capture>)
    requires |fmt| > 0 && fmt[0] == Lit('/')
    requires MatchFrom(fmt[1..], tail) == Some((caps, []))
    ensures MatchFrom(fmt, "/" + tail) == Some(([Capture(Lit('/'), "/")] + caps, []))
  {
    assert Alternatives(Lit('/'), "/" + tail) == [1];
    MatchStep(fmt, "/", tail, caps, []);
  }

  /** `%d` or `%m` before a slash takes a lone digit 1 to 9. */
  lemma OneDigitStep(fmt: seq<Directive>, c: char, tail: string, caps: seq<Capture>)
    requires |fmt| > 0 && (fmt[0] == Day || fmt[0] == Month) && IsOneToNine(c)
    requires tail != [] && tail[0] == '/'
    requires MatchFrom(fmt[1..], tail) == Some((caps, []))
    ensures MatchFrom(fmt, [c] + tail) == Some(([Capture(fmt[0], [c])] + caps, []))
  {
    var s := [c] + tail;
    assert s[0] == c && s[1] == '/';
    assert Alternatives(fmt[0], s) == [1];
    MatchStep(fmt, [c], tail, caps, []);
  }

  /** `%m/%Y` on a lone month digit, a slash and four digits. */
  lemma MonthYearMatch(m: char, y: string)
    requires IsOneToNine(m) && |y| == 4 && forall k :: 0 <= k < 4 ==> IsDigit(y[k])
    ensures MatchFrom([Month, Lit('/'), Year4], [m] + ("/" + y))
            == Some(([Capture(Month, [m]), Capture(Lit('/'), "/"), Capture(Year4, y)], []))
  {
    var f3: seq<Directive> := [Lit('/'), Year4];
    var f2: seq<Directive> := [Month, Lit('/'), Year4];
    var c4 := [Capture(Year4, y)];
    YearLast(y);
    assert f3[1..] == [Year4];
    SlashStep(f3, y, c4);
    assert f2[1..] == f3;
    OneDigitStep(f2, m, "/" + y, [Capture(Lit('/'), "/")] + c4);
    assert [Capture(Month, [m])] + ([Capture(Lit('/'), "/")] + c4)
           == [Capture(Month, [m]), Capture(Lit('/'), "/"), Capture(Year4, y)];
  }

  /** `/%m/%Y` on a slash, a lone month digit, a slash and four digits. */
  lemma SlashMonthYearMatch(m: char, y: string)
    requires IsOneToNine(m) && |y| == 4 && forall k :: 0 <= k < 4 ==> IsDigit(y[k])
    ensures MatchFrom([Lit('/'), Month, Lit('/'), Year4], "/" + ([m] + ("/" + y)))
            == Some(([Capture(Lit('/'), "/"), Capture(Month, [m]), Capture(Lit('/'), "/"), Capture(Year4, y)], []))
  {
    var f1: seq<Directive> := [Lit('/'), Month, Lit('/'), Year4];
    var c2 := [Capture(Month, [m]), Capture(Lit('/'), "/"), Capture(Year4, y)];
    MonthYearMatch(m, y);
    assert f1[1..] == [Month, Lit('/'), Year4];
    SlashStep(f1, [m] + ("/" + y), c2);
    assert [Capture(Lit('/'), "/")] + c2
           == [Capture(Lit('/'), "/"), Capture(Month, [m]), Capture(Lit('/'), "/"), Capture(Year4, y)];
  }

  /** `%d/%m/%Y` on a one-digit day and month. */
  lemma DayFirstMatch(d: char, m: char, y: string)
    requires IsOneToNine(d) && IsOneToNine(m) && |y| == 4 && forall k :: 0 <= k < 4 ==> IsDigit(y[k])
    ensures MatchFrom([Day, Lit('/'), Month, Lit('/'), Year4], [d] + ("/" + ([m] + ("/" + y))))
            == Some((DayFirstCaptures(d, m, y), []))
  {
    var f0: seq<Directive> := [Day, Lit('/'), Month, Lit('/'), Year4];
    var c1 := [Capture(Lit('/'), "/"), Capture(Month, [m]), Capture(Lit('/'), "/"), Capture(Year4, y)];
    SlashMonthYearMatch(m, y);
    assert f0[1..] == [Lit('/'), Month, Lit('/'), Year4];
    OneDigitStep(f0, d, "/" + ([m] + ("/" + y)), c1);
    assert [Capture(Day, [d])] + c1 == DayFirstCaptures(d, m, y);
  }

  /** The captures of `%d/%m/%Y` assign day, month and year. */
  lemma DayFirstAssign(dd: nat, mm: nat, yy: nat)
    requires 1 <= dd <= 9 && 1 <= mm <= 9 && yy < 10000
    ensures Assign(DayFirstCaptures(DigitChar(dd), DigitChar(mm), Pad4(yy)), Date(1900, 1, 1)) == Some(Date(yy, mm, dd))
  {
    var caps := DayFirstCaptures(DigitChar(dd), DigitChar(mm), Pad4(yy));
    Pad4Digits(yy);
    assert CaptureNumber([DigitChar(dd)]) == Some(dd);
    assert CaptureNumber([DigitChar(mm)]) == Some(mm);
    assert CaptureNumber(Pad4(yy)) == Some(yy);
    var a1 := Date(1900, 1, dd);
    var a3 := Date(1900, mm, dd);
    assert caps[4..][1..] == [];
    assert Assign(caps[4..], a3) == Some(Date(yy, mm, dd));
    assert caps[3..][1..] == caps[4..];
    assert Assign(caps[3..], a3) == Some(Date(yy, mm, dd));
    assert caps[2..][1..] == caps[3..];
    assert Assign(caps[2..], a1) == Some(Date(yy, mm, dd));
    assert caps[1..][1..] == caps[2..];
    assert Assign(caps[1..], a1) == Some(Date(yy, mm, dd));
  }

  /** A day-first date with a one-digit day and month, such as
      "3/7/2025", normalises to its ISO text. */
  lemma DayFirstPresencial(dd: nat, mm: nat, yy: nat)
    requires 1 <= dd <= 9 && 1 <= mm <= 9 && 1 <= yy < 10000
    ensures NormalizeFechaPresencial(Str([DigitChar(dd)] + "/" + [DigitChar(mm)] + "/" + Pad4(yy)))
            == Some(IsoFormat(Date(yy, mm, dd)))
  {
    var s := [DigitChar(dd)] + "/" + [DigitChar(mm)] + "/" + Pad4(yy);
    DayFirstMatch(DigitChar(dd), DigitChar(mm), Pad4(yy));
    assert [DigitChar(dd)] + ("/" + ([DigitChar(mm)] + ("/" + Pad4(yy)))) == s;
    assert PresencialFormats[0] == [Day, Lit('/'), Month, Lit('/'), Year4];
    DayFirstAssign(dd, mm, yy);
    assert ValidDate(Date(yy, mm, dd));
    assert Strptime(s, PresencialFormats[0]) == Some(Date(yy, mm, dd));
    FirstFormatWins(s, PresencialFormats, 0);
    SpaceCode(s[0]);
    SpaceCode(s[|s| - 1]);
    StripUnchanged(s);
    assert !IsBlank(s);
  }

  /** The text of the example date. */
  lemma FechaExampleText()
    ensures [DigitChar(3)] + "/" + [DigitChar(7)] + "/" + Pad4(2025) == "3/7/2025"
  {
    assert Pad4(2025) == "2025";
  }

  /** The ISO text of the example date. */
  lemma FechaExampleIso()
    ensures IsoFormat(Date(2025, 7, 3)) == "2025-07-03"
  {
    assert Pad4(2025) == "2025";
    assert Pad2(7) == "07" && Pad2(3) == "03";
  }

  /** "3/7/2025" is the 3rd of July: day first, as the first format
      reads it. */
  lemma FechaPresencialExample()
    ensures NormalizeFechaPresencial(Str("3/7/2025")) == Some("2025-07-03")
  {
    DayFirstPresencial(3, 7, 2025);
    FechaExampleText();
    FechaExampleIso();
  }

  lemma IsoOfEpoch()
    ensures IsoFormat(Epoch) == "1899-12-30"
  {
    assert Pad4(1899) == "1899";
    assert Pad2(12) == "12";
    assert Pad2(30) == "30";
  }

  lemma IsoOfEpochNext()
    ensures IsoFormat(Date(1899, 12, 31)) == "1899-12-31"
  {
    assert Pad4(1899) == "1899";
    assert Pad2(12) == "12";
    assert Pad2(31) == "31";
  }

  lemma SerialOneAndZero()
    ensures SerialToDate(1) == Some(Date(1899, 12, 31))
    ensures SerialToDate(0) == Some(Epoch)
  {
    OrdinalConstants();
    SerialOfDate(Date(1899, 12, 31));
    SerialOfDate(Epoch);
    assert Ordinal(Date(1899, 12, 31)) == Ordinal(Epoch) + 1;
  }

  /** Whole numbers are read as serial day numbers. */
  lemma SerialCell(n: int)
    ensures NormalizeDate(Int(n)) == IsoOf(SerialToDate(n))
  {
  }

  /** False is read as the serial number 0. */
  lemma FalseCell()
    ensures CellDate(Bool(false), DateFormats) == SerialToDate(0)
  {
  }

  /** Serial numbers count days from 1899-12-30, so serial 1 is
      1899-12-31 and serial 0 (or False) the epoch itself. */
  lemma SerialExamples()
    ensures NormalizeDate(Int(1)) == Some("1899-12-31")
    ensures NormalizeDate(Bool(false)) == Some("1899-12-30")
  {
    SerialOneAndZero();
    IsoOfEpoch();
    IsoOfEpochNext();
    SerialCell(1);
    FalseCell();
  }

  // ---- from_row ---------------------------------------------------------

  datatype MissionaryRecord = MissionaryRecord(
    id: int,
    idDistrito: Option<string>,
    tipo: Option<string>,
    rama: Option<int>,
    distrito: Option<string>,
    pais: Option<string>,
    numeroLista: Option<int>,
    numeroCompanerismo: Option<int>,
    tratamiento: Option<string>,
    nombreMisionero: string,
    companero: Option<string>,
    misionAsignada: Option<string>,
    estaca: Option<string>,
    hospedaje: Option<string>,
    foto: Option<string>,
    fechaLlegada: Option<string>,
    fechaSalida: Option<string>,
    fechaGeneracion: Option<string>,
    comentarios: Option<string>,
    investido: bool,
    fechaNacimiento: Option<string>,
    fotoTomada: bool,
    pasaporte: bool,
    folioPasaporte: Option<string>,
    fm: Option<string>,
    ipad: bool,
    closet: Option<string>,
    llegadaSecundaria: Option<string>,
    pday: Option<string>,
    host: bool,
    tresSemanas: bool,
    device: bool,
    correoMisional: Option<string>,
    correoPersonal: Option<string>,
    fechaPresencial: Option<string>,
    activo: bool)

  /** Why a row produced no record (the `table_errors` code it logs). */
  datatype Discard = RowWithoutId | MissingId | InvalidId

  datatype RowOutcome = Parsed(record: MissionaryRecord) | Discarded(reason: Discard)

  /** Number of columns `from_row` reads. */
  const Width: nat := 34

  /** The cell at column `k`, or None past the end of the row; every column
      coercion below maps None to what `from_row` gives a column the row
      does not reach (None, False or ""). */
  function At(row: seq<Cell>, k: nat): Cell
  {
    if k < |row| then row[k] else Empty
  }

  /** The first `Width` columns, missing ones as None. */
  function Columns(row: seq<Cell>): (cols: seq<Cell>)
    ensures |cols| == Width
    ensures forall k :: 0 <= k < Width ==> cols[k] == At(row, k)
  {
    seq(Width, k requires 0 <= k < Width => At(row, k))
  }

  /** A text column: the stripped text, or None for None or "". */
  function TextOf(c: Cell): (r: Option<string>)
    ensures r.None? <==> IsMissingMarker(c)
  {
    if IsMissingMarker(c) then None else Some(Strip(CellText(c)))
  }

  /** `safe_int` */
  function SafeInt(c: Cell): (r: Option<int>)
    ensures IsMissingMarker(c) ==> r.None?
  {
    if IsMissingMarker(c) then None else ParseInt(Strip(CellText(c)))
  }

  /** The id the first cell denotes, `int(str(cell).strip())`. */
  function RowId(c: Cell): Option<int>
  {
    ParseInt(Strip(CellText(c)))
  }

  function TitleOf(o: Option<string>): Option<string>
  {
    match o case None => None case Some(p) => Some(Title(p))
  }

  /** The record for an accepted id and the row's first `Width` columns. */
  function RecordOf(id: int, c: seq<Cell>): MissionaryRecord
    requires |c| == Width
  {
    MissionaryRecord(
      id := id,
      idDistrito := TextOf(c[1]),
      tipo := TextOf(c[2]),
      rama := SafeInt(c[3]),
      distrito := TextOf(c[4]),
      pais := TitleOf(TextOf(c[5])),
      numeroLista := SafeInt(c[6]),
      numeroCompanerismo := SafeInt(c[7]),
      tratamiento := None,
      nombreMisionero := (match TextOf(c[8]) case None => "" case Some(n) => n),
      companero := TextOf(c[9]),
      misionAsignada := TextOf(c[10]),
      estaca := TextOf(c[11]),
      hospedaje := TextOf(c[12]),
      foto := TextOf(c[13]),
      fechaLlegada := NormalizeDate(c[14]),
      fechaSalida := NormalizeDate(c[15]),
      fechaGeneracion := NormalizeDate(c[16]),
      comentarios := TextOf(c[17]),
      investido := NormalizeBoolean(c[18], false),
      fechaNacimiento := NormalizeDate(c[19]),
      fotoTomada := NormalizeBoolean(c[20], false),
      pasaporte := NormalizeBoolean(c[21], false),
      folioPasaporte := TextOf(c[22]),
      fm := TextOf(c[23]),
      ipad := NormalizeBoolean(c[24], false),
      closet := TextOf(c[25]),
      llegadaSecundaria := TextOf(c[26]),
      pday := TextOf(c[27]),
      host := NormalizeBoolean(c[28], false),
      tresSemanas := NormalizeBoolean(c[29], false),
      device := NormalizeBoolean(c[30], false),
      correoMisional := TextOf(c[31]),
      correoPersonal := TextOf(c[32]),
      fechaPresencial := NormalizeFechaPresencial(c[33]),
      activo := true)
  }

  /** `MissionaryRecord.from_row` */
  function FromRow(row: seq<Cell>): (r: RowOutcome)
    ensures r == Discarded(RowWithoutId) <==> |row| == 0
    ensures r == Discarded(MissingId) <==> |row| > 0 && IsMissingMarker(row[0])
    ensures r == Discarded(InvalidId) <==> |row| > 0 && !IsMissingMarker(row[0]) && RowId(row[0]).None?
    ensures r.Parsed? ==> |row| > 0 && RowId(row[0]) == Some(r.record.id)
    ensures r.Parsed? ==> r.record.tratamiento.None? && r.record.activo
  {
    if |row| == 0 then Discarded(RowWithoutId)
    else if IsMissingMarker(row[0]) then Discarded(MissingId)
    else
      match RowId(row[0])
      case None => Discarded(InvalidId)
      case Some(id) => Parsed(RecordOf(id, Columns(row)))
  }

  /** The record of a row that holds nothing but its id. */
  function IdOnlyRecord(id: int): MissionaryRecord
  {
    MissionaryRecord(id, None, None, None, None, None, None, None, None, "", None, None, None,
      None, None, None, None, None, None, false, None, false, false, None, None, false, None,
      None, None, false, false, false, None, None, None, true)
  }

  /** Columns past the end of a row read exactly like empty cells: padding
      a row that has an id cell with None cells does not change its
      record. */
  lemma PaddingIsEmpty(row: seq<Cell>, pad: nat)
    requires |row| > 0
    ensures FromRow(row + seq(pad, _ => Empty)) == FromRow(row)
  {
    var padded := row + seq(pad, _ => Empty);
    forall k | 0 <= k < Width
      ensures At(padded, k) == At(row, k)
    {
      if k >= |row| && k < |padded| {
        assert padded[k] == Empty;
      }
    }
    assert Columns(padded) == Columns(row);
    assert padded[0] == row[0];
  }

  lemma IntTextIsStripped(n: int)
    ensures IntToString(n) != [] && !IsSpace(IntToString(n)[0]) && !IsSpace(IntToString(n)[|IntToString(n)| - 1])
    ensures Strip(IntToString(n)) == IntToString(n)
    ensures RowId(Int(n)) == Some(n)
  {
    var s := IntToString(n);
    IntTextEnds(n);
    StripUnchanged(s);
    ParseIntOfString(n);
  }

  /** Every coercion maps a missing cell to its column's default. */
  lemma EmptyCellDefaults()
    ensures TextOf(Empty) == None && SafeInt(Empty) == None
    ensures NormalizeDate(Empty) == None && NormalizeFechaPresencial(Empty) == None
    ensures !NormalizeBoolean(Empty, false)
  {
  }

  /** An integer id cell gives that id back; a row holding only the id
      gives the all-default record, whose name is empty and which is still
      returned. */
  lemma IntIdRow(n: int)
    ensures FromRow([Int(n)]) == Parsed(IdOnlyRecord(n))
  {
    IntTextIsStripped(n);
    EmptyColumnsRecord(n, Columns([Int(n)]));
  }

  lemma MexicoTitle()
    ensures Title("mexico") == "Mexico"
  {
  }

  /** A country cell "mexico" is stored title-cased. */
  lemma MexicoText()
    ensures TitleOf(TextOf(Str("mexico"))) == Some("Mexico")
  {
    TrimmedText("mexico");
    MexicoTitle();
  }

  /** Three digits read as a number. */
  lemma ThreeDigits(s: string)
    requires |s| == 3 && IsDigit(s[0]) && IsDigit(s[1]) && IsDigit(s[2])
    ensures ParseInt(s) == Some(DigitValue(s[0]) * 100 + DigitValue(s[1]) * 10 + DigitValue(s[2]))
  {
    assert s[..2][..1] == [s[0]];
    assert DigitsValue(s[..2]) == Some(DigitValue(s[0]) * 10 + DigitValue(s[1]));
  }

  /** The id cell "101" reads as 101. */
  lemma IdText()
    ensures RowId(Str("101")) == Some(101)
  {
    TrimmedText("101");
    ThreeDigits("101");
  }

  /** A row's id, country and arrival date, from its first, sixth and
      last columns. */
  lemma RowFields(row: seq<Cell>)
    requires |row| == Width && !IsMissingMarker(row[0]) && RowId(row[0]).Some?
    ensures FromRow(row).Parsed?
    ensures FromRow(row).record.id == RowId(row[0]).value
    ensures FromRow(row).record.pais == TitleOf(TextOf(row[5]))
    ensures FromRow(row).record.fechaPresencial == NormalizeFechaPresencial(row[33])
  {
    var c := Columns(row);
    assert c[5] == row[5] && c[33] == row[33];
  }

  /** A row whose id cell is "101" and whose country cell is "mexico"
      gives record 101 with country "Mexico". */
  lemma RowExample(row: seq<Cell>)
    requires |row| == Width && row[0] == Str("101") && row[5] == Str("mexico")
    ensures FromRow(row).Parsed?
    ensures FromRow(row).record.id == 101
    ensures FromRow(row).record.pais == Some("Mexico")
  {
    IdText();
    MexicoText();
    RowFields(row);
  }

  /** Columns that are all missing give every field its default. */
  lemma EmptyColumnsRecord(id: int, cols: seq<Cell>)
    requires |cols| == Width && forall k :: 1 <= k < Width ==> cols[k] == Empty
    ensures RecordOf(id, cols) == IdOnlyRecord(id)
  {
    EmptyCellDefaults();
  }

  /** Text that is not a number, such as "nan", "True" or "False". */
  lemma WordIsNoNumber(w: string)
    requires |w| > 0 && !IsDigit(w[|w| - 1]) && !IsSpace(w[0]) && !IsSpace(w[|w| - 1])
    ensures RowId(Str(w)) == None
    ensures forall c :: CellText(c) == w ==> RowId(c) == None
  {
    StripUnchanged(w);
    assert CellText(Str(w)) == w;
    assert ParseInt(w).None?;
  }

  /** An id cell that is whitespace only is rejected as invalid, not as
      missing. */
  lemma BlankIdIsInvalid(s: string, rest: seq<Cell>)
    requires IsBlank(s) && s != ""
    ensures FromRow([Str(s)] + rest) == Discarded(InvalidId)
  {
    BlankIffStripEmpty(s);
    assert ([Str(s)] + rest)[0] == Str(s);
  }

  /** A NaN id cell reads as the text "nan" and is rejected as invalid. */
  lemma NaNIdIsInvalid(rest: seq<Cell>)
    ensures FromRow([NaN] + rest) == Discarded(InvalidId)
  {
    WordIsNoNumber(CellText(NaN));
    assert ([NaN] + rest)[0] == NaN;
  }

  /** A boolean id cell reads as "True" or "False" and is rejected as
      invalid. */
  lemma BoolIdIsInvalid(b: bool, rest: seq<Cell>)
    ensures FromRow([Bool(b)] + rest) == Discarded(InvalidId)
  {
    var w := CellText(Bool(b));
    assert w == "True" || w == "False";
    assert w[|w| - 1] == 'e' && (w[0] == 'T' || w[0] == 'F');
    WordIsNoNumber(w);
    assert ([Bool(b)] + rest)[0] == Bool(b);
  }

  /** Only None and "" count as a missing id. */
  lemma EmptyTextIdIsMissing(rest: seq<Cell>)
    ensures FromRow([Str("")] + rest) == Discarded(MissingId)
  {
    assert ([Str("")] + rest)[0] == Str("");
  }

  /** The id is read from the stripped text, so surrounding whitespace is
      ignored. */
  lemma IdIgnoresWhitespace(s: string)
    ensures RowId(Str(s)) == RowId(Str(Strip(s)))
  {
    StripIdempotent(s);
  }

  /** A text column keeps any text but "" in stripped form, so
      whitespace-only text becomes the empty string rather than None; the
      country column is then title-cased. */
  lemma TextColumnKeepsText(s: string)
    requires s != ""
    ensures TextOf(Str(s)) == Some(Strip(s))
    ensures IsBlank(s) ==> TextOf(Str(s)) == Some("")
    ensures TitleOf(TextOf(Str(s))) == Some(Title(Strip(s)))
  {
    BlankIffStripEmpty(s);
  }

  /** A NaN cell in a text column becomes the text "nan", not None. */
  lemma NaNTextColumn()
    ensures TextOf(NaN) == Some("nan")
  {
    StripUnchanged("nan");
  }

  // ---- to_database_payload -----------------------------------------------

  /** The columns of `ccm_generaciones`, in table order. */
  datatype Column =
    | Id | IdDistrito | Tipo | Rama | Distrito | Pais | NumeroLista | NumeroCompanerismo
    | Tratamiento | NombreMisionero | Companero | MisionAsignada | Estaca | Hospedaje | Foto
    | FechaLlegada | FechaSalida | FechaGeneracion | Comentarios | Investido | FechaNacimiento
    | FotoTomada | Pasaporte | FolioPasaporte | Fm | Ipad | Closet | LlegadaSecundaria | Pday
    | Host | TresSemanas | Device | CorreoMisional | CorreoPersonal | FechaPresencial | Activo
    | CreatedAt | UpdatedAt

  /** A column value of the insert payload. */
  datatype Value = Null | Integer(i: int) | Text(s: string) | Flag(b: bool) | Timestamp(t: int)

  function OptText(o: Option<string>): (v: Value)
    ensures v.Null? <==> o.None?
    ensures o.Some? ==> v.Text? && v.s == o.value
  {
    match o case None => Null case Some(s) => Text(s)
  }

  function OptInt(o: Option<int>): (v: Value)
    ensures v.Null? <==> o.None?
    ensures o.Some? ==> v.Integer? && v.i == o.value
  {
    match o case None => Null case Some(i) => Integer(i)
  }

  /** `to_database_payload(timestamp=t)`, one column at a time: every
      column of the table has a value, and both audit columns carry the
      batch timestamp. */
  function Payload(r: MissionaryRecord, t: int, col: Column): Value
  {
    match col
    case Id => Integer(r.id)
    case IdDistrito => OptText(r.idDistrito)
    case Tipo => OptText(r.tipo)
    case Rama => OptInt(r.rama)
    case Distrito => OptText(r.distrito)
    case Pais => OptText(r.pais)
    case NumeroLista => OptInt(r.numeroLista)
    case NumeroCompanerismo => OptInt(r.numeroCompanerismo)
    case Tratamiento => OptText(r.tratamiento)
    case NombreMisionero => Text(r.nombreMisionero)
    case Companero => OptText(r.companero)
    case MisionAsignada => OptText(r.misionAsignada)
    case Estaca => OptText(r.estaca)
    case Hospedaje => OptText(r.hospedaje)
    case Foto => OptText(r.foto)
    case FechaLlegada => OptText(r.fechaLlegada)
    case FechaSalida => OptText(r.fechaSalida)
    case FechaGeneracion => OptText(r.fechaGeneracion)
    case Comentarios => OptText(r.comentarios)
    case Investido => Flag(r.investido)
    case FechaNacimiento => OptText(r.fechaNacimiento)
    case FotoTomada => Flag(r.fotoTomada)
    case Pasaporte => Flag(r.pasaporte)
    case FolioPasaporte => OptText(r.folioPasaporte)
    case Fm => OptText(r.fm)
    case Ipad => Flag(r.ipad)
    case Closet => OptText(r.closet)
    case LlegadaSecundaria => OptText(r.llegadaSecundaria)
    case Pday => OptText(r.pday)
    case Host => Flag(r.host)
    case TresSemanas => Flag(r.tresSemanas)
    case Device => Flag(r.device)
    case CorreoMisional => OptText(r.correoMisional)
    case CorreoPersonal => OptText(r.correoPersonal)
    case FechaPresencial => OptText(r.fechaPresencial)
    case Activo => Flag(r.activo)
    case CreatedAt => Timestamp(t)
    case UpdatedAt => Timestamp(t)
  }

  /** The two records give the same value in every column. */
  predicate SamePayload(a: MissionaryRecord, b: MissionaryRecord, t: int)
  {
    forall col :: Payload(a, t, col) == Payload(b, t, col)
  }

  /** Equal payloads agree on the identity columns. */
  lemma SameIdentityColumns(a: MissionaryRecord, b: MissionaryRecord, t: int)
    requires SamePayload(a, b, t)
    ensures a.id == b.id && a.idDistrito == b.idDistrito && a.tipo == b.tipo
  {
    assert Integer(a.id) == Integer(b.id) by { assert Payload(a, t, Id) == Payload(b, t, Id); }
    assert OptText(a.idDistrito) == OptText(b.idDistrito) by { assert Payload(a, t, IdDistrito) == Payload(b, t, IdDistrito); }
    assert OptText(a.tipo) == OptText(b.tipo) by { assert Payload(a, t, Tipo) == Payload(b, t, Tipo); }
  }

  /** Equal payloads agree on the unit and country columns. */
  lemma SameUnitColumns(a: MissionaryRecord, b: MissionaryRecord, t: int)
    requires SamePayload(a, b, t)
    ensures a.rama == b.rama && a.distrito == b.distrito && a.pais == b.pais
  {
    assert OptInt(a.rama) == OptInt(b.rama) by { assert Payload(a, t, Rama) == Payload(b, t, Rama); }
    assert OptText(a.distrito) == OptText(b.distrito) by { assert Payload(a, t, Distrito) == Payload(b, t, Distrito); }
    assert OptText(a.pais) == OptText(b.pais) by { assert Payload(a, t, Pais) == Payload(b, t, Pais); }
  }

  /** Equal payloads agree on the list position columns. */
  lemma SameListColumns(a: MissionaryRecord, b: MissionaryRecord, t: int)
    requires SamePayload(a, b, t)
    ensures a.numeroLista == b.numeroLista && a.numeroCompanerismo == b.numeroCompanerismo && a.tratamiento == b.tratamiento
  {
    assert OptInt(a.numeroLista) == OptInt(b.numeroLista) by { assert Payload(a, t, NumeroLista) == Payload(b, t, NumeroLista); }
    assert OptInt(a.numeroCompanerismo) == OptInt(b.numeroCompanerismo) by { assert Payload(a, t, NumeroCompanerismo) == Payload(b, t, NumeroCompanerismo); }
    assert OptText(a.tratamiento) == OptText(b.tratamiento) by { assert Payload(a, t, Tratamiento) == Payload(b, t, Tratamiento); }
  }

  /** Equal payloads agree on the name and assignment columns. */
  lemma SameNameColumns(a: MissionaryRecord, b: MissionaryRecord, t: int)
    requires SamePayload(a, b, t)
    ensures a.nombreMisionero == b.nombreMisionero && a.companero == b.companero && a.misionAsignada == b.misionAsignada
  {
    assert Text(a.nombreMisionero) == Text(b.nombreMisionero) by { assert Payload(a, t, NombreMisionero) == Payload(b, t, NombreMisionero); }
    assert OptText(a.companero) == OptText(b.companero) by { assert Payload(a, t, Companero) == Payload(b, t, Companero); }
    assert OptText(a.misionAsignada) == OptText(b.misionAsignada) by { assert Payload(a, t, MisionAsignada) == Payload(b, t, MisionAsignada); }
  }

  /** Equal payloads agree on the stake and lodging columns. */
  lemma SameLodgingColumns(a: MissionaryRecord, b: MissionaryRecord, t: int)
    requires SamePayload(a, b, t)
    ensures a.estaca == b.estaca && a.hospedaje == b.hospedaje && a.foto == b.foto
  {
    assert OptText(a.estaca) == OptText(b.estaca) by { assert Payload(a, t, Estaca) == Payload(b, t, Estaca); }
    assert OptText(a.hospedaje) == OptText(b.hospedaje) by { assert Payload(a, t, Hospedaje) == Payload(b, t, Hospedaje); }
    assert OptText(a.foto) == OptText(b.foto) by { assert Payload(a, t, Foto) == Payload(b, t, Foto); }
  }

  /** Equal payloads agree on the arrival and departure columns. */
  lemma SameDateColumns(a: MissionaryRecord, b: MissionaryRecord, t: int)
    requires SamePayload(a, b, t)
    ensures a.fechaLlegada == b.fechaLlegada && a.fechaSalida == b.fechaSalida && a.fechaGeneracion == b.fechaGeneracion
  {
    assert OptText(a.fechaLlegada) == OptText(b.fechaLlegada) by { assert Payload(a, t, FechaLlegada) == Payload(b, t, FechaLlegada); }
    assert OptText(a.fechaSalida) == OptText(b.fechaSalida) by { assert Payload(a, t, FechaSalida) == Payload(b, t, FechaSalida); }
    assert OptText(a.fechaGeneracion) == OptText(b.fechaGeneracion) by { assert Payload(a, t, FechaGeneracion) == Payload(b, t, FechaGeneracion); }
  }

  /** Equal payloads agree on the comment and birth columns. */
  lemma SameNoteColumns(a: MissionaryRecord, b: MissionaryRecord, t: int)
    requires SamePayload(a, b, t)
    ensures a.comentarios == b.comentarios && a.investido == b.investido && a.fechaNacimiento == b.fechaNacimiento
  {
    assert OptText(a.comentarios) == OptText(b.comentarios) by { assert Payload(a, t, Comentarios) == Payload(b, t, Comentarios); }
    assert Flag(a.investido) == Flag(b.investido) by { assert Payload(a, t, Investido) == Payload(b, t, Investido); }
    assert OptText(a.fechaNacimiento) == OptText(b.fechaNacimiento) by { assert Payload(a, t, FechaNacimiento) == Payload(b, t, FechaNacimiento); }
  }

  /** Equal payloads agree on the photo and passport columns. */
  lemma SamePassportColumns(a: MissionaryRecord, b: MissionaryRecord, t: int)
    requires SamePayload(a, b, t)
    ensures a.fotoTomada == b.fotoTomada && a.pasaporte == b.pasaporte && a.folioPasaporte == b.folioPasaporte
  {
    assert Flag(a.fotoTomada) == Flag(b.fotoTomada) by { assert Payload(a, t, FotoTomada) == Payload(b, t, FotoTomada); }
    assert Flag(a.pasaporte) == Flag(b.pasaporte) by { assert Payload(a, t, Pasaporte) == Payload(b, t, Pasaporte); }
    assert OptText(a.folioPasaporte) == OptText(b.folioPasaporte) by { assert Payload(a, t, FolioPasaporte) == Payload(b, t, FolioPasaporte); }
  }

  /** Equal payloads agree on the equipment columns. */
  lemma SameEquipmentColumns(a: MissionaryRecord, b: MissionaryRecord, t: int)
    requires SamePayload(a, b, t)
    ensures a.fm == b.fm && a.ipad == b.ipad && a.closet == b.closet
  {
    assert OptText(a.fm) == OptText(b.fm) by { assert Payload(a, t, Fm) == Payload(b, t, Fm); }
    assert Flag(a.ipad) == Flag(b.ipad) by { assert Payload(a, t, Ipad) == Payload(b, t, Ipad); }
    assert OptText(a.closet) == OptText(b.closet) by { assert Payload(a, t, Closet) == Payload(b, t, Closet); }
  }

  /** Equal payloads agree on the schedule columns. */
  lemma SameScheduleColumns(a: MissionaryRecord, b: MissionaryRecord, t: int)
    requires SamePayload(a, b, t)
    ensures a.llegadaSecundaria == b.llegadaSecundaria && a.pday == b.pday && a.host == b.host
  {
    assert OptText(a.llegadaSecundaria) == OptText(b.llegadaSecundaria) by { assert Payload(a, t, LlegadaSecundaria) == Payload(b, t, LlegadaSecundaria); }
    assert OptText(a.pday) == OptText(b.pday) by { assert Payload(a, t, Pday) == Payload(b, t, Pday); }
    assert Flag(a.host) == Flag(b.host) by { assert Payload(a, t, Host) == Payload(b, t, Host); }
  }

  /** Equal payloads agree on the status columns. */
  lemma SameStatusColumns(a: MissionaryRecord, b: MissionaryRecord, t: int)
    requires SamePayload(a, b, t)
    ensures a.tresSemanas == b.tresSemanas && a.device == b.device && a.correoMisional == b.correoMisional
  {
    assert Flag(a.tresSemanas) == Flag(b.tresSemanas) by { assert Payload(a, t, TresSemanas) == Payload(b, t, TresSemanas); }
    assert Flag(a.device) == Flag(b.device) by { assert Payload(a, t, Device) == Payload(b, t, Device); }
    assert OptText(a.correoMisional) == OptText(b.correoMisional) by { assert Payload(a, t, CorreoMisional) == Payload(b, t, CorreoMisional); }
  }

  /** Equal payloads agree on the contact columns. */
  lemma SameContactColumns(a: MissionaryRecord, b: MissionaryRecord, t: int)
    requires SamePayload(a, b, t)
    ensures a.correoPersonal == b.correoPersonal && a.fechaPresencial == b.fechaPresencial && a.activo == b.activo
  {
    assert OptText(a.correoPersonal) == OptText(b.correoPersonal) by { assert Payload(a, t, CorreoPersonal) == Payload(b, t, CorreoPersonal); }
    assert OptText(a.fechaPresencial) == OptText(b.fechaPresencial) by { assert Payload(a, t, FechaPresencial) == Payload(b, t, FechaPresencial); }
    assert Flag(a.activo) == Flag(b.activo) by { assert Payload(a, t, Activo) == Payload(b, t, Activo); }
  }

  /** The payload loses nothing: two records with the same payload are the
      same record, and the audit columns agree with each other. */
  lemma PayloadFaithful(a: MissionaryRecord, b: MissionaryRecord, t: int)
    ensures Payload(a, t, CreatedAt) == Payload(a, t, UpdatedAt) == Timestamp(t)
    ensures (forall col :: Payload(a, t, col) == Payload(b, t, col)) ==> a == b
  {
    if SamePayload(a, b, t) {
      SameIdentityColumns(a, b, t);
      SameUnitColumns(a, b, t);
      SameListColumns(a, b, t);
      SameNameColumns(a, b, t);
      SameLodgingColumns(a, b, t);
      SameDateColumns(a, b, t);
      SameNoteColumns(a, b, t);
      SamePassportColumns(a, b, t);
      SameEquipmentColumns(a, b, t);
      SameScheduleColumns(a, b, t);
      SameStatusColumns(a, b, t);
      SameContactColumns(a, b, t);
    }
  }
}
