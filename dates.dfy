/** Proleptic Gregorian dates as Python's `datetime.date` handles them:
    validity, day ordinals (`toordinal`), ISO output (`isoformat`) and the
    subset of `datetime.strptime` that the sync service's date formats use. */
module Dates {
  import opened Text

  datatype Date = Date(year: int, month: int, day: int)

  /** A date Python can represent. */
  type CivilDate = d: Date | ValidDate(d) witness Date(2000, 1, 1)

  predicate IsLeap(y: int) { y % 4 == 0 && (y % 100 != 0 || y % 400 == 0) }

  function YearLength(y: int): int { if IsLeap(y) then 366 else 365 }

  function DaysInMonth(y: int, m: int): int
    requires 1 <= m <= 12
  {
    if m == 2 then (if IsLeap(y) then 29 else 28)
    else if m == 4 || m == 6 || m == 9 || m == 11 then 30
    else 31
  }

  /** `date(year, month, day)` succeeds exactly for these triples
      (years 1 through 9999). */
  predicate ValidDate(d: Date)
  {
    1 <= d.year <= 9999 && 1 <= d.month <= 12 && 1 <= d.day <= DaysInMonth(d.year, d.month)
  }

  /** Days in the year before the first of month `m`; month 13 stands for
      the end of the year. */
  function DaysBeforeMonth(y: int, m: int): int
    requires 1 <= m <= 13
  {
    var leap := if IsLeap(y) && m > 2 then 1 else 0;
    leap + (
      if m == 1 then 0 else if m == 2 then 31 else if m == 3 then 59
      else if m == 4 then 90 else if m == 5 then 120 else if m == 6 then 151
      else if m == 7 then 181 else if m == 8 then 212 else if m == 9 then 243
      else if m == 10 then 273 else if m == 11 then 304 else if m == 12 then 334
      else 365)
  }

  lemma DaysBeforeMonthStep(y: int, m: int)
    requires 1 <= m <= 12
    ensures DaysBeforeMonth(y, m + 1) == DaysBeforeMonth(y, m) + DaysInMonth(y, m)
    ensures DaysBeforeMonth(y, 13) == YearLength(y)
  {
  }

  lemma DaysBeforeMonthMonotone(y: int, a: int, b: int)
    requires 1 <= a < b <= 12
    ensures DaysBeforeMonth(y, a) + DaysInMonth(y, a) <= DaysBeforeMonth(y, b)
  {
  }

  /** Days before January 1st of year `y`, counted from 0001-01-01. */
  function DaysBeforeYear(y: int): int
    requires y >= 1
  {
    var p := y - 1;
    365 * p + p / 4 - p / 100 + p / 400
  }

  lemma DaysBeforeYearStep(y: int)
    requires y >= 1
    ensures DaysBeforeYear(y + 1) == DaysBeforeYear(y) + YearLength(y)
  {
    var p := y - 1;
    assert y / 4 - p / 4 == (if y % 4 == 0 then 1 else 0);
    assert y / 100 - p / 100 == (if y % 100 == 0 then 1 else 0);
    assert y / 400 - p / 400 == (if y % 400 == 0 then 1 else 0);
  }

  lemma {:induction false} DaysBeforeYearMonotone(a: int, b: int)
    requires 1 <= a < b
    ensures DaysBeforeYear(a) + YearLength(a) <= DaysBeforeYear(b)
    decreases b - a
  {
    DaysBeforeYearStep(a);
    if a + 1 < b {
      DaysBeforeYearMonotone(a + 1, b);
    }
  }

  /** `date.toordinal()`: 0001-01-01 is day 1. */
  function Ordinal(d: Date): int
    requires ValidDate(d)
  {
    DaysBeforeYear(d.year) + DaysBeforeMonth(d.year, d.month) + d.day
  }

  /** The Excel epoch 1899-12-30 used by the sync service. */
  const Epoch: Date := Date(1899, 12, 30)

  const EpochOrdinal: int := 693594

  /** Ordinal of 9999-12-31, the last date Python represents. */
  const MaxOrdinal: int := 3652059

  lemma OrdinalConstants()
    ensures ValidDate(Epoch) && Ordinal(Epoch) == EpochOrdinal
    ensures ValidDate(Date(9999, 12, 31)) && Ordinal(Date(9999, 12, 31)) == MaxOrdinal
    ensures DaysBeforeYear(10000) == MaxOrdinal
  {
  }

  lemma OrdinalWithinYear(d: Date)
    requires ValidDate(d)
    ensures DaysBeforeYear(d.year) < Ordinal(d) <= DaysBeforeYear(d.year) + YearLength(d.year)
  {
    DaysBeforeMonthStep(d.year, d.month);
    if d.month < 12 {
      DaysBeforeMonthMonotone(d.year, d.month, 12);
      DaysBeforeMonthStep(d.year, 12);
    }
  }

  lemma OrdinalRange(d: Date)
    requires ValidDate(d)
    ensures 1 <= Ordinal(d) <= MaxOrdinal
  {
    OrdinalWithinYear(d);
    OrdinalConstants();
    DaysBeforeYearStep(d.year);
    if d.year < 9999 {
      DaysBeforeYearMonotone(d.year, 9999);
    }
    DaysBeforeYearStep(9999);
  }

  /** Distinct dates have distinct ordinals. */
  lemma OrdinalInjective(d1: Date, d2: Date)
    requires ValidDate(d1) && ValidDate(d2)
    requires Ordinal(d1) == Ordinal(d2)
    ensures d1 == d2
  {
    OrdinalWithinYear(d1);
    OrdinalWithinYear(d2);
    if d1.year < d2.year {
      DaysBeforeYearMonotone(d1.year, d2.year);
    } else if d2.year < d1.year {
      DaysBeforeYearMonotone(d2.year, d1.year);
    }
    assert d1.year == d2.year;
    if d1.month < d2.month {
      DaysBeforeMonthMonotone(d1.year, d1.month, d2.month);
    } else if d2.month < d1.month {
      DaysBeforeMonthMonotone(d1.year, d2.month, d1.month);
    }
  }

  ghost function FindYear(k: int, y: int): (r: int)
    requires 1 <= y <= 9999
    requires DaysBeforeYear(y) < k <= MaxOrdinal
    ensures y <= r <= 9999
    ensures DaysBeforeYear(r) < k <= DaysBeforeYear(r) + YearLength(r)
    decreases 9999 - y
  {
    DaysBeforeYearStep(y);
    OrdinalConstants();
    if k <= DaysBeforeYear(y) + YearLength(y) then y else FindYear(k, y + 1)
  }

  ghost function FindMonth(y: int, k: int, m: int): (r: int)
    requires 1 <= m <= 12
    requires DaysBeforeMonth(y, m) < k <= YearLength(y)
    ensures m <= r <= 12
    ensures DaysBeforeMonth(y, r) < k <= DaysBeforeMonth(y, r) + DaysInMonth(y, r)
    decreases 12 - m
  {
    DaysBeforeMonthStep(y, m);
    if k <= DaysBeforeMonth(y, m) + DaysInMonth(y, m) then m else FindMonth(y, k, m + 1)
  }

  /** Every ordinal from 1 to `MaxOrdinal` is the ordinal of a date. */
  lemma OrdinalOnto(k: int)
    requires 1 <= k <= MaxOrdinal
    ensures exists d: Date :: ValidDate(d) && Ordinal(d) == k
  {
    OrdinalConstants();
    var y := FindYear(k, 1);
    var m := FindMonth(y, k - DaysBeforeYear(y), 1);
    var d := Date(y, m, k - DaysBeforeYear(y) - DaysBeforeMonth(y, m));
    assert ValidDate(d) && Ordinal(d) == k;
  }

  /** At most one date has a given ordinal. */
  lemma OrdinalUnique(k: int)
    ensures forall d1: Date, d2: Date :: ValidDate(d1) && ValidDate(d2) && Ordinal(d1) == k && Ordinal(d2) == k ==> d1 == d2
  {
    forall d1: Date, d2: Date | ValidDate(d1) && ValidDate(d2) && Ordinal(d1) == k && Ordinal(d2) == k
      ensures d1 == d2
    {
      OrdinalInjective(d1, d2);
    }
  }

  /** `date.fromordinal(k)`: the one date whose ordinal is `k`. */
  function FromOrdinal(k: int): (d: Date)
    requires 1 <= k <= MaxOrdinal
    ensures ValidDate(d) && Ordinal(d) == k
  {
    OrdinalOnto(k);
    OrdinalUnique(k);
    var d: Date :| ValidDate(d) && Ordinal(d) == k;
    d
  }

  lemma FromOrdinalOfOrdinal(d: Date)
    requires ValidDate(d)
    ensures 1 <= Ordinal(d) <= MaxOrdinal && FromOrdinal(Ordinal(d)) == d
  {
    OrdinalRange(d);
    OrdinalInjective(FromOrdinal(Ordinal(d)), d);
  }

  /** `(datetime(1899, 12, 30) + timedelta(days=n)).date()` for a whole
      number of days; None where Python raises OverflowError. */
  function SerialToDate(n: int): (r: Option<Date>)
    ensures r.Some? <==> 1 <= EpochOrdinal + n <= MaxOrdinal
    ensures r.Some? ==> ValidDate(r.value) && Ordinal(r.value) == EpochOrdinal + n
  {
    if 1 <= EpochOrdinal + n <= MaxOrdinal then Some(FromOrdinal(EpochOrdinal + n)) else None
  }

  /** Every representable date is the image of exactly one serial number. */
  lemma SerialOfDate(d: Date)
    requires ValidDate(d)
    ensures SerialToDate(Ordinal(d) - EpochOrdinal) == Some(d)
    ensures forall n :: SerialToDate(n) == Some(d) ==> n == Ordinal(d) - EpochOrdinal
  {
    FromOrdinalOfOrdinal(d);
  }

  /** `date.isoformat()`: `YYYY-MM-DD`. */
  function IsoFormat(d: Date): (r: string)
    requires ValidDate(d)
    ensures |r| == 10 && r[4] == '-' && r[7] == '-'
  {
    Pad4(d.year) + "-" + Pad2(d.month) + "-" + Pad2(d.day)
  }

  lemma IsoFormatInjective(d1: Date, d2: Date)
    requires ValidDate(d1) && ValidDate(d2)
    requires IsoFormat(d1) == IsoFormat(d2)
    ensures d1 == d2
  {
    var s1, s2 := IsoFormat(d1), IsoFormat(d2);
    assert s1[0..4] == Pad4(d1.year) && s2[0..4] == Pad4(d2.year);
    assert s1[5..7] == Pad2(d1.month) && s2[5..7] == Pad2(d2.month);
    assert s1[8..10] == Pad2(d1.day) && s2[8..10] == Pad2(d2.day);
  }

  // ---- strptime ---------------------------------------------------------

  /** The strptime directives the service's formats use: `%Y`, `%y`, `%m`,
      `%d`, `%b`, a literal character and a run of format whitespace
      (which strptime turns into the regex `\s+`). */
  datatype Directive = Year4 | Year2 | Month | Day | MonthAbbrev | Lit(c: char) | Spaces

  datatype Capture = Capture(directive: Directive, text: string)

  const MonthAbbrevs: seq<string> :=
    ["jan", "feb", "mar", "apr", "may", "jun", "jul", "aug", "sep", "oct", "nov", "dec"]

  predicate IsOneToNine(c: char) { '1' <= c <= '9' }

  function LeadingSpaces(s: string): (n: nat)
    ensures n <= |s|
    ensures forall k :: 0 <= k < n ==> IsSpace(s[k])
    ensures n == |s| || !IsSpace(s[n])
  {
    if |s| > 0 && IsSpace(s[0]) then LeadingSpaces(s[1..]) + 1 else 0
  }

  function Countdown(n: nat): (r: seq<nat>)
    ensures |r| == n
    ensures forall i :: 0 <= i < n ==> r[i] == n - i
  {
    if n == 0 then [] else [n] + Countdown(n - 1)
  }

  /** The lengths of the prefixes of `s` that the directive's regex matches,
      in the order the regex engine tries them: alternatives left to right,
      and `\s+` greedily from the longest run down. */
  function Alternatives(dir: Directive, s: string): (r: seq<nat>)
    ensures forall i :: 0 <= i < |r| ==> 1 <= r[i] <= |s|
    ensures dir.Day? ==> forall i :: 0 <= i < |r| ==> r[i] <= 2
  {
    match dir
    case Year4 =>
      if |s| >= 4 && IsDigit(s[0]) && IsDigit(s[1]) && IsDigit(s[2]) && IsDigit(s[3]) then [4] else []
    case Year2 =>
      if |s| >= 2 && IsDigit(s[0]) && IsDigit(s[1]) then [2] else []
    case Month =>
      (if |s| >= 2 && s[0] == '1' && '0' <= s[1] <= '2' then [2] else [])
      + (if |s| >= 2 && s[0] == '0' && IsOneToNine(s[1]) then [2] else [])
      + (if |s| >= 1 && IsOneToNine(s[0]) then [1] else [])
    case Day =>
      (if |s| >= 2 && s[0] == '3' && (s[1] == '0' || s[1] == '1') then [2] else [])
      + (if |s| >= 2 && (s[0] == '1' || s[0] == '2') && IsDigit(s[1]) then [2] else [])
      + (if |s| >= 2 && s[0] == '0' && IsOneToNine(s[1]) then [2] else [])
      + (if |s| >= 1 && IsOneToNine(s[0]) then [1] else [])
      + (if |s| >= 2 && s[0] == ' ' && IsOneToNine(s[1]) then [2] else [])
    case MonthAbbrev =>
      if |s| >= 3 && Lower(s[..3]) in MonthAbbrevs then [3] else []
    case Lit(c) =>
      if |s| >= 1 && s[0] == c then [1] else []
    case Spaces =>
      Countdown(LeadingSpaces(s))
  }

  /** Backtracking match of a directive sequence against a prefix of `s`,
      as `re.match` does: the first success in the engine's order, with the
      captured texts and the unconsumed rest. */
  function MatchFrom(fmt: seq<Directive>, s: string): Option<(seq<Capture>, string)>
    decreases |fmt|, 1, 0
  {
    if |fmt| == 0 then Some(([], s)) else TryAlternatives(fmt, s, Alternatives(fmt[0], s))
  }

  function TryAlternatives(fmt: seq<Directive>, s: string, alts: seq<nat>): Option<(seq<Capture>, string)>
    requires |fmt| > 0
    requires forall i :: 0 <= i < |alts| ==> alts[i] <= |s|
    decreases |fmt|, 0, |alts|
  {
    if |alts| == 0 then None
    else
      var k := alts[0];
      match MatchFrom(fmt[1..], s[k..])
      case Some((caps, rest)) => Some(([Capture(fmt[0], s[..k])] + caps, rest))
      case None => TryAlternatives(fmt, s, alts[1..])
  }

  /** The number a digit capture denotes (`%d` may carry a leading blank). */
  function CaptureNumber(text: string): Option<nat>
  {
    DigitsValue(if |text| > 0 && text[0] == ' ' then text[1..] else text)
  }

  /** Applies the captures to the fields, starting from strptime's defaults
      (1900-01-01); None when a capture is not a number. */
  function Assign(caps: seq<Capture>, acc: Date): Option<Date>
  {
    if |caps| == 0 then Some(acc)
    else
      var c := caps[0];
      match c.directive
      case Year4 =>
        (match CaptureNumber(c.text)
         case None => None
         case Some(v) => Assign(caps[1..], acc.(year := v)))
      case Year2 =>
        (match CaptureNumber(c.text)
         case None => None
         case Some(v) => Assign(caps[1..], acc.(year := if v <= 68 then v + 2000 else v + 1900)))
      case Month =>
        (match CaptureNumber(c.text)
         case None => None
         case Some(v) => Assign(caps[1..], acc.(month := v)))
      case Day =>
        (match CaptureNumber(c.text)
         case None => None
         case Some(v) => Assign(caps[1..], acc.(day := v)))
      case MonthAbbrev =>
        var name := Lower(c.text);
        if name in MonthAbbrevs then
          Assign(caps[1..], acc.(month := MonthIndex(name, 0) + 1))
        else None
      case _ => Assign(caps[1..], acc)
  }

  function MonthIndex(name: string, i: nat): (r: nat)
    requires i <= |MonthAbbrevs|
    requires name in MonthAbbrevs[i..]
    ensures i <= r < |MonthAbbrevs| && MonthAbbrevs[r] == name
    decreases |MonthAbbrevs| - i
  {
    if MonthAbbrevs[i] == name then i else MonthIndex(name, i + 1)
  }

  /** `datetime.strptime(s, fmt).date()`; None where it raises ValueError:
      no match, unconverted data left over, or an impossible date. */
  function Strptime(s: string, fmt: seq<Directive>): (r: Option<Date>)
    ensures r.Some? ==> ValidDate(r.value)
  {
    match MatchFrom(fmt, s)
    case None => None
    case Some((caps, rest)) =>
      if rest != [] then None
      else
        match Assign(caps, Date(1900, 1, 1))
        case None => None
        case Some(d) => if ValidDate(d) then Some(d) else None
  }

  /** Tries each format in order and keeps the first date parsed. */
  function ParseWithFormats(s: string, fmts: seq<seq<Directive>>): (r: Option<Date>)
    ensures r.Some? ==> ValidDate(r.value)
  {
    if |fmts| == 0 then None
    else
      match Strptime(s, fmts[0])
      case Some(d) => Some(d)
      case None => ParseWithFormats(s, fmts[1..])
  }

  /** The first format that parses decides the result, and the result is
      None exactly when no format parses. */
  lemma {:induction false} FirstFormatWins(s: string, fmts: seq<seq<Directive>>, i: nat)
    requires i <= |fmts|
    requires forall j :: 0 <= j < i ==> Strptime(s, fmts[j]).None?
    ensures i < |fmts| ==> ParseWithFormats(s, fmts) == ParseWithFormats(s, fmts[i..])
    ensures i < |fmts| && Strptime(s, fmts[i]).Some? ==> ParseWithFormats(s, fmts) == Strptime(s, fmts[i])
    ensures i == |fmts| ==> ParseWithFormats(s, fmts) == None
  {
    if i > 0 {
      assert forall j :: 0 <= j < i - 1 ==> fmts[1..][j] == fmts[j + 1];
      FirstFormatWins(s, fmts[1..], i - 1);
      assert fmts[1..][i - 1..] == fmts[i..];
    }
  }

  // ---- ISO strings parse back -------------------------------------------

  const IsoDirectives: seq<Directive> := [Year4, Lit('-'), Month, Lit('-'), Day]

  /** One step of the matcher: when the first alternative of the first
      directive leads to a match of the rest, that match is the result. */
  lemma MatchFirstAlternative(fmt: seq<Directive>, s: string, caps: seq<Capture>, rest: string)
    requires |fmt| > 0
    requires |Alternatives(fmt[0], s)| > 0
    requires MatchFrom(fmt[1..], s[Alternatives(fmt[0], s)[0]..]) == Some((caps, rest))
    ensures MatchFrom(fmt, s) == Some(([Capture(fmt[0], s[..Alternatives(fmt[0], s)[0]])] + caps, rest))
  {
  }

  lemma Pad2Digits(n: nat)
    requires n < 100
    ensures DigitsValue(Pad2(n)) == Some(n)
  {
    var s := Pad2(n);
    assert s[..1] == [s[0]];
  }

  lemma Pad4Digits(n: nat)
    requires n < 10000
    ensures DigitsValue(Pad4(n)) == Some(n)
  {
    var s := Pad4(n);
    var v0, v1, v2, v3 := DigitValue(s[0]), DigitValue(s[1]), DigitValue(s[2]), DigitValue(s[3]);
    assert s[..3][..2][..1] == [s[0]];
    assert DigitsValue(s[..3][..2]) == Some(v0 * 10 + v1);
    assert s[..3][..2] == s[..2];
    assert DigitsValue(s[..3]) == Some((v0 * 10 + v1) * 10 + v2);
  }

  /** What `%Y-%m-%d` captures from an ISO string. */
  function IsoCaptures(d: Date): seq<Capture>
    requires ValidDate(d)
  {
    [Capture(Year4, Pad4(d.year)), Capture(Lit('-'), "-"), Capture(Month, Pad2(d.month)),
     Capture(Lit('-'), "-"), Capture(Day, Pad2(d.day))]
  }

  lemma IsoMatchDay(d: Date)
    requires ValidDate(d)
    ensures MatchFrom(IsoDirectives[3..], "-" + Pad2(d.day)) == Some((IsoCaptures(d)[3..], []))
  {
    var D := Pad2(d.day);
    DayTakesTwo(d.day);
    assert D + [] == D;
    assert IsoDirectives[4..][0] == Day && IsoDirectives[4..][1..] == [];
    MatchStep(IsoDirectives[4..], D, [], [], []);
    assert IsoDirectives[3..][0] == Lit('-') && IsoDirectives[3..][1..] == IsoDirectives[4..];
    MatchStep(IsoDirectives[3..], "-", D, [Capture(Day, D)] + [], []);
    assert [Capture(Lit('-'), "-")] + ([Capture(Day, D)] + []) == IsoCaptures(d)[3..];
  }

  /** `MatchFirstAlternative` for a string split where the first
      alternative ends. */
  lemma MatchStep(fmt: seq<Directive>, head: string, tail: string, caps: seq<Capture>, rest: string)
    requires |fmt| > 0
    requires |Alternatives(fmt[0], head + tail)| > 0 && Alternatives(fmt[0], head + tail)[0] == |head|
    requires MatchFrom(fmt[1..], tail) == Some((caps, rest))
    ensures MatchFrom(fmt, head + tail) == Some(([Capture(fmt[0], head)] + caps, rest))
  {
    var s := head + tail;
    assert s[|head|..] == tail && s[..|head|] == head;
    MatchFirstAlternative(fmt, s, caps, rest);
  }

  /** `%d` takes both digits of a zero-padded day. */
  lemma DayTakesTwo(n: nat)
    requires 1 <= n <= 31
    ensures |Alternatives(Day, Pad2(n))| > 0 && Alternatives(Day, Pad2(n))[0] == 2
  {
    var s := Pad2(n);
    if n >= 30 {
      assert s[0] == '3' && (s[1] == '0' || s[1] == '1');
    } else if n >= 10 {
      assert (s[0] == '1' || s[0] == '2') && IsDigit(s[1]);
    } else {
      assert s[0] == '0' && IsOneToNine(s[1]);
    }
  }

  /** `%m` takes both digits of a zero-padded month. */
  lemma MonthTakesTwo(m: nat, tail: string)
    requires 1 <= m <= 12
    ensures |Alternatives(Month, Pad2(m) + tail)| > 0 && Alternatives(Month, Pad2(m) + tail)[0] == 2
  {
    var s := Pad2(m) + tail;
    assert s[0] == Pad2(m)[0] && s[1] == Pad2(m)[1];
    if m >= 10 {
      assert s[0] == '1' && '0' <= s[1] <= '2';
    } else {
      assert s[0] == '0' && IsOneToNine(s[1]);
    }
  }

  lemma IsoMatchMonthDigits(d: Date)
    requires ValidDate(d)
    ensures MatchFrom(IsoDirectives[2..], Pad2(d.month) + ("-" + Pad2(d.day))) == Some((IsoCaptures(d)[2..], []))
  {
    var M := Pad2(d.month);
    var s3 := "-" + Pad2(d.day);
    IsoMatchDay(d);
    MonthTakesTwo(d.month, s3);
    assert IsoDirectives[2..][0] == Month && IsoDirectives[2..][1..] == IsoDirectives[3..];
    MatchStep(IsoDirectives[2..], M, s3, IsoCaptures(d)[3..], []);
    assert [Capture(Month, M)] + IsoCaptures(d)[3..] == IsoCaptures(d)[2..];
  }

  lemma IsoMatchMonth(d: Date)
    requires ValidDate(d)
    ensures MatchFrom(IsoDirectives[1..], "-" + Pad2(d.month) + "-" + Pad2(d.day)) == Some((IsoCaptures(d)[1..], []))
  {
    var s2 := Pad2(d.month) + ("-" + Pad2(d.day));
    IsoMatchMonthDigits(d);
    assert Alternatives(Lit('-'), "-" + s2) == [1];
    assert IsoDirectives[1..][0] == Lit('-') && IsoDirectives[1..][1..] == IsoDirectives[2..];
    MatchStep(IsoDirectives[1..], "-", s2, IsoCaptures(d)[2..], []);
    assert [Capture(Lit('-'), "-")] + IsoCaptures(d)[2..] == IsoCaptures(d)[1..];
    assert "-" + s2 == "-" + Pad2(d.month) + "-" + Pad2(d.day);
  }

  lemma IsoMatch(d: Date)
    requires ValidDate(d)
    ensures MatchFrom(IsoDirectives, IsoFormat(d)) == Some((IsoCaptures(d), []))
  {
    var s := IsoFormat(d);
    var Y := Pad4(d.year);
    var s1 := "-" + Pad2(d.month) + "-" + Pad2(d.day);
    IsoMatchMonth(d);
    assert s == Y + s1;
    assert s[4..] == s1 && s[..4] == Y;
    assert Alternatives(Year4, s) == [4];
    MatchFirstAlternative(IsoDirectives, s, IsoCaptures(d)[1..], []);
    assert [Capture(Year4, s[..4])] + IsoCaptures(d)[1..] == IsoCaptures(d);
  }

  lemma IsoAssign(d: Date)
    requires ValidDate(d)
    ensures Assign(IsoCaptures(d), Date(1900, 1, 1)) == Some(d)
  {
    var caps := IsoCaptures(d);
    Pad4Digits(d.year);
    Pad2Digits(d.month);
    Pad2Digits(d.day);
    assert CaptureNumber(Pad4(d.year)) == Some(d.year);
    assert CaptureNumber(Pad2(d.month)) == Some(d.month);
    assert CaptureNumber(Pad2(d.day)) == Some(d.day);
    var a1 := Date(d.year, 1, 1);
    var a3 := Date(d.year, d.month, 1);
    assert caps[4..][1..] == [];
    assert Assign(caps[4..], a3) == Some(d);
    assert caps[3..][1..] == caps[4..];
    assert Assign(caps[3..], a3) == Some(d);
    assert caps[2..][1..] == caps[3..];
    assert Assign(caps[2..], a1) == Some(d);
    assert caps[1..][1..] == caps[2..];
    assert Assign(caps[1..], a1) == Some(d);
  }

  /** An ISO date string parses back to the date under `%Y-%m-%d`. */
  lemma StrptimeIso(d: Date)
    requires ValidDate(d)
    ensures Strptime(IsoFormat(d), IsoDirectives) == Some(d)
  {
    IsoMatch(d);
    IsoAssign(d);
  }

  /** A format that starts `%d` followed by a literal separator cannot
      match an ISO string: the day takes one or two of the year's digits
      and the separator then meets a digit. */
  lemma DayFirstRejectsIso(d: Date, sep: char, tail: seq<Directive>)
    requires ValidDate(d) && !IsDigit(sep)
    ensures MatchFrom([Day, Lit(sep)] + tail, IsoFormat(d)) == None
  {
    var s := IsoFormat(d);
    var fmt := [Day, Lit(sep)] + tail;
    assert IsDigit(s[0]) && IsDigit(s[1]) && IsDigit(s[2]);
    var alts := Alternatives(Day, s);
    assert fmt[1..] == [Lit(sep)] + tail;
    forall i | 0 <= i < |alts|
      ensures MatchFrom(fmt[1..], s[alts[i]..]) == None
    {
      assert alts[i] == 1 || alts[i] == 2;
      assert Alternatives(Lit(sep), s[alts[i]..]) == [];
    }
    NoAlternativeMatches(fmt, s, alts);
  }

  lemma {:induction false} NoAlternativeMatches(fmt: seq<Directive>, s: string, alts: seq<nat>)
    requires |fmt| > 0
    requires forall i :: 0 <= i < |alts| ==> alts[i] <= |s|
    requires forall i :: 0 <= i < |alts| ==> MatchFrom(fmt[1..], s[alts[i]..]) == None
    ensures TryAlternatives(fmt, s, alts) == None
    decreases |alts|
  {
    if |alts| > 0 {
      assert forall i :: 0 <= i < |alts| - 1 ==> alts[1..][i] == alts[i + 1];
      NoAlternativeMatches(fmt, s, alts[1..]);
    }
  }
}
