/** `email_html_parser`: picks the CCM data table out of the tables of an
    arrival e-mail. The HTML parser itself is not modelled: a table arrives
    as its `tr` rows, each a list of `th`/`td` cells with their stripped
    text. */
module EmailHtmlParser {
  import opened Text
  import opened Seqs

  /** A `th` or `td` cell: whether it is a `th`, and its text as
      `get_text(strip=True)` gives it. */
  datatype Cell = Cell(isTh: bool, text: string)

  /** The cells of one `tr`. */
  type Tr = seq<Cell>

  /** The `tr` rows of one `table`, in document order. */
  type Table = seq<Tr>

  /** A row dictionary: its items in insertion order, each key once. */
  type RowDict = seq<(string, string)>

  /** The parsed table: header labels, data rows keyed by header, and the
      texts found above the header row. */
  datatype ParsedTable = ParsedTable(headers: seq<string>, rows: seq<RowDict>, extraTexts: seq<string>)

  // ---------------------------------------------------------------------
  // Rows of cells

  function Texts(tr: Tr): (r: seq<string>)
    ensures |r| == |tr| && forall i :: 0 <= i < |tr| ==> r[i] == tr[i].text
  {
    seq(|tr|, i requires 0 <= i < |tr| => tr[i].text)
  }

  /** `[text for text in texts if text]` */
  function NonEmpty(texts: seq<string>): (r: seq<string>)
    ensures forall t :: t in r ==> t in texts && t != ""
    ensures forall t :: t in texts && t != "" ==> t in r
    ensures |r| <= |texts|
  {
    if texts == [] then []
    else
      var last := texts[|texts| - 1];
      NonEmpty(texts[..|texts| - 1]) + (if last != "" then [last] else [])
  }

  /** `sum(bool(text.strip()) for text in texts)`: a text counts unless it
      is all whitespace. */
  function StripCount(texts: seq<string>): (r: nat)
    ensures r <= |texts|
    ensures r == 0 <==> forall i :: 0 <= i < |texts| ==> IsBlank(texts[i])
  {
    if texts == [] then 0
    else StripCount(texts[..|texts| - 1]) + (if !IsBlank(texts[|texts| - 1]) then 1 else 0)
  }

  predicate HasTh(tr: Tr)
  {
    exists i :: 0 <= i < |tr| && tr[i].isTh
  }

  /** The row that supplies the headers: it has a `th` cell or more than
      one non-empty cell, and at least one non-empty cell. */
  predicate IsHeaderRow(tr: Tr)
  {
    (HasTh(tr) || |NonEmpty(Texts(tr))| > 1) && NonEmpty(Texts(tr)) != []
  }

  /** The index of the header row: the first row that qualifies. */
  function HeaderIndex(table: Table): (r: Option<nat>)
    ensures r.Some? ==> r.value < |table| && IsHeaderRow(table[r.value])
                        && forall k :: 0 <= k < r.value ==> !IsHeaderRow(table[k])
    ensures r.None? ==> forall k :: 0 <= k < |table| ==> !IsHeaderRow(table[k])
  {
    if table == [] then None
    else
      var before := HeaderIndex(table[..|table| - 1]);
      if before.Some? then before
      else if IsHeaderRow(table[|table| - 1]) then Some(|table| - 1)
      else None
  }

  /** The non-empty texts of the rows above the header row, in order. */
  function Extras(rows: Table): seq<string>
  {
    if rows == [] then []
    else
      var ne := NonEmpty(Texts(rows[|rows| - 1]));
      if ne == [] then Extras(rows[..|rows| - 1]) else Extras(rows[..|rows| - 1]) + ne
  }

  /** The rows below the header row with at least two non-blank cells, as
      their texts. */
  function DataRows(rows: Table): (r: seq<seq<string>>)
    ensures forall k :: 0 <= k < |r| ==> StripCount(r[k]) >= 2
  {
    if rows == [] then []
    else
      var texts := Texts(rows[|rows| - 1]);
      if StripCount(texts) >= 2 then DataRows(rows[..|rows| - 1]) + [texts] else DataRows(rows[..|rows| - 1])
  }

  /** What the scanning loop of `_parse_table_element` collects: the
      headers, the data rows and the texts above the header row. */
  function Scanned(table: Table): (seq<string>, seq<seq<string>>, seq<string>)
  {
    match HeaderIndex(table)
    case None => ([], [], Extras(table))
    case Some(h) => (NonEmpty(Texts(table[h])), DataRows(table[h + 1..]), Extras(table[..h]))
  }

  // ---------------------------------------------------------------------
  // Row dictionaries

  function Keys(d: RowDict): set<string>
  {
    set i | 0 <= i < |d| :: d[i].0
  }

  function Values(d: RowDict): (r: seq<string>)
    ensures |r| == |d| && forall i :: 0 <= i < |d| ==> r[i] == d[i].1
  {
    seq(|d|, i requires 0 <= i < |d| => d[i].1)
  }

  /** `d.get(key)` */
  function Get(d: RowDict, key: string): (r: Option<string>)
    ensures r.Some? <==> key in Keys(d)
  {
    if d == [] then None
    else if d[0].0 == key then Some(d[0].1)
    else
      var r := Get(d[1..], key);
      assert Keys(d) == {d[0].0} + Keys(d[1..]) by {
        forall k | k in Keys(d) ensures k in {d[0].0} + Keys(d[1..]) {
          var i :| 0 <= i < |d| && d[i].0 == k;
          if i > 0 { assert d[1..][i - 1] == d[i]; }
        }
      }
      r
  }

  /** `d[key] = value`: an existing key keeps its place, a new one goes
      last. */
  function Put(d: RowDict, key: string, value: string): (r: RowDict)
    ensures Get(r, key) == Some(value)
    ensures forall k :: k != key ==> Get(r, k) == Get(d, k)
    ensures Keys(r) == Keys(d) + {key}
  {
    if d == [] then [(key, value)]
    else if d[0].0 == key then
      KeysCons(d[0], d[1..]);
      KeysCons((key, value), d[1..]);
      assert d == [d[0]] + d[1..];
      [(key, value)] + d[1..]
    else
      var r := [d[0]] + Put(d[1..], key, value);
      KeysCons(d[0], d[1..]);
      KeysCons(d[0], Put(d[1..], key, value));
      assert d == [d[0]] + d[1..];
      r
  }

  lemma KeysCons(x: (string, string), d: RowDict)
    ensures Keys([x] + d) == {x.0} + Keys(d)
  {
    var e := [x] + d;
    assert e[0] == x;
    forall k | k in Keys(e) ensures k in {x.0} + Keys(d) {
      var i :| 0 <= i < |e| && e[i].0 == k;
      if i > 0 { assert e[i] == d[i - 1]; }
    }
    forall k | k in Keys(d) ensures k in Keys(e) {
      var i :| 0 <= i < |d| && d[i].0 == k;
      assert e[i + 1] == d[i];
    }
  }

  /** `{headers[i]: padded[i] for i in range(len(headers))}` */
  function RowOf(headers: seq<string>, padded: seq<string>): (r: RowDict)
    requires |padded| >= |headers|
    ensures Keys(r) == set i | 0 <= i < |headers| :: headers[i]
  {
    if headers == [] then []
    else
      var n := |headers| - 1;
      var r := Put(RowOf(headers[..n], padded), headers[n], padded[n]);
      assert (set i | 0 <= i < |headers| :: headers[i]) == (set i | 0 <= i < n :: headers[..n][i]) + {headers[n]} by {
        forall i | 0 <= i < |headers|
          ensures headers[i] in (set i | 0 <= i < n :: headers[..n][i]) + {headers[n]}
        {
          if i < n { assert headers[..n][i] == headers[i]; }
        }
      }
      r
  }

  /** The value a header ends up with is the cell under the last column
      carrying that label. */
  lemma {:induction false} RowOfLookup(headers: seq<string>, padded: seq<string>, j: int)
    requires |padded| >= |headers| && 0 <= j < |headers|
    requires forall k :: j < k < |headers| ==> headers[k] != headers[j]
    ensures Get(RowOf(headers, padded), headers[j]) == Some(padded[j])
    decreases |headers|
  {
    var n := |headers| - 1;
    if j < n {
      RowOfLookup(headers[..n], padded, j);
    }
  }

  /** `row + [""] * (count - len(row))` */
  function Padded(row: seq<string>, count: nat): (r: seq<string>)
    ensures |r| >= count && |r| >= |row|
    ensures forall i :: 0 <= i < |r| ==> r[i] == if i < |row| then row[i] else ""
  {
    if |row| >= count then row else row + seq(count - |row|, _ => "")
  }

  // ---------------------------------------------------------------------
  // Text normalisation and heuristics

  /** `_normalize_text`: accents folded to ASCII, stripped, lower-cased. */
  function NormalizeText(s: string): (r: string)
    ensures forall k :: 0 <= k < |r| ==> IsAscii(r[k]) && !IsAsciiUpper(r[k])
  {
    var t := AsciiFold(s);
    StripKeeps(t, IsAscii);
    Lower(Strip(t))
  }

  /** `_row_resembles_headers`: the row's non-empty values, normalised,
      form a non-empty subset of the normalised headers. */
  predicate ResemblesHeaders(row: RowDict, headers: seq<string>)
  {
    var normalizedHeaders := set i | 0 <= i < |headers| :: NormalizeText(headers[i]);
    var normalizedValues := set i | 0 <= i < |row| && row[i].1 != "" :: NormalizeText(row[i].1);
    normalizedValues != {} && normalizedValues <= normalizedHeaders
  }

  const ExpectedFragments: seq<string> :=
    ["distrito", "zona", "zona horaria", "observaciones", "rama", "hermanas", "elder", "total", "generacion"]

  const NumericFragments: seq<string> := ["rama", "total", "hermanas", "elder"]

  /** `any(fragment in s for fragment in fragments)`, scanning the
      fragments in order. */
  function FindAny(s: string, fragments: seq<string>): bool
  {
    fragments != [] && (Find(s, fragments[0]) || FindAny(s, fragments[1..]))
  }

  /** `FindAny` holds exactly when one of the fragments occurs in `s`. */
  lemma {:induction false} FindAnySpec(s: string, fragments: seq<string>)
    ensures FindAny(s, fragments) <==> exists i :: 0 <= i < |fragments| && Contains(s, fragments[i])
    decreases |fragments|
  {
    if fragments != [] {
      FindAnySpec(s, fragments[1..]);
      if exists i :: 0 <= i < |fragments| && Contains(s, fragments[i]) {
        var i :| 0 <= i < |fragments| && Contains(s, fragments[i]);
        if i > 0 {
          assert fragments[1..][i - 1] == fragments[i];
        }
      }
      if FindAny(s, fragments[1..]) {
        var i :| 0 <= i < |fragments[1..]| && Contains(s, fragments[1..][i]);
        assert fragments[i + 1] == fragments[1..][i];
      }
    }
  }

  /** `_header_matches_expected` */
  predicate HeaderMatchesExpected(header: string)
  {
    FindAny(header, ExpectedFragments)
  }

  /** The header test of `_numeric_signal`: the normalised header holds one of the
      numeric fragments. */
  predicate IsNumericHeader(header: string)
  {
    FindAny(NormalizeText(header), NumericFragments)
  }

  /** Every character except `c`. */
  function Without(s: string, c: char): (r: string)
    ensures forall k :: 0 <= k < |r| ==> r[k] != c
    ensures |r| <= |s|
  {
    if s == [] then []
    else Without(s[..|s| - 1], c) + (if s[|s| - 1] == c then [] else [s[|s| - 1]])
  }

  /** Removing `c` keeps every other character. */
  lemma {:induction false} WithoutMembers(s: string, c: char, x: char)
    requires x != c
    ensures x in Without(s, c) <==> x in s
    decreases |s|
  {
    if s != [] {
      var n := |s| - 1;
      WithoutMembers(s[..n], c, x);
      assert s == s[..n] + [s[n]];
    }
  }

  /** `s.replace(c, "", 1)` */
  function DropFirst(s: string, c: char): (r: string)
  {
    if c in s then s[..IndexOf(s, c)] + s[IndexOf(s, c) + 1..] else s
  }

  predicate AllDigits(s: string)
  {
    s != [] && forall k :: 0 <= k < |s| ==> IsDigit(s[k])
  }

  /** `_looks_numeric` */
  predicate LooksNumeric(value: string)
  {
    var stripped := Without(Without(value, ','), ' ');
    stripped != [] && AllDigits(DropFirst(stripped, '.'))
  }

  /** At most one `c` in `s`. */
  predicate AtMostOne(s: string, c: char)
  {
    forall i, j :: 0 <= i < j < |s| && s[i] == c ==> s[j] != c
  }

  /** A value looks numeric exactly when, commas and spaces removed, it is
      digits with at most one decimal point and at least one digit. */
  lemma LooksNumericSpec(value: string)
    ensures var t := Without(Without(value, ','), ' ');
            LooksNumeric(value) <==>
              (forall k :: 0 <= k < |t| ==> IsDigit(t[k]) || t[k] == '.')
              && AtMostOne(t, '.')
              && (exists k :: 0 <= k < |t| && IsDigit(t[k]))
  {
    var t := Without(Without(value, ','), ' ');
    if '.' in t {
      var p := IndexOf(t, '.');
      DropPointDigits(t, p);
    } else {
      assert DropFirst(t, '.') == t;
      if t != [] && AllDigits(t) {
        assert IsDigit(t[0]);
      }
    }
  }

  /** Dropping the first point, at `p`, leaves only digits exactly when
      `t` is digits around that one point with at least one digit. */
  lemma DropPointDigits(t: string, p: nat)
    requires '.' in t && p == IndexOf(t, '.')
    ensures AllDigits(DropFirst(t, '.')) <==>
              (forall k :: 0 <= k < |t| ==> IsDigit(t[k]) || t[k] == '.')
              && AtMostOne(t, '.')
              && (exists k :: 0 <= k < |t| && IsDigit(t[k]))
  {
    forall i | 0 <= i < p
      ensures t[i] != '.'
    {
      assert t[..p][i] == t[i];
    }
    if AllDigits(DropFirst(t, '.')) {
      PointDigitsOnly(t, p);
    }
    if (forall k :: 0 <= k < |t| ==> IsDigit(t[k]) || t[k] == '.') && AtMostOne(t, '.')
       && (exists k :: 0 <= k < |t| && IsDigit(t[k])) {
      DigitsAroundPoint(t, p);
    }
  }

  lemma PointDigitsOnly(t: string, p: nat)
    requires p < |t| && t[p] == '.' && forall i :: 0 <= i < p ==> t[i] != '.'
    requires AllDigits(t[..p] + t[p + 1..])
    ensures forall k :: 0 <= k < |t| ==> IsDigit(t[k]) || t[k] == '.'
    ensures AtMostOne(t, '.')
    ensures exists k :: 0 <= k < |t| && IsDigit(t[k])
  {
    var u := t[..p] + t[p + 1..];
    assert forall k :: 0 <= k < p ==> u[k] == t[k];
    assert forall k :: p < k < |t| ==> u[k - 1] == t[k];
    forall i, j | 0 <= i < j < |t| && t[i] == '.'
      ensures t[j] != '.'
    {
      assert u[j - 1] == t[j];
    }
    if p > 0 {
      assert IsDigit(t[0]);
    } else {
      assert IsDigit(t[1]);
    }
  }

  lemma DigitsAroundPoint(t: string, p: nat)
    requires p < |t| && t[p] == '.'
    requires forall k :: 0 <= k < |t| ==> IsDigit(t[k]) || t[k] == '.'
    requires AtMostOne(t, '.')
    requires exists k :: 0 <= k < |t| && IsDigit(t[k])
    ensures AllDigits(t[..p] + t[p + 1..])
  {
    var u := t[..p] + t[p + 1..];
    assert forall k :: 0 <= k < p ==> u[k] == t[k];
    assert forall k :: p < k < |t| ==> u[k - 1] == t[k];
    var k :| 0 <= k < |t| && IsDigit(t[k]);
    if k < p { assert u[k] == t[k]; } else { assert u[k - 1] == t[k]; }
  }

  // ---------------------------------------------------------------------
  // Parsing one table

  /** `any(text.strip() for text in row)` */
  predicate AnyNonBlank(row: seq<string>)
  {
    exists i :: 0 <= i < |row| && !IsBlank(row[i])
  }

  /** The normalisation loop: blank rows and rows echoing the headers are
      dropped, the rest are padded and keyed by header. */
  function NormalizedRows(rows: seq<seq<string>>, headers: seq<string>): (r: seq<RowDict>)
    ensures |r| <= |rows|
  {
    if rows == [] then []
    else
      var init := NormalizedRows(rows[..|rows| - 1], headers);
      var row := rows[|rows| - 1];
      if !AnyNonBlank(row) then init
      else
        var d := RowOf(headers, Padded(row, |headers|));
        if ResemblesHeaders(d, headers) then init else init + [d]
  }

  /** A row dictionary the normalisation keeps: keyed by exactly the header
      labels, not an echo of the headers, and built from a non-blank input
      row padded to the header count. */
  ghost predicate KeptRow(d: RowDict, rows: seq<seq<string>>, headers: seq<string>)
  {
    !ResemblesHeaders(d, headers) && Keys(d) == (set i | 0 <= i < |headers| :: headers[i])
    && exists j :: 0 <= j < |rows| && AnyNonBlank(rows[j]) && d == RowOf(headers, Padded(rows[j], |headers|))
  }

  lemma {:induction false} NormalizedRowsSpec(rows: seq<seq<string>>, headers: seq<string>)
    ensures var r := NormalizedRows(rows, headers);
            forall k :: 0 <= k < |r| ==> KeptRow(r[k], rows, headers)
    decreases |rows|
  {
    if rows != [] {
      var n := |rows| - 1;
      NormalizedRowsSpec(rows[..n], headers);
      NormalizedRowsSnoc(rows, headers, n);
      assert rows[..n + 1] == rows;
      var init := NormalizedRows(rows[..n], headers);
      var r := NormalizedRows(rows, headers);
      forall k | 0 <= k < |r|
        ensures KeptRow(r[k], rows, headers)
      {
        if k < |init| {
          KeptRowWiden(init[k], rows, headers, n);
        } else {
          KeptRowLast(rows, headers);
        }
      }
    }
  }

  lemma KeptRowWiden(d: RowDict, rows: seq<seq<string>>, headers: seq<string>, n: int)
    requires 0 <= n <= |rows| && KeptRow(d, rows[..n], headers)
    ensures KeptRow(d, rows, headers)
  {
    var j :| 0 <= j < n && AnyNonBlank(rows[..n][j]) && d == RowOf(headers, Padded(rows[..n][j], |headers|));
    assert rows[..n][j] == rows[j];
  }

  lemma KeptRowLast(rows: seq<seq<string>>, headers: seq<string>)
    requires rows != []
    requires var n := |rows| - 1;
             AnyNonBlank(rows[n]) && !ResemblesHeaders(RowOf(headers, Padded(rows[n], |headers|)), headers)
    ensures KeptRow(RowOf(headers, Padded(rows[|rows| - 1], |headers|)), rows, headers)
  {
  }

  /** `_parse_table_element`: None with `headers_missing` when no row
      qualifies as the header row; otherwise the table, with `rows_missing`
      when no data row survives. */
  function ParseTable(table: Table): (Option<ParsedTable>, seq<string>)
  {
    var (headers, rows, extra) := Scanned(table);
    if headers == [] then (None, ["headers_missing"])
    else
      var normalized := NormalizedRows(rows, headers);
      (Some(ParsedTable(headers, normalized, extra)), if normalized == [] then ["rows_missing"] else [])
  }

  /** A table has no result exactly when no row qualifies as the header
      row, and then the error is `headers_missing`; a result has headers,
      and `rows_missing` is reported exactly when it has no rows. */
  lemma ParseTableErrors(table: Table)
    ensures var r := ParseTable(table);
            (r.0.None? <==> HeaderIndex(table).None?)
            && (r.0.None? ==> r.1 == ["headers_missing"])
            && (r.0.Some? ==> r.0.value.headers != [] && (r.1 == [] || r.1 == ["rows_missing"]))
            && (r.0.Some? ==> (r.1 == ["rows_missing"] <==> r.0.value.rows == []))
  {
  }

  /** The header row is the first qualifying row; its non-empty texts are
      the headers, the non-empty texts above it are the extra texts, and the
      data rows come from below it. */
  lemma ParseTableSpec(table: Table)
    requires HeaderIndex(table).Some?
    ensures var h := HeaderIndex(table).value;
            var p := ParseTable(table).0.value;
            IsHeaderRow(table[h]) && (forall k :: 0 <= k < h ==> !IsHeaderRow(table[k]))
            && p.headers == NonEmpty(Texts(table[h]))
            && p.extraTexts == Extras(table[..h])
            && p.rows == NormalizedRows(DataRows(table[h + 1..]), p.headers)
  {
  }

  method ParseTableElement(table: Table) returns (parsed: Option<ParsedTable>, errors: seq<string>)
    ensures (parsed, errors) == ParseTable(table)
  {
    var headers, rows, extra := ScanTable(table);
    if headers == [] {
      return None, ["headers_missing"];
    }
    var normalized := NormalizeRows(rows, headers);
    errors := if normalized == [] then ["rows_missing"] else [];
    parsed := Some(ParsedTable(headers, normalized, extra));
  }

  /** The row-scanning loop of `_parse_table_element`. */
  method ScanTable(table: Table) returns (headers: seq<string>, rows: seq<seq<string>>, extra: seq<string>)
    ensures (headers, rows, extra) == Scanned(table)
  {
    headers, rows, extra := [], [], [];
    var found := false;
    for i := 0 to |table|
      invariant (headers, rows, extra) == Scanned(table[..i])
      invariant found == HeaderIndex(table[..i]).Some?
    {
      var cells := table[i];
      ScannedSnoc(table, i);
      if cells == [] {
        assert Texts(cells) == [];
        continue;
      }
      var cellTexts := Texts(cells);
      var nonEmpty := NonEmpty(cellTexts);
      if !found {
        if HasTh(cells) || |nonEmpty| > 1 {
          if nonEmpty != [] {
            headers := nonEmpty;
            found := true;
            continue;
          }
        }
        if nonEmpty != [] {
          extra := extra + nonEmpty;
        }
        continue;
      }
      var count := StripCount(cellTexts);
      if count == 0 {
        continue;
      }
      if count <= 1 {
        continue;
      }
      rows := rows + [cellTexts];
    }
    assert table[..|table|] == table;
  }

  /** One more row of the table: above the header row it is either the
      header row or adds its non-empty texts to the extras; below it, it
      is a data row when at least two of its cells are not blank. */
  lemma ScannedSnoc(table: Table, i: int)
    requires 0 <= i < |table|
    ensures var (headers, rows, extra) := Scanned(table[..i]);
            var texts := Texts(table[i]);
            var ne := NonEmpty(texts);
            Scanned(table[..i + 1]) ==
              if HeaderIndex(table[..i]).Some? then
                (headers, if StripCount(texts) >= 2 then rows + [texts] else rows, extra)
              else if IsHeaderRow(table[i]) then (ne, [], extra)
              else (headers, rows, if ne == [] then extra else extra + ne)
  {
    HeaderIndexSnoc(table, i);
    match HeaderIndex(table[..i])
    case Some(h) => ScannedSnocBelow(table, h, i);
    case None =>
      ExtrasSnoc(table, i);
      if IsHeaderRow(table[i]) {
        assert table[..i + 1][i + 1..] == [];
        assert table[..i + 1][..i] == table[..i];
      }
  }

  lemma ScannedSnocBelow(table: Table, h: nat, i: int)
    requires 0 <= i < |table| && HeaderIndex(table[..i]) == Some(h)
    requires HeaderIndex(table[..i + 1]) == Some(h)
    ensures Scanned(table[..i + 1]).0 == Scanned(table[..i]).0
    ensures Scanned(table[..i + 1]).2 == Scanned(table[..i]).2
    ensures var texts := Texts(table[i]);
            Scanned(table[..i + 1]).1 ==
              if StripCount(texts) >= 2 then Scanned(table[..i]).1 + [texts] else Scanned(table[..i]).1
  {
    var t := table[..i + 1];
    assert t[h] == table[..i][h] == table[h];
    assert t[..h] == table[..i][..h];
    assert t[h + 1..] == table[h + 1..i + 1];
    assert table[..i][h + 1..] == table[h + 1..i];
    DataRowsSnoc(table, h + 1, i);
  }

  lemma HeaderIndexSnoc(table: Table, i: int)
    requires 0 <= i < |table|
    ensures HeaderIndex(table[..i + 1]) ==
              if HeaderIndex(table[..i]).Some? then HeaderIndex(table[..i])
              else if IsHeaderRow(table[i]) then Some(i) else None
  {
    assert table[..i + 1][..i] == table[..i];
  }

  lemma ExtrasSnoc(table: Table, i: int)
    requires 0 <= i < |table|
    ensures var ne := NonEmpty(Texts(table[i]));
            Extras(table[..i + 1]) == if ne == [] then Extras(table[..i]) else Extras(table[..i]) + ne
  {
    assert table[..i + 1][..i] == table[..i];
  }

  lemma DataRowsSnoc(table: Table, from: int, i: int)
    requires 0 <= from <= i < |table|
    ensures var texts := Texts(table[i]);
            DataRows(table[from..i + 1]) ==
              if StripCount(texts) >= 2 then DataRows(table[from..i]) + [texts] else DataRows(table[from..i])
  {
    SliceFront(table, from, i);
  }

  /** The normalisation loop of `_parse_table_element`. */
  method NormalizeRows(rows: seq<seq<string>>, headers: seq<string>) returns (normalized: seq<RowDict>)
    ensures normalized == NormalizedRows(rows, headers)
  {
    normalized := [];
    for j := 0 to |rows|
      invariant normalized == NormalizedRows(rows[..j], headers)
    {
      NormalizedRowsSnoc(rows, headers, j);
      var row := rows[j];
      if !AnyNonBlank(row) {
        continue;
      }
      var padded := Padded(row, |headers|);
      var rowDict := RowOf(headers, padded);
      if ResemblesHeaders(rowDict, headers) {
        continue;
      }
      normalized := normalized + [rowDict];
    }
    assert rows[..|rows|] == rows;
  }

  lemma NormalizedRowsSnoc(rows: seq<seq<string>>, headers: seq<string>, j: int)
    requires 0 <= j < |rows|
    ensures var row := rows[j];
            var d := RowOf(headers, Padded(row, |headers|));
            NormalizedRows(rows[..j + 1], headers)
            == if !AnyNonBlank(row) || ResemblesHeaders(d, headers) then NormalizedRows(rows[..j], headers)
               else NormalizedRows(rows[..j], headers) + [d]
  {
    assert rows[..j + 1][..j] == rows[..j];
  }

  // ---------------------------------------------------------------------
  // Scoring

  function Min(a: int, b: int): int { if a <= b then a else b }

  function NormalizedHeaders(headers: seq<string>): (r: seq<string>)
    ensures |r| == |headers| && forall i :: 0 <= i < |headers| ==> r[i] == NormalizeText(headers[i])
  {
    seq(|headers|, i requires 0 <= i < |headers| => NormalizeText(headers[i]))
  }

  /** How many headers contain an expected fragment. */
  function KeywordMatches(normalized: seq<string>): (r: nat)
    ensures r <= |normalized|
    ensures r == 0 <==> forall i :: 0 <= i < |normalized| ==> !HeaderMatchesExpected(normalized[i])
  {
    if normalized == [] then 0
    else KeywordMatches(normalized[..|normalized| - 1]) + (if HeaderMatchesExpected(normalized[|normalized| - 1]) then 1 else 0)
  }

  /** `[x for x in xs if keep(x)]` */
  function Filter(xs: seq<string>, keep: string -> bool): (r: seq<string>)
    ensures forall x :: x in r <==> x in xs && keep(x)
    ensures |r| <= |xs|
  {
    if xs == [] then []
    else
      var last := xs[|xs| - 1];
      var r := Filter(xs[..|xs| - 1], keep);
      assert xs == xs[..|xs| - 1] + [last];
      r + (if keep(last) then [last] else [])
  }

  lemma FilterSnoc(xs: seq<string>, keep: string -> bool, i: int)
    requires 0 <= i < |xs|
    ensures Filter(xs[..i + 1], keep) == Filter(xs[..i], keep) + if keep(xs[i]) then [xs[i]] else []
  {
    assert xs[..i + 1][..i] == xs[..i];
  }

  /** The headers expected to hold numbers, repeats included. */
  function NumericHeaders(headers: seq<string>): seq<string>
  {
    Filter(headers, IsNumericHeader)
  }

  /** `row.get(header, "")` */
  function CellOf(row: RowDict, header: string): string
  {
    match Get(row, header)
    case Some(v) => v
    case None => ""
  }

  /** The numeric-looking cells of one row under the given headers. */
  function RowNumericCells(row: RowDict, headers: seq<string>): (r: nat)
    ensures r <= |headers|
  {
    if headers == [] then 0
    else RowNumericCells(row, headers[..|headers| - 1]) + (if LooksNumeric(CellOf(row, headers[|headers| - 1])) then 1 else 0)
  }

  function NumericCells(rows: seq<RowDict>, headers: seq<string>): nat
  {
    if rows == [] then 0
    else
      var n := |rows| - 1;
      NumericCells(rows[..n], headers) + RowNumericCells(rows[n], headers)
  }

  /** At most every cell under the given headers looks numeric. */
  lemma {:induction false} NumericCellsBound(rows: seq<RowDict>, headers: seq<string>)
    ensures NumericCells(rows, headers) <= |rows| * |headers|
    decreases |rows|
  {
    if rows != [] {
      var n := |rows| - 1;
      NumericCellsBound(rows[..n], headers);
      MulSucc(n, |headers|);
    }
  }

  lemma MulSucc(n: nat, m: nat)
    ensures (n + 1) * m == n * m + m
  {
  }

  /** `_numeric_signal` as the fraction numerator / denominator; `(0, 0)`
      where it returns 0.0 early. */
  function NumericSignalOf(rows: seq<RowDict>, headers: seq<string>): (nat, nat)
  {
    var numeric := NumericHeaders(headers);
    if rows == [] || numeric == [] then (0, 0)
    else (NumericCells(rows, numeric), Product(|numeric|, |rows|))
  }

  function Product(a: nat, b: nat): nat
  {
    a * b
  }

  /** The denominator counts one cell per numeric header and row, and the
      numerator never exceeds it: the ratio lies between 0 and 1. */
  lemma NumericSignalBounds(rows: seq<RowDict>, headers: seq<string>)
    ensures var (numeric, total) := NumericSignalOf(rows, headers);
            numeric <= total && total == |NumericHeaders(headers)| * |rows|
  {
    var hs := NumericHeaders(headers);
    if rows != [] && hs != [] {
      NumericCellsBound(rows, hs);
      assert |rows| * |hs| == |hs| * |rows|;
    }
  }

  /** `numeric_ratio >= 0.6`, compared exactly. */
  predicate MostlyNumeric(rows: seq<RowDict>, headers: seq<string>)
  {
    var (numeric, total) := NumericSignalOf(rows, headers);
    total > 0 && 5 * numeric >= 3 * total
  }

  method NumericSignal(rows: seq<RowDict>, headers: seq<string>) returns (numeric: nat, total: nat)
    ensures (numeric, total) == NumericSignalOf(rows, headers)
  {
    if rows == [] {
      return 0, 0;
    }
    var numericHeaders := FilterList(headers, IsNumericHeader);
    if numericHeaders == [] {
      return 0, 0;
    }
    numeric := CountNumericCells(rows, numericHeaders);
    total := Product(|numericHeaders|, |rows|);
  }

  /** The outer loop of `_numeric_signal` over the rows. */
  method CountNumericCells(rows: seq<RowDict>, numericHeaders: seq<string>) returns (numeric: nat)
    ensures numeric == NumericCells(rows, numericHeaders)
  {
    numeric := 0;
    for j := 0 to |rows|
      invariant numeric == NumericCells(rows[..j], numericHeaders)
    {
      NumericCellsSnoc(rows, numericHeaders, j);
      var inRow := CountRowNumericCells(rows[j], numericHeaders);
      numeric := numeric + inRow;
    }
    assert rows[..|rows|] == rows;
  }

  /** The list comprehension `[x for x in xs if keep(x)]` as a loop. */
  method FilterList(xs: seq<string>, keep: string -> bool) returns (r: seq<string>)
    ensures r == Filter(xs, keep)
  {
    r := [];
    for i := 0 to |xs|
      invariant r == Filter(xs[..i], keep)
    {
      FilterSnoc(xs, keep, i);
      if keep(xs[i]) {
        r := r + [xs[i]];
      }
    }
    assert xs[..|xs|] == xs;
  }

  /** The inner loop of `_numeric_signal` over one row. */
  method CountRowNumericCells(row: RowDict, numericHeaders: seq<string>) returns (count: nat)
    ensures count == RowNumericCells(row, numericHeaders)
  {
    count := 0;
    for k := 0 to |numericHeaders|
      invariant count == RowNumericCells(row, numericHeaders[..k])
    {
      RowNumericCellsSnoc(row, numericHeaders, k);
      if LooksNumeric(CellOf(row, numericHeaders[k])) {
        count := count + 1;
      }
    }
    assert numericHeaders[..|numericHeaders|] == numericHeaders;
  }

  lemma NumericCellsSnoc(rows: seq<RowDict>, headers: seq<string>, j: int)
    requires 0 <= j < |rows|
    ensures NumericCells(rows[..j + 1], headers) == NumericCells(rows[..j], headers) + RowNumericCells(rows[j], headers)
  {
    assert rows[..j + 1][..j] == rows[..j];
  }

  lemma RowNumericCellsSnoc(row: RowDict, headers: seq<string>, k: int)
    requires 0 <= k < |headers|
    ensures RowNumericCells(row, headers[..k + 1]) ==
              RowNumericCells(row, headers[..k]) + if LooksNumeric(CellOf(row, headers[k])) then 1 else 0
  {
    assert headers[..k + 1][..k] == headers[..k];
  }

  /** `_score_table` */
  function ScoreTable(t: ParsedTable): int
  {
    var normalized := NormalizedHeaders(t.headers);
    if normalized == [] then 0
    else
      var matches := KeywordMatches(normalized);
      matches * 10 + Min(|t.rows|, 50)
      + (if MostlyNumeric(t.rows, t.headers) then 5 else 0)
      + (if exists i :: 0 <= i < |normalized| && Find(normalized[i], "generacion") then 3 else 0)
      - (if matches < 2 then 5 else 0)
  }

  /** The score is ten per keyword header plus the row count capped at 50,
      within the bonuses (numbers +5, "generacion" +3) and the penalty for
      fewer than two keyword headers (-5). */
  lemma ScoreBounds(t: ParsedTable)
    requires t.headers != []
    ensures var m := KeywordMatches(NormalizedHeaders(t.headers));
            var base := 10 * m + Min(|t.rows|, 50);
            base - (if m < 2 then 5 else 0) <= ScoreTable(t) <= base + 8 - (if m < 2 then 5 else 0)
  {
  }

  /** A table with at least two keyword headers beats one with none unless
      the second has twenty or more rows more (counting up to 50). */
  lemma KeywordTableWins(a: ParsedTable, b: ParsedTable)
    requires a.headers != [] && b.headers != []
    requires KeywordMatches(NormalizedHeaders(a.headers)) >= 2
    requires KeywordMatches(NormalizedHeaders(b.headers)) == 0
    requires Min(|b.rows|, 50) < Min(|a.rows|, 50) + 20
    ensures ScoreTable(a) > ScoreTable(b)
  {
    ScoreBounds(a);
    NoKeywordScore(b);
  }

  /** Without a keyword header there is no "generacion" bonus either, so
      the score is at most the capped row count. */
  lemma NoKeywordScore(t: ParsedTable)
    requires t.headers != []
    requires KeywordMatches(NormalizedHeaders(t.headers)) == 0
    ensures ScoreTable(t) <= Min(|t.rows|, 50)
  {
    var n := NormalizedHeaders(t.headers);
    if exists i :: 0 <= i < |n| && Find(n[i], "generacion") {
      var i :| 0 <= i < |n| && Find(n[i], "generacion");
      assert ExpectedFragments[8] == "generacion";
      FindAnySpec(n[i], ExpectedFragments);
      assert HeaderMatchesExpected(n[i]);
    }
  }

  // ---------------------------------------------------------------------
  // Choosing the table

  /** What `_parse_table_element` gives for each table. */
  function Candidates(tables: seq<Table>): (r: seq<(Option<ParsedTable>, seq<string>)>)
    ensures |r| == |tables| && forall k :: 0 <= k < |tables| ==> r[k] == ParseTable(tables[k])
  {
    seq(|tables|, k requires 0 <= k < |tables| => ParseTable(tables[k]))
  }

  /** The score of each candidate that parsed. */
  function Scores(cands: seq<(Option<ParsedTable>, seq<string>)>): (r: seq<Option<int>>)
    ensures |r| == |cands|
    ensures forall k :: 0 <= k < |cands| ==>
              r[k] == if cands[k].0.Some? then Some(ScoreTable(cands[k].0.value)) else None
  {
    seq(|cands|, k requires 0 <= k < |cands| =>
      if cands[k].0.Some? then Some(ScoreTable(cands[k].0.value)) else None)
  }

  /** The index of the best score: the highest among the candidates that
      parsed, the earliest on a tie. */
  function BestIndex(scores: seq<Option<int>>): (r: Option<nat>)
    ensures r.None? <==> forall k :: 0 <= k < |scores| ==> scores[k].None?
    ensures r.Some? ==> r.value < |scores| && scores[r.value].Some?
    ensures r.Some? ==> forall k :: 0 <= k < |scores| && scores[k].Some? ==>
                          scores[k].value <= scores[r.value].value
    ensures r.Some? ==> forall k :: 0 <= k < r.value && scores[k].Some? ==>
                          scores[k].value < scores[r.value].value
  {
    if scores == [] then None
    else
      var n := |scores| - 1;
      var before := BestIndex(scores[..n]);
      assert forall k :: 0 <= k < n ==> scores[..n][k] == scores[k];
      var p := scores[n];
      if p.None? then before
      else if before.None? || p.value > scores[before.value].value then Some(n)
      else before
  }

  /** The errors of the candidates without a table, in order. */
  function Fallback(cands: seq<(Option<ParsedTable>, seq<string>)>): (r: seq<string>)
    ensures forall e :: e in r ==> exists k :: 0 <= k < |cands| && cands[k].0.None? && e in cands[k].1
  {
    if cands == [] then []
    else
      var n := |cands| - 1;
      assert forall k :: 0 <= k < n ==> cands[..n][k] == cands[k];
      if cands[n].0.None? then Fallback(cands[..n]) + cands[n].1 else Fallback(cands[..n])
  }

  /** One more candidate adds its errors to the fallback when it has no table. */
  lemma FallbackSnoc(cands: seq<(Option<ParsedTable>, seq<string>)>, i: int)
    requires 0 <= i < |cands|
    ensures Fallback(cands[..i + 1]) ==
              if cands[i].0.None? then Fallback(cands[..i]) + cands[i].1 else Fallback(cands[..i])
  {
    assert cands[..i + 1][..i] == cands[..i];
  }

  /** One more score replaces the best only when it is strictly higher. */
  lemma BestIndexSnoc(scores: seq<Option<int>>, i: int)
    requires 0 <= i < |scores|
    ensures var before := BestIndex(scores[..i]);
            BestIndex(scores[..i + 1]) ==
              if scores[i].None? then before
              else if before.None? || scores[i].value > scores[before.value].value then Some(i)
              else before
  {
    assert scores[..i + 1][..i] == scores[..i];
  }

  /** When every candidate without a table reports the single error `e`,
      the fallback holds nothing else, and it is empty exactly when every
      candidate has a table. */
  lemma {:induction false} FallbackUniform(cands: seq<(Option<ParsedTable>, seq<string>)>, e: string)
    requires forall k :: 0 <= k < |cands| && cands[k].0.None? ==> cands[k].1 == [e]
    ensures forall i :: 0 <= i < |Fallback(cands)| ==> Fallback(cands)[i] == e
    ensures Fallback(cands) == [] <==> forall k :: 0 <= k < |cands| ==> cands[k].0.Some?
    decreases |cands|
  {
    if cands != [] {
      var n := |cands| - 1;
      assert forall k :: 0 <= k < n ==> cands[..n][k] == cands[k];
      FallbackUniform(cands[..n], e);
      FallbackSnoc(cands, n);
      assert cands[..n + 1] == cands;
      if Fallback(cands[..n]) != [] {
        var k :| 0 <= k < n && cands[..n][k].0.None?;
        assert cands[k].0.None?;
      }
    }
  }

  /** Every table without a header row contributes `headers_missing`. */
  lemma FallbackOfTables(tables: seq<Table>)
    ensures var f := Fallback(Candidates(tables));
            (forall i :: 0 <= i < |f| ==> f[i] == "headers_missing")
            && (f == [] <==> forall k :: 0 <= k < |tables| ==> ParseTable(tables[k]).0.Some?)
  {
    forall k | 0 <= k < |tables| {
      ParseTableErrors(tables[k]);
    }
    FallbackUniform(Candidates(tables), "headers_missing");
  }

  /** Inserts `x` into a strictly ascending list unless it is there. */
  function InsertDistinct(x: string, ys: seq<string>): (r: seq<string>)
    ensures forall e :: e in r <==> e == x || e in ys
  {
    if ys == [] then [x]
    else if x == ys[0] then ys
    else if LessOrEqual(x, ys[0]) then [x] + ys
    else [ys[0]] + InsertDistinct(x, ys[1..])
  }

  /** `sorted(set(xs))` */
  function SortedDistinct(xs: seq<string>): (r: seq<string>)
    ensures forall e :: e in r <==> e in xs
  {
    if xs == [] then [] else InsertDistinct(xs[0], SortedDistinct(xs[1..]))
  }

  predicate StrictlySorted(ys: seq<string>)
  {
    forall i, j :: 0 <= i < j < |ys| ==> LessOrEqual(ys[i], ys[j]) && ys[i] != ys[j]
  }

  lemma {:induction false} InsertDistinctSorted(x: string, ys: seq<string>)
    requires StrictlySorted(ys)
    ensures StrictlySorted(InsertDistinct(x, ys))
    decreases |ys|
  {
    if ys != [] && x != ys[0] {
      if LessOrEqual(x, ys[0]) {
        var r := [x] + ys;
        forall i, j | 0 <= i < j < |r|
          ensures LessOrEqual(r[i], r[j]) && r[i] != r[j]
        {
          if i == 0 {
            if j > 1 {
              LessOrEqualTransitive(x, ys[0], ys[j - 1]);
              if x == ys[j - 1] {
                LessOrEqualAntisymmetric(x, ys[0]);
              }
            }
          }
        }
      } else {
        LessOrEqualTotal(x, ys[0]);
        var tail := ys[1..];
        InsertDistinctSorted(x, tail);
        var rest := InsertDistinct(x, tail);
        var r := [ys[0]] + rest;
        forall i, j | 0 <= i < j < |r|
          ensures LessOrEqual(r[i], r[j]) && r[i] != r[j]
        {
          if i == 0 {
            var e := rest[j - 1];
            assert e in rest;
            if e == x {
              if x == ys[0] {
              }
            } else {
              var k :| 0 <= k < |tail| && tail[k] == e;
              assert ys[k + 1] == e;
            }
          }
        }
      }
    }
  }

  lemma {:induction false} SortedDistinctSorted(xs: seq<string>)
    ensures StrictlySorted(SortedDistinct(xs))
    decreases |xs|
  {
    if xs != [] {
      SortedDistinctSorted(xs[1..]);
      InsertDistinctSorted(xs[0], SortedDistinct(xs[1..]));
    }
  }

  /** Sorting the distinct values of a non-empty list holding one value
      gives that value alone. */
  lemma {:induction false} SortedDistinctConstant(xs: seq<string>, c: string)
    requires xs != [] && forall i :: 0 <= i < |xs| ==> xs[i] == c
    ensures SortedDistinct(xs) == [c]
    decreases |xs|
  {
    if |xs| > 1 {
      SortedDistinctConstant(xs[1..], c);
    }
  }

  /** `extract_primary_table`: `tables` stands for what the HTML parser
      found in `html`. */
  function PrimaryTable(html: string, tables: seq<Table>): (Option<ParsedTable>, seq<string>)
  {
    if html == [] || Strip(html) == [] then (None, ["html_missing"])
    else if tables == [] then (None, ["table_missing"])
    else Choose(Candidates(tables))
  }

  /** The choice among the parsed candidates: the best-scoring table, or
      else the sorted distinct errors of the candidates. */
  function Choose(cands: seq<(Option<ParsedTable>, seq<string>)>): (Option<ParsedTable>, seq<string>)
  {
    match BestIndex(Scores(cands))
    case Some(b) => cands[b]
    case None =>
      var errors := SortedDistinct(Fallback(cands));
      (None, if errors == [] then ["table_candidate_missing"] else errors)
  }

  /** Blank HTML and an empty list of tables are reported before any
      table is looked at. */
  lemma PrimaryTableMissing(html: string, tables: seq<Table>)
    ensures Strip(html) == [] ==> PrimaryTable(html, tables) == (None, ["html_missing"])
    ensures Strip(html) != [] && tables == [] ==> PrimaryTable(html, tables) == (None, ["table_missing"])
  {
  }

  /** When some table has a header row, the chosen one is a parsed
      candidate that scores at least as high as every candidate that
      parsed, and strictly higher than every earlier one. */
  lemma PrimaryTableIsBest(html: string, tables: seq<Table>, k: nat)
    requires Strip(html) != []
    requires k < |tables| && ParseTable(tables[k]).0.Some?
    ensures PrimaryTable(html, tables) == Choose(Candidates(tables))
    ensures var cands := Candidates(tables);
            var best := BestIndex(Scores(cands));
            best.Some? && best.value < |tables|
            && var b := best.value;
               Choose(cands) == cands[b] && cands[b].0.Some?
               && (forall k :: 0 <= k < |tables| && cands[k].0.Some? ==>
                     ScoreTable(cands[k].0.value) <= ScoreTable(cands[b].0.value))
               && (forall k :: 0 <= k < b && cands[k].0.Some? ==>
                     ScoreTable(cands[k].0.value) < ScoreTable(cands[b].0.value))
  {
    ChooseIsBest(Candidates(tables), k);
  }

  /** With some candidate parsed, `Choose` picks the one `BestIndex` names. */
  lemma ChooseIsBest(cands: seq<(Option<ParsedTable>, seq<string>)>, k: nat)
    requires k < |cands| && cands[k].0.Some?
    ensures var best := BestIndex(Scores(cands));
            best.Some? && best.value < |cands|
            && var b := best.value;
               Choose(cands) == cands[b] && cands[b].0.Some?
               && (forall k :: 0 <= k < |cands| && cands[k].0.Some? ==>
                     ScoreTable(cands[k].0.value) <= ScoreTable(cands[b].0.value))
               && (forall k :: 0 <= k < b && cands[k].0.Some? ==>
                     ScoreTable(cands[k].0.value) < ScoreTable(cands[b].0.value))
  {
    var scores := Scores(cands);
    assert scores[k].Some?;
    var b := BestIndex(scores).value;
    BestCandidate(cands, b);
  }

  /** The candidate `BestIndex` picks has a table, scores at least as high
      as every candidate with a table, and strictly higher than every
      earlier one. */
  lemma BestCandidate(cands: seq<(Option<ParsedTable>, seq<string>)>, b: nat)
    requires BestIndex(Scores(cands)) == Some(b)
    ensures b < |cands| && cands[b].0.Some?
    ensures forall k :: 0 <= k < |cands| && cands[k].0.Some? ==>
              ScoreTable(cands[k].0.value) <= ScoreTable(cands[b].0.value)
    ensures forall k :: 0 <= k < b && cands[k].0.Some? ==>
              ScoreTable(cands[k].0.value) < ScoreTable(cands[b].0.value)
  {
    var scores := Scores(cands);
    forall k | 0 <= k < |cands| && cands[k].0.Some?
      ensures ScoreTable(cands[k].0.value) <= ScoreTable(cands[b].0.value)
      ensures k < b ==> ScoreTable(cands[k].0.value) < ScoreTable(cands[b].0.value)
    {
      assert scores[k] == Some(ScoreTable(cands[k].0.value));
    }
  }

  /** When no table has a header row the only error is `headers_missing`:
      with at least one table, `table_candidate_missing` cannot occur. */
  lemma NoHeaderRowAnywhere(html: string, tables: seq<Table>)
    requires Strip(html) != [] && tables != []
    requires forall k :: 0 <= k < |tables| ==> ParseTable(tables[k]).0.None?
    ensures PrimaryTable(html, tables) == (None, ["headers_missing"])
  {
    var cands := Candidates(tables);
    FallbackOfTables(tables);
    assert ParseTable(tables[0]).0.Some? == false;
    SortedDistinctConstant(Fallback(cands), "headers_missing");
  }

  method ExtractPrimaryTable(html: string, tables: seq<Table>) returns (table: Option<ParsedTable>, errors: seq<string>)
    ensures (table, errors) == PrimaryTable(html, tables)
  {
    if html == [] || Strip(html) == [] {
      return None, ["html_missing"];
    }
    if tables == [] {
      return None, ["table_missing"];
    }
    ghost var cands := Candidates(tables);
    ghost var scores := Scores(cands);
    var best: Option<(ParsedTable, seq<string>, int, nat)> := None;
    var fallback: seq<string> := [];
    for index := 0 to |tables|
      invariant fallback == Fallback(cands[..index])
      invariant best.None? <==> BestIndex(scores[..index]).None?
      invariant best.Some? ==>
                  best.value.3 == BestIndex(scores[..index]).value && best.value.3 < index
                  && (Some(best.value.0), best.value.1) == cands[best.value.3]
                  && scores[best.value.3] == Some(best.value.2)
    {
      FallbackSnoc(cands, index);
      BestIndexSnoc(scores, index);
      var parsed, candidateErrors := ParseTableElement(tables[index]);
      assert cands[index] == (parsed, candidateErrors);
      if parsed.None? {
        fallback := fallback + candidateErrors;
        continue;
      }
      var score := ScoreTable(parsed.value);
      if best.None? || score > best.value.2 {
        best := Some((parsed.value, candidateErrors, score, index));
      }
    }
    assert cands[..|tables|] == cands;
    assert scores[..|tables|] == scores;
    if best.Some? {
      return Some(best.value.0), best.value.1;
    }
    var sorted := SortedDistinct(fallback);
    errors := if sorted == [] then ["table_candidate_missing"] else sorted;
    table := None;
  }
}
