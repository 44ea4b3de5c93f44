/** `email_content_utils`: finds the generation date ("15 de enero de
    2025") in the texts of an arrival e-mail and formats it as `YYYYMMDD`,
    and gathers the texts of a parsed table for that search.

    The two regular expressions are modelled by a deterministic scanner
    (`Scan`) and, independently, by the predicate `Matches`, which says
    where the pieces of a match lie; the scanner finds exactly the matches
    the predicate describes. */
module EmailContent {
  import opened Text
  import opened Seqs
  import EmailHtmlParser

  // ---------------------------------------------------------------------
  // Month names

  /** `_MONTH_ALIASES`, in its order. */
  const MonthAliases: seq<(string, string)> := [
    ("enero", "01"), ("febrero", "02"), ("marzo", "03"), ("abril", "04"),
    ("mayo", "05"), ("junio", "06"), ("julio", "07"), ("agosto", "08"),
    ("septiembre", "09"), ("setiembre", "09"), ("sept", "09"),
    ("octubre", "10"), ("oct", "10"), ("noviembre", "11"), ("diciembre", "12")]

  /** A two-digit month number, "01" to "12". */
  predicate IsMonthNumber(m: string)
  {
    |m| == 2 && IsDigit(m[0]) && IsDigit(m[1]) && 1 <= DigitValue(m[0]) * 10 + DigitValue(m[1]) <= 12
  }

  lemma AliasesAreMonths()
    ensures forall k :: 0 <= k < |MonthAliases| ==> IsMonthNumber(MonthAliases[k].1)
  {
  }

  /** `table.get(key)` */
  function Lookup(table: seq<(string, string)>, key: string): (r: Option<string>)
    ensures r.Some? ==> exists k :: 0 <= k < |table| && table[k] == (key, r.value)
    ensures r.None? ==> forall k :: 0 <= k < |table| ==> table[k].0 != key
  {
    if table == [] then None
    else if table[0].0 == key then Some(table[0].1)
    else
      var r := Lookup(table[1..], key);
      assert r.Some? ==> exists k :: 0 <= k < |table| && table[k] == (key, r.value) by {
        if r.Some? {
          var k :| 0 <= k < |table[1..]| && table[1..][k] == (key, r.value);
          assert table[k + 1] == (key, r.value);
        }
      }
      assert forall k :: 1 <= k < |table| ==> table[k] == table[1..][k - 1];
      r
  }

  /** `_normalize_month_name`: accents are dropped (NFKD, then ASCII), the
      name lower-cased and stripped, and looked up. */
  function NormalizeMonthName(value: string): (r: Option<string>)
    ensures r.Some? ==> IsMonthNumber(r.value)
  {
    AliasesAreMonths();
    MonthIn(MonthAliases, value)
  }

  /** The month of the first entry whose name is the folded value. */
  function MonthIn(table: seq<(string, string)>, value: string): (r: Option<string>)
    ensures r.Some? ==> exists k :: 0 <= k < |table| && table[k].1 == r.value
  {
    if table == [] then None
    else if table[0].0 == Strip(Lower(AsciiFold(value))) then Some(table[0].1)
    else
      var r := MonthIn(table[1..], value);
      assert r.Some? ==> exists k :: 1 <= k < |table| && table[k].1 == r.value by {
        if r.Some? {
          var k :| 0 <= k < |table[1..]| && table[1..][k].1 == r.value;
          assert table[k + 1].1 == r.value;
        }
      }
      r
  }

  /** The month found is `_MONTH_ALIASES.get` of the folded, lower-cased
      and stripped name. */
  lemma {:induction false} MonthInLookup(table: seq<(string, string)>, value: string)
    ensures MonthIn(table, value) == Lookup(table, Strip(Lower(AsciiFold(value))))
    decreases |table|
  {
    if table != [] {
      MonthInLookup(table[1..], value);
    }
  }

  lemma FoldLowerChar(c: char)
    ensures FoldChar(LowerChar(c)) == Lower(FoldChar(c))
  {
  }

  lemma LowerConcat(a: string, b: string)
    ensures Lower(a + b) == Lower(a) + Lower(b)
  {
  }

  /** Folding accents and lower-casing commute. */
  lemma {:induction false} FoldLower(s: string)
    ensures AsciiFold(Lower(s)) == Lower(AsciiFold(s))
    decreases |s|
  {
    if s != [] {
      var front := s[..|s| - 1];
      var last := s[|s| - 1];
      FoldLower(front);
      assert Lower(s)[..|s| - 1] == Lower(front);
      FoldLowerChar(last);
      LowerConcat(AsciiFold(front), FoldChar(last));
    }
  }

  /** Month names are recognised whatever their case, so a spelling the
      case-insensitive patterns capture in capitals resolves like the
      lower-case one. */
  lemma MonthIgnoresCase(v: string, w: string)
    requires Lower(v) == Lower(w)
    ensures NormalizeMonthName(v) == NormalizeMonthName(w)
  {
    MonthInLookup(MonthAliases, v);
    MonthInLookup(MonthAliases, w);
    FoldLower(v);
    FoldLower(w);
    LowerIdempotent(AsciiFold(v));
    LowerIdempotent(AsciiFold(w));
  }

  // ---------------------------------------------------------------------
  // Patterns as token lists

  /** `[A-Za-zÁÉÍÓÚáéíóúñÑ]` */
  predicate IsMonthLetter(c: char)
  {
    IsAsciiUpper(c) || IsAsciiLower(c)
    || c in {'\U{C1}', '\U{C9}', '\U{CD}', '\U{D3}', '\U{DA}', '\U{E1}', '\U{E9}', '\U{ED}', '\U{F3}', '\U{FA}', '\U{F1}', '\U{D1}'}
  }

  /** The character classes the patterns repeat: `\s`, `\d` and the month
      letters. */
  datatype Class = Space | Digit | Letter

  predicate In(c: char, cls: Class)
  {
    match cls
    case Space => IsSpace(c)
    case Digit => IsDigit(c)
    case Letter => IsMonthLetter(c)
  }

  /** One element of a pattern: a literal compared case-insensitively,
      `cls+`, `cls{lo,hi}`, or `(?:word\s+)?`. */
  datatype Token =
    | Lit(text: string)
    | Plus(cls: Class)
    | Count(cls: Class, lo: nat, hi: nat)
    | OptWord(word: string)

  /** The two case-insensitive patterns:
      `Generación\s+del\s+(\d{1,2})\s+de\s+(L+)\s+de\s+(\d{4})` and
      `(\d{1,2})\s+de\s+(L+)\s+(?:de\s+)?(\d{4})`, with `L` the month
      letters. */
  datatype Pattern = Generacion | Generic

  function Tokens(pat: Pattern): seq<Token>
  {
    match pat
    case Generacion =>
      [Lit("Generaci\U{F3}n"), Plus(Space), Lit("del"), Plus(Space), Count(Digit, 1, 2), Plus(Space),
       Lit("de"), Plus(Space), Plus(Letter), Plus(Space), Lit("de"), Plus(Space), Count(Digit, 4, 4)]
    case Generic =>
      [Count(Digit, 1, 2), Plus(Space), Lit("de"), Plus(Space), Plus(Letter), Plus(Space),
       OptWord("de"), Count(Digit, 4, 4)]
  }

  /** Which tokens are the day, month and year groups. */
  function DayToken(pat: Pattern): nat { if pat.Generacion? then 4 else 0 }
  function MonthToken(pat: Pattern): nat { if pat.Generacion? then 8 else 4 }
  function YearToken(pat: Pattern): nat { if pat.Generacion? then 12 else 7 }

  // ---------------------------------------------------------------------
  // What a match is

  /** Every character of `s[lo..hi]` is in `cls`. */
  predicate AllIn(s: string, lo: nat, hi: nat, cls: Class)
  {
    lo <= hi <= |s| && forall k :: lo <= k < hi ==> In(s[k], cls)
  }

  /** The literal `lit` occurs at `i`, compared case-insensitively. */
  predicate CiAt(s: string, i: nat, lit: string)
  {
    i + |lit| <= |s| && forall k :: 0 <= k < |lit| ==> LowerChar(s[i + k]) == LowerChar(lit[k])
  }

  /** The token matches `s[a..b]`. */
  predicate TokenAt(s: string, a: nat, b: nat, tok: Token)
  {
    a <= b <= |s| &&
    match tok
    case Lit(t) => b == a + |t| && CiAt(s, a, t)
    case Plus(cls) => a < b && AllIn(s, a, b, cls)
    case Count(cls, lo, hi) => lo <= b - a <= hi && AllIn(s, a, b, cls)
    case OptWord(t) => b == a || (CiAt(s, a, t) && a + |t| < b && AllIn(s, a + |t|, b, Space))
  }

  /** Where token `k` starts, given where each token ends. */
  function StartOf(i: nat, ends: seq<nat>, k: nat): nat
    requires k <= |ends|
  {
    if k == 0 then i else ends[k - 1]
  }

  /** The tokens match `s` from `i` on, token `k` ending at `ends[k]`: the
      meaning of a regular expression that is a plain concatenation. */
  predicate Matches(s: string, i: nat, tokens: seq<Token>, ends: seq<nat>)
  {
    |ends| == |tokens|
    && forall k {:trigger tokens[k]} :: 0 <= k < |tokens| ==> TokenAt(s, StartOf(i, ends, k), ends[k], tokens[k])
  }

  lemma MatchesCons(s: string, i: nat, b: nat, tok: Token, rest: seq<Token>, ends: seq<nat>)
    requires TokenAt(s, i, b, tok) && Matches(s, b, rest, ends)
    ensures Matches(s, i, [tok] + rest, [b] + ends)
  {
    var tokens, e := [tok] + rest, [b] + ends;
    forall k | 0 < k < |tokens|
      ensures TokenAt(s, StartOf(i, e, k), e[k], tokens[k])
    {
      assert tokens[k] == rest[k - 1] && e[k] == ends[k - 1] && StartOf(i, e, k) == StartOf(b, ends, k - 1);
    }
  }

  /** Every token of a match ends at or after where the match starts. */
  lemma {:induction false} EndsFrom(s: string, i: nat, tokens: seq<Token>, ends: seq<nat>)
    requires Matches(s, i, tokens, ends)
    ensures forall k :: 0 <= k < |ends| ==> i <= ends[k] <= |s|
    decreases |tokens|
  {
    if tokens != [] {
      MatchesTail(s, i, tokens, ends);
      EndsFrom(s, ends[0], tokens[1..], ends[1..]);
      forall k | 0 < k < |ends| ensures i <= ends[k] {
        assert ends[k] == ends[1..][k - 1];
      }
    }
  }

  lemma MatchesTail(s: string, i: nat, tokens: seq<Token>, ends: seq<nat>)
    requires Matches(s, i, tokens, ends) && tokens != []
    ensures TokenAt(s, i, ends[0], tokens[0]) && Matches(s, ends[0], tokens[1..], ends[1..])
  {
    assert TokenAt(s, StartOf(i, ends, 0), ends[0], tokens[0]);
    forall k | 0 <= k < |tokens| - 1
      ensures TokenAt(s, StartOf(ends[0], ends[1..], k), ends[1..][k], tokens[1..][k])
    {
      assert TokenAt(s, StartOf(i, ends, k + 1), ends[k + 1], tokens[k + 1]);
    }
  }

  // ---------------------------------------------------------------------
  // The scanner

  /** Length of the longest run of characters of `cls` from `i`. */
  function Run(s: string, i: nat, cls: Class): (n: nat)
    requires i <= |s|
    ensures AllIn(s, i, i + n, cls)
    ensures i + n == |s| || !In(s[i + n], cls)
    decreases |s| - i
  {
    if i < |s| && In(s[i], cls) then 1 + Run(s, i + 1, cls) else 0
  }

  /** A run that ends where the next character leaves the class is the
      longest. */
  lemma RunExact(s: string, lo: nat, hi: nat, cls: Class)
    requires AllIn(s, lo, hi, cls) && (hi == |s| || !In(s[hi], cls))
    ensures Run(s, lo, cls) == hi - lo
  {
  }

  lemma RunAtLeast(s: string, lo: nat, hi: nat, cls: Class)
    requires AllIn(s, lo, hi, cls)
    ensures Run(s, lo, cls) >= hi - lo
  {
  }

  function Min(a: nat, b: nat): nat { if a <= b then a else b }

  function Then(b: nat, rest: Option<seq<nat>>): Option<seq<nat>>
  {
    if rest.None? then None else Some([b] + rest.value)
  }

  /** Where a literal or a repetition ends when it starts at `i`, each
      repetition as long as it may be. */
  function Step(s: string, i: nat, tok: Token): (b: Option<nat>)
    requires i <= |s| && !tok.OptWord?
    ensures b.Some? ==> TokenAt(s, i, b.value, tok)
  {
    match tok
    case Lit(t) => if CiAt(s, i, t) then Some(i + |t|) else None
    case Plus(cls) =>
      var n := Run(s, i, cls);
      if n == 0 then None else Some(i + n)
    case Count(cls, lo, hi) =>
      var n := Min(Run(s, i, cls), hi);
      RunAtLeast(s, i, i + n, cls);
      if n < lo then None else Some(i + n)
  }

  /** Where `word\s+` ends when it starts at `i`. */
  function WordEnd(s: string, i: nat, t: string): (b: Option<nat>)
    requires i <= |s|
    ensures b.Some? ==> i < b.value && TokenAt(s, i, b.value, OptWord(t))
  {
    if CiAt(s, i, t) && Run(s, i + |t|, Space) > 0 then Some(i + |t| + Run(s, i + |t|, Space)) else None
  }

  /** How the regular expression engine runs the tokens from `i`: every
      repetition takes as many characters as it may, and an optional word
      is tried first and skipped if the rest then fails. */
  function Scan(s: string, i: nat, tokens: seq<Token>): Option<seq<nat>>
    requires i <= |s|
    decreases |tokens|
  {
    if tokens == [] then Some([])
    else if tokens[0].OptWord? then
      var w := WordEnd(s, i, tokens[0].word);
      if w.Some? && Scan(s, w.value, tokens[1..]).Some? then Then(w.value, Scan(s, w.value, tokens[1..]))
      else Then(i, Scan(s, i, tokens[1..]))
    else
      match Step(s, i, tokens[0])
      case None => None
      case Some(b) => Then(b, Scan(s, b, tokens[1..]))
  }

  /** What the scanner finds is a match of the tokens. */
  lemma {:induction false} ScanSound(s: string, i: nat, tokens: seq<Token>)
    requires i <= |s|
    ensures Scan(s, i, tokens).Some? ==> Matches(s, i, tokens, Scan(s, i, tokens).value)
    decreases |tokens|
  {
    var r := Scan(s, i, tokens);
    if tokens != [] && r.Some? {
      var b := r.value[0];
      assert TokenAt(s, i, b, tokens[0]);
      assert tokens == [tokens[0]] + tokens[1..] && r.value == [b] + r.value[1..];
      ScanSound(s, b, tokens[1..]);
      MatchesCons(s, i, b, tokens[0], tokens[1..], r.value[1..]);
    }
  }

  // ---------------------------------------------------------------------
  // The scanner finds every match

  /** Characters alike to `ch` up to case, or the characters of a class. */
  datatype CharSet = Like(ch: char) | OfClass(cls: Class)

  predicate InSet(c: char, cs: CharSet)
  {
    match cs
    case Like(ch) => LowerChar(c) == LowerChar(ch)
    case OfClass(cls) => In(c, cls)
  }

  ghost predicate Disjoint(x: CharSet, y: CharSet)
  {
    forall c :: !(InSet(c, x) && InSet(c, y))
  }

  /** Any text the tokens match starts with a character outside `cs`. */
  ghost predicate StartsOutside(tokens: seq<Token>, cs: CharSet)
    decreases |tokens|
  {
    tokens != [] &&
    match tokens[0]
    case Lit(t) => t != [] && Disjoint(Like(t[0]), cs)
    case Plus(cls) => Disjoint(OfClass(cls), cs)
    case Count(cls, lo, hi) => lo >= 1 && Disjoint(OfClass(cls), cs)
    case OptWord(t) => t != [] && Disjoint(Like(t[0]), cs) && StartsOutside(tokens[1..], cs)
  }

  /** After a repetition that could stop earlier, and after an optional
      word, the rest of the pattern cannot go on with the same kind of
      character, so the engine never needs to give characters back. */
  ghost predicate SeparatedAt(tokens: seq<Token>, k: nat)
    requires k < |tokens|
  {
    match tokens[k]
    case Lit(_) => true
    case Plus(cls) => StartsOutside(tokens[k + 1..], OfClass(cls))
    case Count(cls, lo, hi) => lo < hi ==> StartsOutside(tokens[k + 1..], OfClass(cls))
    case OptWord(t) =>
      t != [] && StartsOutside(tokens[k + 1..], Like(t[0])) && StartsOutside(tokens[k + 1..], OfClass(Space))
  }

  ghost predicate Separated(tokens: seq<Token>)
  {
    forall k :: 0 <= k < |tokens| ==> SeparatedAt(tokens, k)
  }

  lemma SeparatedTail(tokens: seq<Token>)
    requires Separated(tokens) && tokens != []
    ensures Separated(tokens[1..])
  {
    forall k | 0 <= k < |tokens| - 1
      ensures SeparatedAt(tokens[1..], k)
    {
      assert SeparatedAt(tokens, k + 1);
      assert tokens[1..][k + 1..] == tokens[k + 2..];
    }
  }

  lemma CiAtFirst(s: string, i: nat, t: string)
    ensures CiAt(s, i, t) && t != [] ==> i < |s| && InSet(s[i], Like(t[0]))
  {
    if CiAt(s, i, t) && t != [] {
      assert LowerChar(s[i + 0]) == LowerChar(t[0]);
    }
  }

  /** The first character a match of `tokens` consumes lies outside `cs`. */
  lemma {:induction false} FirstOutside(s: string, a: nat, tokens: seq<Token>, ends: seq<nat>, cs: CharSet)
    requires StartsOutside(tokens, cs) && Matches(s, a, tokens, ends)
    ensures a < |s| && !InSet(s[a], cs)
    decreases |tokens|
  {
    MatchesTail(s, a, tokens, ends);
    match tokens[0]
    case Lit(t) =>
      CiAtFirst(s, a, t);
    case Plus(cls) =>
      assert In(s[a], cls);
    case Count(cls, lo, hi) =>
      assert In(s[a], cls);
    case OptWord(t) =>
      if ends[0] == a {
        FirstOutside(s, a, tokens[1..], ends[1..], cs);
      } else {
        CiAtFirst(s, a, t);
      }
  }

  /** A literal or a repetition that is followed by a match of the rest
      ends where the scanner ends it. */
  lemma StepComplete(s: string, i: nat, b: nat, tokens: seq<Token>, ends: seq<nat>)
    requires tokens != [] && !tokens[0].OptWord? && SeparatedAt(tokens, 0)
    requires TokenAt(s, i, b, tokens[0]) && Matches(s, b, tokens[1..], ends)
    ensures Step(s, i, tokens[0]) == Some(b)
  {
    match tokens[0]
    case Lit(t) =>
    case Plus(cls) =>
      FirstOutside(s, b, tokens[1..], ends, OfClass(cls));
      RunExact(s, i, b, cls);
    case Count(cls, lo, hi) =>
      RunAtLeast(s, i, b, cls);
      if b - i < hi {
        FirstOutside(s, b, tokens[1..], ends, OfClass(cls));
        RunExact(s, i, b, cls);
      }
  }

  /** An optional word the match skips is not there for the scanner
      either. */
  lemma WordSkipped(s: string, i: nat, tokens: seq<Token>, ends: seq<nat>)
    requires tokens != [] && tokens[0].OptWord? && SeparatedAt(tokens, 0)
    requires Matches(s, i, tokens[1..], ends)
    ensures WordEnd(s, i, tokens[0].word).None?
  {
    var t := tokens[0].word;
    FirstOutside(s, i, tokens[1..], ends, Like(t[0]));
    CiAtFirst(s, i, t);
  }

  /** An optional word the match takes ends where the scanner ends it. */
  lemma WordTaken(s: string, i: nat, b: nat, tokens: seq<Token>, ends: seq<nat>)
    requires tokens != [] && tokens[0].OptWord? && SeparatedAt(tokens, 0) && b != i
    requires TokenAt(s, i, b, tokens[0]) && Matches(s, b, tokens[1..], ends)
    ensures WordEnd(s, i, tokens[0].word) == Some(b)
  {
    var t := tokens[0].word;
    FirstOutside(s, b, tokens[1..], ends, OfClass(Space));
    RunExact(s, i + |t|, b, Space);
  }

  /** An optional word the match skips is not there for the scanner
      either, and one the match takes ends where the scanner ends it. */
  lemma WordComplete(s: string, i: nat, b: nat, tokens: seq<Token>, ends: seq<nat>)
    requires tokens != [] && tokens[0].OptWord? && SeparatedAt(tokens, 0)
    requires TokenAt(s, i, b, tokens[0]) && Matches(s, b, tokens[1..], ends)
    ensures WordEnd(s, i, tokens[0].word) == if b == i then None else Some(b)
  {
    if b == i {
      WordSkipped(s, i, tokens, ends);
    } else {
      WordTaken(s, i, b, tokens, ends);
    }
  }

  /** Whenever the tokens match from `i`, the scanner finds that match:
      for a separated pattern the match is unique and the engine's choices
      lead to it. */
  lemma {:induction false} ScanComplete(s: string, i: nat, tokens: seq<Token>, ends: seq<nat>)
    requires i <= |s| && Separated(tokens) && Matches(s, i, tokens, ends)
    ensures Scan(s, i, tokens) == Some(ends)
    decreases |tokens|
  {
    if tokens != [] {
      MatchesTail(s, i, tokens, ends);
      SeparatedTail(tokens);
      assert SeparatedAt(tokens, 0);
      var b := ends[0];
      ScanComplete(s, b, tokens[1..], ends[1..]);
      assert ends == [b] + ends[1..];
      if tokens[0].OptWord? {
        WordComplete(s, i, b, tokens, ends[1..]);
      } else {
        StepComplete(s, i, b, tokens, ends[1..]);
      }
    }
  }

  lemma ScanIff(s: string, i: nat, tokens: seq<Token>, ends: seq<nat>)
    requires i <= |s| && Separated(tokens)
    ensures Scan(s, i, tokens) == Some(ends) <==> Matches(s, i, tokens, ends)
  {
    ScanSound(s, i, tokens);
    if Matches(s, i, tokens, ends) {
      ScanComplete(s, i, tokens, ends);
    }
  }

  // ---------------------------------------------------------------------
  // Searching

  lemma GeneracionSeparated()
    ensures Separated(Tokens(Generacion))
  {
    SpaceDigitApart();
    SpaceLetterApart();
    var t := Tokens(Generacion);
    forall k | 0 <= k < |t|
      ensures SeparatedAt(t, k)
    {
      if k + 1 < |t| {
        assert t[k + 1..][0] == t[k + 1];
      }
    }
  }

  lemma GenericSeparated()
    ensures Separated(Tokens(Generic))
  {
    SpaceDigitApart();
    SpaceLetterApart();
    SpaceNotD();
    DigitNotD();
    var t := Tokens(Generic);
    forall k | 0 <= k < |t|
      ensures SeparatedAt(t, k)
    {
      if k + 1 < |t| {
        assert t[k + 1..][0] == t[k + 1];
      }
      if k == 5 {
        assert t[k + 1..][1..] == t[k + 2..];
      }
    }
  }

  /** Both patterns are separated, and their groups are the tokens
      `(\d{1,2})`, `(L+)` and `(\d{4})`, the year last. */
  lemma PatternSeparated(pat: Pattern)
    ensures Separated(Tokens(pat))
  {
    if pat.Generacion? {
      GeneracionSeparated();
    } else {
      GenericSeparated();
    }
  }

  lemma GroupTokens(pat: Pattern)
    ensures DayToken(pat) < MonthToken(pat) < YearToken(pat) == |Tokens(pat)| - 1
    ensures Tokens(pat)[DayToken(pat)] == Count(Digit, 1, 2)
    ensures Tokens(pat)[MonthToken(pat)] == Plus(Letter)
    ensures Tokens(pat)[YearToken(pat)] == Count(Digit, 4, 4)
  {
  }

  lemma SpaceDigitApart()
    ensures Disjoint(OfClass(Space), OfClass(Digit)) && Disjoint(OfClass(Digit), OfClass(Space))
  {
  }

  lemma SpaceLetterApart()
    ensures Disjoint(OfClass(Space), OfClass(Letter)) && Disjoint(OfClass(Letter), OfClass(Space))
  {
  }

  lemma SpaceNotD()
    ensures Disjoint(Like('d'), OfClass(Space))
  {
  }

  lemma DigitNotD()
    ensures Disjoint(OfClass(Digit), Like('d'))
  {
  }

  /** A match: where it starts and ends, and its three groups. */
  datatype DateMatch = DateMatch(start: nat, end: nat, day: string, month: string, year: string)

  /** The groups of a match: a day of one or two digits, a month name and
      a four-digit year. */
  predicate GroupsShaped(m: DateMatch)
  {
    && 1 <= |m.day| <= 2 && |m.year| == 4 && m.month != []
    && (forall k :: 0 <= k < |m.day| ==> IsDigit(m.day[k]))
    && (forall k :: 0 <= k < 4 ==> IsDigit(m.year[k]))
  }

  /** The text token `k` matched. */
  function Piece(s: string, i: nat, ends: seq<nat>, k: nat): string
    requires k < |ends| && StartOf(i, ends, k) <= ends[k] <= |s|
  {
    s[StartOf(i, ends, k)..ends[k]]
  }

  /** The match the pattern makes from `i` when its tokens end at `ends`. */
  function GroupsOf(s: string, pat: Pattern, i: nat, ends: seq<nat>): (m: DateMatch)
    requires Matches(s, i, Tokens(pat), ends)
    ensures m.start == i && m.end == ends[|ends| - 1]
    ensures GroupsShaped(m)
  {
    GroupTokens(pat);
    var d, mo, y := DayToken(pat), MonthToken(pat), YearToken(pat);
    assert TokenAt(s, StartOf(i, ends, d), ends[d], Tokens(pat)[d]);
    assert TokenAt(s, StartOf(i, ends, mo), ends[mo], Tokens(pat)[mo]);
    assert TokenAt(s, StartOf(i, ends, y), ends[y], Tokens(pat)[y]);
    DateMatch(i, ends[y], Piece(s, i, ends, d), Piece(s, i, ends, mo), Piece(s, i, ends, y))
  }

  /** `pattern.match` at position `i`. */
  function MatchAt(s: string, pat: Pattern, i: nat): (r: Option<DateMatch>)
    requires i <= |s|
    ensures r.Some? ==> r.value.start == i <= r.value.end <= |s| && GroupsShaped(r.value)
  {
    ScanSound(s, i, Tokens(pat));
    match Scan(s, i, Tokens(pat))
    case None => None
    case Some(ends) =>
      EndsFrom(s, i, Tokens(pat), ends);
      Some(GroupsOf(s, pat, i, ends))
  }

  /** Wherever the pattern matches, `MatchAt` returns that match and its
      groups. */
  lemma MatchAtComplete(s: string, pat: Pattern, i: nat, ends: seq<nat>)
    requires i <= |s| && Matches(s, i, Tokens(pat), ends)
    ensures MatchAt(s, pat, i) == Some(GroupsOf(s, pat, i, ends))
  {
    PatternSeparated(pat);
    ScanComplete(s, i, Tokens(pat), ends);
  }

  /** The index of the first value present at or after `from`, or the
      length when there is none. */
  function FirstIndex<T>(xs: seq<Option<T>>, from: nat): (i: nat)
    requires from <= |xs|
    ensures from <= i <= |xs|
    ensures i < |xs| ==> xs[i].Some?
    ensures forall j :: from <= j < i ==> xs[j].None?
    decreases |xs| - from
  {
    if from == |xs| || xs[from].Some? then from else FirstIndex(xs, from + 1)
  }

  /** What `pattern.match` makes at each position of the text. */
  function Hits(s: string, pat: Pattern): (h: seq<Option<DateMatch>>)
    ensures |h| == |s| + 1 && forall i :: 0 <= i <= |s| ==> h[i] == MatchAt(s, pat, i)
  {
    seq(|s| + 1, i requires 0 <= i <= |s| => MatchAt(s, pat, i))
  }

  /** `pattern.search(s)`: the match at the first position where the
      pattern matches. */
  function Search(s: string, pat: Pattern): (r: Option<DateMatch>)
    ensures r.Some? ==> r.value.start <= r.value.end <= |s| && GroupsShaped(r.value)
    ensures r.Some? ==> MatchAt(s, pat, r.value.start) == r
    ensures r.Some? ==> forall j :: 0 <= j < r.value.start ==> MatchAt(s, pat, j).None?
    ensures r.None? ==> forall j :: 0 <= j <= |s| ==> MatchAt(s, pat, j).None?
  {
    var h := Hits(s, pat);
    var i := FirstIndex(h, 0);
    if i < |h| then h[i] else None
  }

  /** The search returns the match the pattern makes at the leftmost
      position where it matches at all, with that match's groups. */
  lemma SearchIsLeftmost(s: string, pat: Pattern)
    ensures match Search(s, pat)
      case None => forall i: nat, ends :: i <= |s| ==> !Matches(s, i, Tokens(pat), ends)
      case Some(m) =>
        && (forall i: nat, ends :: i < m.start ==> !Matches(s, i, Tokens(pat), ends))
        && forall ends :: Matches(s, m.start, Tokens(pat), ends) ==> m == GroupsOf(s, pat, m.start, ends)
  {
    forall i: nat, ends | i <= |s| && Matches(s, i, Tokens(pat), ends)
      ensures MatchAt(s, pat, i) == Some(GroupsOf(s, pat, i, ends))
    {
      MatchAtComplete(s, pat, i, ends);
    }
  }

  // ---------------------------------------------------------------------
  // Parsing one text

  /** A date found: `YYYYMMDD` and the text of the match. */
  datatype Parsed = Parsed(formatted: string, original: string)

  /** `day.zfill(2)` for a day of one or two digits. */
  function ZeroFill2(day: string): (r: string)
    requires 1 <= |day| <= 2
    ensures |r| == 2 && r[1] == day[|day| - 1] && r[0] == (if |day| == 2 then day[0] else '0')
  {
    if |day| == 1 then "0" + day else day
  }

  /** `f"{year}{month}{day}"` with the day zero-filled: eight digits,
      the month in the middle. */
  function Formatted(year: string, month: string, day: string): (f: string)
    requires |year| == 4 && IsMonthNumber(month) && 1 <= |day| <= 2
    requires forall k :: 0 <= k < 4 ==> IsDigit(year[k])
    requires forall k :: 0 <= k < |day| ==> IsDigit(day[k])
    ensures |f| == 8 && f[4..6] == month
    ensures forall k :: 0 <= k < 8 ==> IsDigit(f[k])
  {
    var z := ZeroFill2(day);
    year + month + z
  }

  /** What one pattern makes of a text: nothing when it does not match or
      when its first match names no known month. */
  function ParseOne(content: string, pat: Pattern): (r: Option<Parsed>)
    ensures r.Some? ==> |r.value.formatted| == 8 && IsMonthNumber(r.value.formatted[4..6])
    ensures r.Some? ==> forall k :: 0 <= k < 8 ==> IsDigit(r.value.formatted[k])
  {
    match Search(content, pat)
    case None => None
    case Some(m) =>
      match NormalizeMonthName(m.month)
      case None => None
      case Some(month) =>
        Some(Parsed(Formatted(m.year, month, m.day), content[m.start..m.end]))
  }

  /** A match with no match before it is the one the search returns. */
  lemma LeftmostIsFound(content: string, pat: Pattern, i: nat, ends: seq<nat>)
    requires i <= |content| && Matches(content, i, Tokens(pat), ends)
    requires forall j :: 0 <= j < i ==> MatchAt(content, pat, j).None?
    ensures Search(content, pat) == Some(GroupsOf(content, pat, i, ends))
  {
    MatchAtComplete(content, pat, i, ends);
  }

  /** Only the leftmost match of a pattern is read: when it names no known
      month the pattern yields nothing, whatever matches follow it. */
  lemma UnknownFirstMonth(content: string, pat: Pattern, i: nat, ends: seq<nat>)
    requires i <= |content| && Matches(content, i, Tokens(pat), ends)
    requires forall j :: 0 <= j < i ==> MatchAt(content, pat, j).None?
    requires NormalizeMonthName(GroupsOf(content, pat, i, ends).month).None?
    ensures ParseOne(content, pat).None?
  {
    LeftmostIsFound(content, pat, i, ends);
  }

  /** `_parse_with_patterns`: the result of the first pattern whose first
      match names a known month. */
  function ParsedWith(content: string, patterns: seq<Pattern>): Option<Parsed>
    decreases |patterns|
  {
    if patterns == [] then None
    else
      var here := ParseOne(content, patterns[0]);
      if here.Some? then here else ParsedWith(content, patterns[1..])
  }

  /** The patterns are tried in order: a pattern later in the list is
      consulted only when the earlier ones yield no date. */
  lemma {:induction false} ParsedWithConcat(content: string, a: seq<Pattern>, b: seq<Pattern>)
    ensures ParsedWith(content, a + b)
      == if ParsedWith(content, a).Some? then ParsedWith(content, a) else ParsedWith(content, b)
    decreases |a|
  {
    if a != [] {
      assert (a + b)[0] == a[0];
      assert (a + b)[1..] == a[1..] + b;
      ParsedWithConcat(content, a[1..], b);
    } else {
      assert a + b == b;
    }
  }

  /** With one pattern, the result is what that pattern makes of the text. */
  lemma ParsedWithOne(content: string, pat: Pattern)
    ensures ParsedWith(content, [pat]) == ParseOne(content, pat)
  {
    assert [pat][1..] == [];
  }

  /** No date is found in an empty text. */
  lemma {:induction false} EmptyHasNoDate(patterns: seq<Pattern>)
    ensures ParsedWith("", patterns).None?
    decreases |patterns|
  {
    if patterns != [] {
      assert MatchAt("", patterns[0], 0).None?;
      EmptyHasNoDate(patterns[1..]);
    }
  }

  lemma ParsedWithStep(content: string, patterns: seq<Pattern>, k: nat)
    requires k < |patterns|
    ensures ParsedWith(content, patterns[k..])
      == if ParseOne(content, patterns[k]).Some? then ParseOne(content, patterns[k]) else ParsedWith(content, patterns[k + 1..])
  {
    assert patterns[k..][1..] == patterns[k + 1..];
  }

  method ParseWithPatterns(content: string, patterns: seq<Pattern>) returns (r: Option<Parsed>)
    ensures r == ParsedWith(content, patterns)
  {
    var k := 0;
    while k < |patterns|
      invariant k <= |patterns|
      invariant ParsedWith(content, patterns) == ParsedWith(content, patterns[k..])
    {
      ParsedWithStep(content, patterns, k);
      var m := Search(content, patterns[k]);
      if m.None? {
        k := k + 1;
        continue;
      }
      var month := NormalizeMonthName(m.value.month);
      if month.None? {
        k := k + 1;
        continue;
      }
      var formatted := Formatted(m.value.year, month.value, m.value.day);
      return Some(Parsed(formatted, content[m.value.start..m.value.end]));
    }
    return None;
  }


  // ---------------------------------------------------------------------
  // Sources of the generation date

  /** A text to search, the name the log gives it, and the patterns tried
      on it in order. */
  datatype Source = Source(name: string, content: string, patterns: seq<Pattern>)

  /** The patterns tried on the body, the HTML and the table texts. */
  const BothPatterns: seq<Pattern> := [Generacion, Generic]

  /** One table source per text. */
  function TableSources(texts: seq<string>): (r: seq<Source>)
    ensures |r| == |texts|
    ensures forall k :: 0 <= k < |texts| ==> r[k] == Source("tabla_html", texts[k], BothPatterns)
  {
    seq(|texts|, k requires 0 <= k < |texts| => Source("tabla_html", texts[k], BothPatterns))
  }

  lemma TableSourcesSnoc(texts: seq<string>, t: string)
    ensures TableSources(texts + [t]) == TableSources(texts) + [Source("tabla_html", t, BothPatterns)]
  {
  }

  /** The non-empty texts of a longer list: those of the shorter one, then
      the new text if it is not empty. */
  lemma NonEmptySnoc(texts: seq<string>, i: nat)
    requires i < |texts|
    ensures EmailHtmlParser.NonEmpty(texts[..i + 1])
      == EmailHtmlParser.NonEmpty(texts[..i]) + (if texts[i] != "" then [texts[i]] else [])
  {
    assert texts[..i + 1][..i] == texts[..i];
  }

  /** The body when not empty, then the HTML when present and not empty,
      then each non-empty table text, then the subject, on which only the
      generic pattern is tried. */
  function Sources(body: string, html: Option<string>, subject: Option<string>, tableTexts: Option<seq<string>>): seq<Source>
  {
    (if body != "" then [Source("cuerpo_texto", body, BothPatterns)] else [])
    + (if html.Some? && html.value != "" then [Source("cuerpo_html", html.value, BothPatterns)] else [])
    + (if tableTexts.Some? then TableSources(EmailHtmlParser.NonEmpty(tableTexts.value)) else [])
    + (if subject.Some? && subject.value != "" then [Source("asunto", subject.value, [Generic])] else [])
  }

  /** The formatted date of the first source any of whose patterns finds
      one; nothing when no source does. */
  function FirstFecha(sources: seq<Source>): Option<string>
    decreases |sources|
  {
    if sources == [] then None
    else
      match ParsedWith(sources[0].content, sources[0].patterns)
      case Some(p) => Some(p.formatted)
      case None => FirstFecha(sources[1..])
  }

  /** The sources are tried in order: the date is that of the first source
      that yields one, and there is none when no source yields one. */
  lemma {:induction false} FirstFechaFirst(sources: seq<Source>)
    ensures FirstFecha(sources).None? <==>
      forall k :: 0 <= k < |sources| ==> ParsedWith(sources[k].content, sources[k].patterns).None?
    ensures FirstFecha(sources).Some? ==>
      exists k :: 0 <= k < |sources| && ParsedWith(sources[k].content, sources[k].patterns).Some?
        && ParsedWith(sources[k].content, sources[k].patterns).value.formatted == FirstFecha(sources).value
        && forall j :: 0 <= j < k ==> ParsedWith(sources[j].content, sources[j].patterns).None?
    decreases |sources|
  {
    if sources != [] && ParsedWith(sources[0].content, sources[0].patterns).None? {
      var rest := sources[1..];
      FirstFechaFirst(rest);
      assert forall k :: 1 <= k < |sources| ==> sources[k] == rest[k - 1];
      if FirstFecha(rest).Some? {
        var k :| 0 <= k < |rest| && ParsedWith(rest[k].content, rest[k].patterns).Some?
          && ParsedWith(rest[k].content, rest[k].patterns).value.formatted == FirstFecha(rest).value
          && forall j :: 0 <= j < k ==> ParsedWith(rest[j].content, rest[j].patterns).None?;
        assert sources[k + 1] == rest[k];
      }
    }
  }

  /** `extract_fecha_generacion` */
  function Extracted(body: string, html: Option<string>, subject: Option<string>, tableTexts: Option<seq<string>>): Option<string>
  {
    FirstFecha(Sources(body, html, subject, tableTexts))
  }

  /** An earlier source that yields a date decides the result; otherwise
      the later sources do. */
  lemma {:induction false} FirstFechaConcat(a: seq<Source>, b: seq<Source>)
    ensures FirstFecha(a + b) == if FirstFecha(a).Some? then FirstFecha(a) else FirstFecha(b)
    decreases |a|
  {
    if a != [] {
      assert (a + b)[0] == a[0];
      assert (a + b)[1..] == a[1..] + b;
      FirstFechaConcat(a[1..], b);
    } else {
      assert a + b == b;
    }
  }

  /** A date in the body wins over the HTML, the tables and the subject. */
  lemma BodyWins(body: string, html: Option<string>, subject: Option<string>, tableTexts: Option<seq<string>>)
    requires ParsedWith(body, BothPatterns).Some?
    ensures Extracted(body, html, subject, tableTexts) == Some(ParsedWith(body, BothPatterns).value.formatted)
  {
    EmptyHasNoDate(BothPatterns);
    var first := [Source("cuerpo_texto", body, BothPatterns)];
    var rest := Sources(body, html, subject, tableTexts)[1..];
    assert Sources(body, html, subject, tableTexts) == first + rest;
    FirstFechaConcat(first, rest);
  }

  /** The subject is searched, with the generic pattern alone, only when
      no other source yields a date. */
  lemma SubjectLast(body: string, html: Option<string>, subject: string, tableTexts: Option<seq<string>>)
    requires Extracted(body, html, None, tableTexts).None?
    ensures Extracted(body, html, Some(subject), tableTexts)
      == if subject == "" then None else FirstFecha([Source("asunto", subject, [Generic])])
  {
    var front := Sources(body, html, None, tableTexts);
    if subject != "" {
      assert Sources(body, html, Some(subject), tableTexts) == front + [Source("asunto", subject, [Generic])];
      FirstFechaConcat(front, [Source("asunto", subject, [Generic])]);
    } else {
      assert Sources(body, html, Some(subject), tableTexts) == front;
    }
  }

  /** Appends a table source for each non-empty text, in order. */
  method AppendTableSources(front: seq<Source>, texts: seq<string>) returns (sources: seq<Source>)
    ensures sources == front + TableSources(EmailHtmlParser.NonEmpty(texts))
  {
    sources := front;
    var i := 0;
    while i < |texts|
      invariant i <= |texts|
      invariant sources == front + TableSources(EmailHtmlParser.NonEmpty(texts[..i]))
    {
      NonEmptySnoc(texts, i);
      if texts[i] != "" {
        TableSourcesSnoc(EmailHtmlParser.NonEmpty(texts[..i]), texts[i]);
        sources := sources + [Source("tabla_html", texts[i], BothPatterns)];
      } else {
        assert EmailHtmlParser.NonEmpty(texts[..i + 1]) == EmailHtmlParser.NonEmpty(texts[..i]);
      }
      i := i + 1;
    }
    assert texts[..i] == texts;
  }

  /** The list of sources `extract_fecha_generacion` builds. */
  method CollectSources(body: string, html: Option<string>, subject: Option<string>, tableTexts: Option<seq<string>>)
    returns (sources: seq<Source>)
    ensures sources == Sources(body, html, subject, tableTexts)
  {
    ghost var bodyPart := if body != "" then [Source("cuerpo_texto", body, BothPatterns)] else [];
    ghost var htmlPart := if html.Some? && html.value != "" then [Source("cuerpo_html", html.value, BothPatterns)] else [];
    ghost var tablePart := if tableTexts.Some? then TableSources(EmailHtmlParser.NonEmpty(tableTexts.value)) else [];
    ghost var subjectPart := if subject.Some? && subject.value != "" then [Source("asunto", subject.value, [Generic])] else [];
    assert Sources(body, html, subject, tableTexts) == bodyPart + htmlPart + tablePart + subjectPart;
    sources := [];
    if body != "" {
      sources := sources + [Source("cuerpo_texto", body, BothPatterns)];
    }
    if html.Some? && html.value != "" {
      sources := sources + [Source("cuerpo_html", html.value, BothPatterns)];
    }
    assert sources == bodyPart + htmlPart;
    if tableTexts.Some? {
      sources := AppendTableSources(sources, tableTexts.value);
    }
    assert sources == bodyPart + htmlPart + tablePart;
    if subject.Some? && subject.value != "" {
      sources := sources + [Source("asunto", subject.value, [Generic])];
    }
    assert sources == bodyPart + htmlPart + tablePart + subjectPart;
  }

  method ExtractFechaGeneracion(body: string, html: Option<string>, subject: Option<string>, tableTexts: Option<seq<string>>)
    returns (r: Option<string>)
    ensures r == Extracted(body, html, subject, tableTexts)
  {
    var sources := CollectSources(body, html, subject, tableTexts);
    var k := 0;
    while k < |sources|
      invariant k <= |sources|
      invariant FirstFecha(sources) == FirstFecha(sources[k..])
    {
      assert sources[k..][1..] == sources[k + 1..];
      var parsed := ParseWithPatterns(sources[k].content, sources[k].patterns);
      if parsed.Some? {
        return Some(parsed.value.formatted);
      }
      k := k + 1;
    }
    return None;
  }

  // ---------------------------------------------------------------------
  // Texts of a parsed table

  /** The non-empty values of each row, row after row. */
  function RowTexts(rows: seq<EmailHtmlParser.RowDict>): seq<string>
  {
    if rows == [] then []
    else RowTexts(rows[..|rows| - 1]) + EmailHtmlParser.NonEmpty(EmailHtmlParser.Values(rows[|rows| - 1]))
  }

  /** `collect_table_texts`: nothing without a table; otherwise the
      non-empty headers, then the non-empty values of each row in row
      order, then the non-empty extra texts. */
  function TableTexts(table: Option<EmailHtmlParser.ParsedTable>): seq<string>
  {
    match table
    case None => []
    case Some(p) =>
      EmailHtmlParser.NonEmpty(p.headers) + RowTexts(p.rows) + EmailHtmlParser.NonEmpty(p.extraTexts)
  }

  /** A text comes from the rows exactly when it is a non-empty value of
      one of them. */
  lemma {:induction false} RowTextsMembers(rows: seq<EmailHtmlParser.RowDict>, t: string)
    ensures t in RowTexts(rows) <==> t != "" && exists r :: r in rows && t in EmailHtmlParser.Values(r)
    decreases |rows|
  {
    if rows != [] {
      var front := rows[..|rows| - 1];
      var last := rows[|rows| - 1];
      RowTextsMembers(front, t);
      assert rows == front + [last];
      if t in RowTexts(rows) && t !in RowTexts(front) {
        assert t in EmailHtmlParser.NonEmpty(EmailHtmlParser.Values(last));
        assert last in rows;
      }
      if t != "" && exists r :: r in rows && t in EmailHtmlParser.Values(r) {
        var r :| r in rows && t in EmailHtmlParser.Values(r);
        if r != last {
          assert r in front;
        }
      }
    }
  }

  /** The texts collected are the non-empty headers, row values and extra
      texts, and nothing else. */
  lemma TableTextsMembers(p: EmailHtmlParser.ParsedTable, t: string)
    ensures t in TableTexts(Some(p)) <==>
      t != "" && (t in p.headers || t in p.extraTexts || exists r :: r in p.rows && t in EmailHtmlParser.Values(r))
  {
    RowTextsMembers(p.rows, t);
  }

  method CollectTableTexts(table: Option<EmailHtmlParser.ParsedTable>) returns (texts: seq<string>)
    ensures texts == TableTexts(table)
  {
    if table.None? {
      return [];
    }
    var p := table.value;
    texts := EmailHtmlParser.NonEmpty(p.headers);
    var i := 0;
    while i < |p.rows|
      invariant i <= |p.rows|
      invariant texts == EmailHtmlParser.NonEmpty(p.headers) + RowTexts(p.rows[..i])
    {
      assert p.rows[..i + 1][..i] == p.rows[..i];
      texts := texts + EmailHtmlParser.NonEmpty(EmailHtmlParser.Values(p.rows[i]));
      i := i + 1;
    }
    assert p.rows[..i] == p.rows;
    texts := texts + EmailHtmlParser.NonEmpty(p.extraTexts);
  }

  // ---------------------------------------------------------------------
  // Examples

  lemma LowerOfLower(v: string)
    requires forall k :: 0 <= k < |v| ==> IsAsciiLower(v[k])
    ensures Lower(v) == v
  {
  }

  lemma StripOfLetters(v: string)
    requires forall k :: 0 <= k < |v| ==> IsAsciiLower(v[k])
    ensures Strip(v) == v
  {
    if v != [] {
      SpaceCode(v[0]);
      SpaceCode(v[|v| - 1]);
    }
    StripUnchanged(v);
  }

  /** A name of lower-case ASCII letters is its own lookup key. */
  lemma LowerAsciiKey(v: string)
    requires forall k :: 0 <= k < |v| ==> IsAsciiLower(v[k])
    ensures Strip(Lower(AsciiFold(v))) == v
  {
    assert AsciiFold(v) == v;
    LowerOfLower(v);
    StripOfLetters(v);
  }

  /** "enero" names January. */
  lemma EneroIsJanuary(v: string)
    requires v == "enero"
    ensures NormalizeMonthName(v) == Some("01")
  {
    LowerAsciiKey(v);
    assert MonthAliases[0] == ("enero", "01");
  }

  const ExampleEnds: seq<nat> := [10, 11, 14, 15, 17, 18, 20, 21, 26, 27, 29, 30, 34]

  lemma ExampleTokens0(s: string)
    requires s == "Generaci\U{F3}n del 15 de enero de 2025"
    ensures forall k :: 0 <= k < 3 ==> TokenAt(s, StartOf(0, ExampleEnds, k), ExampleEnds[k], Tokens(Generacion)[k])
  {
  }

  lemma ExampleTokens1(s: string)
    requires s == "Generaci\U{F3}n del 15 de enero de 2025"
    ensures forall k :: 3 <= k < 6 ==> TokenAt(s, StartOf(0, ExampleEnds, k), ExampleEnds[k], Tokens(Generacion)[k])
  {
  }

  lemma ExampleTokens2(s: string)
    requires s == "Generaci\U{F3}n del 15 de enero de 2025"
    ensures forall k :: 6 <= k < 9 ==> TokenAt(s, StartOf(0, ExampleEnds, k), ExampleEnds[k], Tokens(Generacion)[k])
  {
  }

  lemma ExampleTokens3(s: string)
    requires s == "Generaci\U{F3}n del 15 de enero de 2025"
    ensures forall k :: 9 <= k < 13 ==> TokenAt(s, StartOf(0, ExampleEnds, k), ExampleEnds[k], Tokens(Generacion)[k])
  {
  }

  /** Where the pieces of "Generación del 15 de enero de 2025" lie. */
  lemma GeneracionExampleMatches(s: string)
    requires s == "Generaci\U{F3}n del 15 de enero de 2025"
    ensures Matches(s, 0, Tokens(Generacion), ExampleEnds)
  {
    ExampleTokens0(s);
    ExampleTokens1(s);
    ExampleTokens2(s);
    ExampleTokens3(s);
  }

  lemma ExampleGroups(s: string)
    requires s == "Generaci\U{F3}n del 15 de enero de 2025"
    ensures Matches(s, 0, Tokens(Generacion), ExampleEnds)
    ensures GroupsOf(s, Generacion, 0, ExampleEnds) == DateMatch(0, 34, "15", "enero", "2025")
  {
    GeneracionExampleMatches(s);
    assert s[15..17] == "15";
    assert s[21..26] == "enero";
    assert s[30..34] == "2025";
  }

  lemma ExampleSearch(s: string)
    requires s == "Generaci\U{F3}n del 15 de enero de 2025"
    ensures Search(s, Generacion) == Some(DateMatch(0, 34, "15", "enero", "2025"))
  {
    ExampleGroups(s);
    MatchAtComplete(s, Generacion, 0, ExampleEnds);
  }

  /** A first match that spans the text and names a known month gives
      the text's date. */
  lemma WholeTextDate(s: string, pat: Pattern, m: DateMatch, month: string)
    requires Search(s, pat) == Some(m) && m.start == 0 && m.end == |s|
    requires NormalizeMonthName(m.month) == Some(month)
    ensures ParseOne(s, pat) == Some(Parsed(Formatted(m.year, month, m.day), s))
  {
    assert s[m.start..m.end] == s;
  }

  lemma FormattedExample(y: string, m: string, d: string)
    requires y == "2025" && m == "01" && d == "15"
    ensures IsMonthNumber(m) && Formatted(y, m, d) == "20250115"
  {
  }

  lemma GeneracionExampleParse(s: string)
    requires s == "Generaci\U{F3}n del 15 de enero de 2025"
    ensures ParseOne(s, Generacion) == Some(Parsed("20250115", s))
  {
    ExampleSearch(s);
    EneroIsJanuary("enero");
    WholeTextDate(s, Generacion, DateMatch(0, 34, "15", "enero", "2025"), "01");
    FormattedExample("2025", "01", "15");
  }

  /** A date the first pattern finds is the text's date. */
  lemma FirstPatternWins(content: string, pat: Pattern, rest: seq<Pattern>)
    requires ParseOne(content, pat).Some?
    ensures ParsedWith(content, [pat] + rest) == ParseOne(content, pat)
  {
    assert ([pat] + rest)[0] == pat;
  }

  /** "Generación del 15 de enero de 2025" in the body gives 20250115. */
  lemma GeneracionExample(s: string)
    requires s == "Generaci\U{F3}n del 15 de enero de 2025"
    ensures Extracted(s, None, None, None) == Some("20250115")
  {
    GeneracionExampleParse(s);
    FirstPatternWins(s, Generacion, [Generic]);
    assert BothPatterns == [Generacion] + [Generic];
    BodyWins(s, None, None, None);
  }
}
