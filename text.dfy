/** String helpers shared by the model: Python's whitespace, stripping,
    case mapping, `str(int)`, `int(str)`, `split` and `join`, restricted to
    the characters the model handles (ASCII and the Latin-1 letters). */
module Text {
  import opened Seqs

  datatype Option<+T> = None | Some(value: T)

  /** Characters for which Python's `str.isspace()` holds; `str.strip()`
      and the regex class `\s` use the same set. */
  predicate IsSpace(c: char)
  {
    c in SpaceChars
  }

  const SpaceChars: set<char> :=
    {'\t', '\n', '\U{B}', '\U{C}', '\r', '\U{1C}', '\U{1D}', '\U{1E}', '\U{1F}', ' ',
     '\U{85}', '\U{A0}', '\U{1680}',
     '\U{2000}', '\U{2001}', '\U{2002}', '\U{2003}', '\U{2004}', '\U{2005}', '\U{2006}', '\U{2007}',
     '\U{2008}', '\U{2009}', '\U{200A}', '\U{2028}', '\U{2029}', '\U{202F}', '\U{205F}', '\U{3000}'}

  predicate IsDigit(c: char) { '0' <= c <= '9' }

  predicate IsAsciiUpper(c: char) { 'A' <= c <= 'Z' }

  predicate IsAsciiLower(c: char) { 'a' <= c <= 'z' }

  /** Latin-1 capital letters À..Þ except the multiplication sign. */
  predicate IsLatinUpper(c: char) { 0xC0 <= c as int <= 0xDE && c as int != 0xD7 }

  /** Latin-1 small letters à..þ except the division sign. */
  predicate IsLatinLower(c: char) { 0xE0 <= c as int <= 0xFE && c as int != 0xF7 }

  /** Letters for which `str.isalpha()` holds, within ASCII and Latin-1. */
  predicate IsAlpha(c: char) {
    IsAsciiUpper(c) || IsAsciiLower(c) || IsLatinUpper(c) || IsLatinLower(c)
    || c as int == 0xAA || c as int == 0xB5 || c as int == 0xBA
    || c as int == 0xDF || c as int == 0xFF
  }

  /** Characters that have an upper- and a lower-case form in the model. */
  predicate IsCased(c: char) {
    IsAsciiUpper(c) || IsAsciiLower(c) || IsLatinUpper(c) || IsLatinLower(c)
  }

  function LowerChar(c: char): (r: char)
    ensures !IsAsciiUpper(r) && !IsLatinUpper(r)
    ensures IsCased(c) <==> IsCased(r)
    ensures !IsCased(c) ==> r == c
  {
    if IsAsciiUpper(c) || IsLatinUpper(c) then (c as int + 32) as char else c
  }

  function UpperChar(c: char): (r: char)
    ensures !IsAsciiLower(r) && !IsLatinLower(r)
    ensures IsCased(c) <==> IsCased(r)
    ensures !IsCased(c) ==> r == c
  {
    if IsAsciiLower(c) || IsLatinLower(c) then (c as int - 32) as char else c
  }

  /** `str.lower()` */
  function Lower(s: string): (r: string)
    ensures |r| == |s|
    ensures forall i :: 0 <= i < |s| ==> r[i] == LowerChar(s[i])
  {
    seq(|s|, i requires 0 <= i < |s| => LowerChar(s[i]))
  }

  /** `str.upper()` */
  function Upper(s: string): (r: string)
    ensures |r| == |s|
    ensures forall i :: 0 <= i < |s| ==> r[i] == UpperChar(s[i])
  {
    seq(|s|, i requires 0 <= i < |s| => UpperChar(s[i]))
  }

  /** `str.title()`: a cased character is upper-cased when the character
      before it is not cased, and lower-cased otherwise. */
  function Title(s: string): (r: string)
    ensures |r| == |s|
    ensures forall i :: 0 <= i < |s| ==>
      r[i] == if i > 0 && IsCased(s[i - 1]) then LowerChar(s[i]) else UpperChar(s[i])
  {
    seq(|s|, i requires 0 <= i < |s| =>
      if i > 0 && IsCased(s[i - 1]) then LowerChar(s[i]) else UpperChar(s[i]))
  }

  lemma TitleIdempotent(s: string)
    ensures Title(Title(s)) == Title(s)
  {
    var t := Title(s);
    forall i | 0 <= i < |s|
      ensures Title(t)[i] == t[i]
    {
      if i > 0 {
        assert IsCased(t[i - 1]) == IsCased(s[i - 1]);
      }
    }
  }

  /** Lower-casing leaves a string without cased characters alone. */
  lemma LowerUncased(s: string)
    requires forall k :: 0 <= k < |s| ==> !IsCased(s[k])
    ensures Lower(s) == s
  {
  }

  lemma LowerIdempotent(s: string)
    ensures Lower(Lower(s)) == Lower(s)
  {
  }

  lemma UpperIdempotent(s: string)
    ensures Upper(Upper(s)) == Upper(s)
  {
  }

  /** `p` occurs in `s` starting at position `i`. */
  predicate OccursAt(s: string, p: string, i: int)
  {
    0 <= i <= |s| - |p| && s[i..i + |p|] == p
  }

  /** A prefix of a suffix of `s` occurs in `s` where the suffix starts. */
  lemma SliceOfSuffix(s: string, t: string, r: string)
    requires |t| <= |s| && t == s[|s| - |t|..]
    requires |r| <= |t| && r == t[..|r|]
    ensures OccursAt(s, r, |s| - |t|)
  {
    var i := |s| - |t|;
    assert forall k :: 0 <= k < |r| ==> r[k] == t[k] == s[i + k];
    assert s[i..i + |r|] == r;
  }

  /** `s.lstrip(c)` for a single character `c`. */
  function TrimLeadingChar(s: string, c: char): (r: string)
    ensures |r| <= |s|
    ensures r == [] || r[0] != c
  {
    if |s| > 0 && s[0] == c then TrimLeadingChar(s[1..], c) else s
  }

  /** What `s.lstrip(c)` keeps is a suffix of `s`. */
  lemma {:induction false} TrimLeadingCharSuffix(s: string, c: char)
    ensures TrimLeadingChar(s, c) == s[|s| - |TrimLeadingChar(s, c)|..]
  {
    if |s| > 0 && s[0] == c {
      TrimLeadingCharSuffix(s[1..], c);
      var r := TrimLeadingChar(s, c);
      assert s[1..][|s| - 1 - |r|..] == s[|s| - |r|..];
    }
  }

  /** `s.rstrip(c)` for a single character `c`. */
  function TrimTrailingChar(s: string, c: char): (r: string)
    ensures |r| <= |s|
    ensures r == [] || r[|r| - 1] != c
  {
    if |s| > 0 && s[|s| - 1] == c then TrimTrailingChar(s[..|s| - 1], c) else s
  }

  /** What `s.rstrip(c)` keeps is a prefix of `s`. */
  lemma {:induction false} TrimTrailingCharPrefix(s: string, c: char)
    ensures TrimTrailingChar(s, c) == s[..|TrimTrailingChar(s, c)|]
  {
    if |s| > 0 && s[|s| - 1] == c {
      TrimTrailingCharPrefix(s[..|s| - 1], c);
      var r := TrimTrailingChar(s, c);
      assert s[..|s| - 1][..|r|] == s[..|r|];
    }
  }

  /** `s.strip(c)` for a single character `c`: the longest middle slice
      that neither starts nor ends with `c`. */
  function StripChar(s: string, c: char): (r: string)
    ensures r == [] || (r[0] != c && r[|r| - 1] != c)
    ensures |r| <= |s|
  {
    var t := TrimLeadingChar(s, c);
    TrimTrailingCharPrefix(t, c);
    TrimTrailingChar(t, c)
  }

  /** `s.strip(c)` is the slice of `s` between its leading and trailing
      runs of `c`. */
  lemma StripCharSlice(s: string, c: char)
    ensures OccursAt(s, StripChar(s, c), |s| - |TrimLeadingChar(s, c)|)
  {
    var t := TrimLeadingChar(s, c);
    var r := TrimTrailingChar(t, c);
    TrimLeadingCharSuffix(s, c);
    TrimTrailingCharPrefix(t, c);
    SliceOfSuffix(s, t, r);
  }

  /** Whitespace is a control character, the space, or beyond ASCII. */
  lemma SpaceCode(c: char)
    ensures IsSpace(c) ==> c as int <= 32 || 0x85 <= c as int
  {
  }

  /** `s.lstrip()` */
  function TrimLeadingSpace(s: string): (r: string)
    ensures |r| <= |s|
    ensures r == [] || !IsSpace(r[0])
  {
    if |s| > 0 && IsSpace(s[0]) then TrimLeadingSpace(s[1..]) else s
  }

  /** What `s.lstrip()` keeps is a suffix of `s`, and what it drops is
      whitespace. */
  lemma {:induction false} TrimLeadingSpaceSuffix(s: string)
    ensures TrimLeadingSpace(s) == s[|s| - |TrimLeadingSpace(s)|..]
    ensures forall k :: 0 <= k < |s| - |TrimLeadingSpace(s)| ==> IsSpace(s[k])
  {
    if |s| > 0 && IsSpace(s[0]) {
      TrimLeadingSpaceSuffix(s[1..]);
      var r := TrimLeadingSpace(s);
      assert s[1..][|s| - 1 - |r|..] == s[|s| - |r|..];
      assert forall k :: 1 <= k < |s| - |r| ==> s[k] == s[1..][k - 1];
    }
  }

  /** `s.rstrip()` */
  function TrimTrailingSpace(s: string): (r: string)
    ensures |r| <= |s|
    ensures r == [] || !IsSpace(r[|r| - 1])
  {
    if |s| > 0 && IsSpace(s[|s| - 1]) then TrimTrailingSpace(s[..|s| - 1]) else s
  }

  /** What `s.rstrip()` keeps is a prefix of `s`, and what it drops is
      whitespace. */
  lemma {:induction false} TrimTrailingSpacePrefix(s: string)
    ensures TrimTrailingSpace(s) == s[..|TrimTrailingSpace(s)|]
    ensures forall k :: |TrimTrailingSpace(s)| <= k < |s| ==> IsSpace(s[k])
  {
    if |s| > 0 && IsSpace(s[|s| - 1]) {
      TrimTrailingSpacePrefix(s[..|s| - 1]);
      var r := TrimTrailingSpace(s);
      assert s[..|s| - 1][..|r|] == s[..|r|];
      assert forall k :: |r| <= k < |s| - 1 ==> s[k] == s[..|s| - 1][k];
    }
  }

  /** `s.strip()` */
  function Strip(s: string): (r: string)
    ensures r == [] || (!IsSpace(r[0]) && !IsSpace(r[|r| - 1]))
    ensures |r| <= |s|
  {
    var t := TrimLeadingSpace(s);
    TrimTrailingSpacePrefix(t);
    TrimTrailingSpace(t)
  }

  /** `s.strip()` is the slice of `s` between its leading and trailing
      whitespace. */
  lemma StripSlice(s: string)
    ensures OccursAt(s, Strip(s), |s| - |TrimLeadingSpace(s)|)
  {
    var t := TrimLeadingSpace(s);
    var r := TrimTrailingSpace(t);
    TrimLeadingSpaceSuffix(s);
    TrimTrailingSpacePrefix(t);
    SliceOfSuffix(s, t, r);
  }

  /** Every character of `s.strip()` is a character of `s`, so a property
      of all of `s`'s characters holds of all of the stripped string's. */
  lemma StripKeeps(s: string, q: char -> bool)
    requires forall k :: 0 <= k < |s| ==> q(s[k])
    ensures forall k :: 0 <= k < |Strip(s)| ==> q(Strip(s)[k])
  {
    var i := |s| - |TrimLeadingSpace(s)|;
    StripSlice(s);
    forall k | 0 <= k < |Strip(s)| ensures q(Strip(s)[k]) {
      assert Strip(s)[k] == s[i + k];
    }
  }

  /** A string that neither starts nor ends with whitespace is its own
      `strip()`. */
  lemma StripUnchanged(s: string)
    requires s == [] || (!IsSpace(s[0]) && !IsSpace(s[|s| - 1]))
    ensures Strip(s) == s
  {
  }

  lemma StripIdempotent(s: string)
    ensures Strip(Strip(s)) == Strip(s)
  {
    StripUnchanged(Strip(s));
  }

  /** `not s.strip()`: every character is whitespace. */
  predicate IsBlank(s: string)
  {
    forall k :: 0 <= k < |s| ==> IsSpace(s[k])
  }

  lemma BlankIffStripEmpty(s: string)
    ensures IsBlank(s) <==> Strip(s) == []
  {
    var t := TrimLeadingSpace(s);
    TrimLeadingSpaceSuffix(s);
    TrimTrailingSpacePrefix(t);
    if t != [] {
      assert !IsSpace(t[0]);
      assert t[0] == s[|s| - |t|];
    }
  }

  predicate StartsWith(s: string, p: string) { |p| <= |s| && s[..|p|] == p }

  lemma StartsWithConcat(a: string, b: string)
    ensures StartsWith(a + b, a)
  {
    assert (a + b)[..|a|] == a;
  }

  lemma StartsWithExtend(s: string, p: string, t: string)
    requires StartsWith(s, p)
    ensures StartsWith(s + t, p)
  {
    assert (s + t)[..|p|] == s[..|p|];
  }

  predicate EndsWith(s: string, p: string) { |p| <= |s| && s[|s| - |p|..] == p }

  /** `p in s` for strings. */
  ghost predicate Contains(s: string, p: string)
  {
    exists i :: OccursAt(s, p, i)
  }

  /** A scanning implementation of `p in s`, proved equal to `Contains`. */
  function Find(s: string, p: string): (r: bool)
    ensures r <==> Contains(s, p)
    decreases |s|
  {
    if StartsWith(s, p) then
      assert OccursAt(s, p, 0);
      true
    else if |s| <= |p| then
      assert !OccursAt(s, p, 0);
      false
    else
      var r := Find(s[1..], p);
      assert Contains(s, p) ==> Contains(s[1..], p) by {
        if Contains(s, p) {
          var i :| OccursAt(s, p, i);
          assert i != 0;
          assert OccursAt(s[1..], p, i - 1);
        }
      }
      assert Contains(s[1..], p) ==> Contains(s, p) by {
        if Contains(s[1..], p) {
          var i :| OccursAt(s[1..], p, i);
          assert OccursAt(s, p, i + 1);
        }
      }
      r
  }

  /** `sep.join(parts)` */
  function Join(parts: seq<string>, sep: string): (r: string)
    ensures |parts| == 0 ==> r == []
    ensures |parts| == 1 ==> r == parts[0]
  {
    if |parts| == 0 then []
    else if |parts| == 1 then parts[0]
    else parts[0] + sep + Join(parts[1..], sep)
  }

  /** `s.split(c)` for a one-character separator: the pieces between the
      occurrences of `c`, empty pieces included. */
  function Split(s: string, c: char): (r: seq<string>)
    ensures |r| >= 1
    ensures forall i, k :: 0 <= i < |r| && 0 <= k < |r[i]| ==> r[i][k] != c
    decreases |s|
  {
    if c !in s then [s]
    else
      var k := IndexOf(s, c);
      [s[..k]] + Split(s[k + 1..], c)
  }

  /** Position of the first `c` in `s`. */
  function IndexOf(s: string, c: char): (k: nat)
    requires c in s
    ensures k < |s| && s[k] == c && c !in s[..k]
  {
    if s[0] == c then 0 else IndexOf(s[1..], c) + 1
  }

  /** Splitting at a separator and joining with it gives the string back. */
  lemma {:induction false} JoinSplit(s: string, c: char)
    ensures Join(Split(s, c), [c]) == s
    decreases |s|
  {
    if c in s {
      var k := IndexOf(s, c);
      var rest := Split(s[k + 1..], c);
      JoinSplit(s[k + 1..], c);
      JoinCons(s[..k], rest, [c]);
      SplitAt(s, k);
    }
  }

  lemma JoinCons(x: string, parts: seq<string>, sep: string)
    requires |parts| >= 1
    ensures Join([x] + parts, sep) == x + sep + Join(parts, sep)
  {
    assert ([x] + parts)[0] == x && ([x] + parts)[1..] == parts;
  }

  // ---- decimal integers -------------------------------------------------

  function DigitChar(d: nat): (c: char)
    requires d < 10
    ensures IsDigit(c) && DigitValue(c) == d
  {
    ('0' as int + d) as char
  }

  function DigitValue(c: char): (d: nat)
    requires IsDigit(c)
    ensures d < 10
  {
    c as int - '0' as int
  }

  /** Decimal digits of `n`, without leading zeros. */
  function NatToDecimal(n: nat): (r: string)
    ensures |r| >= 1
    ensures forall k :: 0 <= k < |r| ==> IsDigit(r[k])
  {
    if n < 10 then [DigitChar(n)] else NatToDecimal(n / 10) + [DigitChar(n % 10)]
  }

  /** `str(n)` for a Python int. */
  function IntToString(n: int): (r: string)
    ensures |r| >= 1 && IsDigit(r[|r| - 1])
    ensures forall k :: 0 <= k < |r| ==> IsDigit(r[k]) || (k == 0 && r[k] == '-')
  {
    if n < 0 then "-" + NatToDecimal(-n) else NatToDecimal(n)
  }

  /** Decimal text neither starts nor ends with whitespace. */
  lemma IntTextEnds(n: int)
    ensures !IsSpace(IntToString(n)[0]) && !IsSpace(IntToString(n)[|IntToString(n)| - 1])
  {
    var s := IntToString(n);
    assert s[0] == '-' || IsDigit(s[0]);
    SpaceCode(s[0]);
    SpaceCode(s[|s| - 1]);
  }

  /** Decimal text has no cased characters, so lower-casing keeps it. */
  lemma LowerOfDecimal(n: int)
    ensures Lower(IntToString(n)) == IntToString(n)
  {
    var s := IntToString(n);
    forall k | 0 <= k < |s| ensures !IsCased(s[k]) {
      var c := s[k];
      assert IsDigit(c) || c == '-';
      assert c as int <= '9' as int;
    }
    LowerUncased(s);
  }

  /** The value of a run of digits in which single underscores may separate
      digits (`1_000`), as `int()` accepts; None for anything else. */
  function DigitsValue(s: string): (r: Option<nat>)
    ensures r.Some? ==> |s| >= 1 && IsDigit(s[0]) && IsDigit(s[|s| - 1])
  {
    if |s| == 0 || !IsDigit(s[|s| - 1]) then None
    else if |s| == 1 then Some(DigitValue(s[0]))
    else
      var d := DigitValue(s[|s| - 1]);
      var t := s[..|s| - 1];
      var front := if t[|t| - 1] == '_' then t[..|t| - 1] else t;
      match DigitsValue(front)
      case None => None
      case Some(v) => Some(v * 10 + d)
  }

  /** `int(s)` in base 10 for an already-stripped string: an optional sign
      and digits (with `_` separators); None where Python raises. */
  function ParseInt(s: string): (r: Option<int>)
    ensures r.Some? ==> |s| >= 1 && IsDigit(s[|s| - 1])
  {
    var negative := |s| > 0 && s[0] == '-';
    var digits := if |s| > 0 && (s[0] == '-' || s[0] == '+') then s[1..] else s;
    match DigitsValue(digits)
    case None => None
    case Some(v) => if negative then Some(-(v as int)) else Some(v as int)
  }

  lemma {:induction false} DigitsOfDecimal(n: nat)
    ensures DigitsValue(NatToDecimal(n)) == Some(n)
  {
    if n >= 10 {
      DigitsOfDecimal(n / 10);
      var s := NatToDecimal(n);
      assert s[..|s| - 1] == NatToDecimal(n / 10);
    }
  }

  /** `int(str(n)) == n` */
  lemma ParseIntOfString(n: int)
    ensures ParseInt(IntToString(n)) == Some(n)
  {
    var m: nat := if n < 0 then -n else n;
    var d := NatToDecimal(m);
    DigitsOfDecimal(m);
    assert IsDigit(d[0]);
    var s := IntToString(n);
    if n < 0 {
      assert s == "-" + d;
      assert s[1..] == d;
    } else {
      assert s == d;
    }
  }

  /** Two-digit zero padding, `f"{n:02d}"` for 0 <= n < 100. */
  function Pad2(n: nat): (r: string)
    requires n < 100
    ensures |r| == 2 && IsDigit(r[0]) && IsDigit(r[1])
    ensures DigitValue(r[0]) * 10 + DigitValue(r[1]) == n
  {
    [DigitChar(n / 10), DigitChar(n % 10)]
  }

  /** Four-digit zero padding, `f"{n:04d}"` for 0 <= n < 10000. */
  function Pad4(n: nat): (r: string)
    requires n < 10000
    ensures |r| == 4 && forall k :: 0 <= k < 4 ==> IsDigit(r[k])
    ensures DigitValue(r[0]) * 1000 + DigitValue(r[1]) * 100 + DigitValue(r[2]) * 10 + DigitValue(r[3]) == n
  {
    var a := n / 10;
    var b := a / 10;
    var c := b / 10;
    assert n == 10 * a + n % 10 && a == 10 * b + a % 10 && b == 10 * c + b % 10;
    [DigitChar(c), DigitChar(b % 10), DigitChar(a % 10), DigitChar(n % 10)]
  }

  // ---- accent folding ---------------------------------------------------

  predicate IsAscii(c: char) { c as int < 128 }

  /** What `unicodedata.normalize("NFKD", c).encode("ascii", "ignore")`
      leaves of one character, for ASCII and Latin-1; any other character is
      dropped. */
  function FoldChar(c: char): (r: string)
    ensures forall k :: 0 <= k < |r| ==> IsAscii(r[k])
    ensures IsAscii(c) ==> r == [c]
  {
    var n := c as int;
    if n < 128 then [c]
    else if n == 0xA0 || n == 0xA8 || n == 0xAF || n == 0xB4 || n == 0xB8 then " "
    else if n == 0xAA then "a"
    else if n == 0xB2 then "2"
    else if n == 0xB3 then "3"
    else if n == 0xB9 then "1"
    else if n == 0xBA then "o"
    else if n == 0xBC then "14"
    else if n == 0xBD then "12"
    else if n == 0xBE then "34"
    else if 0xC0 <= n <= 0xC5 then "A"
    else if n == 0xC7 then "C"
    else if 0xC8 <= n <= 0xCB then "E"
    else if 0xCC <= n <= 0xCF then "I"
    else if n == 0xD1 then "N"
    else if 0xD2 <= n <= 0xD6 then "O"
    else if 0xD9 <= n <= 0xDC then "U"
    else if n == 0xDD then "Y"
    else if 0xE0 <= n <= 0xE5 then "a"
    else if n == 0xE7 then "c"
    else if 0xE8 <= n <= 0xEB then "e"
    else if 0xEC <= n <= 0xEF then "i"
    else if n == 0xF1 then "n"
    else if 0xF2 <= n <= 0xF6 then "o"
    else if 0xF9 <= n <= 0xFC then "u"
    else if n == 0xFD || n == 0xFF then "y"
    else ""
  }

  /** The ASCII text left after NFKD decomposition with the non-ASCII
      residue dropped. */
  function AsciiFold(s: string): (r: string)
    ensures forall k :: 0 <= k < |r| ==> IsAscii(r[k])
    ensures (forall k :: 0 <= k < |s| ==> IsAscii(s[k])) ==> r == s
  {
    if s == [] then [] else AsciiFold(s[..|s| - 1]) + FoldChar(s[|s| - 1])
  }

  /** Lexicographic order on strings by code point, as Python compares `str`. */
  predicate LessOrEqual(a: string, b: string)
    decreases |a|
  {
    |a| == 0 || (|b| > 0 && (a[0] < b[0] || (a[0] == b[0] && LessOrEqual(a[1..], b[1..]))))
  }

  lemma {:induction false} LessOrEqualTotal(a: string, b: string)
    ensures LessOrEqual(a, b) || LessOrEqual(b, a)
    decreases |a|
  {
    if |a| > 0 && |b| > 0 && a[0] == b[0] {
      LessOrEqualTotal(a[1..], b[1..]);
    }
  }

  lemma {:induction false} LessOrEqualTransitive(a: string, b: string, c: string)
    requires LessOrEqual(a, b) && LessOrEqual(b, c)
    ensures LessOrEqual(a, c)
    decreases |a|
  {
    if |a| > 0 && a[0] == b[0] && b[0] == c[0] {
      LessOrEqualTransitive(a[1..], b[1..], c[1..]);
    }
  }

  lemma {:induction false} LessOrEqualAntisymmetric(a: string, b: string)
    requires LessOrEqual(a, b) && LessOrEqual(b, a)
    ensures a == b
    decreases |a|
  {
    if |a| > 0 {
      LessOrEqualAntisymmetric(a[1..], b[1..]);
      assert a == [a[0]] + a[1..] && b == [b[0]] + b[1..];
    }
  }
}
