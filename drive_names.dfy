/** How `DriveService` names the files it uploads: sanitising the original
    name and the district, dropping one-letter prefixes and repeated
    tokens, capping the length at 100 characters and avoiding names already
    in the folder; and how it guesses the primary district of a parsed
    table. */
module DriveNames {
  import opened Text
  import opened Seqs

  /** `MAX_FILENAME_LENGTH` */
  const MaxLength: nat := 100

  function Min(a: int, b: int): int { if a <= b then a else b }

  function Max(a: int, b: int): int { if a >= b then a else b }

  // ---- os.path.splitext ---------------------------------------------------------

  /** Position of the last `c` in `s`. */
  function LastIndexOf(s: string, c: char): (r: Option<nat>)
    ensures r.None? ==> c !in s
    ensures r.Some? ==> r.value < |s| && s[r.value] == c && c !in s[r.value + 1..]
  {
    if s == [] then None
    else if s[|s| - 1] == c then Some(|s| - 1)
    else
      var r := LastIndexOf(s[..|s| - 1], c);
      assert r.Some? ==> s[r.value + 1..] == s[..|s| - 1][r.value + 1..] + [s[|s| - 1]];
      r
  }

  /** `os.path.splitext` on a `/`-separated path: the extension starts at
      the last dot of the last path component, provided that dot is
      preceded in the component by something other than dots. */
  function SplitExt(p: string): (r: (string, string))
    ensures r.0 + r.1 == p
    ensures r.1 == [] || (r.1[0] == '.' && '.' !in r.1[1..] && '/' !in r.1 && r.0 != [])
  {
    match LastIndexOf(p, '.')
    case None => (p, [])
    case Some(dot) =>
      var start := match LastIndexOf(p, '/') case None => 0 case Some(k) => k + 1;
      if start <= dot && exists i :: start <= i < dot && p[i] != '.' then
        assert p[..dot] + p[dot..] == p;
        (p[..dot], p[dot..])
      else (p, [])
  }

  // ---- _enforce_max_length -------------------------------------------------------

  /** `_enforce_max_length`: a name of at most 100 characters is kept; a
      longer one without extension is cut to 100 characters, and one with
      an extension keeps the extension and as much of the base as fits
      (at least one character). */
  function EnforceMaxLength(name: string): (r: string)
  {
    if |name| <= MaxLength then name
    else
      var (base, ext) := SplitExt(name);
      if ext == [] then name[..MaxLength]
      else base[..Min(Max(1, MaxLength - |ext|), |base|)] + ext
  }

  /** Names of at most 100 characters are unchanged; longer names come out
      at 100 characters or less whenever the extension is shorter than 100,
      and they keep the extension. */
  lemma EnforceMaxLengthBounds(name: string)
    ensures |name| <= MaxLength ==> EnforceMaxLength(name) == name
    ensures |SplitExt(name).1| < MaxLength ==> |EnforceMaxLength(name)| <= MaxLength
    ensures EndsWith(EnforceMaxLength(name), SplitExt(name).1)
    ensures name != [] ==> EnforceMaxLength(name) != []
    ensures |EnforceMaxLength(name)| <= |name|
  {
    var (base, ext) := SplitExt(name);
    if |name| > MaxLength && ext != [] {
      var r := EnforceMaxLength(name);
      assert r[|r| - |ext|..] == ext;
    }
  }

  /** Every character of the capped name comes from the name. */
  lemma EnforceMaxLengthChars(name: string)
    ensures forall k :: 0 <= k < |EnforceMaxLength(name)| ==> EnforceMaxLength(name)[k] in name
  {
    var r := EnforceMaxLength(name);
    if |name| > MaxLength {
      var (base, ext) := SplitExt(name);
      forall k | 0 <= k < |r| ensures r[k] in name {
        if ext == [] {
          assert r[k] == name[k];
        } else {
          var cut := Min(Max(1, MaxLength - |ext|), |base|);
          if k < cut {
            assert r[k] == name[k];
          } else {
            assert r[k] == name[|base| + k - cut];
          }
        }
      }
    }
  }

  /** No two consecutive underscores. */
  predicate NoDoubleUnderscore(s: string)
  {
    forall k :: 0 <= k < |s| - 1 ==> !(s[k] == '_' && s[k + 1] == '_')
  }

  lemma EnforceMaxLengthNoDouble(name: string)
    requires NoDoubleUnderscore(name)
    ensures NoDoubleUnderscore(EnforceMaxLength(name))
  {
    if |name| > MaxLength {
      var (base, ext) := SplitExt(name);
      if ext == [] {
        NoDoubleSlice(name, 0, MaxLength);
      } else {
        var cut := Min(Max(1, MaxLength - |ext|), |base|);
        assert base == name[..|base|] && ext == name[|base|..];
        assert base[..cut] == name[0..cut];
        NoDoubleSlice(name, 0, cut);
        NoDoubleSlice(name, |base|, |name|);
        NoDoubleJoin(base[..cut], ext);
      }
    }
  }

  /** A slice of a name without `__` has none either. */
  lemma NoDoubleSlice(s: string, i: nat, j: nat)
    requires NoDoubleUnderscore(s) && i <= j <= |s|
    ensures NoDoubleUnderscore(s[i..j])
  {
    var t := s[i..j];
    forall k | 0 <= k < |t| - 1 ensures !(t[k] == '_' && t[k + 1] == '_') {
      assert t[k] == s[i + k] && t[k + 1] == s[i + k + 1];
    }
  }

  /** Two names without `__` joined stay without it when the second does
      not begin with `_`. */
  lemma NoDoubleJoin(a: string, b: string)
    requires NoDoubleUnderscore(a) && NoDoubleUnderscore(b) && b != [] && b[0] != '_'
    ensures NoDoubleUnderscore(a + b)
  {
    var t := a + b;
    forall k | 0 <= k < |t| - 1 ensures !(t[k] == '_' && t[k + 1] == '_') {
      if k + 1 < |a| {
        assert t[k] == a[k] && t[k + 1] == a[k + 1];
      } else if k + 1 == |a| {
        assert t[k + 1] == b[0];
      } else {
        assert t[k] == b[k - |a|] && t[k + 1] == b[k + 1 - |a|];
      }
    }
  }

  // ---- _sanitize_filename and _sanitize_component ------------------------------

  /** The characters `[<>:"/\\|?*]` that a file name may not contain. */
  predicate IsReserved(c: char)
  {
    c == '<' || c == '>' || c == ':' || c == '"' || c == '/' || c == '\\' || c == '|' || c == '?' || c == '*'
  }

  /** `re.sub(r'[<>:"/\\|?*]', "_", s)`, and with `dots` the same class
      with `.` added. */
  function ReplaceReserved(s: string, dots: bool): (r: string)
    ensures |r| == |s|
    ensures forall k :: 0 <= k < |s| ==> r[k] == (if IsReserved(s[k]) || (dots && s[k] == '.') then '_' else s[k])
    ensures forall k :: 0 <= k < |r| ==> !IsReserved(r[k])
  {
    seq(|s|, k requires 0 <= k < |s| => if IsReserved(s[k]) || (dots && s[k] == '.') then '_' else s[k])
  }

  /** A character a sanitised name may hold. */
  predicate Plain(c: char)
  {
    !IsReserved(c) && !IsSpace(c)
  }

  /** A string made of characters of a plain string is plain. */
  lemma PlainFrom(r: string, s: string)
    requires forall k :: 0 <= k < |r| ==> r[k] in s
    requires forall k :: 0 <= k < |s| ==> Plain(s[k])
    ensures forall k :: 0 <= k < |r| ==> Plain(r[k])
  {
    forall k | 0 <= k < |r| ensures Plain(r[k]) {
      var j :| 0 <= j < |s| && s[j] == r[k];
    }
  }

  /** `re.sub(r"\s+", "_", s)`: each run of whitespace becomes one `_`. */
  function SpacesToUnderscore(s: string): (r: string)
    ensures forall k :: 0 <= k < |r| ==> !IsSpace(r[k]) && (r[k] == '_' || r[k] in s)
    decreases |s|
  {
    if s == [] then []
    else if IsSpace(s[0]) then
      var rest := TrimLeadingSpace(s);
      TrimLeadingSpaceSuffix(s);
      assert rest != s;
      var r := SpacesToUnderscore(rest);
      assert forall c :: c in rest ==> c in s;
      "_" + r
    else
      var r := SpacesToUnderscore(s[1..]);
      assert forall c :: c in s[1..] ==> c in s;
      [s[0]] + r
  }

  /** `re.sub(r"__+", "_", s)`: each run of underscores becomes one. */
  function SqueezeUnderscores(s: string): (r: string)
    ensures NoDoubleUnderscore(r)
    ensures forall k :: 0 <= k < |r| ==> r[k] in s
    ensures s != [] ==> r != [] && r[0] == s[0]
    decreases |s|
  {
    if |s| >= 2 && s[0] == '_' && s[1] == '_' then
      var r := SqueezeUnderscores(s[1..]);
      assert forall c :: c in s[1..] ==> c in s;
      r
    else if s == [] then []
    else
      var r := SqueezeUnderscores(s[1..]);
      assert forall c :: c in s[1..] ==> c in s;
      [s[0]] + r
  }

  /** Every character of a slice is a character of the string. */
  lemma CharsOfSlice(s: string, r: string, i: nat)
    requires OccursAt(s, r, i)
    ensures forall k :: 0 <= k < |r| ==> r[k] in s
  {
    forall k | 0 <= k < |r| ensures r[k] in s {
      assert r[k] == s[i + k];
    }
  }

  /** `s.strip("_")` */
  function StripUnderscores(s: string): (r: string)
    ensures r == [] || (r[0] != '_' && r[|r| - 1] != '_')
    ensures |r| <= |s|
  {
    StripChar(s, '_')
  }

  /** Every character of `s.strip("_")` comes from `s`. */
  lemma StripUnderscoresChars(s: string)
    ensures forall k :: 0 <= k < |StripUnderscores(s)| ==> StripUnderscores(s)[k] in s
  {
    var i := StripUnderscoresWithin(s);
    CharsOfSlice(s, StripUnderscores(s), i);
  }

  /** What a sanitised file name never contains. */
  predicate CleanName(s: string)
  {
    (forall k :: 0 <= k < |s| ==> Plain(s[k])) && NoDoubleUnderscore(s)
  }

  /** `_sanitize_filename` before the final length cap. */
  function Sanitized(original: string): string
  {
    var value := if original == [] then "archivo" else original;
    var value := ReplaceReserved(value, false);
    var value := SpacesToUnderscore(value);
    var value := StripUnderscores(value);
    var value := if value == [] then "archivo" else value;
    SqueezeUnderscores(value)
  }

  /** `_sanitize_filename` */
  function SanitizeFilename(original: string): string
  {
    EnforceMaxLength(Sanitized(original))
  }

  /** Replacing whitespace runs in a string free of reserved characters
      leaves a plain string. */
  lemma SpacesPlain(s: string)
    requires forall k :: 0 <= k < |s| ==> !IsReserved(s[k])
    ensures forall k :: 0 <= k < |SpacesToUnderscore(s)| ==> Plain(SpacesToUnderscore(s)[k])
  {
    var r := SpacesToUnderscore(s);
    forall k | 0 <= k < |r| ensures Plain(r[k]) {
      if r[k] != '_' {
        var j :| 0 <= j < |s| && s[j] == r[k];
      }
    }
  }

  /** The fallback name "archivo" is plain. */
  lemma FallbackNamePlain()
    ensures forall k :: 0 <= k < |"archivo"| ==> Plain("archivo"[k])
  {
    forall k | 0 <= k < |"archivo"| ensures Plain("archivo"[k]) {
      SpaceCode("archivo"[k]);
    }
  }

  lemma SanitizedClean(original: string)
    ensures Sanitized(original) != []
    ensures CleanName(Sanitized(original))
  {
    var v0 := if original == [] then "archivo" else original;
    var v1 := ReplaceReserved(v0, false);
    var v2 := SpacesToUnderscore(v1);
    SpacesPlain(v1);
    var v3 := StripUnderscores(v2);
    StripUnderscoresChars(v2);
    PlainFrom(v3, v2);
    var v4 := if v3 == [] then "archivo" else v3;
    if v3 == [] {
      FallbackNamePlain();
    }
    assert forall k :: 0 <= k < |v4| ==> Plain(v4[k]);
    PlainFrom(SqueezeUnderscores(v4), v4);
  }

  /** A sanitised name is never empty and holds no reserved character, no
      whitespace and no `__`. */
  lemma SanitizeFilenameClean(original: string)
    ensures SanitizeFilename(original) != []
    ensures CleanName(SanitizeFilename(original))
  {
    var v := Sanitized(original);
    SanitizedClean(original);
    EnforceMaxLengthBounds(v);
    EnforceMaxLengthChars(v);
    PlainFrom(EnforceMaxLength(v), v);
    EnforceMaxLengthNoDouble(v);
  }

  // ---- tokens ------------------------------------------------------------------

  /** A token for which `len(t) == 1 and t.isalpha()` holds. */
  predicate IsLetterToken(t: string)
  {
    |t| == 1 && IsAlpha(t[0])
  }

  /** The number of leading one-letter tokens. */
  function LetterPrefixLength(tokens: seq<string>): (n: nat)
    ensures n <= |tokens|
    ensures forall k :: 0 <= k < n ==> IsLetterToken(tokens[k])
    ensures n < |tokens| ==> !IsLetterToken(tokens[n])
  {
    if tokens != [] && IsLetterToken(tokens[0]) then 1 + LetterPrefixLength(tokens[1..]) else 0
  }

  /** Joining a split list in two pieces. */
  lemma {:induction false} JoinAt(tokens: seq<string>, k: nat)
    requires 1 <= k < |tokens|
    ensures Join(tokens, "_") == Join(tokens[..k], "_") + "_" + Join(tokens[k..], "_")
  {
    if k > 1 {
      JoinAt(tokens[1..], k - 1);
      assert tokens[1..][..k - 1] == tokens[1..k];
      assert tokens[1..][k - 1..] == tokens[k..];
      assert tokens[..k][1..] == tokens[1..k];
    }
  }

  /** `_strip_single_letter_component_prefix` */
  function LetterPrefixStripped(value: string): string
  {
    if value == [] then value
    else
      var tokens := Split(value, '_');
      var n := LetterPrefixLength(tokens);
      if n == |tokens| then ""
      else
        var remainder := StripUnderscores(Join(tokens[n..], "_"));
        if remainder != [] then remainder else value
  }

  method StripSingleLetterComponentPrefix(value: string) returns (r: string)
    ensures r == LetterPrefixStripped(value)
  {
    if value == [] {
      return value;
    }
    var all := Split(value, '_');
    var tokens := all;
    while tokens != [] && IsLetterToken(tokens[0])
      invariant |tokens| <= |all| && tokens == all[|all| - |tokens|..]
      invariant |all| - |tokens| + LetterPrefixLength(tokens) == LetterPrefixLength(all)
    {
      assert all[|all| - |tokens| + 1..] == tokens[1..];
      tokens := tokens[1..];
    }
    ghost var n := |all| - |tokens|;
    assert n == LetterPrefixLength(all) && tokens == all[n..];
    if tokens == [] {
      return "";
    }
    var remainder := StripUnderscores(Join(tokens, "_"));
    r := if remainder != [] then remainder else value;
  }

  /** A value made only of one-letter tokens strips to nothing. */
  lemma AllLettersStripToEmpty(value: string)
    requires value != []
    requires forall k :: 0 <= k < |Split(value, '_')| ==> IsLetterToken(Split(value, '_')[k])
    ensures LetterPrefixStripped(value) == ""
  {
  }

  /** When the first token is not a single letter nothing is dropped but
      the underscores at both ends. */
  lemma FirstTokenKept(value: string)
    requires value != [] && !IsLetterToken(Split(value, '_')[0])
    ensures LetterPrefixStripped(value)
            == (if StripUnderscores(value) != [] then StripUnderscores(value) else value)
  {
    JoinSplit(value, '_');
    assert Split(value, '_')[0..] == Split(value, '_');
  }

  /** A value without an underscore at either end strips to itself. */
  lemma StripUnderscoresUnchanged(s: string)
    requires s == [] || (s[0] != '_' && s[|s| - 1] != '_')
    ensures StripUnderscores(s) == s
  {
    assert TrimLeadingChar(s, '_') == s;
    assert TrimTrailingChar(s, '_') == s;
  }

  /** So a value whose first token is not a single letter, and that has no
      underscore at either end, comes back unchanged. */
  lemma FirstTokenUnchanged(value: string)
    requires value != [] && value[0] != '_' && value[|value| - 1] != '_'
    requires !IsLetterToken(Split(value, '_')[0])
    ensures LetterPrefixStripped(value) == value
  {
    FirstTokenKept(value);
    StripUnderscoresUnchanged(value);
  }

  /** `_strip_leading_gender_prefix` */
  function GenderStripped(filename: string): string
  {
    if filename == [] then filename
    else
      var (base, ext) := SplitExt(filename);
      var tokens := Split(base, '_');
      if |tokens| <= 1 then filename
      else
        var n := LetterPrefixLength(tokens);
        if n == 0 || n >= |tokens| then filename
        else
          var remainder := StripUnderscores(Join(tokens[n..], "_"));
          if remainder == [] then filename else EnforceMaxLength(remainder + ext)
  }

  method StripLeadingGenderPrefix(filename: string) returns (r: string)
    ensures r == GenderStripped(filename)
  {
    if filename == [] {
      return filename;
    }
    var (base, ext) := SplitExt(filename);
    var tokens := Split(base, '_');
    if |tokens| <= 1 {
      return filename;
    }
    var index := 0;
    while index < |tokens| && IsLetterToken(tokens[index])
      invariant 0 <= index <= |tokens|
      invariant index + LetterPrefixLength(tokens[index..]) == LetterPrefixLength(tokens)
    {
      assert tokens[index..][1..] == tokens[index + 1..];
      index := index + 1;
    }
    assert tokens[index..] == [] || !IsLetterToken(tokens[index..][0]);
    assert index == LetterPrefixLength(tokens);
    if index == 0 || index >= |tokens| {
      return filename;
    }
    var remainder := StripUnderscores(Join(tokens[index..], "_"));
    if remainder == [] {
      return filename;
    }
    r := EnforceMaxLength(remainder + ext);
  }

  /** The gender prefix is dropped only when a one-letter token leads and
      something else follows; the name never gets longer. */
  lemma GenderStrippedShape(filename: string)
    ensures |GenderStripped(filename)| <= |filename|
    ensures filename != [] && !IsLetterToken(Split(SplitExt(filename).0, '_')[0]) ==> GenderStripped(filename) == filename
  {
    if filename != [] {
      var (base, ext) := SplitExt(filename);
      var tokens := Split(base, '_');
      var n := LetterPrefixLength(tokens);
      if |tokens| > 1 && 0 < n < |tokens| {
        var remainder := StripUnderscores(Join(tokens[n..], "_"));
        JoinAt(tokens, n);
        JoinSplit(base, '_');
        EnforceMaxLengthBounds(remainder + ext);
      }
    }
  }

  // ---- _sanitize_component ---------------------------------------------------------

  /** `_sanitize_component` */
  function ComponentSanitized(value: Option<string>): string
  {
    if value.None? || value.value == [] then ""
    else
      var s := LetterPrefixStripped(ComponentPrepared(value.value));
      if s == [] then "" else EnforceMaxLength(s)
  }

  method SanitizeComponent(value: Option<string>) returns (r: string)
    ensures r == ComponentSanitized(value)
  {
    if value.None? || value.value == [] {
      return "";
    }
    var s := ReplaceReserved(value.value, true);
    s := SpacesToUnderscore(s);
    s := StripUnderscores(s);
    s := SqueezeUnderscores(s);
    s := StripUnderscores(s);
    s := StripSingleLetterComponentPrefix(s);
    if s == [] {
      return "";
    }
    r := EnforceMaxLength(s);
  }

  // ---- _remove_duplicate_tokens -------------------------------------------------------

  /** `re.sub(r"[^a-z0-9]", "", token.lower())` */
  function Form(token: string): (r: string)
    ensures forall k :: 0 <= k < |r| ==> IsAsciiLower(r[k]) || IsDigit(r[k])
  {
    var low := Lower(token);
    if low == [] then []
    else if IsAsciiLower(low[0]) || IsDigit(low[0]) then [low[0]] + Form(token[1..])
    else Form(token[1..])
  }

  /** A form that claims its token a place: not empty and not one letter. */
  predicate Counts(f: string)
  {
    f != [] && !(|f| == 1 && IsAlpha(f[0]))
  }

  /** The forms that count among the tokens. */
  function Forms(tokens: seq<string>): (r: set<string>)
    ensures forall f :: f in r ==> Counts(f)
  {
    if tokens == [] then {}
    else
      var f := Form(tokens[|tokens| - 1]);
      Forms(tokens[..|tokens| - 1]) + (if Counts(f) then {f} else {})
  }

  /** The tokens `_remove_duplicate_tokens` keeps: those without a form,
      and those whose form counts and has not been seen before. */
  function KeptTokens(tokens: seq<string>): (r: seq<string>)
    ensures |r| <= |tokens|
  {
    if tokens == [] then []
    else
      var front, last := tokens[..|tokens| - 1], tokens[|tokens| - 1];
      var f := Form(last);
      KeptTokens(front) + (if f == [] || (Counts(f) && f !in Forms(front)) then [last] else [])
  }

  /** `filter(None, tokens)` */
  function NonEmpty(tokens: seq<string>): (r: seq<string>)
    ensures forall k :: 0 <= k < |r| ==> r[k] != []
  {
    if tokens == [] then []
    else (if tokens[0] == [] then [] else [tokens[0]]) + NonEmpty(tokens[1..])
  }

  /** `_remove_duplicate_tokens` */
  function Deduplicated(filename: string): string
  {
    var (base, ext) := SplitExt(filename);
    var cleaned := Join(NonEmpty(KeptTokens(Split(base, '_'))), "_");
    (if cleaned != [] then cleaned else base) + ext
  }

  method RemoveDuplicateTokens(filename: string) returns (r: string)
    ensures r == Deduplicated(filename)
  {
    var (base, ext) := SplitExt(filename);
    var tokens := Split(base, '_');
    var seen: set<string> := {};
    var ordered: seq<string> := [];
    var i := 0;
    while i < |tokens|
      invariant 0 <= i <= |tokens|
      invariant ordered == KeptTokens(tokens[..i]) && seen == Forms(tokens[..i])
    {
      var token := tokens[i];
      KeptSnoc(tokens, i);
      var normalized := Form(token);
      if normalized == [] {
        ordered := ordered + [token];
      } else if |normalized| == 1 && IsAlpha(normalized[0]) {
        // a single letter is dropped
      } else if normalized in seen {
        // a repeated form is dropped
      } else {
        seen := seen + {normalized};
        ordered := ordered + [token];
      }
      i := i + 1;
    }
    assert tokens[..i] == tokens;
    var cleaned := Join(NonEmpty(ordered), "_");
    r := (if cleaned != [] then cleaned else base) + ext;
  }

  /** One token of the loop of `_remove_duplicate_tokens`: a token without
      a form is kept, a one-letter form and a form seen before drop the
      token, and a new form is kept and remembered. */
  lemma KeptSnoc(tokens: seq<string>, i: nat)
    requires i < |tokens|
    ensures var f := Form(tokens[i]);
            f == [] ==> KeptTokens(tokens[..i + 1]) == KeptTokens(tokens[..i]) + [tokens[i]]
                        && Forms(tokens[..i + 1]) == Forms(tokens[..i])
    ensures var f := Form(tokens[i]);
            (f != [] && !Counts(f)) || (Counts(f) && f in Forms(tokens[..i])) ==>
              KeptTokens(tokens[..i + 1]) == KeptTokens(tokens[..i]) && Forms(tokens[..i + 1]) == Forms(tokens[..i])
    ensures var f := Form(tokens[i]);
            Counts(f) && f !in Forms(tokens[..i]) ==>
              KeptTokens(tokens[..i + 1]) == KeptTokens(tokens[..i]) + [tokens[i]]
              && Forms(tokens[..i + 1]) == Forms(tokens[..i]) + {f}
  {
    TakeFront(tokens, i);
    var f := Form(tokens[i]);
    if !Counts(f) {
      assert Forms(tokens[..i]) + {} == Forms(tokens[..i]);
    }
    assert KeptTokens(tokens[..i]) + [] == KeptTokens(tokens[..i]);
  }

  /** Every kept token with a counting form has its form among the forms. */
  lemma {:induction false} KeptFormsIn(tokens: seq<string>, k: nat)
    requires k < |KeptTokens(tokens)| && Counts(Form(KeptTokens(tokens)[k]))
    ensures Form(KeptTokens(tokens)[k]) in Forms(tokens)
  {
    var front := tokens[..|tokens| - 1];
    if k < |KeptTokens(front)| {
      assert KeptTokens(tokens)[k] == KeptTokens(front)[k];
      KeptFormsIn(front, k);
    }
  }

  /** The kept tokens never share a counting form, and none of them is a
      single letter. */
  lemma {:induction false} KeptDistinct(tokens: seq<string>)
    ensures forall i, j :: 0 <= i < j < |KeptTokens(tokens)| && Counts(Form(KeptTokens(tokens)[i]))
              ==> Form(KeptTokens(tokens)[i]) != Form(KeptTokens(tokens)[j])
    ensures forall i :: 0 <= i < |KeptTokens(tokens)| ==> !IsLetterToken(Form(KeptTokens(tokens)[i]))
  {
    if tokens != [] {
      var front := tokens[..|tokens| - 1];
      var kept := KeptTokens(tokens);
      var before := KeptTokens(front);
      KeptDistinct(front);
      forall i, j | 0 <= i < j < |kept| && Counts(Form(kept[i])) ensures Form(kept[i]) != Form(kept[j]) {
        assert kept[i] == before[i];
        if j < |before| {
          assert kept[j] == before[j];
        } else {
          KeptFormsIn(front, i);
        }
      }
      forall i | 0 <= i < |kept| ensures !IsLetterToken(Form(kept[i])) {
        if i < |before| {
          assert kept[i] == before[i];
        }
      }
    }
  }

  /** Every counting form of the tokens survives in exactly the kept tokens:
      the first token of each form is kept. */
  lemma {:induction false} KeptCoversForms(tokens: seq<string>)
    ensures Forms(KeptTokens(tokens)) == Forms(tokens)
  {
    if tokens != [] {
      var front, last := tokens[..|tokens| - 1], tokens[|tokens| - 1];
      KeptCoversForms(front);
      var kept := KeptTokens(tokens);
      var f := Form(last);
      if f == [] || (Counts(f) && f !in Forms(front)) {
        assert kept == KeptTokens(front) + [last];
        assert kept[..|kept| - 1] == KeptTokens(front);
      } else {
        assert kept == KeptTokens(front);
      }
    }
  }

  /** The extension is kept, and a name whose tokens all vanish comes back
      unchanged. */
  lemma DeduplicatedShape(filename: string)
    ensures EndsWith(Deduplicated(filename), SplitExt(filename).1)
    ensures NonEmpty(KeptTokens(Split(SplitExt(filename).0, '_'))) == [] ==> Deduplicated(filename) == filename
  {
    var (base, ext) := SplitExt(filename);
    var r := Deduplicated(filename);
    assert r[|r| - |ext|..] == ext;
  }

  // ---- _generate_unique_filename -------------------------------------------------------

  /** The `%Y%m%d%H%M%S` text of the clock: fourteen digits. */
  predicate IsTimestamp(t: string)
  {
    |t| == 14 && forall k :: 0 <= k < |t| ==> IsDigit(t[k])
  }

  /** `_{timestamp}` on the first try, `_{timestamp}_{counter}` after it. */
  function Suffix(timestamp: string, counter: nat): string
  {
    "_" + timestamp + (if counter == 0 then "" else "_" + NatToDecimal(counter))
  }

  /** The name tried with `suffix`: as much of the base as leaves room
      for the suffix and the extension (at least one character), capped. */
  function Attempt(base: string, ext: string, suffix: string): string
  {
    var keep := Max(1, MaxLength - |ext| - |suffix|);
    EnforceMaxLength(base[..Min(keep, |base|)] + suffix + ext)
  }

  /** The name tried at `counter`. */
  function Candidate(desired: string, timestamp: string, counter: nat): string
  {
    var (base, ext) := SplitExt(desired);
    Attempt(base, ext, Suffix(timestamp, counter))
  }

  lemma ShortDecimal(n: nat)
    requires n < 10000
    ensures |NatToDecimal(n)| <= 4
  {
    if n >= 10 {
      assert |NatToDecimal(n / 10)| <= 3 by {
        if n / 10 >= 10 {
          assert |NatToDecimal(n / 100)| <= 2 by {
            if n / 100 >= 10 {
              assert n / 1000 < 10;
              assert n / 100 / 10 == n / 1000;
            }
          }
          assert n / 10 / 10 == n / 100;
        }
      }
    }
  }

  /** Up to a thousand tries the suffix is 15 to 20 characters: an
      underscore, the timestamp and, after the first try, an underscore and
      the counter. */
  lemma SuffixShape(timestamp: string, counter: nat)
    requires IsTimestamp(timestamp) && counter <= 1000
    ensures 15 <= |Suffix(timestamp, counter)| <= 20
    ensures Suffix(timestamp, counter)[..15] == "_" + timestamp
    ensures counter == 0 ==> |Suffix(timestamp, counter)| == 15
    ensures counter > 0 ==> Suffix(timestamp, counter)[15..] == "_" + NatToDecimal(counter)
  {
    ShortDecimal(counter);
  }

  /** When suffix and extension leave room for the base, the try is the
      trimmed base, the suffix and the extension, at most 100 characters. */
  lemma AttemptFits(base: string, ext: string, suffix: string)
    requires |ext| + |suffix| < MaxLength
    ensures Attempt(base, ext, suffix) == base[..Min(MaxLength - |ext| - |suffix|, |base|)] + suffix + ext
    ensures |Attempt(base, ext, suffix)| <= MaxLength
  {
  }

  /** Whatever precedes them, two suffixes of the first thousand tries end
      two equally long names differently. */
  lemma SuffixesApart(p: string, q: string, timestamp: string, i: nat, j: nat)
    requires IsTimestamp(timestamp) && i < j <= 1000
    requires |p + Suffix(timestamp, i)| == |q + Suffix(timestamp, j)|
    ensures p + Suffix(timestamp, i) != q + Suffix(timestamp, j)
  {
    if i == 0 {
      FirstSuffixApart(p, q, timestamp, j);
    } else {
      LaterSuffixesApart(p, q, timestamp, i, j);
    }
  }

  /** The first try has a timestamp digit where a later one has `_`. */
  lemma FirstSuffixApart(p: string, q: string, timestamp: string, j: nat)
    requires IsTimestamp(timestamp) && 0 < j <= 1000
    requires |p + Suffix(timestamp, 0)| == |q + Suffix(timestamp, j)|
    ensures p + Suffix(timestamp, 0) != q + Suffix(timestamp, j)
  {
    var si, sj := Suffix(timestamp, 0), Suffix(timestamp, j);
    SuffixShape(timestamp, 0);
    SuffixShape(timestamp, j);
    var yi, yj := p + si, q + sj;
    var n := |yi|;
    var dj := NatToDecimal(j);
    ShortDecimal(j);
    assert yj[n - |dj| - 1] == sj[15];
    assert yi[n - |dj| - 1] == si[15 - |dj| - 1] == timestamp[14 - |dj| - 1];
  }

  /** Two later tries differ in where their counters start, or else in
      the counters' digits. */
  lemma LaterSuffixesApart(p: string, q: string, timestamp: string, i: nat, j: nat)
    requires IsTimestamp(timestamp) && 0 < i < j <= 1000
    requires |p + Suffix(timestamp, i)| == |q + Suffix(timestamp, j)|
    ensures p + Suffix(timestamp, i) != q + Suffix(timestamp, j)
  {
    var si, sj := Suffix(timestamp, i), Suffix(timestamp, j);
    SuffixShape(timestamp, i);
    SuffixShape(timestamp, j);
    var yi, yj := p + si, q + sj;
    var n := |yi|;
    var di, dj := NatToDecimal(i), NatToDecimal(j);
    ShortDecimal(i);
    ShortDecimal(j);
    assert yj[n - |dj| - 1] == sj[15];
    assert yi[n - |di| - 1] == si[15];
    if |di| < |dj| {
      assert yj[n - |di| - 1] == dj[|dj| - |di| - 1];
    } else if |di| > |dj| {
      assert yi[n - |dj| - 1] == di[|di| - |dj| - 1];
    } else {
      assert yj[n - |dj|..] == dj;
      assert yi[n - |di|..] == di;
      DigitsOfDecimal(i);
      DigitsOfDecimal(j);
      assert di != dj;
    }
  }

  /** The first thousand tries give as many different names, each at most
      100 characters, when the extension has at most 79. */
  lemma CandidatesDiffer(desired: string, timestamp: string, i: nat, j: nat)
    requires IsTimestamp(timestamp) && i < j <= 1000 && |SplitExt(desired).1| <= 79
    ensures Candidate(desired, timestamp, i) != Candidate(desired, timestamp, j)
    ensures |Candidate(desired, timestamp, j)| <= MaxLength
  {
    var (base, ext) := SplitExt(desired);
    var si, sj := Suffix(timestamp, i), Suffix(timestamp, j);
    SuffixShape(timestamp, i);
    SuffixShape(timestamp, j);
    AttemptFits(base, ext, si);
    AttemptFits(base, ext, sj);
    var p := base[..Min(MaxLength - |ext| - |si|, |base|)];
    var q := base[..Min(MaxLength - |ext| - |sj|, |base|)];
    if |p + si| == |q + sj| {
      SuffixesApart(p, q, timestamp, i, j);
      assert (p + si + ext)[..|p + si|] == p + si;
      assert (q + sj + ext)[..|q + sj|] == q + sj;
    }
  }

  /** A sequence without repeats drawn from a set is no longer than the set. */
  lemma {:induction false} DistinctWithin(s: seq<string>, names: set<string>)
    requires forall i, j :: 0 <= i < j < |s| ==> s[i] != s[j]
    requires forall i :: 0 <= i < |s| ==> s[i] in names
    ensures |s| <= |names|
  {
    if s != [] {
      var last := s[|s| - 1];
      DistinctWithin(s[..|s| - 1], names - {last});
    }
  }

  /** The names of the first `|tried|` tries, all taken. */
  ghost predicate TriedSoFar(tried: seq<string>, existing: set<string>, desired: string, timestamp: string)
  {
    forall k :: 0 <= k < |tried| ==> tried[k] == Candidate(desired, timestamp, k) && tried[k] in existing
  }

  /** The tries so far are different names. */
  lemma TriedDistinct(tried: seq<string>, existing: set<string>, desired: string, timestamp: string)
    requires IsTimestamp(timestamp) && |SplitExt(desired).1| <= 79 && |tried| <= 1001
    requires TriedSoFar(tried, existing, desired, timestamp)
    ensures forall a, b :: 0 <= a < b < |tried| ==> tried[a] != tried[b]
  {
    forall a, b | 0 <= a < b < |tried| ensures tried[a] != tried[b] {
      assert tried[a] == Candidate(desired, timestamp, a);
      assert tried[b] == Candidate(desired, timestamp, b);
      CandidatesDiffer(desired, timestamp, a, b);
    }
  }

  /** One more taken try: the tries so far still fit in the folder. */
  lemma TriedGrows(tried: seq<string>, existing: set<string>, desired: string, timestamp: string)
    requires IsTimestamp(timestamp) && |SplitExt(desired).1| <= 79
    requires |tried| <= |existing| <= 1000
    requires TriedSoFar(tried, existing, desired, timestamp)
    requires Candidate(desired, timestamp, |tried|) in existing
    ensures TriedSoFar(tried + [Candidate(desired, timestamp, |tried|)], existing, desired, timestamp)
    ensures |tried| + 1 <= |existing|
  {
    var more := tried + [Candidate(desired, timestamp, |tried|)];
    assert TriedSoFar(more, existing, desired, timestamp);
    TriedDistinct(more, existing, desired, timestamp);
    DistinctWithin(more, existing);
  }

  /** `_generate_unique_filename`, with `existing` the names of one listing
      page of the folder (at most 1000) and `timestamp` the clock's text. */
  method GenerateUniqueFilename(existing: set<string>, desired: string, timestamp: string) returns (r: string)
    requires |existing| <= 1000
    requires IsTimestamp(timestamp)
    requires |SplitExt(desired).1| <= 79
    ensures r !in existing
    ensures desired !in existing ==> r == desired
    ensures desired in existing ==> |r| <= MaxLength
    ensures desired in existing ==>
              exists c :: 0 <= c <= |existing| && r == Candidate(desired, timestamp, c)
                          && forall k :: 0 <= k < c ==> Candidate(desired, timestamp, k) in existing
  {
    if desired !in existing {
      return desired;
    }
    var (base, ext) := SplitExt(desired);
    var counter := 0;
    ghost var tried: seq<string> := [];
    while true
      invariant |tried| == counter <= |existing|
      invariant TriedSoFar(tried, existing, desired, timestamp)
      decreases |existing| - counter
    {
      var suffix := if counter == 0 then "_" + timestamp else "_" + timestamp + "_" + NatToDecimal(counter);
      assert suffix == Suffix(timestamp, counter);
      var maxBaseLen := Max(1, MaxLength - |ext| - |suffix|);
      var trimmedBase := base[..Min(maxBaseLen, |base|)];
      var candidate := EnforceMaxLength(trimmedBase + suffix + ext);
      assert candidate == Attempt(base, ext, suffix) == Candidate(desired, timestamp, counter);
      if candidate !in existing {
        SuffixShape(timestamp, counter);
        AttemptFits(base, ext, suffix);
        return candidate;
      }
      TriedGrows(tried, existing, desired, timestamp);
      tried := tried + [candidate];
      counter := counter + 1;
    }
  }

  /** `os.path.splitext` finds the extension that was appended to a stem
      without slashes that does not start with a dot. */
  lemma {:induction false} LastIndexOfAppend(u: string, t: string, c: char)
    requires c in t
    ensures LastIndexOf(u + t, c) == Some(|u| + LastIndexOf(t, c).value)
  {
    if t[|t| - 1] != c {
      assert (u + t)[..|u + t| - 1] == u + t[..|t| - 1];
      LastIndexOfAppend(u, t[..|t| - 1], c);
    }
  }

  lemma SplitExtAppend(u: string, ext: string)
    requires u != [] && u[0] != '.' && '/' !in u
    requires ext != [] && ext[0] == '.' && '.' !in ext[1..] && '/' !in ext
    ensures SplitExt(u + ext) == (u, ext)
  {
    LastIndexOfAppend(u, ext, '.');
    assert (u + ext)[0] == u[0];
  }

  /** With a one-character base and a 99-character extension every try is
      the desired name itself: when that name is taken no try is free and
      the loop of `_generate_unique_filename` does not end. */
  lemma CandidatesRepeat(base: string, ext: string, timestamp: string, counter: nat)
    requires |base| == 1 && base[0] != '.' && base[0] != '/'
    requires |ext| == 99 && ext[0] == '.' && '.' !in ext[1..] && '/' !in ext
    requires IsTimestamp(timestamp)
    ensures Candidate(base + ext, timestamp, counter) == base + ext
  {
    SplitExtAppend(base, ext);
    var suffix := Suffix(timestamp, counter);
    SuffixNoSlash(timestamp, counter);
    assert base[..Min(Max(1, MaxLength - |ext| - |suffix|), |base|)] == base;
    LongNameKeepsOneChar(base + suffix, ext);
    assert (base + suffix)[..1] == base;
  }

  lemma SuffixNoSlash(timestamp: string, counter: nat)
    requires IsTimestamp(timestamp)
    ensures '/' !in Suffix(timestamp, counter) && |Suffix(timestamp, counter)| >= 15
  {
    if counter > 0 {
      var d := NatToDecimal(counter);
      assert forall k :: 0 <= k < |d| ==> d[k] != '/';
    }
    assert forall k :: 0 <= k < |timestamp| ==> timestamp[k] != '/';
  }

  /** A stem of two characters or more before a 99-character extension is
      cut to its first character. */
  lemma LongNameKeepsOneChar(u: string, ext: string)
    requires |u| >= 2 && u[0] != '.' && '/' !in u
    requires |ext| == 99 && ext[0] == '.' && '.' !in ext[1..] && '/' !in ext
    ensures EnforceMaxLength(u + ext) == u[..1] + ext
  {
    SplitExtAppend(u, ext);
  }

  // ---- _clean_district_candidate ------------------------------------------------------

  /** The class `[\s_\-:]`. */
  predicate IsSeparator(c: char)
  {
    IsSpace(c) || c == '_' || c == '-' || c == ':'
  }

  predicate IsAsciiLetter(c: char)
  {
    'A' <= c <= 'Z' || 'a' <= c <= 'z'
  }

  /** The length of the run of separators `s` starts with. */
  function SeparatorRun(s: string): (n: nat)
    ensures n <= |s|
    ensures forall k :: 0 <= k < n ==> IsSeparator(s[k])
    ensures n < |s| ==> !IsSeparator(s[n])
  {
    if s != [] && IsSeparator(s[0]) then 1 + SeparatorRun(s[1..]) else 0
  }

  /** What `(.+)$` captures of `t`: all of it when it has no line break,
      or all but a final line break. */
  function LineTail(t: string): (r: Option<string>)
    ensures r.Some? ==> r.value != [] && '\n' !in r.value && (r.value == t || r.value + "\n" == t)
  {
    if t != [] && '\n' !in t then Some(t)
    else if |t| >= 2 && t[|t| - 1] == '\n' && '\n' !in t[..|t| - 1] then Some(t[..|t| - 1])
    else None
  }

  /** The capture when the separator run may give back characters: the
      longest run of at least one separator after which `(.+)$` matches. */
  function Backtrack(rest: string, k: nat): (r: Option<string>)
    requires 1 <= k <= |rest|
    ensures r.Some? ==> exists j :: 1 <= j <= k && Some(r.value) == LineTail(rest[j..])
    ensures r.None? ==> forall j :: 1 <= j <= k ==> LineTail(rest[j..]).None?
  {
    var tail := LineTail(rest[k..]);
    if tail.Some? then tail
    else if k == 1 then None
    else Backtrack(rest, k - 1)
  }

  /** `re.match(r"^[A-Za-z](?:[\s_\-:]+)(.+)$", s)`: the captured group, if
      the pattern matches. */
  function PrefixMatch(s: string): (r: Option<string>)
    ensures r.Some? ==> |s| >= 2 && IsAsciiLetter(s[0]) && IsSeparator(s[1])
    ensures r.Some? ==> r.value != [] && |r.value| < |s| && '\n' !in r.value
  {
    if |s| < 2 || !IsAsciiLetter(s[0]) then None
    else
      var n := SeparatorRun(s[1..]);
      if n == 0 then None else Backtrack(s[1..], n)
  }

  /** The loop of `_clean_district_candidate`, from a stripped value. */
  function Cleaned(s: string): (r: string)
    decreases |s|
  {
    match PrefixMatch(s)
    case None => s
    case Some(g) => Cleaned(Strip(g))
  }

  /** `_clean_district_candidate` */
  function DistrictCleaned(value: string): string
  {
    if value == [] then "" else Cleaned(Strip(value))
  }

  method CleanDistrictCandidate(value: string) returns (r: string)
    ensures r == DistrictCleaned(value)
  {
    if value == [] {
      return "";
    }
    var cleaned := Strip(value);
    while true
      invariant Cleaned(cleaned) == Cleaned(Strip(value))
      decreases |cleaned|
    {
      var m := PrefixMatch(cleaned);
      if m.None? {
        break;
      }
      cleaned := Strip(m.value);
    }
    r := cleaned;
  }

  /** The cleaned value is stripped, and no letter-and-separator prefix is
      left to remove. */
  lemma {:induction false} CleanedSettled(s: string)
    requires Strip(s) == s
    ensures Strip(Cleaned(s)) == Cleaned(s)
    ensures PrefixMatch(Cleaned(s)).None?
    ensures |Cleaned(s)| <= |s|
    decreases |s|
  {
    var m := PrefixMatch(s);
    if m.None? {
      assert Cleaned(s) == s;
    } else {
      var t := Strip(m.value);
      assert Cleaned(s) == Cleaned(t);
      StripIdempotent(m.value);
      CleanedSettled(t);
    }
  }

  /** A value that does not start with a letter and a separator is only
      stripped. */
  lemma CleanedUnprefixed(value: string)
    requires value != [] && PrefixMatch(Strip(value)).None?
    ensures DistrictCleaned(value) == Strip(value)
  {
  }

  /** One letter, a run of separators and the rest: the letter and the
      separators go. */
  lemma {:induction false} LetterPrefixDropped(letter: char, seps: string, rest: string)
    requires IsAsciiLetter(letter)
    requires seps != [] && forall k :: 0 <= k < |seps| ==> IsSeparator(seps[k])
    requires rest != [] && !IsSeparator(rest[0]) && '\n' !in rest
    ensures PrefixMatch([letter] + seps + rest) == Some(rest)
  {
    var s := [letter] + seps + rest;
    assert s[1..] == seps + rest;
    SeparatorRunOver(seps, rest);
    assert (seps + rest)[|seps|..] == rest;
  }

  lemma {:induction false} SeparatorRunOver(seps: string, rest: string)
    requires forall k :: 0 <= k < |seps| ==> IsSeparator(seps[k])
    requires rest == [] || !IsSeparator(rest[0])
    ensures SeparatorRun(seps + rest) == |seps|
  {
    if seps != [] {
      assert (seps + rest)[1..] == seps[1..] + rest;
      SeparatorRunOver(seps[1..], rest);
    }
  }

  /** A letter and separators before a value with no such prefix of its
      own: the cleaning leaves the value. */
  lemma LetterPrefixCleaned(letter: char, seps: string, rest: string)
    requires IsAsciiLetter(letter)
    requires seps != [] && forall k :: 0 <= k < |seps| ==> IsSeparator(seps[k])
    requires rest != [] && !IsSeparator(rest[0]) && !IsSpace(rest[|rest| - 1]) && '\n' !in rest
    requires PrefixMatch(rest).None?
    ensures DistrictCleaned([letter] + seps + rest) == rest
  {
    var s := [letter] + seps + rest;
    SpaceCode(letter);
    assert s[0] == letter && s[|s| - 1] == rest[|rest| - 1];
    LetterPrefixDropped(letter, seps, rest);
    StripUnchanged(s);
    StripUnchanged(rest);
    assert Cleaned(rest) == rest;
    assert Cleaned(s) == Cleaned(Strip(rest));
  }

  /** "F District 10C" is cleaned to "District 10C". */
  lemma CleanedExample(value: string)
    requires value == "F District 10C"
    ensures DistrictCleaned(value) == "District 10C"
  {
    var rest := value[2..];
    assert rest == "District 10C";
    SpaceCode('i');
    assert rest[1..][0] == 'i' && !IsSeparator('i');
    assert PrefixMatch(rest).None?;
    SpaceCode('D');
    SpaceCode('C');
    SpaceCode(rest[|rest| - 1]);
    assert rest[0] == 'D' && rest[|rest| - 1] == 'C';
    assert forall k :: 0 <= k < |rest| ==> rest[k] != '\n';
    assert IsSeparator(value[1]);
    assert value == value[..1] + value[1..2] + value[2..];
    assert value[..1] == [value[0]];
    LetterPrefixCleaned(value[0], value[1..2], rest);
  }

  // ---- guess_primary_district ------------------------------------------------------------

  /** A value of a parsed row: a string, or anything else. */
  datatype Cell = Text(text: string) | NotText

  /** An item of the table's "rows": a mapping from column names to values
      in column order, or anything else. */
  datatype RowItem = Mapping(columns: seq<(string, Cell)>) | NotMapping

  /** `re.search(r"\d", s)` */
  predicate HasDigit(s: string)
  {
    exists k :: 0 <= k < |s| && IsDigit(s[k])
  }

  /** The district a column offers: a column whose lower-cased name
      contains "distrito" and whose value is a string that is not blank,
      cleaned, when the cleaned text is not empty and has a digit. */
  function ColumnCandidate(column: (string, Cell)): Option<string>
  {
    var (key, cell) := column;
    if Find(Lower(key), "distrito") && cell.Text? && Strip(cell.text) != [] then
      var c := DistrictCleaned(Strip(cell.text));
      if c != [] && HasDigit(c) then Some(c) else None
    else None
  }

  /** An offered district is cleaned, not empty, and has a digit. */
  lemma ColumnCandidateSound(column: (string, Cell))
    ensures ColumnCandidate(column).Some? ==>
              Find(Lower(column.0), "distrito") && column.1.Text? && !IsBlank(column.1.text)
    ensures ColumnCandidate(column).Some? ==>
              var r := ColumnCandidate(column).value;
              r != [] && HasDigit(r) && PrefixMatch(r).None? && Strip(r) == r
  {
    var (key, cell) := column;
    if cell.Text? && Strip(cell.text) != [] {
      BlankIffStripEmpty(cell.text);
      StripIdempotent(cell.text);
      CleanedSettled(Strip(cell.text));
    }
  }

  /** The columns of the mapping rows, row after row. */
  function Columns(rows: seq<RowItem>): seq<(string, Cell)>
  {
    if rows == [] then []
    else (if rows[0].Mapping? then rows[0].columns else []) + Columns(rows[1..])
  }

  /** What each column offers. */
  function Offers(columns: seq<(string, Cell)>): (r: seq<Option<string>>)
    ensures |r| == |columns|
    ensures forall k :: 0 <= k < |r| ==> r[k] == ColumnCandidate(columns[k])
  {
    if columns == [] then [] else [ColumnCandidate(columns[0])] + Offers(columns[1..])
  }

  /** The first value that is present. */
  function FirstSome(offers: seq<Option<string>>): Option<string>
  {
    if offers == [] then None
    else if offers[0].Some? then offers[0]
    else FirstSome(offers[1..])
  }

  /** The first district offered by the columns. */
  function FirstCandidate(columns: seq<(string, Cell)>): Option<string>
  {
    FirstSome(Offers(columns))
  }

  /** `guess_primary_district`, with `rows` the table's "rows" (None when
      there is no table, or no rows in it). */
  function GuessedDistrict(rows: Option<seq<RowItem>>): Option<string>
  {
    if rows.None? then None else FirstCandidate(Columns(rows.value))
  }

  method GuessPrimaryDistrict(rows: Option<seq<RowItem>>) returns (r: Option<string>)
    ensures r == GuessedDistrict(rows)
  {
    if rows.None? || rows.value == [] {
      return None;
    }
    var items := rows.value;
    ghost var target := FirstCandidate(Columns(items));
    assert target == GuessedDistrict(rows);
    var i := 0;
    assert items[i..] == items;
    while i < |items|
      invariant 0 <= i <= |items|
      invariant FirstCandidate(Columns(items[i..])) == target
    {
      var found := None;
      if items[i].Mapping? {
        found := ScanRow(items[i].columns, Columns(items[i + 1..]));
      }
      RowAdvance(items, i, found);
      if found.Some? {
        return found;
      }
      i := i + 1;
    }
    assert items[i..] == [];
    return None;
  }

  /** The scan of one row's columns in `guess_primary_district`, with
      `later` the columns of the rows after it. */
  method ScanRow(columns: seq<(string, Cell)>, ghost later: seq<(string, Cell)>) returns (found: Option<string>)
    ensures found.Some? ==> found == FirstCandidate(columns + later)
    ensures found.None? ==> FirstCandidate(columns + later) == FirstCandidate(later)
  {
    var j := 0;
    assert columns[j..] == columns;
    while j < |columns|
      invariant 0 <= j <= |columns|
      invariant FirstCandidate(columns[j..] + later) == FirstCandidate(columns + later)
    {
      FirstCandidateStep(columns, j, later);
      var (key, cell) := columns[j];
      if Find(Lower(key), "distrito") {
        if cell.Text? && Strip(cell.text) != [] {
          var candidate := Strip(cell.text);
          var cleaned := CleanDistrictCandidate(candidate);
          if cleaned != [] && HasDigit(cleaned) {
            return Some(cleaned);
          }
        }
      }
      j := j + 1;
    }
    assert columns[j..] + later == later;
    found := None;
  }

  /** One row of the scan in `guess_primary_district`: what the row's
      columns yield, or the absence of a candidate in them, is what the
      remaining rows yield from this row on. */
  lemma RowAdvance(items: seq<RowItem>, i: nat, found: Option<string>)
    requires i < |items|
    requires items[i].NotMapping? ==> found.None?
    requires items[i].Mapping? && found.Some? ==> found == FirstCandidate(items[i].columns + Columns(items[i + 1..]))
    requires items[i].Mapping? && found.None? ==>
               FirstCandidate(items[i].columns + Columns(items[i + 1..])) == FirstCandidate(Columns(items[i + 1..]))
    ensures found.Some? ==> found == FirstCandidate(Columns(items[i..]))
    ensures found.None? ==> FirstCandidate(Columns(items[i..])) == FirstCandidate(Columns(items[i + 1..]))
  {
    ColumnsStep(items, i);
  }

  lemma ColumnsStep(items: seq<RowItem>, i: nat)
    requires i < |items|
    ensures items[i].Mapping? ==>
              FirstCandidate(Columns(items[i..])) == FirstCandidate(items[i].columns + Columns(items[i + 1..]))
    ensures items[i].NotMapping? ==> FirstCandidate(Columns(items[i..])) == FirstCandidate(Columns(items[i + 1..]))
  {
    assert items[i..][1..] == items[i + 1..];
    assert Columns(items[i..]) == (if items[i].Mapping? then items[i].columns else []) + Columns(items[i + 1..]);
    assert [] + Columns(items[i + 1..]) == Columns(items[i + 1..]);
  }

  lemma FirstCandidateStep(columns: seq<(string, Cell)>, j: nat, later: seq<(string, Cell)>)
    requires j < |columns|
    ensures FirstCandidate(columns[j..] + later)
            == if ColumnCandidate(columns[j]).Some? then ColumnCandidate(columns[j])
               else FirstCandidate(columns[j + 1..] + later)
  {
    var cs := columns[j..] + later;
    assert cs[0] == columns[j];
    assert cs[1..] == columns[j + 1..] + later;
  }

  /** The first present value is present exactly when some value is, and
      every value before it is absent. */
  lemma {:induction false} FirstSomeIsFirst(offers: seq<Option<string>>)
    ensures FirstSome(offers).None? <==> forall k :: 0 <= k < |offers| ==> offers[k].None?
    ensures FirstSome(offers).Some? ==>
              exists k :: 0 <= k < |offers| && offers[k] == FirstSome(offers)
                && forall j :: 0 <= j < k ==> offers[j].None?
  {
    if offers != [] {
      var rest := offers[1..];
      FirstSomeIsFirst(rest);
      if offers[0].None? {
        if FirstSome(rest).Some? {
          var k :| 0 <= k < |rest| && rest[k] == FirstSome(rest)
                   && forall j :: 0 <= j < k ==> rest[j].None?;
          assert offers[k + 1] == FirstSome(offers);
          forall j | 0 <= j < k + 1
            ensures offers[j].None?
          {
            if j > 0 {
              assert offers[j] == rest[j - 1];
            }
          }
        }
      } else {
        assert offers[0] == FirstSome(offers);
      }
    }
  }

  /** The guess is the district of the first column offering one, and
      there is none exactly when no column offers one. */
  lemma FirstCandidateIsFirst(columns: seq<(string, Cell)>)
    ensures FirstCandidate(columns).None? <==> forall k :: 0 <= k < |columns| ==> ColumnCandidate(columns[k]).None?
    ensures FirstCandidate(columns).Some? ==>
              exists k :: 0 <= k < |columns| && ColumnCandidate(columns[k]) == FirstCandidate(columns)
                && forall j :: 0 <= j < k ==> ColumnCandidate(columns[j]).None?
  {
    var offers := Offers(columns);
    FirstSomeIsFirst(offers);
    assert forall k :: 0 <= k < |columns| ==> offers[k] == ColumnCandidate(columns[k]);
  }

  // ---- format_filename -----------------------------------------------------------------

  /** The components of `format_filename` joined, with `district` the
      sanitised district and `named` the sanitised original name. */
  function Combined(fecha: Option<string>, district: string, named: string): string
  {
    var (base, ext) := SplitExt(named);
    var parts := NonEmpty(Components(fecha, district, base));
    Join(if parts == [] then ["archivo"] else parts, "_") + ext
  }

  /** The components before the empty ones are dropped: the date, the
      district and the base name, each when present, the last two without
      their one-letter prefix. */
  function Components(fecha: Option<string>, district: string, base: string): seq<string>
  {
    (if fecha.Some? then [fecha.value] else [])
    + (if district != [] then [LetterPrefixStripped(district)] else [])
    + (if base != [] then [LetterPrefixStripped(base)] else [])
  }

  /** `format_filename` */
  function Formatted(fecha: Option<string>, district: Option<string>, original: string): string
  {
    var combined := Combined(fecha, ComponentSanitized(district), GenderStripped(SanitizeFilename(original)));
    EnforceMaxLength(GenderStripped(Deduplicated(combined)))
  }

  method FormatFilename(fecha: Option<string>, district: Option<string>, original: string) returns (r: string)
    ensures r == Formatted(fecha, district, original)
  {
    var sanitizedOriginal := SanitizeFilename(original);
    sanitizedOriginal := StripLeadingGenderPrefix(sanitizedOriginal);
    var sanitizedDistrict := SanitizeComponent(district);
    var combined := JoinComponents(fecha, sanitizedDistrict, sanitizedOriginal);
    combined := RemoveDuplicateTokens(combined);
    combined := StripLeadingGenderPrefix(combined);
    r := EnforceMaxLength(combined);
  }

  /** The middle of `format_filename`: the date, the district and the base
      of the original, each without its one-letter prefix, those that are
      not empty joined by underscores ("archivo" when none is), followed by
      the original's extension. */
  method JoinComponents(fecha: Option<string>, district: string, named: string) returns (combined: string)
    ensures combined == Combined(fecha, district, named)
  {
    var (base, ext) := SplitExt(named);
    var components: seq<string> := if fecha.Some? then [fecha.value] else [];
    if district != [] {
      var d := StripSingleLetterComponentPrefix(district);
      components := components + [d];
    }
    if base != [] {
      var b := StripSingleLetterComponentPrefix(base);
      components := components + [b];
    }
    assert components == Components(fecha, district, base);
    components := NonEmpty(components);
    if components == [] {
      components := ["archivo"];
    }
    combined := Join(components, "_");
    if ext != [] {
      combined := combined + ext;
    } else {
      assert combined + ext == combined;
    }
  }

  lemma {:induction false} JoinNonEmpty(parts: seq<string>, sep: string)
    requires parts != [] && parts[0] != []
    ensures Join(parts, sep) != []
  {
  }

  lemma {:induction false} NonEmptyHead(parts: seq<string>)
    requires NonEmpty(parts) != []
    ensures NonEmpty(parts)[0] != []
  {
  }

  /** The pieces of the pipeline keep a name from vanishing. */
  lemma DeduplicatedNonEmpty(filename: string)
    requires filename != []
    ensures Deduplicated(filename) != []
  {
  }

  lemma GenderStrippedNonEmpty(filename: string)
    requires filename != []
    ensures GenderStripped(filename) != []
  {
    var (base, ext) := SplitExt(filename);
    var tokens := Split(base, '_');
    if |tokens| > 1 {
      var n := LetterPrefixLength(tokens);
      if 0 < n < |tokens| {
        var remainder := StripUnderscores(Join(tokens[n..], "_"));
        if remainder != [] {
          EnforceMaxLengthBounds(remainder + ext);
        }
      }
    }
  }

  /** The joined components are never empty. */
  lemma CombinedNonEmpty(fecha: Option<string>, district: string, named: string)
    ensures Combined(fecha, district, named) != []
  {
    var (base, ext) := SplitExt(named);
    var parts := NonEmpty((if fecha.Some? then [fecha.value] else [])
                          + (if district != [] then [LetterPrefixStripped(district)] else [])
                          + (if base != [] then [LetterPrefixStripped(base)] else []));
    if parts != [] {
      NonEmptyHead(parts);
      JoinNonEmpty(parts, "_");
    }
  }

  /** `format_filename` never returns an empty name, and never one longer
      than 100 characters unless the extension it ends with is that long. */
  lemma FormattedShape(fecha: Option<string>, district: Option<string>, original: string)
    ensures Formatted(fecha, district, original) != []
    ensures var named := Combined(fecha, ComponentSanitized(district), GenderStripped(SanitizeFilename(original)));
            |SplitExt(GenderStripped(Deduplicated(named))).1| < MaxLength ==> |Formatted(fecha, district, original)| <= MaxLength
  {
    var combined := Combined(fecha, ComponentSanitized(district), GenderStripped(SanitizeFilename(original)));
    CombinedNonEmpty(fecha, ComponentSanitized(district), GenderStripped(SanitizeFilename(original)));
    DeduplicatedNonEmpty(combined);
    GenderStrippedNonEmpty(Deduplicated(combined));
    EnforceMaxLengthBounds(GenderStripped(Deduplicated(combined)));
  }

  // ---- what a sanitised component holds -------------------------------------------------

  /** A piece of a string without double underscores has none either. */
  lemma NoDoubleWithin(s: string, r: string, i: nat)
    requires OccursAt(s, r, i) && NoDoubleUnderscore(s)
    ensures NoDoubleUnderscore(r)
  {
    forall k | 0 <= k < |r| - 1 ensures !(r[k] == '_' && r[k + 1] == '_') {
      assert r[k] == s[i + k] && r[k + 1] == s[i + k + 1];
    }
  }

  /** Stripping underscores keeps a piece of the value. */
  lemma StripUnderscoresWithin(s: string) returns (i: nat)
    ensures OccursAt(s, StripUnderscores(s), i)
  {
    StripCharSlice(s, '_');
    i := |s| - |TrimLeadingChar(s, '_')|;
  }

  /** Dropping the one-letter prefix keeps a piece of the value. */
  lemma LetterPrefixStrippedWithin(value: string) returns (i: nat)
    ensures OccursAt(value, LetterPrefixStripped(value), i)
  {
    i := 0;
    var r := LetterPrefixStripped(value);
    if value == [] {
      assert r == [] && OccursAt(value, [], 0);
    } else {
      var tokens := Split(value, '_');
      var n := LetterPrefixLength(tokens);
      if n == |tokens| {
        assert r == [] && OccursAt(value, [], 0);
      } else if StripUnderscores(Join(tokens[n..], "_")) != [] {
        assert r == StripUnderscores(Join(tokens[n..], "_"));
        i := RemainderWithin(value, n);
      } else {
        assert r == value;
        assert value[0..|value|] == value;
      }
    }
  }

  /** What is left once the first `n` tokens are dropped lies within the
      value. */
  lemma RemainderWithin(value: string, n: nat) returns (i: nat)
    requires n < |Split(value, '_')|
    ensures OccursAt(value, StripUnderscores(Join(Split(value, '_')[n..], "_")), i)
  {
    var start := JoinSuffix(value, n);
    i := StrippedSuffixWithin(value, start);
  }

  /** The underscore-stripped form of a suffix lies within the string. */
  lemma StrippedSuffixWithin(value: string, start: nat) returns (i: nat)
    requires start <= |value|
    ensures OccursAt(value, StripUnderscores(value[start..]), i)
  {
    var joined := value[start..];
    var r := StripUnderscores(joined);
    var j := StripUnderscoresWithin(joined);
    assert joined[j..j + |r|] == r;
    OccursShifted(value, joined, r, start, j);
    i := start + j;
    assert value[i..i + |r|] == r;
  }

  lemma OccursShifted(s: string, t: string, r: string, start: nat, j: nat)
    requires start <= |s| && s[start..] == t && OccursAt(t, r, j)
    ensures OccursAt(s, r, start + j)
  {
    assert s[start + j..start + j + |r|] == t[j..j + |r|];
  }

  /** The tokens from the `n`-th on, joined again, end the value. */
  lemma JoinSuffix(value: string, n: nat) returns (start: nat)
    requires n < |Split(value, '_')|
    ensures start + |Join(Split(value, '_')[n..], "_")| == |value|
    ensures value[start..] == Join(Split(value, '_')[n..], "_")
  {
    var tokens := Split(value, '_');
    JoinSplit(value, '_');
    if n == 0 {
      assert tokens[n..] == tokens;
    } else {
      JoinAt(tokens, n);
    }
    start := |value| - |Join(tokens[n..], "_")|;
  }

  /** The replacing, underscoring, stripping and squeezing steps of
      `_sanitize_component`. */
  function ComponentPrepared(v: string): string
  {
    StripUnderscores(SqueezeUnderscores(StripUnderscores(SpacesToUnderscore(ReplaceReserved(v, true)))))
  }

  lemma ComponentPreparedClean(v: string)
    ensures CleanName(ComponentPrepared(v)) && '.' !in ComponentPrepared(v)
  {
    var v1 := ReplaceReserved(v, true);
    assert '.' !in v1;
    var v2 := SpacesToUnderscore(v1);
    SpacesPlain(v1);
    var v3 := StripUnderscores(v2);
    StripUnderscoresChars(v2);
    PlainFrom(v3, v2);
    var v4 := SqueezeUnderscores(v3);
    PlainFrom(v4, v3);
    var v5 := StripUnderscores(v4);
    StripUnderscoresChars(v4);
    PlainFrom(v5, v4);
    var i5 := StripUnderscoresWithin(v4);
    NoDoubleWithin(v4, v5, i5);
  }

  /** Dropping the one-letter prefix keeps a clean value clean. */
  lemma LetterPrefixStrippedClean(v: string)
    requires CleanName(v) && '.' !in v
    ensures CleanName(LetterPrefixStripped(v)) && '.' !in LetterPrefixStripped(v)
  {
    var r := LetterPrefixStripped(v);
    var i := LetterPrefixStrippedWithin(v);
    NoDoubleWithin(v, r, i);
    assert forall k :: 0 <= k < |r| ==> r[k] == v[i + k];
    PlainFrom(r, v);
  }

  /** Capping the length keeps a clean value clean. */
  lemma EnforceMaxLengthClean(v: string)
    requires CleanName(v) && '.' !in v
    ensures CleanName(EnforceMaxLength(v)) && '.' !in EnforceMaxLength(v)
  {
    EnforceMaxLengthChars(v);
    EnforceMaxLengthNoDouble(v);
    PlainFrom(EnforceMaxLength(v), v);
  }

  /** `_sanitize_component` leaves no reserved character, whitespace, dot
      or double underscore. */
  lemma ComponentSanitizedClean(value: Option<string>)
    ensures CleanName(ComponentSanitized(value)) && '.' !in ComponentSanitized(value)
  {
    if value.Some? && value.value != [] {
      var v5 := ComponentPrepared(value.value);
      ComponentPreparedClean(value.value);
      var v6 := LetterPrefixStripped(v5);
      LetterPrefixStrippedClean(v5);
      if v6 != [] {
        EnforceMaxLengthClean(v6);
      }
    }
  }

  // ---- format_filename on names made of plain words -------------------------------------

  /** A character that every stage of the naming keeps as it is. */
  predicate IsWordChar(c: char)
  {
    '!' <= c <= '~' && c != '_' && c != '.' && !IsReserved(c)
  }

  /** A word of such characters. */
  predicate IsWord(w: string)
  {
    w != [] && forall k :: 0 <= k < |w| ==> IsWordChar(w[k])
  }

  predicate NoSpace(s: string)
  {
    forall k :: 0 <= k < |s| ==> !IsSpace(s[k])
  }

  lemma WordFacts(w: string)
    requires IsWord(w)
    ensures NoSpace(w) && '_' !in w && '.' !in w && '/' !in w
    ensures ReplaceReserved(w, true) == w
  {
    assert forall k :: 0 <= k < |w| ==> w[k] == ReplaceReserved(w, true)[k];
  }

  lemma {:induction false} SpacesNone(s: string)
    requires NoSpace(s)
    ensures SpacesToUnderscore(s) == s
    decreases |s|
  {
    if s != [] {
      SpacesNone(s[1..]);
      assert [s[0]] + s[1..] == s;
    }
  }

  lemma {:induction false} SpacesOne(a: string, b: string)
    requires NoSpace(a) && b != [] && !IsSpace(b[0])
    ensures SpacesToUnderscore(a + " " + b) == a + "_" + SpacesToUnderscore(b)
    decreases |a|
  {
    if a == [] {
      assert IsSpace(' ');
      var s := " " + b;
      assert s[1..] == b;
      assert TrimLeadingSpace(b) == b;
      assert TrimLeadingSpace(s) == b;
    } else {
      SpacesOne(a[1..], b);
      assert (a + " " + b)[1..] == a[1..] + " " + b;
      assert [a[0]] + (a[1..] + "_" + SpacesToUnderscore(b)) == a + "_" + SpacesToUnderscore(b);
    }
  }

  lemma {:induction false} SqueezeFixed(s: string)
    requires NoDoubleUnderscore(s)
    ensures SqueezeUnderscores(s) == s
    decreases |s|
  {
    if s != [] {
      assert NoDoubleUnderscore(s[1..]) by {
        forall k | 0 <= k < |s[1..]| - 1 ensures !(s[1..][k] == '_' && s[1..][k + 1] == '_') {
          assert s[1..][k] == s[k + 1] && s[1..][k + 1] == s[k + 2];
        }
      }
      SqueezeFixed(s[1..]);
      assert [s[0]] + s[1..] == s;
    }
  }

  lemma SplitCons(a: string, b: string, c: char)
    requires c !in a
    ensures Split(a + [c] + b, c) == [a] + Split(b, c)
  {
    var s := a + [c] + b;
    assert s[|a|] == c;
    var k := IndexOf(s, c);
    assert s[..k] == a && s[k + 1..] == b;
  }

  /** Words joined by single underscores: the joined string, split again. */
  function Underscored(ws: seq<string>): string
  {
    Join(ws, "_")
  }

  predicate AllWords(ws: seq<string>)
  {
    forall i :: 0 <= i < |ws| ==> IsWord(ws[i])
  }

  lemma {:induction false} SplitUnderscored(ws: seq<string>)
    requires ws != [] && AllWords(ws)
    ensures Split(Join(ws, "_"), '_') == ws
  {
    WordFacts(ws[0]);
    if |ws| > 1 {
      SplitUnderscored(ws[1..]);
      assert Join(ws, "_") == ws[0] + ['_'] + Join(ws[1..], "_");
      SplitCons(ws[0], Join(ws[1..], "_"), '_');
    }
  }

  /** Words joined by underscores have none at either end and none doubled. */
  lemma {:induction false} UnderscoredClean(ws: seq<string>)
    requires ws != [] && AllWords(ws)
    ensures var s := Join(ws, "_");
            s != [] && s[0] != '_' && s[|s| - 1] != '_' && NoDoubleUnderscore(s) && '.' !in s && NoSpace(s)
            && forall k :: 0 <= k < |s| ==> !IsReserved(s[k])
  {
    WordFacts(ws[0]);
    if |ws| > 1 {
      UnderscoredClean(ws[1..]);
      var r := Join(ws[1..], "_");
      var s := ws[0] + "_" + r;
      assert Join(ws, "_") == s;
      assert s[|ws[0]| + 1..] == r;
      forall k | 0 <= k < |s| - 1 ensures !(s[k] == '_' && s[k + 1] == '_') {
        if k > |ws[0]| {
          assert s[k] == r[k - |ws[0]| - 1] && s[k + 1] == r[k - |ws[0]|];
        } else if k < |ws[0]| {
          assert s[k] == ws[0][k];
        }
      }
      forall k | 0 <= k < |s| ensures !IsSpace(s[k]) && s[k] != '.' && !IsReserved(s[k]) {
        if k > |ws[0]| {
          assert s[k] == r[k - |ws[0]| - 1];
        } else if k < |ws[0]| {
          assert s[k] == ws[0][k];
        }
      }
    }
  }

  /** An extension of the form ".word". */
  predicate IsWordExt(ext: string)
  {
    |ext| >= 2 && ext[0] == '.' && IsWord(ext[1..])
  }

  lemma ExtNoSpace(ext: string)
    requires ext == [] || IsWordExt(ext)
    ensures NoSpace(ext)
  {
    if ext != [] {
      WordFacts(ext[1..]);
      forall k | 1 <= k < |ext| ensures !IsSpace(ext[k]) {
        assert ext[k] == ext[1..][k - 1];
      }
    }
  }

  lemma NoSpaceConcat(a: string, b: string)
    requires NoSpace(a) && NoSpace(b)
    ensures NoSpace(a + b)
  {
    forall k | |a| <= k < |a + b| ensures !IsSpace((a + b)[k]) {
      assert (a + b)[k] == b[k - |a|];
    }
  }

  lemma JoinHead(ws: seq<string>, sep: string, ext: string)
    requires |ws| > 1
    ensures Join(ws, sep) + ext == ws[0] + sep + (Join(ws[1..], sep) + ext)
  {
  }

  lemma {:induction false} SpacesJoin(ws: seq<string>, ext: string)
    requires ws != [] && AllWords(ws) && (ext == [] || IsWordExt(ext))
    ensures SpacesToUnderscore(Join(ws, " ") + ext) == Join(ws, "_") + ext
  {
    WordFacts(ws[0]);
    if |ws| == 1 {
      ExtNoSpace(ext);
      NoSpaceConcat(ws[0], ext);
      SpacesNone(ws[0] + ext);
    } else {
      assert AllWords(ws[1..]) by {
        forall i | 0 <= i < |ws[1..]| ensures IsWord(ws[1..][i]) {
          assert ws[1..][i] == ws[i + 1];
        }
      }
      SpacesJoin(ws[1..], ext);
      assert IsWord(ws[1]);
      var rest := Join(ws[1..], " ") + ext;
      assert rest[0] == ws[1][0];
      JoinHead(ws, " ", ext);
      JoinHead(ws, "_", ext);
      SpacesOne(ws[0], rest);
    }
  }

  /** The joined words with an extension keep all the properties of a clean name. */
  lemma WordsExtClean(ws: seq<string>, ext: string)
    requires ws != [] && AllWords(ws) && (ext == [] || IsWordExt(ext))
    ensures var s := Join(ws, "_") + ext;
            s != [] && s[0] != '_' && s[|s| - 1] != '_' && NoDoubleUnderscore(s)
            && forall k :: 0 <= k < |s| ==> !IsReserved(s[k])
  {
    UnderscoredClean(ws);
    var u := Join(ws, "_");
    if ext != [] {
      WordFacts(ext[1..]);
      assert forall k :: 1 <= k < |ext| ==> ext[k] == ext[1..][k - 1];
      assert NoDoubleUnderscore(ext);
      NoDoubleJoin(u, ext);
      var s := u + ext;
      assert s[|s| - 1] == ext[|ext| - 1];
      forall k | 0 <= k < |s| ensures !IsReserved(s[k]) {
        if k >= |u| {
          assert s[k] == ext[k - |u|];
        }
      }
    } else {
      assert u + ext == u;
    }
  }

  lemma NoReservedFixed(s: string, dots: bool)
    requires forall k :: 0 <= k < |s| ==> !IsReserved(s[k]) && (dots ==> s[k] != '.')
    ensures ReplaceReserved(s, dots) == s
  {
  }

  lemma WordsNoReserved(ws: seq<string>, ext: string)
    requires ws != [] && AllWords(ws) && (ext == [] || IsWordExt(ext))
    ensures forall k :: 0 <= k < |Join(ws, " ") + ext| ==> !IsReserved((Join(ws, " ") + ext)[k])
    ensures ext == [] ==> forall k :: 0 <= k < |Join(ws, " ")| ==> Join(ws, " ")[k] != '.'
  {
    WordsSpacedNoReserved(ws);
    if ext != [] {
      WordFacts(ext[1..]);
      var s := Join(ws, " ") + ext;
      forall k | |Join(ws, " ")| <= k < |s| ensures !IsReserved(s[k]) {
        assert s[k] == ext[k - |Join(ws, " ")|];
        if k > |Join(ws, " ")| {
          assert ext[k - |Join(ws, " ")|] == ext[1..][k - |Join(ws, " ")| - 1];
        }
      }
    } else {
      assert Join(ws, " ") + ext == Join(ws, " ");
    }
  }

  lemma {:induction false} WordsSpacedNoReserved(ws: seq<string>)
    requires ws != [] && AllWords(ws)
    ensures forall k :: 0 <= k < |Join(ws, " ")| ==> !IsReserved(Join(ws, " ")[k]) && Join(ws, " ")[k] != '.'
  {
    WordFacts(ws[0]);
    if |ws| > 1 {
      assert AllWords(ws[1..]) by {
        forall i | 0 <= i < |ws[1..]| ensures IsWord(ws[1..][i]) {
          assert ws[1..][i] == ws[i + 1];
        }
      }
      WordsSpacedNoReserved(ws[1..]);
      var r := Join(ws[1..], " ");
      var s := ws[0] + " " + r;
      assert Join(ws, " ") == s;
      forall k | 0 <= k < |s| ensures !IsReserved(s[k]) && s[k] != '.' {
        if k > |ws[0]| {
          assert s[k] == r[k - |ws[0]| - 1];
        } else if k < |ws[0]| {
          assert s[k] == ws[0][k];
        }
      }
    }
  }

  /** `_sanitize_filename` turns the spaces between words into single
      underscores and changes nothing else. */
  lemma SanitizedWords(ws: seq<string>, ext: string)
    requires ws != [] && AllWords(ws) && (ext == [] || IsWordExt(ext))
    requires |Join(ws, "_") + ext| <= MaxLength
    ensures SanitizeFilename(Join(ws, " ") + ext) == Join(ws, "_") + ext
  {
    var orig := Join(ws, " ") + ext;
    var t := Join(ws, "_") + ext;
    WordFacts(ws[0]);
    assert orig != [] by {
      assert |Join(ws, " ")| >= 1 by { assert Join(ws, " ")[0] == ws[0][0]; }
    }
    WordsNoReserved(ws, ext);
    NoReservedFixed(orig, false);
    SpacesJoin(ws, ext);
    WordsExtClean(ws, ext);
    StripUnderscoresUnchanged(t);
    SqueezeFixed(t);
    assert Sanitized(orig) == t by {
      assert ReplaceReserved(orig, false) == orig;
      assert SpacesToUnderscore(orig) == t;
      assert StripUnderscores(t) == t && t != [];
    }
    assert EnforceMaxLength(t) == t;
  }

  lemma PreparedWords(ds: seq<string>)
    requires ds != [] && AllWords(ds)
    ensures ComponentPrepared(Join(ds, " ")) == Join(ds, "_")
  {
    var v := Join(ds, " ");
    var u := Join(ds, "_");
    assert v + [] == v && u + [] == u;
    WordsSpacedNoReserved(ds);
    NoReservedFixed(v, true);
    SpacesJoin(ds, []);
    UnderscoredClean(ds);
    StripUnderscoresUnchanged(u);
    SqueezeFixed(u);
  }

  /** `_sanitize_component` joins the words of a district with underscores. */
  lemma ComponentWords(ds: seq<string>)
    requires ds != [] && AllWords(ds) && !IsLetterToken(ds[0])
    requires |Join(ds, "_")| <= MaxLength
    ensures ComponentSanitized(Some(Join(ds, " "))) == Join(ds, "_")
  {
    var v := Join(ds, " ");
    var u := Join(ds, "_");
    WordFacts(ds[0]);
    assert v != [] by { assert v[0] == ds[0][0]; }
    PreparedWords(ds);
    UnderscoredClean(ds);
    SplitUnderscored(ds);
    FirstTokenUnchanged(u);
  }

  lemma SplitExtWords(ws: seq<string>, ext: string)
    requires ws != [] && AllWords(ws) && IsWordExt(ext)
    ensures SplitExt(Join(ws, "_") + ext) == (Join(ws, "_"), ext)
  {
    var u := Join(ws, "_");
    UnderscoredClean(ws);
    WordFacts(ws[0]);
    WordFacts(ext[1..]);
    assert u[0] == ws[0][0];
    assert forall k :: 1 <= k < |ext| ==> ext[k] == ext[1..][k - 1];
    assert IsReserved('/');
    SplitExtAppend(u, ext);
  }

  /** A name whose first word is not a single letter has no prefix to drop. */
  lemma GenderKept(ws: seq<string>, ext: string)
    requires ws != [] && AllWords(ws) && IsWordExt(ext) && !IsLetterToken(ws[0])
    ensures GenderStripped(Join(ws, "_") + ext) == Join(ws, "_") + ext
  {
    SplitExtWords(ws, ext);
    SplitUnderscored(ws);
  }

  /** The forms of a sequence are forms of its tokens. */
  lemma {:induction false} FormsFrom(ts: seq<string>, f: string)
    requires f in Forms(ts)
    ensures exists i :: 0 <= i < |ts| && Form(ts[i]) == f
  {
    var front := ts[..|ts| - 1];
    if f in Forms(front) {
      FormsFrom(front, f);
      var i :| 0 <= i < |front| && Form(front[i]) == f;
      assert ts[i] == front[i];
    }
  }

  predicate DistinctForms(ts: seq<string>)
  {
    && (forall i :: 0 <= i < |ts| ==> Counts(Form(ts[i])))
    && (forall i, j :: 0 <= i < j < |ts| ==> Form(ts[i]) != Form(ts[j]))
  }

  /** Tokens whose forms all count and differ are all kept. */
  lemma {:induction false} KeptAll(ts: seq<string>)
    requires DistinctForms(ts)
    ensures KeptTokens(ts) == ts
  {
    if ts != [] {
      var front := ts[..|ts| - 1];
      assert DistinctForms(front) by {
        assert forall i :: 0 <= i < |front| ==> front[i] == ts[i];
      }
      KeptAll(front);
      var f := Form(ts[|ts| - 1]);
      if f in Forms(front) {
        FormsFrom(front, f);
        assert false;
      }
      assert front + [ts[|ts| - 1]] == ts;
    }
  }

  lemma {:induction false} NonEmptyAll(ts: seq<string>)
    requires forall i :: 0 <= i < |ts| ==> ts[i] != []
    ensures NonEmpty(ts) == ts
  {
    if ts != [] {
      NonEmptyAll(ts[1..]);
      assert [ts[0]] + ts[1..] == ts;
    }
  }

  /** Words with distinct forms have no repeated token to remove. */
  lemma DeduplicatedWords(ws: seq<string>, ext: string)
    requires ws != [] && AllWords(ws) && IsWordExt(ext) && DistinctForms(ws)
    ensures Deduplicated(Join(ws, "_") + ext) == Join(ws, "_") + ext
  {
    SplitExtWords(ws, ext);
    SplitUnderscored(ws);
    KeptAll(ws);
    NonEmptyAll(ws);
    UnderscoredClean(ws);
  }

  lemma JoinThree(f: string, ds: seq<string>, ws: seq<string>)
    requires ds != [] && ws != []
    ensures Join([f] + ds + ws, "_") == f + "_" + Join(ds, "_") + "_" + Join(ws, "_")
  {
    var all := [f] + ds + ws;
    JoinAt(all, 1);
    assert all[..1] == [f] && all[1..] == ds + ws;
    JoinAt(ds + ws, |ds|);
    assert (ds + ws)[..|ds|] == ds && (ds + ws)[|ds|..] == ws;
  }

  lemma WordsUnchanged(ws: seq<string>)
    requires ws != [] && AllWords(ws) && !IsLetterToken(ws[0])
    ensures LetterPrefixStripped(Join(ws, "_")) == Join(ws, "_") && Join(ws, "_") != []
  {
    UnderscoredClean(ws);
    SplitUnderscored(ws);
    FirstTokenUnchanged(Join(ws, "_"));
  }

  lemma CombinedFrom(fecha: Option<string>, district: string, named: string, parts: seq<string>)
    requires NonEmpty(Components(fecha, district, SplitExt(named).0)) == parts && parts != []
    ensures Combined(fecha, district, named) == Join(parts, "_") + SplitExt(named).1
  {
  }

  lemma ComponentsKept(f: string, d: string, b: string)
    requires f != [] && d != [] && b != [] && LetterPrefixStripped(d) == d && LetterPrefixStripped(b) == b
    ensures NonEmpty(Components(Some(f), d, b)) == [f, d, b]
  {
    assert Components(Some(f), d, b) == [f, d, b];
    NonEmptyAll([f, d, b]);
  }

  lemma CombinedThree(f: string, d: string, w: string, ext: string)
    requires f != [] && d != [] && w != [] && LetterPrefixStripped(d) == d && LetterPrefixStripped(w) == w
    requires SplitExt(w + ext) == (w, ext)
    ensures Combined(Some(f), d, w + ext) == f + "_" + d + "_" + w + ext
  {
    ComponentsKept(f, d, w);
    CombinedFrom(Some(f), d, w + ext, [f, d, w]);
    JoinThreeWords(f, d, w, "_");
  }

  /** The date, the district's words and the name's words, joined. */
  lemma CombinedWords(f: string, ds: seq<string>, ws: seq<string>, ext: string)
    requires IsWord(f) && ds != [] && AllWords(ds) && ws != [] && AllWords(ws) && IsWordExt(ext)
    requires !IsLetterToken(ds[0]) && !IsLetterToken(ws[0])
    ensures Combined(Some(f), Join(ds, "_"), Join(ws, "_") + ext) == Join([f] + ds + ws, "_") + ext
  {
    SplitExtWords(ws, ext);
    WordsUnchanged(ds);
    WordsUnchanged(ws);
    CombinedThree(f, Join(ds, "_"), Join(ws, "_"), ext);
    JoinThree(f, ds, ws);
  }

  lemma AllWordsThree(f: string, ds: seq<string>, ws: seq<string>)
    requires IsWord(f) && AllWords(ds) && AllWords(ws)
    ensures AllWords([f] + ds + ws)
  {
    var all := [f] + ds + ws;
    forall i | 0 <= i < |all| ensures IsWord(all[i]) {
      if 1 <= i <= |ds| {
        assert all[i] == ds[i - 1];
      } else if i > |ds| {
        assert all[i] == ws[i - 1 - |ds|];
      }
    }
  }

  /** `format_filename` on a date, a district of words separated by spaces
      and a name of words separated by spaces followed by an extension:
      every space becomes an underscore, the date, the district and the
      name are joined by underscores, and nothing else changes. */
  lemma FormattedWords(f: string, ds: seq<string>, ws: seq<string>, ext: string)
    requires IsWord(f) && ds != [] && AllWords(ds) && ws != [] && AllWords(ws) && IsWordExt(ext)
    requires !IsLetterToken(f) && !IsLetterToken(ds[0]) && !IsLetterToken(ws[0])
    requires DistinctForms([f] + ds + ws)
    requires |Join([f] + ds + ws, "_") + ext| <= MaxLength
    ensures Formatted(Some(f), Some(Join(ds, " ")), Join(ws, " ") + ext) == Join([f] + ds + ws, "_") + ext
  {
    var all := [f] + ds + ws;
    JoinThree(f, ds, ws);
    SanitizedWords(ws, ext);
    GenderKept(ws, ext);
    ComponentWords(ds);
    CombinedWords(f, ds, ws, ext);
    AllWordsThree(f, ds, ws);
    assert all[0] == f;
    DeduplicatedWords(all, ext);
    GenderKept(all, ext);
  }

  predicate FormChar(c: char)
  {
    IsAsciiLower(LowerChar(c)) || IsDigit(LowerChar(c))
  }

  /** The form of a token starting with two letters or digits starts with
      the first of them, in lower case. */
  lemma FormStart(t: string)
    requires |t| >= 2 && FormChar(t[0]) && FormChar(t[1])
    ensures |Form(t)| >= 2 && Form(t)[0] == LowerChar(t[0]) && Counts(Form(t))
  {
    assert Lower(t)[0] == LowerChar(t[0]);
    assert Lower(t[1..])[0] == LowerChar(t[1]);
  }

  /** A first character that is neither a letter nor a digit is dropped. */
  lemma FormSkip(t: string)
    requires t != [] && !FormChar(t[0])
    ensures Form(t) == Form(t[1..])
  {
    assert Lower(t)[0] == LowerChar(t[0]);
  }

  lemma WordsExample()
    ensures IsWord("20250110") && IsWord("Distrito") && IsWord("Norte")
    ensures IsWord("Reporte") && IsWord("Final") && IsWord("(v1)") && IsWordExt(".pdf")
  {
    DistrictWordsExample();
    NameWordsExample();
  }

  lemma DistrictWordsExample()
    ensures IsWord("20250110") && IsWord("Distrito") && IsWord("Norte")
  {
  }

  lemma NameWordsExample()
    ensures IsWord("Reporte") && IsWord("Final") && IsWord("(v1)") && IsWordExt(".pdf")
  {
  }

  /** A token whose form starts within its first two characters. */
  predicate Leads(t: string)
  {
    || (|t| >= 2 && FormChar(t[0]) && FormChar(t[1]))
    || (|t| >= 3 && !FormChar(t[0]) && FormChar(t[1]) && FormChar(t[2]))
  }

  function FormLead(t: string): char
    requires Leads(t)
  {
    if FormChar(t[0]) then LowerChar(t[0]) else LowerChar(t[1])
  }

  lemma LeadsForm(t: string)
    requires Leads(t)
    ensures Counts(Form(t)) && Form(t)[0] == FormLead(t)
  {
    if FormChar(t[0]) {
      FormStart(t);
    } else {
      FormSkip(t);
      FormStart(t[1..]);
    }
  }

  /** Tokens whose forms start with different characters have distinct forms. */
  lemma DistinctByLead(ts: seq<string>)
    requires forall i :: 0 <= i < |ts| ==> Leads(ts[i])
    requires forall i, j :: 0 <= i < j < |ts| ==> FormLead(ts[i]) != FormLead(ts[j])
    ensures DistinctForms(ts)
  {
    forall i | 0 <= i < |ts| ensures Counts(Form(ts[i])) && Form(ts[i])[0] == FormLead(ts[i]) {
      LeadsForm(ts[i]);
    }
  }

  lemma FormsExample(all: seq<string>)
    requires all == ["20250110", "Distrito", "Norte", "Reporte", "Final", "(v1)"]
    ensures DistinctForms(all)
  {
    assert FormLead(all[0]) == '2' && FormLead(all[1]) == 'd' && FormLead(all[2]) == 'n';
    assert FormLead(all[3]) == 'r' && FormLead(all[4]) == 'f' && FormLead(all[5]) == 'v';
    DistinctByLead(all);
  }

  lemma JoinTwo(a: string, b: string, sep: string)
    ensures Join([a, b], sep) == a + sep + b
  {
    assert [a, b][1..] == [b];
  }

  lemma JoinThreeWords(a: string, b: string, c: string, sep: string)
    ensures Join([a, b, c], sep) == a + sep + b + sep + c
  {
    assert [a, b, c][1..] == [b, c];
    JoinTwo(b, c, sep);
  }

  /** The words of the example meet the requirements of `FormattedWords`. */
  lemma ExampleWords(ds: seq<string>, ws: seq<string>)
    requires ds == ["Distrito", "Norte"] && ws == ["Reporte", "Final", "(v1)"]
    ensures IsWord("20250110") && ds != [] && AllWords(ds) && ws != [] && AllWords(ws) && IsWordExt(".pdf")
    ensures !IsLetterToken("20250110") && !IsLetterToken(ds[0]) && !IsLetterToken(ws[0])
  {
    WordsExample();
  }

  lemma ExampleForms(ds: seq<string>, ws: seq<string>)
    requires ds == ["Distrito", "Norte"] && ws == ["Reporte", "Final", "(v1)"]
    ensures DistinctForms(["20250110"] + ds + ws)
  {
    FormsExample(["20250110"] + ds + ws);
  }

  lemma ExampleSpelledDistrict(ds: seq<string>)
    requires ds == ["Distrito", "Norte"]
    ensures Join(ds, " ") == "Distrito Norte" && Join(ds, "_") == "Distrito_Norte"
  {
    JoinTwo("Distrito", "Norte", " ");
    JoinTwo("Distrito", "Norte", "_");
  }

  lemma ExampleSpelledName(ws: seq<string>)
    requires ws == ["Reporte", "Final", "(v1)"]
    ensures Join(ws, " ") + ".pdf" == "Reporte Final (v1).pdf" && Join(ws, "_") == "Reporte_Final_(v1)"
  {
    JoinThreeWords("Reporte", "Final", "(v1)", " ");
    JoinThreeWords("Reporte", "Final", "(v1)", "_");
  }

  lemma ExampleSpelledResult(ds: seq<string>, ws: seq<string>)
    requires ds == ["Distrito", "Norte"] && ws == ["Reporte", "Final", "(v1)"]
    ensures Join(["20250110"] + ds + ws, "_") + ".pdf" == "20250110_Distrito_Norte_Reporte_Final_(v1).pdf"
  {
    ExampleSpelledDistrict(ds);
    ExampleSpelledName(ws);
    JoinThree("20250110", ds, ws);
    ExampleConcat("20250110", Join(ds, "_"), Join(ws, "_"));
  }

  lemma ExampleConcat(f: string, d: string, w: string)
    requires f == "20250110" && d == "Distrito_Norte" && w == "Reporte_Final_(v1)"
    ensures f + "_" + d + "_" + w + ".pdf" == "20250110_Distrito_Norte_Reporte_Final_(v1).pdf"
  {
    ExampleHead(f, d);
    ExampleTail(w);
    assert f + "_" + d + "_" + w + ".pdf" == (f + "_" + d) + ("_" + w + ".pdf");
    ExampleHalves();
  }

  lemma ExampleHead(f: string, d: string)
    requires f == "20250110" && d == "Distrito_Norte"
    ensures f + "_" + d == "20250110_Distrito_Norte"
  {
  }

  lemma ExampleTail(w: string)
    requires w == "Reporte_Final_(v1)"
    ensures "_" + w + ".pdf" == "_Reporte_Final_(v1).pdf"
  {
  }

  lemma ExampleHalves()
    ensures "20250110_Distrito_Norte" + "_Reporte_Final_(v1).pdf" == "20250110_Distrito_Norte_Reporte_Final_(v1).pdf"
  {
  }

  /** `format_filename("20250110", "Distrito Norte", "Reporte Final (v1).pdf")`,
      with the district and the name given as their words. */
  lemma FormattedExampleWords(ds: seq<string>, ws: seq<string>)
    requires ds == ["Distrito", "Norte"] && ws == ["Reporte", "Final", "(v1)"]
    ensures Formatted(Some("20250110"), Some(Join(ds, " ")), Join(ws, " ") + ".pdf")
            == Join(["20250110"] + ds + ws, "_") + ".pdf"
  {
    ExampleWords(ds, ws);
    ExampleForms(ds, ws);
    ExampleSpelledResult(ds, ws);
    FormattedWords("20250110", ds, ws, ".pdf");
  }

  /** `format_filename("20250110", "Distrito Norte", "Reporte Final (v1).pdf")`
      is "20250110_Distrito_Norte_Reporte_Final_(v1).pdf". */
  lemma FormatFilenameExample()
    ensures Formatted(Some("20250110"), Some("Distrito Norte"), "Reporte Final (v1).pdf")
            == "20250110_Distrito_Norte_Reporte_Final_(v1).pdf"
  {
    var ds := ["Distrito", "Norte"];
    var ws := ["Reporte", "Final", "(v1)"];
    FormattedExampleWords(ds, ws);
    ExampleSpelledDistrict(ds);
    ExampleSpelledName(ws);
    ExampleSpelledResult(ds, ws);
  }
}
