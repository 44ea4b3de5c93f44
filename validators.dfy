/** The structural check of an incoming mail: the subject must contain
    the expected pattern, a generation date must have been found, and
    there must be attachments, one of them a PDF. */
module Validators {
  import opened Text
  import Models

  // ---------------------------------------------------------------------
  // Normalising a subject

  /** `re.sub(r"\s+", " ", s)`: each run of whitespace becomes one space. */
  function Collapse(s: string): (r: string)
    decreases |s|
  {
    if s == [] then []
    else if IsSpace(s[0]) then " " + Collapse(TrimLeadingSpace(s[1..]))
    else [s[0]] + Collapse(s[1..])
  }

  /** `_normalize`: strip, collapse the whitespace runs, lower-case. */
  function Normalize(value: string): string
  {
    Lower(Collapse(Strip(value)))
  }

  /** Every whitespace character is a lone space with a non-space after it. */
  predicate SingleSpaced(s: string)
  {
    forall i :: 0 <= i < |s| && IsSpace(s[i]) ==> s[i] == ' ' && (i + 1 < |s| ==> !IsSpace(s[i + 1]))
  }

  /** What `_normalize` returns: single-spaced, not starting or ending
      with a space, and already lower-case. */
  predicate IsNormalized(s: string)
  {
    && SingleSpaced(s)
    && (s == [] || (!IsSpace(s[0]) && !IsSpace(s[|s| - 1])))
    && Lower(s) == s
  }

  lemma SpaceUncased(c: char)
    ensures IsSpace(c) ==> !IsCased(c)
  {
  }

  /** Lower-casing neither makes nor unmakes whitespace. */
  lemma LowerKeepsSpace(c: char)
    ensures IsSpace(LowerChar(c)) <==> IsSpace(c)
  {
    SpaceUncased(c);
    SpaceUncased(LowerChar(c));
  }

  /** The first character of a collapsed string. */
  lemma CollapseHead(s: string)
    requires s != []
    ensures Collapse(s) != []
    ensures Collapse(s)[0] == if IsSpace(s[0]) then ' ' else s[0]
  {
  }

  /** A string that does not end in whitespace collapses to one that does
      not either. */
  lemma {:induction false} CollapseLast(s: string)
    requires s != [] && !IsSpace(s[|s| - 1])
    ensures Collapse(s) != [] && !IsSpace(Collapse(s)[|Collapse(s)| - 1])
    decreases |s|
  {
    if IsSpace(s[0]) {
      var t := TrimLeadingSpace(s[1..]);
      TrimLeadingSpaceSuffix(s[1..]);
      assert t != [] && t[|t| - 1] == s[|s| - 1];
      CollapseLast(t);
      assert Collapse(s) == " " + Collapse(t);
    } else if |s| > 1 {
      assert s[1..][|s| - 2] == s[|s| - 1];
      CollapseLast(s[1..]);
      assert Collapse(s) == [s[0]] + Collapse(s[1..]);
    }
  }

  /** A collapsed string is single-spaced. */
  lemma {:induction false} CollapseShape(s: string)
    ensures SingleSpaced(Collapse(s))
    decreases |s|
  {
    if s != [] {
      if IsSpace(s[0]) {
        var t := TrimLeadingSpace(s[1..]);
        CollapseShape(t);
        var c := Collapse(t);
        if t != [] {
          CollapseHead(t);
        }
        assert Collapse(s) == " " + c;
        forall i | 0 <= i < |Collapse(s)| && IsSpace(Collapse(s)[i])
          ensures Collapse(s)[i] == ' ' && (i + 1 < |Collapse(s)| ==> !IsSpace(Collapse(s)[i + 1]))
        {
          if i > 0 {
            assert Collapse(s)[i] == c[i - 1];
          }
        }
      } else {
        CollapseShape(s[1..]);
        var c := Collapse(s[1..]);
        assert Collapse(s) == [s[0]] + c;
        forall i | 0 <= i < |Collapse(s)| && IsSpace(Collapse(s)[i])
          ensures Collapse(s)[i] == ' ' && (i + 1 < |Collapse(s)| ==> !IsSpace(Collapse(s)[i + 1]))
        {
          assert i > 0 && Collapse(s)[i] == c[i - 1];
        }
      }
    }
  }

  /** A single-spaced string has no run to collapse. */
  lemma {:induction false} CollapseSingleSpaced(s: string)
    requires SingleSpaced(s)
    ensures Collapse(s) == s
    decreases |s|
  {
    if s != [] {
      assert SingleSpaced(s[1..]) by {
        forall i | 0 <= i < |s[1..]| && IsSpace(s[1..][i])
          ensures s[1..][i] == ' ' && (i + 1 < |s[1..]| ==> !IsSpace(s[1..][i + 1]))
        {
          assert s[1..][i] == s[i + 1];
        }
      }
      CollapseSingleSpaced(s[1..]);
      if IsSpace(s[0]) {
        assert s[1..] == [] || !IsSpace(s[1..][0]);
      }
    }
  }

  lemma LowerSingleSpaced(s: string)
    requires SingleSpaced(s)
    ensures SingleSpaced(Lower(s))
  {
    forall i | 0 <= i < |s|
      ensures IsSpace(Lower(s)[i]) <==> IsSpace(s[i])
      ensures IsSpace(s[i]) ==> Lower(s)[i] == s[i]
    {
      LowerKeepsSpace(s[i]);
      SpaceUncased(s[i]);
    }
  }

  /** `_normalize` always returns a normalised subject. */
  lemma NormalizeShape(value: string)
    ensures IsNormalized(Normalize(value))
  {
    var t := Strip(value);
    var c := Collapse(t);
    CollapseShape(t);
    if t != [] {
      CollapseHead(t);
      CollapseLast(t);
    }
    LowerSingleSpaced(c);
    LowerIdempotent(c);
    if c != [] {
      LowerKeepsSpace(c[0]);
      LowerKeepsSpace(c[|c| - 1]);
    }
  }

  /** A normalised subject is its own normalisation. */
  lemma NormalizedFixed(s: string)
    requires IsNormalized(s)
    ensures Normalize(s) == s
  {
    StripUnchanged(s);
    CollapseSingleSpaced(s);
  }

  /** Normalising twice is normalising once. */
  lemma NormalizeIdempotent(value: string)
    ensures Normalize(Normalize(value)) == Normalize(value)
  {
    NormalizeShape(value);
    NormalizedFixed(Normalize(value));
  }

  // ---------------------------------------------------------------------
  // The structure check

  datatype StructureError =
    | SubjectPatternMismatch
    | FechaGeneracionMissing
    | AttachmentsMissing
    | PdfAttachmentMissing

  /** The error codes as the service reports them. */
  function Code(e: StructureError): string
  {
    match e
    case SubjectPatternMismatch => "subject_pattern_mismatch"
    case FechaGeneracionMissing => "fecha_generacion_missing"
    case AttachmentsMissing => "attachments_missing"
    case PdfAttachmentMissing => "pdf_attachment_missing"
  }

  /** The position of each check in `validate_email_structure`. */
  function Rank(e: StructureError): nat
  {
    match e
    case SubjectPatternMismatch => 0
    case FechaGeneracionMissing => 1
    case AttachmentsMissing => 2
    case PdfAttachmentMissing => 3
  }

  /** A PDF by content type, in any case, or by a name ending in ".pdf"
      in any case. */
  predicate IsPdf(a: Models.Attachment)
  {
    Lower(if a.contentType.Some? then a.contentType.value else "") == "application/pdf"
    || EndsWith(Lower(a.filename), ".pdf")
  }

  /** The subject check: an empty normalised subject, or one that does
      not contain the normalised pattern, is a mismatch. */
  predicate SubjectMatches(subject: string, pattern: string)
  {
    var normalized := if subject == "" then "" else Normalize(subject);
    normalized != "" && Find(normalized, Normalize(pattern))
  }

  predicate HasPdf(attachments: seq<Models.Attachment>)
  {
    exists i :: 0 <= i < |attachments| && IsPdf(attachments[i])
  }

  /** The errors of the three checks, in the order of the checks: the
      subject's, the date's, then at most one about the attachments. */
  lemma ErrorList(subjectBad: bool, fechaBad: bool, attachmentErrors: seq<StructureError>)
    requires attachmentErrors == [] || attachmentErrors == [AttachmentsMissing] || attachmentErrors == [PdfAttachmentMissing]
    ensures var errors := (if subjectBad then [SubjectPatternMismatch] else [])
                          + (if fechaBad then [FechaGeneracionMissing] else []) + attachmentErrors;
            && (errors == [] <==> !subjectBad && !fechaBad && attachmentErrors == [])
            && (SubjectPatternMismatch in errors <==> subjectBad)
            && (FechaGeneracionMissing in errors <==> fechaBad)
            && (AttachmentsMissing in errors <==> attachmentErrors == [AttachmentsMissing])
            && (PdfAttachmentMissing in errors <==> attachmentErrors == [PdfAttachmentMissing])
            && forall i, j :: 0 <= i < j < |errors| ==> Rank(errors[i]) < Rank(errors[j])
  {
    var s := if subjectBad then [SubjectPatternMismatch] else [];
    var f := if fechaBad then [FechaGeneracionMissing] else [];
    if subjectBad && fechaBad {
      assert s + f + attachmentErrors == [SubjectPatternMismatch, FechaGeneracionMissing] + attachmentErrors;
    } else if subjectBad {
      assert s + f + attachmentErrors == [SubjectPatternMismatch] + attachmentErrors;
    } else if fechaBad {
      assert s + f + attachmentErrors == [FechaGeneracionMissing] + attachmentErrors;
    } else {
      assert s + f + attachmentErrors == attachmentErrors;
    }
  }

  /** `validate_email_structure`: the verdict and the errors, each check
      contributing at most one error, in the order of the checks. */
  function ValidateEmailStructure(subject: string, fecha: Option<string>, attachments: seq<Models.Attachment>,
                                  pattern: string): (r: (bool, seq<StructureError>))
    ensures r.0 <==> r.1 == []
    ensures SubjectPatternMismatch in r.1 <==> Normalize(subject) == "" || !Contains(Normalize(subject), Normalize(pattern))
    ensures FechaGeneracionMissing in r.1 <==> fecha.None? || fecha.value == ""
    ensures AttachmentsMissing in r.1 <==> attachments == []
    ensures PdfAttachmentMissing in r.1 <==> attachments != [] && forall i :: 0 <= i < |attachments| ==> !IsPdf(attachments[i])
    ensures forall i, j :: 0 <= i < j < |r.1| ==> Rank(r.1[i]) < Rank(r.1[j])
  {
    assert Normalize("") == "";
    var subjectBad := !SubjectMatches(subject, pattern);
    var fechaBad := fecha.None? || fecha.value == "";
    var attachmentErrors :=
      if attachments == [] then [AttachmentsMissing]
      else if HasPdf(attachments) then []
      else [PdfAttachmentMissing];
    ErrorList(subjectBad, fechaBad, attachmentErrors);
    var errors := (if subjectBad then [SubjectPatternMismatch] else [])
                  + (if fechaBad then [FechaGeneracionMissing] else []) + attachmentErrors;
    (|errors| == 0, errors)
  }

  /** At most one of the two attachment errors is reported. */
  lemma AttachmentErrorsExclusive(subject: string, fecha: Option<string>, attachments: seq<Models.Attachment>,
                                  pattern: string)
    ensures var errors := ValidateEmailStructure(subject, fecha, attachments, pattern).1;
            !(AttachmentsMissing in errors && PdfAttachmentMissing in errors)
  {
  }

  /** A plain-text attachment named "info.txt" is not a PDF. */
  lemma TextAttachmentNotPdf()
    ensures !IsPdf(Models.Attachment("info.txt", 10, Some("text/plain")))
  {
    var kind := Lower("text/plain");
    var name := Lower("info.txt");
    assert kind[0] == 't' && "application/pdf"[0] == 'a';
    assert name[7] == 't' && name[|name| - 4..][3] == name[7];
  }

  /** With a single attachment that is not a PDF (such as "info.txt"), no
      date and a subject that does not match, the three errors come in
      the order of the checks. */
  lemma MissingPartsExample(subject: string, pattern: string, a: Models.Attachment)
    requires !SubjectMatches(subject, pattern) && !IsPdf(a)
    ensures ValidateEmailStructure(subject, None, [a], pattern)
              == (false, [SubjectPatternMismatch, FechaGeneracionMissing, PdfAttachmentMissing])
  {
    assert !HasPdf([a]);
    assert [SubjectPatternMismatch] + [FechaGeneracionMissing] + [PdfAttachmentMissing]
           == [SubjectPatternMismatch, FechaGeneracionMissing, PdfAttachmentMissing];
  }
}
