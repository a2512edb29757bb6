/** Prometheus label-name sanitising (`strutil.SanitizeLabelName`).

    The library is not part of this model. Its behaviour is assumed to be:
    every character outside `[A-Za-z0-9_]` is replaced by `_`, one output
    character per input character, and nothing else changes (a leading digit
    is kept). */
module LabelName {

  predicate IsLabelChar(c: char)
  {
    ('a' <= c <= 'z') || ('A' <= c <= 'Z') || ('0' <= c <= '9') || c == '_'
  }

  /** Every character is allowed in a label name. */
  predicate IsLabelName(s: string)
  {
    forall i :: 0 <= i < |s| ==> IsLabelChar(s[i])
  }

  /** The assumed `strutil.SanitizeLabelName`. */
  function Sanitize(s: string): (r: string)
    ensures |r| == |s|
    ensures IsLabelName(r)
    ensures forall i :: 0 <= i < |s| && IsLabelChar(s[i]) ==> r[i] == s[i]
    ensures forall i :: 0 <= i < |s| && !IsLabelChar(s[i]) ==> r[i] == '_'
  {
    if |s| == 0 then ""
    else [if IsLabelChar(s[0]) then s[0] else '_'] + Sanitize(s[1..])
  }

  /** A string is left unchanged exactly when it is already a valid label-name token. */
  lemma SanitizeFixedPoint(s: string)
    ensures Sanitize(s) == s <==> IsLabelName(s)
  {
    if IsLabelName(s) {
      assert forall i :: 0 <= i < |s| ==> Sanitize(s)[i] == s[i];
    }
  }

  /** Sanitising an already-sanitised string is a no-op. */
  lemma SanitizeIdempotent(s: string)
    ensures Sanitize(Sanitize(s)) == Sanitize(s)
  {
    SanitizeFixedPoint(Sanitize(s));
  }

  /** Sanitised text never contains the comma used to delimit tag lists. */
  lemma SanitizedCommaFree(s: string)
    ensures ',' !in Sanitize(s)
  {
    var r := Sanitize(s);
    assert forall i :: 0 <= i < |r| ==> r[i] != ',' by {
      forall i | 0 <= i < |r| ensures r[i] != ',' {
        assert IsLabelChar(r[i]);
      }
    }
  }
}
