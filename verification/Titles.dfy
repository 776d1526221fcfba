/** The canonical conversation title and its C1 validation
    (kaizen_components/session_protocol.py, kaizen_components/session_records.py). */
module Titles {
  import opened Wrappers
  import opened Text

  const TITLE_MAX := 80

  /** A payload value: absent, a string, or some other JSON value. */
  datatype Value = Null | Text(text: string) | NotText

  /** `_canonical_text`: collapse whitespace, truncate to `limit` code points, empty becomes none. */
  function CanonicalText(value: Value, limit: nat): Option<string> {
    match value
    case Text(s) =>
      var collapsed := Collapsed(s);
      var cut := if |collapsed| > limit then collapsed[..limit] else collapsed;
      if cut == [] then None else Some(cut)
    case _ => None
  }

  function CanonicalTitle(value: Value): Option<string> {
    CanonicalText(value, TITLE_MAX)
  }

  datatype TitleDenial = TitleInvalid

  /** `_validated_title`; `safe` is the redaction gate. */
  function ValidatedTitle(value: Value, safe: string -> bool): Result<Option<string>, TitleDenial> {
    if value == Null then Ok(None)
    else
      var canonical := CanonicalTitle(value);
      if canonical.None? || value != Text(canonical.value) then Denied(TitleInvalid)
      else if !safe(canonical.value) then Denied(TitleInvalid)
      else Ok(Some(canonical.value))
  }

  /** The normal form: nonempty, at most `limit` code points, single-spaced. */
  ghost predicate Canonical(s: string, limit: nat) {
    s != [] && |s| <= limit && SingleSpaced(s)
  }

  /** A cut of single-spaced text is single-spaced unless it ends in the blank it cut behind. */
  lemma CutShape(t: string, limit: nat)
    requires SingleSpaced(t) && 0 < limit < |t|
    ensures SingleSpaced(t[..limit]) <==> t[limit - 1] != ' '
    ensures t[limit - 1] == ' ' ==> limit > 1 && SingleSpaced(t[..limit - 1]) && t[..limit - 1] != []
  {
    var u := t[..limit];
    assert u[limit - 1] == t[limit - 1];
    assert IsSpace(' ');
    forall i | 0 <= i < |u| && IsSpace(u[i])
      ensures u[i] == ' ' && (i + 1 < |u| ==> !IsSpace(u[i + 1]))
    {
      assert u[i] == t[i];
    }
  }

  lemma CollapsedCut(t: string, limit: nat)
    requires SingleSpaced(t) && 0 < limit < |t|
    ensures Collapsed(t[..limit]) == if t[limit - 1] == ' ' then t[..limit - 1] else t[..limit]
  {
    CutShape(t, limit);
    if t[limit - 1] == ' ' {
      assert t[..limit] == t[..limit - 1] + [' '];
      WordsBefore(t[..limit - 1], ' ');
      CollapsedFixpoints(t[..limit - 1]);
    } else {
      CollapsedFixpoints(t[..limit]);
    }
  }

  /** The strings canonicalisation leaves alone are exactly those in normal form. */
  lemma CanonicalFixpoints(s: string, limit: nat)
    ensures CanonicalText(Text(s), limit) == Some(s) <==> Canonical(s, limit)
  {
    CollapsedFixpoints(s);
    var t := Collapsed(s);
    if 0 < limit < |t| {
      CollapsedCut(t, limit);
    }
  }

  /** C1 accepts exactly the safe titles in normal form, and passes them through unchanged. */
  lemma AcceptedTitles(s: string, safe: string -> bool)
    ensures ValidatedTitle(Text(s), safe) ==
            if Canonical(s, TITLE_MAX) && safe(s) then Ok(Some(s)) else Denied(TitleInvalid)
    ensures ValidatedTitle(Null, safe) == Ok(None) && ValidatedTitle(NotText, safe) == Denied(TitleInvalid)
  {
    CanonicalFixpoints(s, TITLE_MAX);
  }

  /** What canonicalising keeps of any text: the front stretch, as long as the limit allows, of the
      single-spaced text with the same characters in the same words; nothing only if there is none. */
  lemma CanonicalKeeps(s: string, limit: nat)
    ensures var t, once := Collapsed(s), CanonicalText(Text(s), limit);
            && SingleSpaced(t) && Glyphs(t) == Glyphs(s)
            && (once.None? <==> t == [] || limit == 0)
            && (once.Some? ==> once.value <= t && |once.value| == if limit < |t| then limit else |t|)
  {
    CollapsedFixpoints(s);
    CollapsedKeeps(s);
  }

  ghost function Lifted(r: Option<string>): Value {
    if r.Some? then Text(r.value) else Null
  }

  /** Where one pass is not enough: the cut falls right behind a blank. */
  ghost predicate CutsBehindBlank(s: string, limit: nat) {
    var t := Collapsed(s);
    0 < limit < |t| && t[limit - 1] == ' '
  }

  /** Canonicalising twice always reaches the normal form or nothing; once does, except exactly when
      the cut falls behind a blank. So plain idempotence is false. */
  lemma CanonicalTwice(s: string, limit: nat)
    ensures var once := CanonicalText(Text(s), limit);
            var twice := CanonicalText(Lifted(once), limit);
            && (twice.Some? <==> once.Some?)
            && (twice.Some? ==> Canonical(twice.value, limit))
            && CanonicalText(Lifted(twice), limit) == twice
            && (twice == once <==> !CutsBehindBlank(s, limit))
  {
    CollapsedFixpoints(s);
    var t := Collapsed(s);
    if 0 < limit < |t| {
      CutShape(t, limit);
      CollapsedCut(t, limit);
      CollapsedFixpoints(t[..limit - 1]);
      CollapsedFixpoints(t[..limit]);
    } else if t != [] && limit > 0 {
      CollapsedFixpoints(t);
    }
  }

  /** A prompt that meets the exception: 79 letters, a blank, one more word. */
  lemma OncePlainlyFails()
    ensures exists s :: CutsBehindBlank(s, TITLE_MAX)
  {
    var s := seq(79, _ => 'a') + " b";
    assert s[79] == ' ' && s[80] == 'b';
    CollapsedFixpoints(s);
    assert CutsBehindBlank(s, TITLE_MAX);
  }
}
