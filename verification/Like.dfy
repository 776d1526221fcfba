/** Substring search through LIKE (kaizen_components/text_search.py), matched against the LIKE
    predicate with ESCAPE '\' of section 8.5 of ISO/IEC 9075-2.

    `fold` stands for the engine's case folding of single characters. */
module Like {
  import opened Text

  function LikePattern(query: string): string {
    "%" + Replace(Replace(Replace(query, '\\', "\\\\"), '%', "\\%"), '_', "\\_") + "%"
  }

  predicate Special(c: char) {
    c == '\\' || c == '%' || c == '_'
  }

  /** Escape in one pass, character by character. */
  function Escaped(text: string): string {
    if text == [] then []
    else (if Special(text[0]) then ['\\', text[0]] else [text[0]]) + Escaped(text[1..])
  }

  lemma ReplaceOne(x: char, c: char, with: string)
    ensures Replace([x], c, with) == if x == c then with else [x]
  {
    assert [x][1..] == [];
  }

  lemma ReplaceTwo(x: char, y: char, c: char, with: string)
    ensures Replace([x, y], c, with) == (if x == c then with else [x]) + (if y == c then with else [y])
  {
    assert [x, y] == [x] + [y];
    ReplaceConcat([x], [y], c, with);
    ReplaceOne(x, c, with);
    ReplaceOne(y, c, with);
  }

  /** Backslash first: then the three successive replaces are one per-character escape. */
  lemma {:induction false} ThreeReplacesEscape(q: string)
    ensures Replace(Replace(Replace(q, '\\', "\\\\"), '%', "\\%"), '_', "\\_") == Escaped(q)
  {
    if q != [] {
      var x, rest := q[0], q[1..];
      var head := if x == '\\' then "\\\\" else [x];
      ThreeReplacesEscape(rest);
      var rest1 := Replace(rest, '\\', "\\\\");
      assert Replace(q, '\\', "\\\\") == head + rest1;
      ReplaceConcat(head, rest1, '%', "\\%");
      var head2 := Replace(head, '%', "\\%");
      ReplaceConcat(head2, Replace(rest1, '%', "\\%"), '_', "\\_");
      ReplaceOne(x, '%', "\\%");
      ReplaceOne(x, '_', "\\_");
      ReplaceTwo('\\', '\\', '%', "\\%");
      ReplaceTwo('\\', '\\', '_', "\\_");
      ReplaceTwo('\\', '%', '_', "\\_");
    }
  }

  // ---- LIKE ... ESCAPE '\' ------------------------------------------------------------------------

  /** A pattern is a list of tokens; an escape that ends the pattern matches nothing. */
  predicate Matches(fold: char -> char, pattern: string, s: string)
    decreases |pattern| + |s|
  {
    if pattern == [] then s == []
    else if pattern[0] == '%' then
      Matches(fold, pattern[1..], s) || (s != [] && Matches(fold, pattern, s[1..]))
    else if s == [] then false
    else if pattern[0] == '_' then Matches(fold, pattern[1..], s[1..])
    else if pattern[0] == '\\' then
      |pattern| > 1 && fold(pattern[1]) == fold(s[0]) && Matches(fold, pattern[2..], s[1..])
    else fold(pattern[0]) == fold(s[0]) && Matches(fold, pattern[1..], s[1..])
  }

  /** The other wildcard stands for one character, whichever. */
  lemma UnderscoreMatches(fold: char -> char, rest: string, s: string)
    ensures Matches(fold, "_" + rest, s) <==> s != [] && Matches(fold, rest, s[1..])
  {
    assert ("_" + rest)[1..] == rest;
  }

  ghost predicate SameFold(fold: char -> char, a: string, b: string) {
    |a| == |b| && forall i | 0 <= i < |a| :: fold(a[i]) == fold(b[i])
  }

  ghost predicate FoldedAt(fold: char -> char, q: string, s: string, k: nat) {
    k + |q| <= |s| && SameFold(fold, q, s[k..k + |q|])
  }

  /** `q` is a contiguous substring of `s`, up to case folding. */
  ghost predicate Contains(fold: char -> char, q: string, s: string) {
    exists k: nat :: FoldedAt(fold, q, s, k)
  }

  /** After `%` the rest of the pattern may match any suffix. */
  lemma {:induction false} PercentMatches(fold: char -> char, rest: string, s: string)
    ensures Matches(fold, "%" + rest, s) <==> exists k: nat :: k <= |s| && Matches(fold, rest, s[k..])
    decreases |s|
  {
    assert ("%" + rest)[1..] == rest;
    assert s[0..] == s;
    if s != [] {
      PercentMatches(fold, rest, s[1..]);
      if Matches(fold, "%" + rest, s[1..]) {
        var k: nat :| k <= |s[1..]| && Matches(fold, rest, s[1..][k..]);
        assert s[1..][k..] == s[k + 1..];
      }
      if exists k: nat :: 0 < k <= |s| && Matches(fold, rest, s[k..]) {
        var k: nat :| 0 < k <= |s| && Matches(fold, rest, s[k..]);
        assert s[1..][k - 1..] == s[k..];
      }
    }
  }

  lemma AnyTail(fold: char -> char, s: string)
    ensures Matches(fold, "%", s)
  {
    PercentMatches(fold, "", s);
    assert "%" + "" == "%";
    assert Matches(fold, "", s[|s|..]);
  }

  /** An escaped text followed by `%` matches exactly the strings it is a prefix of. */
  lemma {:induction false} EscapedPrefix(fold: char -> char, q: string, s: string)
    ensures Matches(fold, Escaped(q) + "%", s) <==> FoldedAt(fold, q, s, 0)
    decreases |q|
  {
    if q == [] {
      assert Escaped(q) + "%" == "%";
      AnyTail(fold, s);
    } else {
      var head := if Special(q[0]) then ['\\', q[0]] else [q[0]];
      var tail := Escaped(q[1..]) + "%";
      assert Escaped(q) + "%" == head + tail;
      assert (head + tail)[|head|..] == tail;
      if s != [] {
        EscapedPrefix(fold, q[1..], s[1..]);
        assert Matches(fold, head + tail, s) <==> fold(q[0]) == fold(s[0]) && Matches(fold, tail, s[1..]);
        PrefixStep(fold, q, s);
      }
    }
  }

  lemma PrefixStep(fold: char -> char, q: string, s: string)
    requires q != [] && s != []
    ensures FoldedAt(fold, q, s, 0) <==> fold(q[0]) == fold(s[0]) && FoldedAt(fold, q[1..], s[1..], 0)
  {
    if |q| <= |s| {
      var a, b := s[0..0 + |q|], s[1..][0..0 + |q[1..]|];
      assert forall i | 0 <= i < |b| :: b[i] == a[i + 1];
      if SameFold(fold, q[1..], b) && fold(q[0]) == fold(s[0]) {
        forall i | 0 <= i < |q|
          ensures fold(q[i]) == fold(a[i])
        {
          if i > 0 {
            assert q[1..][i - 1] == q[i] && b[i - 1] == a[i];
          }
        }
      }
    }
  }

  /** The search is exact: the pattern matches a text iff the query occurs in it. */
  lemma LikeIsSubstring(fold: char -> char, q: string, s: string)
    ensures Matches(fold, LikePattern(q), s) <==> Contains(fold, q, s)
  {
    ThreeReplacesEscape(q);
    assert LikePattern(q) == "%" + (Escaped(q) + "%");
    PercentMatches(fold, Escaped(q) + "%", s);
    forall k: nat | k <= |s|
      ensures Matches(fold, Escaped(q) + "%", s[k..]) <==> FoldedAt(fold, q, s, k)
    {
      EscapedPrefix(fold, q, s[k..]);
      if k + |q| <= |s| {
        assert s[k..][0..0 + |q|] == s[k..k + |q|];
      }
    }
    if Contains(fold, q, s) {
      var k: nat :| FoldedAt(fold, q, s, k);
      assert Matches(fold, Escaped(q) + "%", s[k..]);
    }
  }

  // ---- why it is written that way -------------------------------------------------------------------

  /** Escaping loses nothing: reading each escape pair as its second character gives the query back. */
  function Unescaped(pattern: string): string {
    if pattern == [] then []
    else if pattern[0] == '\\' && |pattern| > 1 then [pattern[1]] + Unescaped(pattern[2..])
    else [pattern[0]] + Unescaped(pattern[1..])
  }

  lemma {:induction false} UnescapeEscaped(q: string)
    ensures Unescaped(Escaped(q)) == q
  {
    if q != [] {
      UnescapeEscaped(q[1..]);
      var e, rest := Escaped(q), Escaped(q[1..]);
      if Special(q[0]) {
        assert e[0] == '\\' && e[1] == q[0] && e[2..] == rest;
      } else {
        assert e[0] == q[0] && e[1..] == rest;
      }
      assert Unescaped(e) == [q[0]] + Unescaped(rest);
    }
  }

  /** A pattern that begins with an escaped backslash needs a text that begins with one. */
  lemma StartsOtherwise(fold: char -> char, rest: string, s: string)
    requires s == [] || fold(s[0]) != fold('\\')
    ensures !Matches(fold, "\\\\" + rest, s)
  {
    assert ("\\\\" + rest)[0] == '\\';
  }

  /** Escaping the wildcards before the backslash would double-escape them: the query "%" would
      then no longer find a text that is just a percent sign. */
  lemma BackslashMustComeFirst(fold: char -> char)
    ensures var wrong := "%" + Replace(Replace("%", '%', "\\%"), '\\', "\\\\") + "%";
            fold('\\') != fold('%') ==> !Matches(fold, wrong, "%")
    ensures Contains(fold, "%", "%")
  {
    ReplaceOne('%', '%', "\\%");
    ReplaceTwo('\\', '%', '\\', "\\\\");
    var wrong := "%" + Replace(Replace("%", '%', "\\%"), '\\', "\\\\") + "%";
    var rest := "\\\\%%";
    assert wrong == "%" + rest;
    hide Matches;
    PercentMatches(fold, rest, "%");
    if fold('\\') != fold('%') {
      StartsOtherwise(fold, "%%", "%");
      StartsOtherwise(fold, "%%", "");
      assert "%"[0..] == "%" && "%"[1..] == "";
    }
    assert FoldedAt(fold, "%", "%", 0);
  }
}
