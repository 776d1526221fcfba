/** Python's whitespace operations on strings of code points. */
module Text {
  import opened Orders

  /** `str.isspace` on one code point. */
  predicate IsSpace(c: char) {
    var n := c as int;
    || 9 <= n <= 13 || 28 <= n <= 32 || n == 0x85 || n == 0xA0 || n == 0x1680
    || 0x2000 <= n <= 0x200A || n == 0x2028 || n == 0x2029 || n == 0x202F || n == 0x205F || n == 0x3000
  }

  ghost predicate NoSpace(s: string) {
    forall i | 0 <= i < |s| :: !IsSpace(s[i])
  }

  /** No whitespace at either end. */
  ghost predicate Trimmed(s: string) {
    s == [] || (!IsSpace(s[0]) && !IsSpace(s[|s| - 1]))
  }

  // ---- strip -------------------------------------------------------------------------------------

  /** Whitespace at every position from `lo` up to `hi`. */
  ghost predicate Blank(s: string, lo: int, hi: int)
    requires 0 <= lo && hi <= |s|
  {
    forall k | lo <= k < hi :: IsSpace(s[k])
  }

  /** The number of leading whitespace characters. */
  function LeadingSpace(s: string): (n: nat)
    ensures n <= |s| && Blank(s, 0, n) && (n < |s| ==> !IsSpace(s[n]))
  {
    if s == [] || !IsSpace(s[0]) then 0
    else
      var rest := s[1..];
      var n := LeadingSpace(rest);
      assert forall k | 1 <= k < n + 1 :: s[k] == rest[k - 1];
      n + 1
  }

  function TrailingSpace(s: string): (n: nat)
    ensures n <= |s| && Blank(s, |s| - n, |s|) && (n < |s| ==> !IsSpace(s[|s| - n - 1]))
  {
    if s == [] || !IsSpace(s[|s| - 1]) then 0
    else TrailingSpace(s[..|s| - 1]) + 1
  }

  function LStrip(s: string): string {
    s[LeadingSpace(s)..]
  }

  function RStrip(s: string): string {
    s[..|s| - TrailingSpace(s)]
  }

  function Strip(s: string): string {
    RStrip(LStrip(s))
  }

  /** The stripped text is the stretch of `s` between its outer whitespace. */
  lemma StripIsSlice(s: string)
    ensures var left, len := LeadingSpace(s), |Strip(s)|;
            && left + len <= |s| && Strip(s) == s[left..left + len] && Trimmed(Strip(s))
            && Blank(s, 0, left) && Blank(s, left + len, |s|)
  {
    hide IsSpace, LeadingSpace, TrailingSpace;
    var left := LeadingSpace(s);
    var t := s[left..];
    var len := |t| - TrailingSpace(t);
    assert Strip(s) == t[..len] == s[left..left + len];
    forall k | left + len <= k < |s|
      ensures IsSpace(s[k])
    {
      assert t[k - left] == s[k];
    }
    if len > 0 {
      assert t[..len][0] == s[left] && t[..len][len - 1] == t[len - 1];
    }
  }

  /** `str.lower` on the ASCII letters; no other character lowers to the words it is compared with. */
  function Lower(s: string): (r: string)
    ensures |r| == |s| && forall i | 0 <= i < |s| :: r[i] == LowerChar(s[i])
  {
    seq(|s|, i requires 0 <= i < |s| => LowerChar(s[i]))
  }

  function LowerChar(c: char): char {
    if 'A' <= c <= 'Z' then (c as int + 32) as char else c
  }

  const CAPITALS := "ABCDEFGHIJKLMNOPQRSTUVWXYZ"
  const SMALL := "abcdefghijklmnopqrstuvwxyz"

  /** `s` is `word`, some of its letters written as capitals. */
  ghost predicate Spells(s: string, word: string) {
    |s| == |word|
    && forall i | 0 <= i < |s| :: s[i] == word[i] || exists k | 0 <= k < 26 :: CAPITALS[k] == s[i] && SMALL[k] == word[i]
  }

  lemma Alphabet()
    ensures |CAPITALS| == |SMALL| == 26
    ensures forall k | 0 <= k < 26 :: CAPITALS[k] as int == 65 + k && SMALL[k] as int == 97 + k
  {
  }

  lemma CapitalAt(c: char)
    ensures 'A' <= c <= 'Z' <==> exists k | 0 <= k < 26 :: CAPITALS[k] == c
  {
    Alphabet();
    if 'A' <= c <= 'Z' {
      assert CAPITALS[c as int - 65] == c;
    }
  }

  lemma LowerMeaning(s: string, word: string)
    requires forall c | c in word :: c !in CAPITALS
    ensures Lower(s) == word <==> Spells(s, word)
  {
    if |s| == |word| {
      forall i | 0 <= i < |s|
        ensures LowerChar(s[i]) == word[i] <==>
                s[i] == word[i] || exists k | 0 <= k < 26 :: CAPITALS[k] == s[i] && SMALL[k] == word[i]
      {
        LowerCharMeaning(s[i], word[i]);
      }
    }
  }

  lemma LowerCharMeaning(c: char, d: char)
    requires d !in CAPITALS
    ensures LowerChar(c) == d <==> c == d || exists k | 0 <= k < 26 :: CAPITALS[k] == c && SMALL[k] == d
  {
    Alphabet();
    CapitalAt(c);
    CapitalAt(d);
    if 'A' <= c <= 'Z' {
      assert CAPITALS[c as int - 65] == c;
    }
  }

  /** Stripping takes off what surrounds a trimmed word. */
  lemma StripBetween(left: string, word: string, right: string)
    requires Blank(left, 0, |left|) && Blank(right, 0, |right|) && Trimmed(word) && word != []
    ensures Strip(left + word + right) == word
  {
    hide IsSpace, LeadingSpace, TrailingSpace;
    var s := left + word + right;
    var lead := LeadingSpace(s);
    assert s[|left|] == word[0];
    assert s[|left| + |word| - 1] == word[|word| - 1];
    forall k | 0 <= k < |left|
      ensures IsSpace(s[k])
    {
      assert s[k] == left[k];
    }
    forall k | |left| + |word| <= k < |s|
      ensures IsSpace(s[k])
    {
      assert s[k] == right[k - |left| - |word|];
    }
    assert lead == |left|;
    var t := s[lead..];
    assert t == word + right;
    var trail := TrailingSpace(t);
    assert forall k | |word| <= k < |t| :: t[k] == s[k + lead];
    assert trail == |right|;
    assert t[..|word|] == word;
  }

  // ---- find and replace --------------------------------------------------------------------------

  ghost predicate OccursAt(s: string, pattern: string, k: nat) {
    k + |pattern| <= |s| && s[k..k + |pattern|] == pattern
  }

  /** `s.rfind(pattern)` from position `k` downward. */
  function RFindFrom(s: string, pattern: string, k: nat): (r: int)
    requires k + |pattern| <= |s|
    ensures -1 <= r <= k
    ensures r >= 0 ==> OccursAt(s, pattern, r)
    ensures forall j: nat | r < j <= k :: !OccursAt(s, pattern, j)
  {
    if s[k..k + |pattern|] == pattern then k
    else if k == 0 then -1
    else RFindFrom(s, pattern, k - 1)
  }

  /** The last occurrence, or -1. */
  function RFind(s: string, pattern: string): (r: int)
    ensures -1 <= r
    ensures r >= 0 ==> OccursAt(s, pattern, r)
    ensures forall j: nat | r < j :: !OccursAt(s, pattern, j)
  {
    if |s| < |pattern| then -1 else RFindFrom(s, pattern, |s| - |pattern|)
  }

  /** `text.replace(c, with)` for a one-character `c`. */
  function Replace(text: string, c: char, with: string): string {
    if text == [] then []
    else (if text[0] == c then with else [text[0]]) + Replace(text[1..], c, with)
  }

  lemma {:induction false} ReplaceConcat(a: string, b: string, c: char, with: string)
    ensures Replace(a + b, c, with) == Replace(a, c, with) + Replace(b, c, with)
  {
    if a == [] {
      assert a + b == b;
    } else {
      ReplaceConcat(a[1..], b, c, with);
      JoinedTail(a, b);
      Regroup(if a[0] == c then with else [a[0]], Replace(a[1..], c, with), Replace(b, c, with));
    }
  }

  // ---- split and join ----------------------------------------------------------------------------

  function FirstWord(s: string): (w: string)
    ensures |w| <= |s| && w == s[..|w|] && NoSpace(w) && (|w| < |s| ==> IsSpace(s[|w|]))
  {
    if s == [] || IsSpace(s[0]) then []
    else
      var rest := FirstWord(s[1..]);
      assert s[..|rest| + 1] == [s[0]] + s[1..][..|rest|];
      [s[0]] + rest
  }

  /** `s.split()`. */
  function Words(s: string): seq<string>
    decreases |s|
  {
    if s == [] then []
    else if IsSpace(s[0]) then Words(s[1..])
    else [FirstWord(s)] + Words(s[|FirstWord(s)|..])
  }

  /** `" ".join(words)`. */
  function Join(words: seq<string>): string {
    if words == [] then []
    else if |words| == 1 then words[0]
    else words[0] + " " + Join(words[1..])
  }

  ghost predicate WordList(words: seq<string>) {
    forall w | w in words :: w != [] && NoSpace(w)
  }

  lemma {:induction false} WordsAreWords(s: string)
    ensures WordList(Words(s))
    decreases |s|
  {
    if s != [] {
      if IsSpace(s[0]) {
        WordsAreWords(s[1..]);
      } else {
        WordsAreWords(s[|FirstWord(s)|..]);
      }
    }
  }

  /** Words separated by one blank each, with no whitespace outside or instead. */
  ghost predicate SingleSpaced(s: string) {
    && Trimmed(s)
    && forall i | 0 <= i < |s| && IsSpace(s[i]) :: s[i] == ' ' && (i + 1 < |s| ==> !IsSpace(s[i + 1]))
  }

  lemma {:induction false} JoinSingleSpaced(words: seq<string>)
    requires WordList(words)
    ensures SingleSpaced(Join(words)) && (words != [] ==> Join(words) != [])
  {
    if |words| == 1 {
      assert words[0] in words;
    } else if |words| > 1 {
      JoinSingleSpaced(words[1..]);
      assert words[0] in words;
      var rest := Join(words[1..]);
      var all := words[0] + " " + rest;
      forall i | 0 <= i < |all| && IsSpace(all[i])
        ensures all[i] == ' ' && (i + 1 < |all| ==> !IsSpace(all[i + 1]))
      {
        if i > |words[0]| {
          assert all[i] == rest[i - |words[0]| - 1];
        }
      }
    }
  }

  lemma {:induction false} SingleSpacedSuffix(s: string, k: nat)
    requires SingleSpaced(s) && k < |s| && !IsSpace(s[k])
    ensures SingleSpaced(s[k..])
  {
    var t := s[k..];
    forall i | 0 <= i < |t| && IsSpace(t[i])
      ensures t[i] == ' ' && (i + 1 < |t| ==> !IsSpace(t[i + 1]))
    {
      assert s[i + k] == t[i];
    }
  }

  /** Splitting single-spaced text and joining it again changes nothing. */
  lemma {:induction false} JoinWords(s: string)
    requires SingleSpaced(s)
    ensures Join(Words(s)) == s
    decreases |s|
  {
    if s != [] {
      var w := FirstWord(s);
      assert w != [];
      if |w| < |s| {
        var rest := s[|w| + 1..];
        SingleSpacedSuffix(s, |w| + 1);
        JoinWords(rest);
        assert s[|w|..][1..] == rest;
        assert Words(s[|w|..]) == Words(rest);
        assert Words(rest) != [];
        assert s == w + " " + rest;
      } else {
        assert Words(s[|w|..]) == [];
      }
    }
  }

  lemma {:induction false} FirstWordBefore(s: string, c: char)
    requires IsSpace(c)
    ensures FirstWord(s + [c]) == FirstWord(s)
  {
    if s != [] && !IsSpace(s[0]) {
      assert (s + [c])[1..] == s[1..] + [c];
      FirstWordBefore(s[1..], c);
    }
  }

  /** Trailing whitespace adds no word. */
  lemma {:induction false} WordsBefore(s: string, c: char)
    requires IsSpace(c)
    ensures Words(s + [c]) == Words(s)
    decreases |s|
  {
    if s == [] {
      assert (s + [c])[1..] == [];
    } else if IsSpace(s[0]) {
      assert (s + [c])[1..] == s[1..] + [c];
      WordsBefore(s[1..], c);
    } else {
      var w := FirstWord(s);
      FirstWordBefore(s, c);
      assert (s + [c])[|w|..] == s[|w|..] + [c];
      WordsBefore(s[|w|..], c);
    }
  }

  /** `" ".join(s.split())`: collapse every stretch of whitespace. */
  function Collapsed(s: string): string {
    Join(Words(s))
  }

  /** The characters that are not whitespace, in order, each with whether it follows another at once. */
  ghost function Glyphs(s: string): seq<(char, bool)> {
    if s == [] then []
    else
      var front, last := s[..|s| - 1], s[|s| - 1];
      Glyphs(front) + if IsSpace(last) then [] else [(last, front != [] && !IsSpace(front[|front| - 1]))]
  }

  lemma {:induction false} GlyphsJoined(a: string, b: string)
    requires a == [] || b == [] || IsSpace(a[|a| - 1]) || IsSpace(b[0])
    ensures Glyphs(a + b) == Glyphs(a) + Glyphs(b)
  {
    hide IsSpace;
    if b == [] {
      assert a + b == a;
    } else {
      var front := b[..|b| - 1];
      assert (a + b)[..|a + b| - 1] == a + front && (a + b)[|a + b| - 1] == b[|b| - 1];
      GlyphsJoined(a, front);
      Regroup(Glyphs(a), Glyphs(front), if IsSpace(b[|b| - 1]) then [] else
                [(b[|b| - 1], front != [] && !IsSpace(front[|front| - 1]))]);
    }
  }

  lemma GlyphsOfSpace(c: char)
    requires IsSpace(c)
    ensures Glyphs([c]) == []
  {
    assert [c][..0] == [];
  }

  /** Collapsing keeps every character that is not whitespace, in order, and keeps apart or together what
      was. With single spacing that leaves one possible result. */
  lemma {:induction false} CollapsedKeeps(s: string)
    ensures Glyphs(Collapsed(s)) == Glyphs(s)
    decreases |s|
  {
    hide IsSpace, Glyphs;
    if s == [] {
      assert Collapsed(s) == s;
    } else if IsSpace(s[0]) {
      assert s == [s[0]] + s[1..];
      GlyphsOfSpace(s[0]);
      GlyphsJoined([s[0]], s[1..]);
      CollapsedKeeps(s[1..]);
    } else {
      var w := FirstWord(s);
      var rest := s[|w|..];
      assert s == w + rest && (rest != [] ==> IsSpace(rest[0]));
      assert w != [];
      GlyphsJoined(w, rest);
      CollapsedKeeps(rest);
      JoinFirst(w, Words(rest));
      if Words(rest) != [] {
        BlankIsSpace();
        GlyphsOfSpace(' ');
        GlyphsJoined(" ", Join(Words(rest)));
        GlyphsJoined(w, " " + Join(Words(rest)));
      } else {
        NoGlyphs();
      }
    }
  }

  lemma BlankIsSpace()
    ensures IsSpace(' ')
  {
  }

  lemma NoGlyphs()
    ensures Glyphs([]) == [] && Join([]) == []
  {
  }

  lemma JoinFirst(w: string, words: seq<string>)
    ensures Join([w] + words) == if words == [] then w else w + (" " + Join(words))
  {
    assert ([w] + words)[1..] == words;
  }

  lemma CollapsedFixpoints(s: string)
    ensures SingleSpaced(Collapsed(s))
    ensures Collapsed(s) == s <==> SingleSpaced(s)
  {
    WordsAreWords(s);
    JoinSingleSpaced(Words(s));
    if SingleSpaced(s) {
      JoinWords(s);
    }
  }
}
