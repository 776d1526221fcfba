/** The sign-off check of a pull request's commits (security/validate_dco.py). */
module Dco {
  import opened Wrappers
  import opened Text
  import opened Orders

  const PREFIX := "Signed-off-by: "
  const EXEMPT_BOT_LOGIN := "dependabot[bot]"

  /** A parsed API commit; a missing author leaves both author fields absent. */
  datatype Commit = Commit(sha: string, message: string, authorLogin: Option<string>, authorType: Option<string>)

  // ---- one line ------------------------------------------------------------------------------------

  predicate Forbidden(c: char) {
    c == '<' || c == '>' || c as int < 32 || c as int == 127
  }

  /** Brackets and control characters; a blank is neither. */
  lemma ForbiddenMeaning(c: char)
    ensures Forbidden(c) <==> c < ' ' || c in {'<', '>', '\U{7F}'}
  {
  }

  predicate HasForbidden(s: string) {
    exists i | 0 <= i < |s| :: Forbidden(s[i])
  }

  predicate HasSpaceOrForbidden(s: string) {
    exists i | 0 <= i < |s| :: IsSpace(s[i]) || Forbidden(s[i])
  }

  /** `s.count(c)`. */
  function Count(s: string, c: char): nat {
    if s == [] then 0 else (if s[0] == c then 1 else 0) + Count(s[1..], c)
  }

  /** The index of the first `c`, or the length. */
  function Find(s: string, c: char): (k: nat)
    ensures k <= |s| && (k < |s| ==> s[k] == c) && c !in s[..k]
  {
    if s == [] || s[0] == c then 0
    else
      var k := Find(s[1..], c);
      assert s[..k + 1] == [s[0]] + s[1..][..k];
      k + 1
  }

  /** `_is_valid_signoff_line`. */
  predicate ValidSignoffLine(line: string) {
    if !(PREFIX <= line) || line[|line| - 1] != '>' then false
    else
      var rest := line[|PREFIX|..];
      var cut := RFind(rest, " <");
      if cut == -1 then false
      else
        var name, address := rest[..cut], rest[cut + 2..];
        if name == [] || name != Strip(name) || HasForbidden(name) then false
        else
          AddressNonempty(line, cut);
          var email := address[..|address| - 1];
          if Count(email, '@') != 1 || HasSpaceOrForbidden(email) then false
          else
            var at := Find(email, '@');
            CountFind(email, '@');
            email[..at] != [] && email[at + 1..] != []
  }

  lemma AddressNonempty(line: string, cut: nat)
    requires PREFIX <= line && line[|line| - 1] == '>'
    requires OccursAt(line[|PREFIX|..], " <", cut)
    ensures cut + 2 < |line[|PREFIX|..]|
  {
    var rest := line[|PREFIX|..];
    assert |rest| > 0;
    assert rest[cut..cut + 2][1] == rest[cut + 1];
  }

  lemma {:induction false} CountFind(s: string, c: char)
    ensures Count(s, c) == 0 <==> c !in s
    ensures Count(s, c) == 1 <==> Find(s, c) < |s| && c !in s[Find(s, c) + 1..]
  {
    if s != [] {
      CountFind(s[1..], c);
      assert s == [s[0]] + s[1..];
      if s[0] != c && Find(s[1..], c) < |s[1..]| {
        assert s[Find(s, c) + 1..] == s[1..][Find(s[1..], c) + 1..];
      }
    }
  }

  /** What a sign-off is: the prefix, a name, and an address in angle brackets with one at sign. */
  datatype Signoff = Signoff(name: string, local: string, domain: string)

  ghost function Render(s: Signoff): string {
    PREFIX + (s.name + (" <" + (s.local + ("@" + (s.domain + ">")))))
  }

  ghost predicate ValidName(name: string) {
    name != [] && Trimmed(name) && !HasForbidden(name)
  }

  ghost predicate ValidPart(part: string) {
    part != [] && !HasSpaceOrForbidden(part) && '@' !in part
  }

  ghost predicate ValidSignoff(s: Signoff) {
    ValidName(s.name) && ValidPart(s.local) && ValidPart(s.domain)
  }

  lemma StripTrimmed(s: string)
    ensures Strip(s) == s <==> Trimmed(s)
  {
    hide IsSpace;
    StripIsSlice(s);
  }

  lemma NoForbidden(s: string, c: char)
    requires Forbidden(c)
    ensures !HasForbidden(s) ==> c !in s
    ensures !HasSpaceOrForbidden(s) ==> c !in s
  {
  }

  /** The separator is where the name stops: nothing behind it opens another bracket. */
  lemma CutUnique(name: string, email: string)
    requires '<' !in email
    ensures RFind(name + (" <" + (email + ">")), " <") == |name|
  {
    var rest := name + (" <" + (email + ">"));
    assert rest[|name|..|name| + 2] == " <";
    assert OccursAt(rest, " <", |name|);
    forall j: nat | j > |name|
      ensures !OccursAt(rest, " <", j)
    {
      if j + 2 <= |rest| {
        assert rest[j..j + 2][1] == rest[j + 1];
        assert j + 1 < |name| + 2 + |email| ==> rest[j + 1] == email[j + 1 - |name| - 2];
      }
    }
    var r := RFind(rest, " <");
    assert r >= |name|;
  }

  lemma AtUnique(local: string, domain: string)
    requires '@' !in local && '@' !in domain
    ensures Find(local + ("@" + domain), '@') == |local|
    ensures Count(local + ("@" + domain), '@') == 1
  {
    FindCount(local, '@', domain);
    CountFind(domain, '@');
  }

  /** The first `c` comes right behind a stretch without one. */
  lemma {:induction false} FindCount(a: string, c: char, b: string)
    requires c !in a
    ensures Find(a + ([c] + b), c) == |a|
    ensures Count(a + ([c] + b), c) == 1 + Count(b, c)
  {
    var s := a + ([c] + b);
    if a == [] {
      assert s == [c] + b;
      assert s[1..] == b;
    } else {
      assert s[0] == a[0] && s[1..] == a[1..] + ([c] + b);
      assert c !in a[1..] && a[0] != c;
      FindCount(a[1..], c, b);
    }
  }

  lemma EmailClean(local: string, domain: string)
    requires ValidPart(local) && ValidPart(domain)
    ensures !HasSpaceOrForbidden(local + ("@" + domain))
  {
    hide IsSpace;
    AtIsPlain();
    var email := local + ("@" + domain);
    forall i | 0 <= i < |email|
      ensures !IsSpace(email[i]) && !Forbidden(email[i])
    {
      if i < |local| {
        assert email[i] == local[i];
      } else if i > |local| {
        assert email[i] == domain[i - |local| - 1];
      }
    }
  }

  lemma AtIsPlain()
    ensures !IsSpace('@') && !Forbidden('@')
  {
  }

  lemma AcceptsRendered(s: Signoff)
    requires ValidSignoff(s)
    ensures ValidSignoffLine(Render(s))
  {
    hide ValidSignoffLine, IsSpace, Strip, RFind, Count, Find, HasForbidden, HasSpaceOrForbidden;
    var line, email := Render(s), s.local + ("@" + s.domain);
    assert email + ">" == s.local + ("@" + (s.domain + ">"));
    assert line == PREFIX + (s.name + (" <" + (email + ">")));
    EmailClean(s.local, s.domain);
    NoForbidden(email, '<');
    assert Forbidden('<');
    AtUnique(s.local, s.domain);
    StripTrimmed(s.name);
    assert email[..|s.local|] == s.local && email[|s.local| + 1..] == s.domain;
    AcceptsBrackets(line, s.name, email);
  }

  lemma AcceptsBrackets(line: string, name: string, email: string)
    requires Brackets(line, name, email) && '<' !in email
    ensures ValidSignoffLine(line)
  {
    hide IsSpace, Strip, RFind, Count, Find, HasForbidden, HasSpaceOrForbidden;
    var rest := name + (" <" + (email + ">"));
    assert line[|PREFIX|..] == rest && PREFIX <= line && line[|line| - 1] == '>';
    CutUnique(name, email);
    var address := rest[|name| + 2..];
    assert rest[..|name|] == name && address == email + ">" && address[..|address| - 1] == email;
  }

  /** The line is the prefix, a name and a bracketed address without further brackets. */
  ghost predicate Brackets(line: string, name: string, email: string) {
    line == PREFIX + (name + (" <" + (email + ">"))) && Accepted(name, email)
  }

  lemma Bracketed(line: string, rest: string, cut: nat)
    requires PREFIX <= line && line[|line| - 1] == '>' && rest == line[|PREFIX|..]
    requires OccursAt(rest, " <", cut) && cut + 2 < |rest|
    ensures var address := rest[cut + 2..];
            line == PREFIX + (rest[..cut] + (" <" + (address[..|address| - 1] + ">")))
  {
    var address := rest[cut + 2..];
    assert address == address[..|address| - 1] + ">";
    assert rest == rest[..cut] + (rest[cut..cut + 2] + rest[cut + 2..]);
    assert line == PREFIX + rest;
  }

  /** What the checks on an accepted line have found. */
  ghost predicate Found(line: string, cut: nat) {
    && PREFIX <= line && line[|line| - 1] == '>'
    && var rest := line[|PREFIX|..];
       && OccursAt(rest, " <", cut) && cut + 2 < |rest|
       && Accepted(rest[..cut], rest[cut + 2..][..|rest| - cut - 3])
  }

  ghost predicate Accepted(name: string, email: string) {
    && name != [] && name == Strip(name) && !HasForbidden(name)
    && Count(email, '@') == 1 && !HasSpaceOrForbidden(email)
    && email[..Find(email, '@')] != [] && Find(email, '@') < |email| && email[Find(email, '@') + 1..] != []
  }

  lemma FoundInAccepted(line: string) returns (cut: nat)
    requires ValidSignoffLine(line)
    ensures Found(line, cut)
  {
    hide IsSpace, Strip, RFind, Count, Find, HasForbidden, HasSpaceOrForbidden;
    var rest := line[|PREFIX|..];
    cut := RFind(rest, " <");
    AddressNonempty(line, cut);
    var address := rest[cut + 2..];
    var email := address[..|address| - 1];
    CountFind(email, '@');
    hide OccursAt;
    assert Accepted(rest[..cut], email);
  }

  lemma BracketsAccepted(line: string) returns (name: string, email: string)
    requires ValidSignoffLine(line)
    ensures Brackets(line, name, email)
  {
    hide ValidSignoffLine, Accepted;
    var cut := FoundInAccepted(line);
    var rest := line[|PREFIX|..];
    Bracketed(line, rest, cut);
    name, email := rest[..cut], rest[cut + 2..][..|rest| - cut - 3];
  }

  lemma ParsesAccepted(line: string) returns (s: Signoff)
    requires ValidSignoffLine(line)
    ensures ValidSignoff(s) && Render(s) == line
  {
    hide ValidSignoffLine, Strip, IsSpace;
    var name, email := BracketsAccepted(line);
    var at := Find(email, '@');
    CountFind(email, '@');
    StripTrimmed(name);
    PartsClean(email, at);
    s := Signoff(name, email[..at], email[at + 1..]);
    assert email == s.local + ("@" + s.domain);
    assert email + ">" == s.local + ("@" + (s.domain + ">"));
  }

  lemma PartsClean(email: string, at: nat)
    requires at < |email| && !HasSpaceOrForbidden(email)
    ensures !HasSpaceOrForbidden(email[..at]) && !HasSpaceOrForbidden(email[at + 1..])
  {
    hide IsSpace;
    var domain := email[at + 1..];
    forall i | 0 <= i < |domain|
      ensures !IsSpace(domain[i]) && !Forbidden(domain[i])
    {
      assert domain[i] == email[at + 1 + i];
    }
  }

  /** A line is accepted exactly when it reads as prefix, valid name, and an address of nonempty local
      part and domain. */
  lemma AcceptedLines(line: string)
    ensures ValidSignoffLine(line) <==> exists s :: ValidSignoff(s) && Render(s) == line
  {
    if ValidSignoffLine(line) {
      var s := ParsesAccepted(line);
    }
    if exists s :: ValidSignoff(s) && Render(s) == line {
      var s :| ValidSignoff(s) && Render(s) == line;
      AcceptsRendered(s);
    }
  }

  lemma BracketUnique(n: string, e: string, m: string, f: string)
    requires '<' !in e && '<' !in f
    requires n + (" <" + (e + ">")) == m + (" <" + (f + ">"))
    ensures n == m && e == f
  {
    CutUnique(n, e);
    CutUnique(m, f);
    hide RFind;
    var rest := n + (" <" + (e + ">"));
    assert n == rest[..|n|] && e == rest[|n| + 2..|rest| - 1];
    assert m == rest[..|m|] && f == rest[|m| + 2..|rest| - 1];
  }

  lemma AtSplitUnique(l: string, d: string, k: string, c: string)
    requires '@' !in l && '@' !in d && '@' !in k && '@' !in c
    requires l + ("@" + d) == k + ("@" + c)
    ensures l == k && d == c
  {
    AtUnique(l, d);
    AtUnique(k, c);
    var email := l + ("@" + d);
    assert l == email[..|l|] && d == email[|l| + 1..];
    assert k == email[..|k|] && c == email[|k| + 1..];
  }

  /** It reads so in one way only. */
  lemma SignoffUnique(s: Signoff, t: Signoff)
    requires ValidSignoff(s) && ValidSignoff(t) && Render(s) == Render(t)
    ensures s == t
  {
    hide IsSpace;
    var es, et := s.local + ("@" + s.domain), t.local + ("@" + t.domain);
    assert es + ">" == s.local + ("@" + (s.domain + ">"));
    assert et + ">" == t.local + ("@" + (t.domain + ">"));
    assert Render(s)[|PREFIX|..] == s.name + (" <" + (es + ">"));
    assert Render(t)[|PREFIX|..] == t.name + (" <" + (et + ">"));
    EmailClean(s.local, s.domain);
    EmailClean(t.local, t.domain);
    NoForbidden(es, '<');
    NoForbidden(et, '<');
    BracketUnique(s.name, es, t.name, et);
    AtSplitUnique(s.local, s.domain, t.local, t.domain);
  }

  // ---- one message ---------------------------------------------------------------------------------

  /** `text.replace("\r\n", "\n")`. */
  function ReplaceCrLf(s: string): string {
    if s == [] then []
    else if |s| >= 2 && s[0] == '\r' && s[1] == '\n' then "\n" + ReplaceCrLf(s[2..])
    else [s[0]] + ReplaceCrLf(s[1..])
  }

  function Normalized(message: string): string {
    Replace(ReplaceCrLf(message), '\r', "\n")
  }

  /** `text.split("\n")`. */
  function Lines(s: string): (r: seq<string>)
    ensures r != []
    decreases |s|
  {
    var k := Find(s, '\n');
    if k == |s| then [s] else [s[..k]] + Lines(s[k + 1..])
  }

  predicate HasSignoff(message: string) {
    exists line | line in Lines(Normalized(message)) :: ValidSignoffLine(line)
  }

  ghost function Unlines(lines: seq<string>): string
    requires lines != []
  {
    if |lines| == 1 then lines[0] else lines[0] + "\n" + Unlines(lines[1..])
  }

  /** The lines are the whole text, cut at every newline and nowhere else. */
  lemma {:induction false} LinesRejoin(s: string)
    ensures Unlines(Lines(s)) == s
    ensures forall line | line in Lines(s) :: '\n' !in line
    decreases |s|
  {
    var k := Find(s, '\n');
    if k == |s| {
      assert s[..k] == s;
    } else {
      LinesRejoin(s[k + 1..]);
      var first, rest := s[..k], Lines(s[k + 1..]);
      assert s == first + "\n" + s[k + 1..];
      assert Lines(s) == [first] + rest;
      assert ([first] + rest)[1..] == rest;
      hide Lines, Find;
    }
  }

  const LINE_ENDS := {"\r\n", "\r", "\n"}

  /** The parts do not form a line end of their own across the seam. */
  predicate Apart(a: string, b: string) {
    !(a != [] && b != [] && a[|a| - 1] == '\r' && b[0] == '\n')
  }

  lemma {:induction false} CrLfJoined(a: string, b: string)
    requires Apart(a, b)
    ensures ReplaceCrLf(a + b) == ReplaceCrLf(a) + ReplaceCrLf(b)
    decreases |a|
  {
    var all := a + b;
    if a == [] {
      assert all == b;
    } else if |a| >= 2 && a[0] == '\r' && a[1] == '\n' {
      assert all[0] == '\r' && all[1] == '\n' && all[2..] == a[2..] + b;
      CrLfJoined(a[2..], b);
    } else {
      assert all[0] == a[0] && all[1..] == a[1..] + b;
      assert |a| >= 2 ==> all[1] == a[1];
      assert |a| == 1 && |all| >= 2 ==> all[1] == b[0];
      CrLfJoined(a[1..], b);
    }
  }

  /** Whatever ends a line normalises to one newline between its neighbours. */
  lemma NormalizedJoined(a: string, end: string, b: string)
    requires end in LINE_ENDS && Apart(a, end) && Apart(end, b)
    ensures Normalized(a + end + b) == Normalized(a) + ("\n" + Normalized(b))
  {
    LineEndNormalized(end);
    ApartJoined(a, end, b);
    hide Apart;
    CrLfJoined(end, b);
    CrLfJoined(a, end + b);
    Regroup(a, end, b);
    ReplaceConcat(ReplaceCrLf(end), ReplaceCrLf(b), '\r', "\n");
    ReplaceConcat(ReplaceCrLf(a), ReplaceCrLf(end + b), '\r', "\n");
    hide ReplaceCrLf, Replace;
  }

  lemma ApartJoined(a: string, end: string, b: string)
    requires end != [] && Apart(a, end)
    ensures Apart(a, end + b)
  {
    assert (end + b)[0] == end[0];
  }

  lemma LineEndNormalized(end: string)
    requires end in LINE_ENDS
    ensures end != [] && Replace(ReplaceCrLf(end), '\r', "\n") == "\n"
  {
    var none: string := [];
    assert ReplaceCrLf(none) == [] && Replace(none, '\r', "\n") == [];
    assert "\r\n"[2..] == none && "\r"[1..] == none && "\n"[1..] == none;
    assert ReplaceCrLf("\r\n") == "\n" + ReplaceCrLf(none) == "\n";
    assert ReplaceCrLf("\r") == "\r" && ReplaceCrLf("\n") == "\n";
    assert Replace("\n", '\r', "\n") == "\n" + Replace(none, '\r', "\n");
    assert Replace("\r", '\r', "\n") == "\n" + Replace(none, '\r', "\n");
  }

  lemma {:induction false} LinesJoined(x: string, y: string)
    ensures Lines(x + ("\n" + y)) == Lines(x) + Lines(y)
    decreases |x|
  {
    hide Lines, Find;
    var all, k := x + ("\n" + y), Find(x, '\n');
    FindJoined(x, y);
    LinesStep(all);
    LinesStep(x);
    SeamAt(x, y, k);
    if k < |x| {
      LinesJoined(x[k + 1..], y);
      Regroup([x[..k]], Lines(x[k + 1..]), Lines(y));
    }
  }

  lemma SeamAt(x: string, y: string, k: nat)
    requires k <= |x|
    ensures var all := x + ("\n" + y);
      if k == |x| then all[..k] == x && all[k + 1..] == y
      else all[..k] == x[..k] && all[k + 1..] == x[k + 1..] + ("\n" + y)
  {
  }

  lemma LinesStep(s: string)
    ensures var k := Find(s, '\n'); Lines(s) == if k == |s| then [s] else [s[..k]] + Lines(s[k + 1..])
  {
    hide Find;
  }

  lemma {:induction false} FindJoined(x: string, y: string)
    ensures Find(x + ("\n" + y), '\n') == Find(x, '\n')
  {
    if x != [] {
      assert (x + ("\n" + y))[1..] == x[1..] + ("\n" + y);
      FindJoined(x[1..], y);
    }
  }

  /** Each of the three line ends separates lines, so a message has a sign-off exactly if a part has. */
  lemma LineEndsCut(a: string, end: string, b: string)
    requires end in LINE_ENDS && Apart(a, end) && Apart(end, b)
    ensures Lines(Normalized(a + end + b)) == Lines(Normalized(a)) + Lines(Normalized(b))
    ensures HasSignoff(a + end + b) <==> HasSignoff(a) || HasSignoff(b)
  {
    NormalizedJoined(a, end, b);
    LinesJoined(Normalized(a), Normalized(b));
    hide Lines, Normalized, ValidSignoffLine, Apart;
  }

  lemma {:induction false} NoReturnLeft(s: string)
    ensures '\r' !in Replace(s, '\r', "\n")
  {
    if s != [] {
      NoReturnLeft(s[1..]);
    }
  }

  /** No line of a message holds a line end of any style. */
  lemma NoCarriageReturn(message: string)
    ensures forall line | line in Lines(Normalized(message)) :: '\r' !in line && '\n' !in line
  {
    var text := Normalized(message);
    NoReturnLeft(ReplaceCrLf(message));
    LinesRejoin(text);
    forall line | line in Lines(text)
      ensures '\r' !in line
    {
      LineOfText(Lines(text), line);
    }
  }

  lemma {:induction false} LineOfText(lines: seq<string>, line: string)
    requires line in lines
    ensures forall c | c in line :: c in Unlines(lines)
  {
    if line != lines[0] {
      assert lines == [lines[0]] + lines[1..];
      LineOfText(lines[1..], line);
    }
  }

  // ---- the verdict over all commits ----------------------------------------------------------------

  predicate Exempt(c: Commit, exemptDependabot: bool) {
    exemptDependabot && c.authorLogin == Some(EXEMPT_BOT_LOGIN) && c.authorType == Some("Bot")
  }

  /** Only commits of the one trusted bot account are exempt, and only if the pull request is trusted. */
  lemma ExemptMeaning(c: Commit, trusted: bool)
    ensures Exempt(c, trusted) <==>
            trusted && c.authorLogin == Some("dependabot[bot]") && c.authorType == Some("Bot")
    ensures !trusted ==> !Exempt(c, trusted)
  {
  }

  predicate Unsigned(c: Commit, exemptDependabot: bool) {
    !Exempt(c, exemptDependabot) && !HasSignoff(c.message)
  }

  ghost function ExemptShas(commits: seq<Commit>, flag: bool): seq<string> {
    if commits == [] then []
    else
      var front, last := ExemptShas(commits[..|commits| - 1], flag), commits[|commits| - 1];
      if Exempt(last, flag) then front + [last.sha] else front
  }

  ghost function UnsignedShas(commits: seq<Commit>, flag: bool): seq<string> {
    if commits == [] then []
    else
      var front, last := UnsignedShas(commits[..|commits| - 1], flag), commits[|commits| - 1];
      if Unsigned(last, flag) then front + [last.sha] else front
  }

  datatype Verdict = Verdict(total: nat, checked: nat, exempt: seq<string>, failed: seq<string>)

  /** `evaluate`: the failed commits are, in order, exactly those neither exempt nor signed off. */
  method Evaluate(commits: seq<Commit>, exemptDependabot: bool) returns (v: Verdict)
    ensures v.total == |commits| && v.checked + |v.exempt| == v.total
    ensures v.exempt == ExemptShas(commits, exemptDependabot)
    ensures v.failed == UnsignedShas(commits, exemptDependabot)
  {
    hide HasSignoff;
    var failed: seq<string>, exempt: seq<string>, checked: nat := [], [], 0;
    for i := 0 to |commits|
      invariant checked + |exempt| == i
      invariant exempt == ExemptShas(commits[..i], exemptDependabot)
      invariant failed == UnsignedShas(commits[..i], exemptDependabot)
    {
      assert commits[..i + 1][..i] == commits[..i];
      var c := commits[i];
      if Exempt(c, exemptDependabot) {
        exempt := exempt + [c.sha];
      } else {
        checked := checked + 1;
        if !HasSignoff(c.message) {
          failed := failed + [c.sha];
        }
      }
    }
    assert commits[..|commits|] == commits;
    v := Verdict(|commits|, checked, exempt, failed);
  }

  lemma {:induction false} NothingFailed(commits: seq<Commit>, flag: bool)
    ensures UnsignedShas(commits, flag) == [] <==> forall c | c in commits :: !Unsigned(c, flag)
  {
    hide Unsigned;
    if commits != [] {
      NothingFailed(commits[..|commits| - 1], flag);
      assert commits == commits[..|commits| - 1] + [commits[|commits| - 1]];
    }
  }

  // ---- collecting the commits ----------------------------------------------------------------------

  datatype PullState = PullState(count: nat, baseSha: string, headSha: string)

  /** One compare page, its fields already parsed. */
  datatype Page = Page(total: nat, ahead: nat, baseSha: string, mergeBaseSha: string, commits: seq<Commit>)

  datatype DcoError = CommitDuplicate | CountMismatch | BaseMismatch | PageDrift | CoverageIncomplete | HeadMismatch
                    | PullChanged

  ghost function AllCommits(pages: seq<Page>): seq<Commit> {
    if pages == [] then [] else AllCommits(pages[..|pages| - 1]) + pages[|pages| - 1].commits
  }

  ghost predicate DistinctShas(commits: seq<Commit>) {
    forall i, j | 0 <= i < j < |commits| :: commits[i].sha != commits[j].sha
  }

  /** Every page is bound to the pull request and to one merge base. */
  ghost predicate Bound(pages: seq<Page>, state: PullState) {
    && (forall p | p in pages :: p.total == state.count && p.ahead == p.total && p.baseSha == state.baseSha)
    && (forall p, q | p in pages && q in pages :: p.mergeBaseSha == q.mergeBaseSha)
  }

  ghost predicate Covers(commits: seq<Commit>, state: PullState) {
    && DistinctShas(commits)
    && |commits| == state.count && commits != []
    && commits[|commits| - 1].sha == state.headSha
  }

  /** Each error names a fault the pages really have. */
  ghost predicate Justified(e: DcoError, pages: seq<Page>, state: PullState) {
    match e
    case CommitDuplicate => !DistinctShas(AllCommits(pages))
    case CountMismatch => (exists p :: p in pages && (p.total != state.count || p.ahead != p.total))
                          || |AllCommits(pages)| > state.count
    case BaseMismatch => exists p :: p in pages && p.baseSha != state.baseSha
    case PageDrift => exists p, q :: p in pages && q in pages && p.mergeBaseSha != q.mergeBaseSha
    case CoverageIncomplete => |AllCommits(pages)| != state.count
    case HeadMismatch => AllCommits(pages) == [] || AllCommits(pages)[|AllCommits(pages)| - 1].sha != state.headSha
    case PullChanged => false
  }

  /** Both lists follow the commits, one by one. */
  lemma {:induction false} ShasJoined(a: seq<Commit>, b: seq<Commit>, flag: bool)
    ensures ExemptShas(a + b, flag) == ExemptShas(a, flag) + ExemptShas(b, flag)
    ensures UnsignedShas(a + b, flag) == UnsignedShas(a, flag) + UnsignedShas(b, flag)
    decreases |b|
  {
    hide Exempt, HasSignoff;
    if b == [] {
      assert a + b == a;
    } else {
      assert (a + b)[..|a + b| - 1] == a + b[..|b| - 1];
      ShasJoined(a, b[..|b| - 1], flag);
    }
  }

  /** Of one commit: it is listed as exempt, as failed, or not at all. */
  lemma ShasOfOne(c: Commit, flag: bool)
    ensures ExemptShas([c], flag) == if Exempt(c, flag) then [c.sha] else []
    ensures UnsignedShas([c], flag) == if !Exempt(c, flag) && !HasSignoff(c.message) then [c.sha] else []
  {
    hide Exempt, HasSignoff;
    assert [c][..0] == [];
  }

  /** `_append_unique`: append the page, stopping at a SHA already seen. */
  method AppendUnique(target: seq<Commit>, seen: set<string>, page: seq<Commit>)
    returns (all: seq<Commit>, seen': set<string>, duplicate: bool)
    requires DistinctShas(target) && forall sha :: sha in seen <==> HasSha(target, sha)
    ensures duplicate <==> !DistinctShas(target + page)
    ensures !duplicate ==> all == target + page
                           && forall sha :: sha in seen' <==> HasSha(all, sha)
  {
    all, seen' := target, seen;
    for i := 0 to |page|
      invariant all == target + page[..i] && DistinctShas(all)
      invariant forall sha :: sha in seen' <==> HasSha(all, sha)
    {
      assert target + page[..i + 1] == all + [page[i]];
      assert target + page == all + [page[i]] + page[i + 1..];
      if page[i].sha in seen' {
        DuplicateFound(all, page[i], page[i + 1..]);
        return all, seen', true;
      }
      AppendDistinct(all, page[i]);
      seen' := seen' + {page[i].sha};
      all := all + [page[i]];
    }
    assert page[..|page|] == page;
    duplicate := false;
  }

  lemma DuplicateFound(all: seq<Commit>, c: Commit, more: seq<Commit>)
    requires HasSha(all, c.sha)
    ensures !DistinctShas(all + [c] + more)
  {
    var x :| x in all && x.sha == c.sha;
    var i :| 0 <= i < |all| && all[i] == x;
    var whole := all + [c] + more;
    assert whole[i].sha == whole[|all|].sha;
  }

  lemma AppendDistinct(all: seq<Commit>, c: Commit)
    requires DistinctShas(all) && !HasSha(all, c.sha)
    ensures DistinctShas(all + [c])
    ensures forall sha :: HasSha(all + [c], sha) <==> sha == c.sha || HasSha(all, sha)
  {
    assert c in all + [c];
    forall i | 0 <= i < |all|
      ensures all[i].sha != c.sha
    {
      assert all[i] in all;
    }
    forall sha
      ensures HasSha(all + [c], sha) <==> sha == c.sha || HasSha(all, sha)
    {
      if HasSha(all, sha) {
        var x :| x in all && x.sha == sha;
        assert x in all + [c];
      }
    }
  }

  ghost predicate HasSha(commits: seq<Commit>, sha: string) {
    exists c :: c in commits && c.sha == sha
  }

  lemma {:induction false} AllCommitsSplit(pages: seq<Page>, i: nat)
    requires i <= |pages|
    ensures AllCommits(pages[..i]) <= AllCommits(pages)
    decreases |pages|
  {
    if i == |pages| {
      assert pages[..i] == pages;
    } else {
      AllCommitsSplit(pages[..|pages| - 1], i);
      assert pages[..|pages| - 1][..i] == pages[..i];
    }
  }

  lemma FaultPersists(pages: seq<Page>, i: nat, state: PullState)
    requires i <= |pages|
    ensures !DistinctShas(AllCommits(pages[..i])) ==> !DistinctShas(AllCommits(pages))
    ensures |AllCommits(pages[..i])| <= |AllCommits(pages)|
  {
    AllCommitsSplit(pages, i);
    var part, whole := AllCommits(pages[..i]), AllCommits(pages);
    if !DistinctShas(part) {
      var j, k :| 0 <= j < k < |part| && part[j].sha == part[k].sha;
      assert whole[j] == part[j] && whole[k] == part[k];
    }
  }

  lemma AllCommitsStep(pages: seq<Page>, i: nat)
    requires i < |pages|
    ensures AllCommits(pages[..i + 1]) == AllCommits(pages[..i]) + pages[i].commits
  {
    assert pages[..i + 1][..i] == pages[..i];
  }

  /** Bound to the pull request, and to this merge base. */
  predicate BoundPage(p: Page, state: PullState, mergeBase: string) {
    p.total == state.count && p.ahead == p.total && p.baseSha == state.baseSha && p.mergeBaseSha == mergeBase
  }

  /** The checks on one page, its merge base against the first page's. */
  method CheckPage(pages: seq<Page>, i: nat, state: PullState) returns (fault: Option<DcoError>)
    requires i < |pages|
    ensures fault.None? <==> BoundPage(pages[i], state, pages[0].mergeBaseSha)
    ensures fault.Some? ==> Justified(fault.value, pages, state) && !Bound(pages, state)
  {
    var page := pages[i];
    assert page in pages && pages[0] in pages;
    if page.total != state.count || page.ahead != page.total {
      return Some(CountMismatch);
    }
    if page.baseSha != state.baseSha {
      return Some(BaseMismatch);
    }
    if page.mergeBaseSha != pages[0].mergeBaseSha {
      return Some(PageDrift);
    }
    return None;
  }

  lemma AllBound(pages: seq<Page>, state: PullState)
    requires forall k | 0 <= k < |pages| :: BoundPage(pages[k], state, pages[0].mergeBaseSha)
    ensures Bound(pages, state)
  {
  }

  /** `_collect_commits`: succeeds exactly when the pages are bound and cover the declared commits. */
  method CollectCommits(pages: seq<Page>, state: PullState) returns (result: Result<seq<Commit>, DcoError>)
    ensures result.Ok? <==> Bound(pages, state) && Covers(AllCommits(pages), state)
    ensures result.Ok? ==> result.value == AllCommits(pages)
    ensures result.Denied? ==> Justified(result.error, pages, state)
  {
    hide DistinctShas, HasSha, AllCommits, Bound, BoundPage;
    NoneYet();
    var commits: seq<Commit>, seen: set<string> := [], {};
    for i := 0 to |pages|
      invariant commits == AllCommits(pages[..i]) && DistinctShas(commits) && |commits| <= state.count
      invariant forall sha :: sha in seen <==> HasSha(commits, sha)
      invariant forall k | 0 <= k < i :: BoundPage(pages[k], state, pages[0].mergeBaseSha)
    {
      var fault := CheckPage(pages, i, state);
      if fault.Some? {
        return Denied(fault.value);
      }
      AllCommitsStep(pages, i);
      FaultPersists(pages, i + 1, state);
      var all, seen', duplicate := AppendUnique(commits, seen, pages[i].commits);
      if duplicate {
        return Denied(CommitDuplicate);
      }
      commits, seen := all, seen';
      if |commits| > state.count {
        return Denied(CountMismatch);
      }
    }
    assert pages[..|pages|] == pages;
    AllBound(pages, state);
    if |commits| != state.count {
      return Denied(CoverageIncomplete);
    }
    if commits == [] || commits[|commits| - 1].sha != state.headSha {
      return Denied(HeadMismatch);
    }
    result := Ok(commits);
  }

  lemma NoneYet()
    ensures AllCommits([]) == [] && DistinctShas([]) && forall sha :: !HasSha([], sha)
  {
  }

  /** The check gives a verdict exactly when the pages bind and cover the pull request as first read and
      the second reading equals the first; it passes when every commit up to the head is exempt or
      carries a sign-off. */
  method Validate(initial: PullState, pages: seq<Page>, final: PullState, trustedDependabot: bool)
    returns (result: Result<Verdict, DcoError>)
    ensures result.Ok? <==> Bound(pages, initial) && Covers(AllCommits(pages), initial) && final == initial
    ensures result.Ok? ==>
              && result.value.total == final.count
              && result.value.checked + |result.value.exempt| == final.count
              && (result.value.failed == [] <==>
                  forall c | c in AllCommits(pages) :: Exempt(c, trustedDependabot) || HasSignoff(c.message))
    ensures result.Denied? ==>
              if result.error == PullChanged then Covers(AllCommits(pages), initial) && final != initial
              else Justified(result.error, pages, initial)
  {
    hide HasSignoff;
    var collected := CollectCommits(pages, initial);
    if collected.Denied? {
      return Denied(collected.error);
    }
    if final != initial {
      return Denied(PullChanged);
    }
    var verdict := Evaluate(collected.value, trustedDependabot);
    NothingFailed(collected.value, trustedDependabot);
    result := Ok(verdict);
  }
}
