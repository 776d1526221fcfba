/** Skill-context snapshots: the inventory they are taken from, the writer, the integrity verifier and
    the comparison with the live packages (kaizen_components/skill_context.py).

    Hashes are symbolic: equal exactly on equal material. `fold` is Unicode case folding. */
module SkillContexts {
  import opened Wrappers
  import opened Orders
  import opened Text

  datatype Host = Codex | Claude

  /** What is hashed about one host surface of a skill. */
  datatype Face = Face(host: Host, relpath: string, kind: string, status: string, policy: string)

  /** The columns of a skill's own row. */
  datatype Card = Card(name: string, description: string, covers: seq<string>, relpath: string, skillHash: string,
                       packageHash: string, validation: string, errors: seq<string>, publication: string,
                       reason: string)

  datatype Facts = Facts(card: Card, faces: seq<Face>)

  datatype Digest =
    | OfFace(face: Face)
    | OfFacts(facts: Facts)
    | OfInventory(skills: seq<Facts>)
    | OfPlan(core: PlanCore)
    | OfSync(status: string, plan: Digest, inventory: Digest, skillCount: int, surfaceCount: int, hosts: seq<Host>,
             test: bool)

  datatype PlanCore = PlanCore(storeRoot: string, hosts: seq<Host>, test: bool, inventory: Digest, skillCount: int,
                               surfaceCount: int, skills: seq<Facts>)

  datatype Refusal = ScanIncomplete | PolicyInvalid | SurfaceConflict | OrphanSurface | ConfirmRequired | PlanMismatch

  const SURFACE_STATUSES := {"missing", "correct", "wrong_target", "dangling_link", "real_directory"}
  const CONFLICTS := {"wrong_target", "dangling_link", "real_directory"}
  const POLICY_STATES := {"on", "name-only", "user-invocable-only", "off"}
  const PUBLICATION_STATUSES := {"published", "staged"}

  /** The hosts of a request always come in the registry's order. */
  predicate HostScope(hosts: seq<Host>) {
    hosts == (if Codex in hosts then [Codex] else []) + if Claude in hosts then [Claude] else []
  }

  predicate SafeReason(s: string) {
    && 1 <= |s| <= 64 && 'a' <= s[0] <= 'z'
    && forall i | 0 <= i < |s| :: 'a' <= s[i] <= 'z' || '0' <= s[i] <= '9' || s[i] == '_'
  }

  predicate Hex64(s: string) {
    |s| == 64 && forall i | 0 <= i < |s| :: '0' <= s[i] <= '9' || 'a' <= s[i] <= 'f'
  }

  lemma HostScopeMeaning(hosts: seq<Host>)
    ensures HostScope(hosts) <==>
            hosts == [] || hosts == [Codex] || hosts == [Claude] || hosts == [Codex, Claude]
  {
  }

  lemma InOrder(s: string)
    ensures forall i | 0 <= i < |s| :: s[i] in s
  {
  }

  lemma Digits()
    ensures forall c: char :: c in "0123456789" <==> '0' <= c <= '9'
    ensures forall c: char :: c in "abcdef" <==> 'a' <= c <= 'f'
  {
  }

  lemma HexMeaning(s: string)
    ensures Hex64(s) <==> |s| == 64 && forall c | c in s :: c in "0123456789" || c in "abcdef"
  {
    Digits();
    InOrder(s);
  }

  lemma ReasonMeaning(s: string)
    ensures SafeReason(s) <==> 1 <= |s| <= 64 && s[0] in SMALL
                               && forall c | c in s :: c in SMALL || c in "0123456789" || c == '_'
  {
    Digits();
    SmallLetters();
    InOrder(s);
  }

  lemma SmallLetters()
    ensures forall c: char :: c in SMALL <==> 'a' <= c <= 'z'
  {
    Alphabet();
    forall c: char | 'a' <= c <= 'z'
      ensures c in SMALL
    {
      assert SMALL[c as int - 97] == c;
    }
  }

  // ---- order ---------------------------------------------------------------------------------------

  predicate NameLe(a: Facts, b: Facts) {
    LexLe(a.card.name, b.card.name)
  }

  function FoldLe(fold: string -> string): (Facts, Facts) -> bool {
    (a: Facts, b: Facts) => LexLe(fold(a.card.name), fold(b.card.name))
  }

  /** Folded first, then as written. */
  function Both(fold: string -> string): (Facts, Facts) -> bool {
    (a: Facts, b: Facts) => FoldLe(fold)(a, b) && (FoldLe(fold)(b, a) ==> NameLe(a, b))
  }

  ghost predicate NamesDistinct(records: seq<Facts>) {
    forall i, j | 0 <= i < j < |records| :: records[i].card.name != records[j].card.name
  }

  /** Records whose names fold alike stand in the order of their names. */
  ghost predicate TiesAscend(fold: string -> string, records: seq<Facts>) {
    forall i, j | 0 <= i < j < |records| && fold(records[i].card.name) == fold(records[j].card.name) ::
      NameLe(records[i], records[j])
  }

  lemma NameOrder()
    ensures Total(NameLe) && Transitive(NameLe)
  {
    forall a, b
      ensures NameLe(a, b) || NameLe(b, a)
    {
      LexTotal(a.card.name, b.card.name);
    }
    forall a, b, c | NameLe(a, b) && NameLe(b, c)
      ensures NameLe(a, c)
    {
      LexTransitive(a.card.name, b.card.name, c.card.name);
    }
  }

  lemma FoldOrder(fold: string -> string)
    ensures Total(FoldLe(fold)) && Transitive(FoldLe(fold))
  {
    var le := FoldLe(fold);
    forall a, b
      ensures le(a, b) || le(b, a)
    {
      LexTotal(fold(a.card.name), fold(b.card.name));
    }
    forall a, b, c | le(a, b) && le(b, c)
      ensures le(a, c)
    {
      LexTransitive(fold(a.card.name), fold(b.card.name), fold(c.card.name));
    }
  }

  lemma FoldTies(fold: string -> string, a: Facts, b: Facts)
    ensures FoldLe(fold)(a, b) && FoldLe(fold)(b, a) <==> fold(a.card.name) == fold(b.card.name)
  {
    if FoldLe(fold)(a, b) && FoldLe(fold)(b, a) {
      LexAntisymmetric(fold(a.card.name), fold(b.card.name));
    }
    LexReflexive(fold(a.card.name));
  }

  /** A stable sort leaves the earlier order among ties. */
  lemma {:induction false} StableSort(fold: string -> string, s: seq<Facts>)
    requires SortedBy(NameLe, s)
    ensures SortedBy(Both(fold), Sort(FoldLe(fold), s))
  {
    hide Both, FoldLe, NameLe, Sort, Insert;
    if s == [] {
      NothingSorted(FoldLe(fold));
    } else {
      var tail := s[1..];
      HeadFirst(s);
      StableSort(fold, tail);
      SortStep(FoldLe(fold), s);
      SameMembers(Sort(FoldLe(fold), tail), tail);
      InsertStable(fold, s[0], Sort(FoldLe(fold), tail));
    }
  }

  lemma HeadFirst(s: seq<Facts>)
    requires s != [] && SortedBy(NameLe, s)
    ensures SortedBy(NameLe, s[1..]) && forall x | x in s[1..] :: NameLe(s[0], x)
  {
    hide NameLe;
    forall x | x in s[1..]
      ensures NameLe(s[0], x)
    {
      var i :| 0 <= i < |s[1..]| && s[1..][i] == x;
      assert NameLe(s[0], s[i + 1]);
    }
  }

  lemma {:induction false} InsertStable(fold: string -> string, x: Facts, s: seq<Facts>)
    requires SortedBy(Both(fold), s) && forall y | y in s :: NameLe(x, y)
    ensures SortedBy(Both(fold), Insert(FoldLe(fold), x, s))
  {
    var le := FoldLe(fold);
    FoldOrder(fold);
    if s == [] {
    } else if le(x, s[0]) {
      forall j | 0 <= j < |s|
        ensures Both(fold)(x, s[j])
      {
        assert j > 0 ==> Both(fold)(s[0], s[j]);
        assert s[j] in s;
      }
    } else {
      var rest := Insert(le, x, s[1..]);
      InsertStable(fold, x, s[1..]);
      SameMembers(rest, [x] + s[1..]);
      assert le(x, s[0]) || le(s[0], x);
      forall j | 0 <= j < |rest|
        ensures Both(fold)(s[0], rest[j])
      {
        assert rest[j] in [x] + s[1..];
        if rest[j] != x {
          var k :| 0 <= k < |s[1..]| && s[1..][k] == rest[j];
          assert Both(fold)(s[0], s[k + 1]);
        }
      }
    }
  }

  lemma NoNameTies(records: seq<Facts>)
    requires NamesDistinct(records)
    ensures NoTies(NameLe, records) && NoRepeats(records)
  {
    forall x, y | x in records && y in records && NameLe(x, y) && NameLe(y, x)
      ensures x == y
    {
      LexAntisymmetric(x.card.name, y.card.name);
    }
  }

  /** Re-sorting the rows that are read in name order restores the recorded order exactly when the
      records whose names fold alike were in name order to begin with. */
  lemma ResortRestores(fold: string -> string, records: seq<Facts>)
    requires NamesDistinct(records) && SortedBy(FoldLe(fold), records)
    ensures Sort(FoldLe(fold), Sort(NameLe, records)) == records <==> TiesAscend(fold, records)
  {
    var named := Sort(NameLe, records);
    var again := Sort(FoldLe(fold), named);
    NameOrder();
    SortSorts(NameLe, records);
    StableSort(fold, named);
    if TiesAscend(fold, records) {
      forall i, j | 0 <= i < j < |records|
        ensures Both(fold)(records[i], records[j])
      {
        FoldTies(fold, records[i], records[j]);
        assert FoldLe(fold)(records[i], records[j]);
      }
      NoNameTies(records);
      SameMembers(again, records);
      SortedUnique(Both(fold), again, records);
    }
    if again == records {
      forall i, j | 0 <= i < j < |records| && fold(records[i].card.name) == fold(records[j].card.name)
        ensures NameLe(records[i], records[j])
      {
        FoldTies(fold, records[i], records[j]);
        assert Both(fold)(records[i], records[j]);
      }
    }
  }

  /** Two packages whose names differ only in case, found in descending order. */
  lemma CaseTwinsDescend(fold: string -> string, f: Facts, g: Facts)
    requires f.card.name == "a" && g.card.name == "A" && fold("a") == fold("A")
    ensures NamesDistinct([f, g]) && SortedBy(FoldLe(fold), [f, g]) && !TiesAscend(fold, [f, g])
  {
    FoldTies(fold, f, g);
    assert !NameLe([f, g][0], [f, g][1]);
  }

  // ---- normalising the inventory -------------------------------------------------------------------

  /** One discovered package; `covers` and `errors` arrive cleaned. */
  datatype Raw = Raw(name: string, description: string, covers: seq<string>, relpath: string, skillHash: string,
                     packageHash: string, valid: bool, errors: seq<string>, publication: string, reason: string,
                     hosts: map<Host, string>)

  type Policies = map<Host, map<string, string>>

  predicate SafeName(name: string) {
    name != "" && name != "." && name != ".." && forall i | 0 <= i < |name| :: name[i] as int >= 32
  }

  lemma SafeNameMeaning(name: string)
    ensures SafeName(name) <==> name !in {"", ".", ".."} && forall c | c in name :: c >= ' '
  {
    InOrder(name);
  }

  function StatusOf(raw: Raw, host: Host): string {
    if host in raw.hosts then raw.hosts[host] else "missing"
  }

  function PolicyOf(raw: Raw, host: Host, policies: Policies): string {
    if host in policies && raw.name in policies[host] then policies[host][raw.name] else "on"
  }

  function FaceOf(raw: Raw, host: Host, policies: Policies): Face {
    var status := StatusOf(raw, host);
    Face(host, (if host == Codex then ".agents" else ".claude") + "/skills/" + raw.name,
         if status == "real_directory" then status else if status == "missing" then status else "link", status,
         PolicyOf(raw, host, policies))
  }

  function FactsOf(raw: Raw, hosts: seq<Host>, policies: Policies): Facts {
    Facts(Card(raw.name, Strip(raw.description), raw.covers, raw.relpath, Lower(raw.skillHash),
               Lower(raw.packageHash), if raw.valid then "valid" else "invalid", raw.errors, raw.publication,
               raw.reason),
          seq(|hosts|, i requires 0 <= i < |hosts| => FaceOf(raw, hosts[i], policies)))
  }

  /** The first of the record's own defects, in the order they are looked for. */
  function Defect(raw: Raw, hosts: seq<Host>, policies: Policies): Option<Refusal> {
    if !SafeName(raw.name) || raw.publication !in PUBLICATION_STATUSES || !SafeReason(raw.reason)
       || raw.relpath != raw.name + "/SKILL.md" then Some(ScanIncomplete)
    else
      var face := FaceDefect(raw, hosts, policies);
      if face.Some? then face
      else if ((raw.valid || raw.skillHash != "") && !Hex64(Lower(raw.skillHash))) || !Hex64(Lower(raw.packageHash))
      then Some(ScanIncomplete)
      else None
  }

  function FaceDefect(raw: Raw, hosts: seq<Host>, policies: Policies): Option<Refusal> {
    if hosts == [] then None
    else if StatusOf(raw, hosts[0]) !in SURFACE_STATUSES then Some(ScanIncomplete)
    else if PolicyOf(raw, hosts[0], policies) !in POLICY_STATES then Some(PolicyInvalid)
    else FaceDefect(raw, hosts[1..], policies)
  }

  /** What a snapshot can be taken of. */
  ghost predicate Sound(hosts: seq<Host>, f: Facts) {
    && |f.faces| == |hosts| && (forall i | 0 <= i < |hosts| :: f.faces[i].host == hosts[i])
    && (forall i | 0 <= i < |hosts| :: f.faces[i].policy in POLICY_STATES && f.faces[i].status in SURFACE_STATUSES)
    && f.card.publication in PUBLICATION_STATUSES && SafeReason(f.card.reason)
  }

  ghost predicate Normal(fold: string -> string, hosts: seq<Host>, records: seq<Facts>) {
    && NamesDistinct(records) && SortedBy(FoldLe(fold), records)
    && forall f | f in records :: Sound(hosts, f)
  }

  lemma {:induction false} FaceDefectMeaning(raw: Raw, hosts: seq<Host>, policies: Policies)
    ensures FaceDefect(raw, hosts, policies).None? <==> forall h | h in hosts ::
        StatusOf(raw, h) in SURFACE_STATUSES && PolicyOf(raw, h, policies) in POLICY_STATES
  {
    if hosts != [] {
      FaceDefectMeaning(raw, hosts[1..], policies);
      assert hosts == [hosts[0]] + hosts[1..];
      hide StatusOf, PolicyOf;
    }
  }

  /** What is recorded about a host: where it looks for the skill, what is found there, and its policy. */
  lemma FaceMeaning(raw: Raw, host: Host, policies: Policies)
    ensures var face := FaceOf(raw, host, policies);
      && face.host == host
      && (host == Codex ==> face.relpath == ".agents/skills/" + raw.name)
      && (host == Claude ==> face.relpath == ".claude/skills/" + raw.name)
      && (host in raw.hosts ==> face.status == raw.hosts[host]) && (host !in raw.hosts ==> face.status == "missing")
      && (face.status in {"missing", "real_directory"} ==> face.kind == face.status)
      && (face.status !in {"missing", "real_directory"} ==> face.kind == "link")
      && (host in policies && raw.name in policies[host] ==> face.policy == policies[host][raw.name])
      && (!(host in policies && raw.name in policies[host]) ==> face.policy == "on")
  {
    assert ".agents" + "/skills/" == ".agents/skills/" && ".claude" + "/skills/" == ".claude/skills/";
  }

  /** What is recorded about a package: its own statements, the description trimmed and the hashes in lower
      case, and one face a host, in order. */
  lemma FactsMeaning(raw: Raw, hosts: seq<Host>, policies: Policies)
    ensures var f := FactsOf(raw, hosts, policies);
      && f.card.name == raw.name && f.card.covers == raw.covers && f.card.relpath == raw.relpath
      && f.card.errors == raw.errors && f.card.publication == raw.publication && f.card.reason == raw.reason
      && f.card.description == Strip(raw.description) && Trimmed(f.card.description)
      && f.card.skillHash == Lower(raw.skillHash) && f.card.packageHash == Lower(raw.packageHash)
      && f.card.validation == (if raw.valid then "valid" else "invalid")
      && |f.faces| == |hosts| && forall i | 0 <= i < |hosts| :: f.faces[i] == FaceOf(raw, hosts[i], policies)
  {
    hide FaceOf, Strip, Lower;
    StripIsSlice(raw.description);
  }

  /** When a package is refused, and with which of the two refusals. */
  lemma DefectExact(raw: Raw, hosts: seq<Host>, policies: Policies)
    ensures var faces := forall h | h in hosts ::
        StatusOf(raw, h) in SURFACE_STATUSES && PolicyOf(raw, h, policies) in POLICY_STATES;
      var said := SafeName(raw.name) && raw.publication in PUBLICATION_STATUSES && SafeReason(raw.reason)
        && raw.relpath == raw.name + "/SKILL.md";
      var hashes := Hex64(Lower(raw.packageHash)) && (raw.valid || raw.skillHash != "" ==> Hex64(Lower(raw.skillHash)));
      && (Defect(raw, hosts, policies).None? <==> said && faces && hashes)
      && (Defect(raw, hosts, policies) == Some(PolicyInvalid) ==>
          said && exists h :: h in hosts && PolicyOf(raw, h, policies) !in POLICY_STATES)
  {
    hide SafeName, SafeReason, Hex64, StatusOf, PolicyOf, Lower;
    FaceDefectMeaning(raw, hosts, policies);
    PolicyAtFault(raw, hosts, policies);
    hide FaceDefect;
  }

  lemma {:induction false} PolicyAtFault(raw: Raw, hosts: seq<Host>, policies: Policies)
    ensures FaceDefect(raw, hosts, policies) == Some(PolicyInvalid) ==>
              exists h :: h in hosts && PolicyOf(raw, h, policies) !in POLICY_STATES
  {
    hide StatusOf, PolicyOf;
    if hosts != [] {
      PolicyAtFault(raw, hosts[1..], policies);
      assert hosts == [hosts[0]] + hosts[1..];
    }
  }

  lemma NoDefectSound(raw: Raw, hosts: seq<Host>, policies: Policies)
    requires Defect(raw, hosts, policies).None?
    ensures Sound(hosts, FactsOf(raw, hosts, policies))
  {
    hide SafeReason, SafeName, Hex64, StatusOf, PolicyOf, FaceDefect;
    FaceDefectMeaning(raw, hosts, policies);
  }

  function Described(raws: seq<Raw>, hosts: seq<Host>, policies: Policies): seq<Facts> {
    seq(|raws|, i requires 0 <= i < |raws| => FactsOf(raws[i], hosts, policies))
  }

  function HostSet(hosts: seq<Host>): set<Host> {
    set h | h in hosts
  }

  /** Every package is sound and no name comes twice. */
  ghost predicate Clean(raws: seq<Raw>, hosts: seq<Host>, policies: Policies) {
    && (forall i | 0 <= i < |raws| :: Defect(raws[i], hosts, policies).None?)
    && forall i, j | 0 <= i < j < |raws| :: raws[i].name != raws[j].name
  }

  lemma DescribedSound(raws: seq<Raw>, hosts: seq<Host>, policies: Policies)
    requires Clean(raws, hosts, policies)
    ensures NamesDistinct(Described(raws, hosts, policies))
    ensures forall f | f in Described(raws, hosts, policies) :: Sound(hosts, f)
  {
    hide Defect, Sound;
    forall i | 0 <= i < |raws|
      ensures Sound(hosts, FactsOf(raws[i], hosts, policies))
    {
      NoDefectSound(raws[i], hosts, policies);
    }
  }

  /** The packages in the order discovered. */
  method ReadPackages(raws: seq<Raw>, hosts: seq<Host>, policies: Policies) returns (r: Result<seq<Facts>, Refusal>)
    ensures r.Ok? <==> Clean(raws, hosts, policies)
    ensures r.Ok? ==> r.value == Described(raws, hosts, policies)
  {
    hide Defect, FactsOf;
    var records: seq<Facts>, seen: set<string> := [], {};
    for i := 0 to |raws|
      invariant Clean(raws[..i], hosts, policies)
      invariant seen == set k | 0 <= k < i :: raws[k].name
      invariant records == Described(raws[..i], hosts, policies)
    {
      var defect := Defect(raws[i], hosts, policies);
      if raws[i].name in seen {
        return Denied(ScanIncomplete);
      }
      if defect.Some? {
        return Denied(defect.value);
      }
      seen := seen + {raws[i].name};
      records := records + [FactsOf(raws[i], hosts, policies)];
    }
    assert raws[..|raws|] == raws;
    return Ok(records);
  }

  /** `_normalize_inventory` of a discovery of `raws`, `complete` where the scan found no error. */
  method Normalize(fold: string -> string, complete: bool, scope: seq<Host>, raws: seq<Raw>, hosts: seq<Host>,
                   policies: Policies) returns (r: Result<seq<Facts>, Refusal>)
    ensures r.Ok? <==> complete && scope == hosts && policies.Keys == HostSet(hosts) && Clean(raws, hosts, policies)
    ensures r.Ok? ==> Normal(fold, hosts, r.value)
    ensures r.Ok? ==> multiset(r.value) == multiset(Described(raws, hosts, policies))
  {
    hide Clean, Normal, Described;
    if !complete || scope != hosts {
      return Denied(ScanIncomplete);
    }
    if policies.Keys != HostSet(hosts) {
      return Denied(PolicyInvalid);
    }
    var records := ReadPackages(raws, hosts, policies);
    if records.Denied? {
      return records;
    }
    DescribedSound(raws, hosts, policies);
    SortedNormal(fold, hosts, records.value);
    return Ok(Sort(FoldLe(fold), records.value));
  }

  lemma NamesStayDistinct(a: seq<Facts>, b: seq<Facts>)
    requires NamesDistinct(a) && multiset(a) == multiset(b)
    ensures NamesDistinct(b)
  {
    NoNameTies(a);
    NoRepeatsStay(a, b);
    SameMembers(a, b);
    forall i, j | 0 <= i < j < |b|
      ensures b[i].card.name != b[j].card.name
    {
      assert b[i] in a && b[j] in a;
      var k :| 0 <= k < |a| && a[k] == b[i];
      var l :| 0 <= l < |a| && a[l] == b[j];
    }
  }

  lemma SortedNormal(fold: string -> string, hosts: seq<Host>, records: seq<Facts>)
    requires NamesDistinct(records) && forall f | f in records :: Sound(hosts, f)
    ensures Normal(fold, hosts, Sort(FoldLe(fold), records))
  {
    hide Sound;
    var sorted := Sort(FoldLe(fold), records);
    FoldOrder(fold);
    SortSorts(FoldLe(fold), records);
    SameMembers(sorted, records);
    hide FoldLe;
    NamesStayDistinct(records, sorted);
    forall f | f in sorted
      ensures Sound(hosts, f)
    {
      assert f in records;
    }
  }
}
