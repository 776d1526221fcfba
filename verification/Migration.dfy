/** Moving learning surfaces into stubs under `evals`, with backups
    (kaizen_components/migration_learning.py, markdown_exports.py).

    A path is its list of components. Only regular files are modelled; a directory matters through
    the files it holds, and through whether a root exists. */
module Migration {
  import opened Wrappers
  import opened Orders

  type Path = seq<string>

  const SURFACE_NAMES: seq<string> := ["GOTCHA.md", "LEARNED.md", "LEARNING.md"]
  const PRUNE_DIRS := {".git", ".agents", ".claude", "node_modules", ".venv", "__pycache__", "_src", "_corpus",
                       "_tmp", "AI", "evals"}

  // ---- stubs ---------------------------------------------------------------------------------------

  const SURFACE_PHRASE := "This file is a Kaizen command surface"
  const COMMAND_PHRASE := "python kaizen.py"

  predicate Contains(text: string, phrase: string) {
    exists k | 0 <= k <= |text| :: phrase <= text[k..]
  }

  predicate IsStub(text: string) {
    Contains(text, SURFACE_PHRASE) && Contains(text, COMMAND_PHRASE)
  }

  ghost predicate HasAt(text: string, phrase: string, k: nat) {
    k + |phrase| <= |text| && text[k..k + |phrase|] == phrase
  }

  /** A stub is what holds both phrases, wherever they stand. */
  lemma StubHolds(text: string)
    ensures IsStub(text) <==>
            (exists k: nat :: HasAt(text, SURFACE_PHRASE, k)) && (exists k: nat :: HasAt(text, COMMAND_PHRASE, k))
  {
    hide IsStub;
    assert IsStub(text) <==> Contains(text, SURFACE_PHRASE) && Contains(text, COMMAND_PHRASE) by {
      StubIsBoth(text);
    }
    ContainsAt(text, SURFACE_PHRASE);
    ContainsAt(text, COMMAND_PHRASE);
  }

  lemma StubIsBoth(text: string)
    ensures IsStub(text) <==> Contains(text, SURFACE_PHRASE) && Contains(text, COMMAND_PHRASE)
  {
    hide Contains;
  }

  lemma ContainsAt(text: string, phrase: string)
    ensures Contains(text, phrase) <==> exists k: nat :: HasAt(text, phrase, k)
  {
    if Contains(text, phrase) {
      var k :| 0 <= k <= |text| && phrase <= text[k..];
      assert HasAt(text, phrase, k);
    }
    if exists k: nat :: HasAt(text, phrase, k) {
      var k: nat :| HasAt(text, phrase, k);
      assert phrase <= text[k..];
    }
  }

  const MIDDLE := ", not the durable source of truth.\n\nUse the Kaizen data-plane CLI to write and inspect records:"
  const FENCE := "\n\n```powershell\n"
  const SEARCH := "\"search text\"\n"
  const CLOSING := "<record-id>\n```\n\nGenerated views or reports may be pasted below this stub when explicitly "

  function Glue(parts: seq<string>): string {
    if parts == [] then [] else parts[0] + Glue(parts[1..])
  }

  /** The template filled in for a record family: its name, then its list, query and inspect codes. */
  function Template(name: string, list: string, query: string, inspect: string): seq<string> {
    ["# ", name, "\n\n", SURFACE_PHRASE, MIDDLE, FENCE, COMMAND_PHRASE, " ", list, "\n", COMMAND_PHRASE, " ", query,
     " --query ", SEARCH, COMMAND_PHRASE, " ", inspect, " --id ", CLOSING, "requested.\n"]
  }

  function StubFor(name: string): string {
    Glue(if name == "GOTCHA.md" then Template("GOTCHA", "G2", "G3", "G4")
         else if name == "LEARNING.md" then Template("LEARNING", "L4", "L5", "L6")
         else Template("LEARNED", "L7", "L8", "L9"))
  }

  lemma {:induction false} GlueContains(parts: seq<string>, k: nat)
    requires k < |parts|
    ensures Contains(Glue(parts), parts[k])
  {
    if k == 0 {
      assert Glue(parts)[0..] == parts[0] + Glue(parts[1..]);
    } else {
      GlueContains(parts[1..], k - 1);
      var rest := Glue(parts[1..]);
      var j :| 0 <= j <= |rest| && parts[k] <= rest[j..];
      assert Glue(parts)[|parts[0]| + j..] == rest[j..];
    }
  }

  lemma TemplateIsStub(name: string, list: string, query: string, inspect: string)
    ensures IsStub(Glue(Template(name, list, query, inspect)))
  {
    var parts := Template(name, list, query, inspect);
    assert parts[3] == SURFACE_PHRASE && parts[6] == COMMAND_PHRASE;
    hide Template, Glue, Contains;
    GlueContains(parts, 3);
    GlueContains(parts, 6);
  }

  /** Every stub the migration writes is one it recognises. */
  lemma StubsAreStubs(name: string)
    ensures IsStub(StubFor(name))
  {
    TemplateIsStub("GOTCHA", "G2", "G3", "G4");
    TemplateIsStub("LEARNING", "L4", "L5", "L6");
    TemplateIsStub("LEARNED", "L7", "L8", "L9");
    hide Template, Glue;
  }

  /** The text is headed by the name and gives the three commands with their codes. */
  ghost predicate Announces(text: string, name: string, list: string, query: string, inspect: string) {
    && Glue(["# ", name, "\n\n"]) <= text
    && Contains(text, Glue([COMMAND_PHRASE, " ", list, "\n"]))
    && Contains(text, Glue([COMMAND_PHRASE, " ", query, " --query "]))
    && Contains(text, Glue([COMMAND_PHRASE, " ", inspect, " --id "]))
  }

  /** A stub for the surface of this name speaks of its own record family. */
  ghost predicate OwnFamily(name: string, text: string) {
    && (name == "GOTCHA.md" ==> Announces(text, "GOTCHA", "G2", "G3", "G4"))
    && (name == "LEARNING.md" ==> Announces(text, "LEARNING", "L4", "L5", "L6"))
    && (name == "LEARNED.md" ==> Announces(text, "LEARNED", "L7", "L8", "L9"))
  }

  lemma {:induction false} GlueJoined(a: seq<string>, b: seq<string>)
    ensures Glue(a + b) == Glue(a) + Glue(b)
  {
    if a == [] {
      assert a + b == b;
    } else {
      JoinedTail(a, b);
      GlueJoined(a[1..], b);
      Regroup(a[0], Glue(a[1..]), Glue(b));
    }
  }

  lemma GlueRun(parts: seq<string>, i: nat, j: nat)
    requires i <= j <= |parts|
    ensures Contains(Glue(parts), Glue(parts[i..j]))
    ensures i == 0 ==> Glue(parts[i..j]) <= Glue(parts)
  {
    hide Glue, Contains;
    var before, run, after := parts[..i], parts[i..j], parts[j..];
    CutTwice(parts, i, j);
    GlueJoined(before, run + after);
    GlueJoined(run, after);
    HoldsMiddle(Glue(before), Glue(run), Glue(after));
    if i == 0 {
      NothingGlued();
    }
  }

  lemma CutTwice<T>(s: seq<T>, i: nat, j: nat)
    requires i <= j <= |s|
    ensures s == s[..i] + (s[i..j] + s[j..])
  {
  }

  lemma HoldsMiddle(before: string, middle: string, after: string)
    ensures Contains(before + (middle + after), middle)
    ensures before == [] ==> middle <= before + (middle + after)
  {
    assert (before + (middle + after))[|before|..] == middle + after;
  }

  lemma NothingGlued()
    ensures forall parts: seq<string> | |parts| == 0 :: Glue(parts) == []
  {
  }

  lemma TemplateAnnounces(name: string, list: string, query: string, inspect: string)
    ensures Announces(Glue(Template(name, list, query, inspect)), name, list, query, inspect)
  {
    hide Glue, Contains;
    var parts := Template(name, list, query, inspect);
    assert parts[0..3] == ["# ", name, "\n\n"] && parts[6..10] == [COMMAND_PHRASE, " ", list, "\n"];
    assert parts[10..14] == [COMMAND_PHRASE, " ", query, " --query "];
    assert parts[15..19] == [COMMAND_PHRASE, " ", inspect, " --id "];
    hide Template;
    GlueRun(parts, 0, 3);
    GlueRun(parts, 6, 10);
    GlueRun(parts, 10, 14);
    GlueRun(parts, 15, 19);
  }

  /** Each stub announces its own family. */
  lemma StubsOfFamily(name: string)
    requires name in SURFACE_NAMES
    ensures OwnFamily(name, StubFor(name))
  {
    TemplateAnnounces("GOTCHA", "G2", "G3", "G4");
    TemplateAnnounces("LEARNING", "L4", "L5", "L6");
    TemplateAnnounces("LEARNED", "L7", "L8", "L9");
    NamesDiffer();
    hide Template, Glue, Announces;
  }

  lemma NamesDiffer()
    ensures "GOTCHA.md" != "LEARNED.md" && "GOTCHA.md" != "LEARNING.md" && "LEARNED.md" != "LEARNING.md"
  {
    assert |"GOTCHA.md"| == 9 && |"LEARNED.md"| == 10 && |"LEARNING.md"| == 11;
  }

  // ---- where surfaces live -------------------------------------------------------------------------

  /** One surface of one directory. */
  datatype Slot = Slot(dir: Path, name: string)

  function Target(s: Slot): Path {
    s.dir + ["evals", s.name]
  }

  function OldSibling(s: Slot): Path {
    s.dir + [s.name]
  }

  function Parent(p: Path): Path {
    if p == [] then [] else p[..|p| - 1]
  }

  /** The walk from `root` reaches `dir`: no component below the root is pruned. */
  predicate Walked(root: Path, dir: Path) {
    root <= dir && forall k | |root| <= k < |dir| :: dir[k] !in PRUNE_DIRS
  }

  /** The file marks its directory as a target. */
  predicate Marks(file: Path) {
    file != [] && (file[|file| - 1] in SURFACE_NAMES || file[|file| - 1] == "SKILL.md")
  }

  ghost predicate IsTargetDir(files: map<Path, string>, root: Path, dir: Path) {
    dir == root || (Walked(root, dir) && exists f :: f in files && Marks(f) && Parent(f) == dir)
  }

  /** Paths sort as their strings do. */
  function Shown(p: Path): string {
    if p == [] then [] else "/" + p[0] + Shown(p[1..])
  }

  predicate PathLe(a: Path, b: Path) {
    LexLe(Shown(a), Shown(b))
  }

  /** The walk starts at the root, and goes on into whatever directory is not pruned. */
  lemma WalkGoesOn(root: Path, dir: Path, name: string)
    requires root <= dir
    ensures Walked(root, root)
    ensures Walked(root, dir + [name]) <==> Walked(root, dir) && name !in PRUNE_DIRS
  {
    var next := dir + [name];
    assert next[|dir|] == name;
    if Walked(root, next) {
      forall k | |root| <= k < |dir|
        ensures dir[k] !in PRUNE_DIRS
      {
        assert dir[k] == next[k];
      }
    }
  }

  /** What marks a directory is a file in it of one of four names. */
  lemma MarkOf(dir: Path, name: string)
    ensures Parent(dir + [name]) == dir && !Marks([])
    ensures Marks(dir + [name]) <==> name in {"GOTCHA.md", "LEARNING.md", "LEARNED.md", "SKILL.md"}
  {
    hide Parent;
    assert Parent(dir + [name]) == dir by {
      ParentOf(dir, name);
    }
  }

  lemma ParentOf(dir: Path, name: string)
    ensures Parent(dir + [name]) == dir
  {
  }

  /** A path reads as its components, each behind a slash. */
  lemma {:induction false} ShownEnds(p: Path, name: string)
    ensures Shown([]) == [] && Shown(p + [name]) == Shown(p) + ("/" + name)
  {
    if p != [] {
      ShownEnds(p[1..], name);
      assert (p + [name])[1..] == p[1..] + [name];
    }
  }

  ghost predicate ListsTargetDirs(files: map<Path, string>, root: Path, dirs: seq<Path>) {
    && NoRepeats(dirs) && SortedBy(PathLe, dirs)
    && forall d :: d in dirs <==> IsTargetDir(files, root, d)
  }

  lemma PathOrder()
    ensures Total(PathLe) && Transitive(PathLe)
  {
    forall a: Path, b: Path
      ensures PathLe(a, b) || PathLe(b, a)
    {
      LexTotal(Shown(a), Shown(b));
    }
    forall a: Path, b: Path, c: Path | PathLe(a, b) && PathLe(b, c)
      ensures PathLe(a, c)
    {
      LexTransitive(Shown(a), Shown(b), Shown(c));
    }
  }

  lemma InsertNew(d: Path, dirs: seq<Path>)
    requires NoRepeats(dirs) && d !in dirs
    ensures NoRepeats(Insert(PathLe, d, dirs))
    ensures forall x :: x in Insert(PathLe, d, dirs) <==> x == d || x in dirs
  {
    hide PathLe;
    var all := Insert(PathLe, d, dirs);
    assert multiset(all) == multiset([d] + dirs);
    SameMembers(all, [d] + dirs);
    NoRepeatsStay([d] + dirs, all);
  }

  /** `target_dirs`: the walk visits the files in any order. */
  method TargetDirs(files: map<Path, string>, root: Path) returns (dirs: seq<Path>)
    ensures ListsTargetDirs(files, root, dirs)
  {
    PathOrder();
    hide PathLe, Shown;
    dirs := [root];
    var left := files.Keys;
    while left != {}
      invariant left <= files.Keys && NoRepeats(dirs) && SortedBy(PathLe, dirs)
      invariant forall d :: d in dirs <==>
          d == root || (Walked(root, d) && exists f :: f in files && f !in left && Marks(f) && Parent(f) == d)
      decreases left
    {
      var f :| f in left;
      left := left - {f};
      if Marks(f) && Walked(root, Parent(f)) && Parent(f) !in dirs {
        InsertNew(Parent(f), dirs);
        InsertKeepsSorted(PathLe, Parent(f), dirs);
        dirs := Insert(PathLe, Parent(f), dirs);
      }
    }
  }

  // ---- the listing every operation walks -----------------------------------------------------------

  type Files = map<Path, string>

  /** A stop of the walk: a root that does not exist, or one surface of one target directory. */
  datatype Place = Missing(root: Path) | At(slot: Slot)

  function SlotPlaces(dirs: seq<Path>): (places: seq<Place>)
    ensures |places| == 3 * |dirs|
  {
    seq(3 * |dirs|, k requires 0 <= k < 3 * |dirs| => At(Slot(dirs[k / 3], SURFACE_NAMES[k % 3])))
  }

  function Places(present: set<Path>, roots: seq<Path>, lists: seq<seq<Path>>): seq<Place>
    requires |lists| == |roots|
  {
    if roots == [] then []
    else
      var last := |roots| - 1;
      Places(present, roots[..last], lists[..last])
      + if roots[last] in present then SlotPlaces(lists[last]) else [Missing(roots[last])]
  }

  /** `lists[i]` holds the target directories of `roots[i]`. */
  ghost predicate Lists(files: Files, roots: seq<Path>, lists: seq<seq<Path>>) {
    && |lists| == |roots|
    && forall i | 0 <= i < |roots| :: ListsTargetDirs(files, roots[i], lists[i])
  }

  ghost predicate Listed(files: Files, present: set<Path>, roots: seq<Path>, s: Slot) {
    && s.name in SURFACE_NAMES
    && exists i | 0 <= i < |roots| :: roots[i] in present && IsTargetDir(files, roots[i], s.dir)
  }

  lemma SlotPlacesMembers(dirs: seq<Path>)
    ensures forall p :: p in SlotPlaces(dirs) <==> p.At? && p.slot.dir in dirs && p.slot.name in SURFACE_NAMES
  {
    forall d: Path, name | d in dirs && name in SURFACE_NAMES
      ensures At(Slot(d, name)) in SlotPlaces(dirs)
    {
      var i :| 0 <= i < |dirs| && dirs[i] == d;
      var k :| 0 <= k < 3 && SURFACE_NAMES[k] == name;
      assert (3 * i + k) / 3 == i && (3 * i + k) % 3 == k;
      assert SlotPlaces(dirs)[3 * i + k] == At(Slot(d, name));
    }
  }

  lemma {:induction false} PlacesMembers(files: Files, present: set<Path>, roots: seq<Path>, lists: seq<seq<Path>>)
    requires Lists(files, roots, lists)
    ensures forall p :: p in Places(present, roots, lists) <==>
        if p.Missing? then p.root in roots && p.root !in present else Listed(files, present, roots, p.slot)
  {
    if roots != [] {
      var last := |roots| - 1;
      PlacesMembers(files, present, roots[..last], lists[..last]);
      SlotPlacesMembers(lists[last]);
      assert roots == roots[..last] + [roots[last]];
      forall s
        ensures Listed(files, present, roots, s) <==>
            || Listed(files, present, roots[..last], s)
            || (roots[last] in present && At(s) in SlotPlaces(lists[last]))
      {
        hide IsTargetDir;
        assert ListsTargetDirs(files, roots[last], lists[last]);
        if Listed(files, present, roots, s) {
          var i :| 0 <= i < |roots| && roots[i] in present && IsTargetDir(files, roots[i], s.dir);
          assert i < last ==> roots[..last][i] == roots[i];
        }
      }
    }
  }

  // ---- the plan ------------------------------------------------------------------------------------

  datatype Kind = KeepStub | ReplaceStub | RemoveOldSibling | RelocateSibling | CreateStub

  datatype Action = Action(kind: Kind, slot: Slot)

  function PlanFor(files: Files, p: Place): seq<Action> {
    if p.Missing? then []
    else
      var target, sibling := Target(p.slot), OldSibling(p.slot);
      if target in files then
        [Action(if IsStub(files[target]) then KeepStub else ReplaceStub, p.slot)]
        + if sibling in files then [Action(RemoveOldSibling, p.slot)] else []
      else [Action(if sibling in files then RelocateSibling else CreateStub, p.slot)]
  }

  function Plan(files: Files, places: seq<Place>): seq<Action> {
    if places == [] then []
    else Plan(files, places[..|places| - 1]) + PlanFor(files, places[|places| - 1])
  }

  /** What each kind of action says about the files it was planned on. */
  predicate Due(files: Files, a: Action) {
    var target, sibling := Target(a.slot), OldSibling(a.slot);
    match a.kind
    case KeepStub => target in files && IsStub(files[target])
    case ReplaceStub => target in files && !IsStub(files[target])
    case RemoveOldSibling => target in files && sibling in files
    case RelocateSibling => target !in files && sibling in files
    case CreateStub => target !in files && sibling !in files
  }

  /** The plan holds every action due at a listed slot, and no other. */
  lemma {:induction false} PlanMeaning(files: Files, places: seq<Place>)
    ensures forall a :: a in Plan(files, places) <==> At(a.slot) in places && Due(files, a)
  {
    if places != [] {
      var last := |places| - 1;
      hide IsStub;
      PlanMeaning(files, places[..last]);
      assert places == places[..last] + [places[last]];
      forall a
        ensures a in PlanFor(files, places[last]) <==> At(a.slot) == places[last] && Due(files, a)
      {
      }
    }
  }

  lemma NoRepeatsJoined<T>(a: seq<T>, b: seq<T>)
    requires NoRepeats(a) && NoRepeats(b) && forall x | x in b :: x !in a
    ensures NoRepeats(a + b)
  {
    forall i, j | 0 <= i < j < |a + b|
      ensures (a + b)[i] != (a + b)[j]
    {
      if i < |a| <= j {
        assert b[j - |a|] in b && (a + b)[i] in a;
      }
    }
  }

  lemma {:induction false} PlanNoRepeats(files: Files, places: seq<Place>)
    requires NoRepeats(places)
    ensures NoRepeats(Plan(files, places))
  {
    hide IsStub, Due;
    if places != [] {
      var last := |places| - 1;
      PlanNoRepeats(files, places[..last]);
      PlanMeaning(files, places[..last]);
      assert places[last] !in places[..last];
      var these := PlanFor(files, places[last]);
      assert NoRepeats(these) && forall a | a in these :: At(a.slot) == places[last];
      NoRepeatsJoined(Plan(files, places[..last]), these);
    }
  }

  // ---- one action ----------------------------------------------------------------------------------

  datatype Backup = Backup(source: Path, content: string)

  datatype MigrationError = RootNotAllowlisted | MigrationTargetExists

  datatype State = State(files: Files, dirs: set<Path>, backups: seq<Backup>, changed: seq<Path>)

  /** The path and every directory above it. */
  function Ancestry(p: Path): set<Path> {
    set k | 0 <= k <= |p| :: p[..k]
  }

  predicate Allowed(allow: seq<Path>, p: Path) {
    exists r | r in allow :: r <= p
  }

  /** `apply` stops with a denial at this action. */
  predicate Refused(allow: seq<Path>, st: State, a: Action) {
    || !Allowed(allow, Target(a.slot)) || !Allowed(allow, OldSibling(a.slot))
    || (a.kind == RelocateSibling && Target(a.slot) in st.files)
  }

  function BackedUp(st: State, p: Path): seq<Backup> {
    if p in st.files then st.backups + [Backup(p, st.files[p])] else st.backups
  }

  /** The state after attempting one action, refused or not. */
  function Stepped(allow: seq<Path>, st: State, a: Action): State {
    hide StubFor, IsStub, Allowed;
    var target, sibling := Target(a.slot), OldSibling(a.slot);
    var made := st.(dirs := st.dirs + Ancestry(Parent(target)));
    var stub := StubFor(a.slot.name);
    if !Allowed(allow, target) || !Allowed(allow, sibling) then st
    else
      match a.kind
      case KeepStub => st
      case ReplaceStub =>
        if target in st.files && IsStub(st.files[target]) then st
        else made.(files := st.files[target := stub], backups := BackedUp(st, target), changed := st.changed + [target])
      case RemoveOldSibling =>
        if sibling !in st.files then st
        else st.(files := st.files - {sibling}, backups := BackedUp(st, sibling), changed := st.changed + [sibling])
      case RelocateSibling =>
        if target in st.files then made
        else
          var content := if sibling in st.files && IsStub(st.files[sibling]) then st.files[sibling] else stub;
          made.(files := st.files[target := content] - {sibling}, backups := BackedUp(st, sibling),
                changed := st.changed + [target])
      case CreateStub => made.(files := st.files[target := stub], changed := st.changed + [target])
  }

  /** A listed root and everything in it is allowed, and nothing else. */
  lemma AllowedMeaning(allow: seq<Path>, p: Path)
    ensures Allowed(allow, p) <==> exists r | r in allow :: exists rest: Path :: p == r + rest
  {
    if r :| r in allow && r <= p {
      assert p == r + p[|r|..];
    }
  }

  /** Outside the allowlist an action is refused and does nothing; inside, only a relocation is ever refused,
      and it leaves every file where it is. */
  lemma RefusalExact(allow: seq<Path>, st: State, a: Action)
    ensures var inside := Allowed(allow, Target(a.slot)) && Allowed(allow, OldSibling(a.slot));
      && (!inside ==> Refused(allow, st, a) && Stepped(allow, st, a) == st)
      && (inside ==> (Refused(allow, st, a) <==> a.kind == RelocateSibling && Target(a.slot) in st.files))
      && (Refused(allow, st, a) ==>
          var end := Stepped(allow, st, a);
          && end.files == st.files && end.backups == st.backups && end.changed == st.changed)
  {
    hide StubFor, IsStub, Allowed;
  }

  /** Repeated, an action does nothing more, unless it created the stub, or is refused as a relocation. */
  lemma RepeatedStep(allow: seq<Path>, st: State, a: Action)
    ensures var once := Stepped(allow, st, a);
      && (a.kind in {KeepStub, ReplaceStub, RemoveOldSibling} ==> Stepped(allow, once, a) == once)
      && (a.kind == RelocateSibling ==> Refused(allow, once, a))
      && Stepped(allow, once, a).files == once.files && Stepped(allow, once, a).backups == once.backups
  {
    StubsAreStubs(a.slot.name);
    hide StubFor, IsStub, Allowed;
  }

  function After(allow: seq<Path>, st: State, plan: seq<Action>, k: nat): State
    requires k <= |plan|
  {
    hide Stepped;
    if k == 0 then st else Stepped(allow, After(allow, st, plan, k - 1), plan[k - 1])
  }

  /** No action before the `k`-th is refused. */
  ghost predicate RunsTo(allow: seq<Path>, st: State, plan: seq<Action>, k: nat)
    requires k <= |plan|
  {
    forall j | 0 <= j < k :: !Refused(allow, After(allow, st, plan, j), plan[j])
  }

  // ---- the operations ------------------------------------------------------------------------------

  /** Surfaces of the missing or stale targets and the remaining old siblings, with the missing roots. */
  function Unmigrated(files: Files, places: seq<Place>): seq<Path> {
    if places == [] then []
    else
      var last := places[|places| - 1];
      Unmigrated(files, places[..|places| - 1]) +
      match last
      case Missing(root) => [root]
      case At(s) =>
        (if Target(s) in files && IsStub(files[Target(s)]) then [] else [Target(s)])
        + if OldSibling(s) in files then [OldSibling(s)] else []
  }

  class Disk {
    const allow: seq<Path>
    var files: Files
    var dirs: set<Path>
    var backups: seq<Backup>
    var changed: seq<Path>
    /** The run's manifest file, once it is written. */
    var manifest: Option<seq<Backup>>

    ghost function Now(): State
      reads this
    {
      State(files, dirs, backups, changed)
    }

    constructor (allow: seq<Path>, files: Files, dirs: set<Path>)
      ensures this.allow == allow && Now() == State(files, dirs, [], []) && manifest == None
    {
      this.allow := allow;
      this.files := files;
      this.dirs := dirs;
      this.backups := [];
      this.changed := [];
      this.manifest := None;
    }

    /** The roots asked for, or the repository's own; every one must lie in the allowlist. */
    method Roots(asked: seq<Path>, repo: Path) returns (r: Result<seq<Path>, MigrationError>)
      ensures r.Ok? <==> forall p | p in (if asked == [] then [repo] else asked) :: Allowed(allow, p)
      ensures r.Ok? ==> r.value == if asked == [] then [repo] else asked
      ensures r.Denied? ==> r.error == RootNotAllowlisted
    {
      var roots := if asked == [] then [repo] else asked;
      for i := 0 to |roots|
        invariant forall p | p in roots[..i] :: Allowed(allow, p)
      {
        if !Allowed(allow, roots[i]) {
          assert roots[i] in roots;
          return Denied(RootNotAllowlisted);
        }
      }
      return Ok(roots);
    }

    /** Walk the roots as `dry_run` and `verify` both do. */
    method Walk(roots: seq<Path>) returns (places: seq<Place>, ghost lists: seq<seq<Path>>)
      ensures Lists(files, roots, lists) && places == Places(dirs, roots, lists)
    {
      places, lists := [], [];
      for i := 0 to |roots|
        invariant |lists| == i && Lists(files, roots[..i], lists)
        invariant places == Places(dirs, roots[..i], lists)
      {
        ghost var before, above := places, lists;
        var found := TargetDirs(files, roots[i]);
        lists := lists + [found];
        if roots[i] in dirs {
          var here: seq<Place> := [];
          for d := 0 to |found|
            invariant here == SlotPlaces(found[..d])
          {
            here := here + [At(Slot(found[d], SURFACE_NAMES[0])), At(Slot(found[d], SURFACE_NAMES[1])),
              At(Slot(found[d], SURFACE_NAMES[2]))];
          }
          assert found[..|found|] == found;
          places := places + here;
        } else {
          places := places + [Missing(roots[i])];
        }
        assert roots[..i + 1][..i] == roots[..i] && lists[..i] == above;
      }
      assert roots[..|roots|] == roots;
    }

    /** `dry_run`. */
    method DryRun(roots: seq<Path>) returns (plan: seq<Action>, ghost lists: seq<seq<Path>>)
      ensures Lists(files, roots, lists) && plan == Plan(files, Places(dirs, roots, lists))
    {
      var places;
      places, lists := Walk(roots);
      plan := [];
      for i := 0 to |places|
        invariant plan == Plan(files, places[..i])
      {
        plan := plan + PlanFor(files, places[i]);
        assert places[..i + 1][..i] == places[..i];
      }
      assert places[..|places|] == places;
    }

    method BackUp(p: Path)
      modifies this`backups
      ensures backups == BackedUp(old(Now()), p)
    {
      if p in files {
        backups := backups + [Backup(p, files[p])];
      }
    }

    /** One turn of `apply`'s loop. */
    method Perform(a: Action) returns (denial: Option<MigrationError>)
      modifies this`files, this`dirs, this`backups, this`changed
      ensures denial.Some? == Refused(allow, old(Now()), a)
      ensures Now() == Stepped(allow, old(Now()), a)
    {
      hide IsStub, StubFor, Allowed;
      var target, sibling := Target(a.slot), OldSibling(a.slot);
      if !Allowed(allow, target) || !Allowed(allow, sibling) {
        return Some(RootNotAllowlisted);
      }
      match a.kind {
      case KeepStub =>
      case ReplaceStub =>
        if !(target in files && IsStub(files[target])) {
          BackUp(target);
          dirs := dirs + Ancestry(Parent(target));
          files := files[target := StubFor(a.slot.name)];
          changed := changed + [target];
        }
      case RemoveOldSibling =>
        if sibling in files {
          BackUp(sibling);
          files := files - {sibling};
          changed := changed + [sibling];
        }
      case RelocateSibling =>
        dirs := dirs + Ancestry(Parent(target));
        if target in files {
          return Some(MigrationTargetExists);
        }
        if sibling in files {
          BackUp(sibling);
          if IsStub(files[sibling]) {
            files := files[target := files[sibling]] - {sibling};
          } else {
            files := files[target := StubFor(a.slot.name)];
            files := files - {sibling};
          }
        } else {
          files := files[target := StubFor(a.slot.name)];
        }
        changed := changed + [target];
      case CreateStub =>
        dirs := dirs + Ancestry(Parent(target));
        files := files[target := StubFor(a.slot.name)];
        changed := changed + [target];
      }
      return None;
    }

    /** `apply`: plan, then carry out the plan. The manifest is written after the last action, if anything
        was backed up; a denial leaves the loop before that. */
    method Apply(roots: seq<Path>)
      returns (plan: seq<Action>, done: nat, denial: Option<MigrationError>, ghost lists: seq<seq<Path>>)
      modifies this
      ensures Lists(old(files), roots, lists) && plan == Plan(old(files), Places(old(dirs), roots, lists))
      ensures var start := old(Now()).(backups := [], changed := []);
        && done <= |plan| && RunsTo(allow, start, plan, done)
        && (denial.None? ==>
            && done == |plan| && Now() == After(allow, start, plan, |plan|)
            && manifest == if backups == [] then None else Some(backups))
        && (denial.Some? ==>
            && done < |plan| && Refused(allow, After(allow, start, plan, done), plan[done])
            && Now() == After(allow, start, plan, done + 1) && manifest == None)
    {
      hide Refused, Stepped, Plan, Places;
      plan, lists := DryRun(roots);
      backups, changed, manifest := [], [], None;
      ghost var start := Now();
      done := 0;
      while done < |plan|
        invariant done <= |plan| && RunsTo(allow, start, plan, done)
        invariant Now() == After(allow, start, plan, done) && manifest == None
      {
        denial := Perform(plan[done]);
        if denial.Some? {
          return;
        }
        done := done + 1;
      }
      if backups != [] {
        manifest := Some(backups);
      }
      denial := None;
    }

    /** `verify`: the reported paths. */
    method Verify(roots: seq<Path>) returns (bad: seq<Path>, ghost lists: seq<seq<Path>>)
      ensures Lists(files, roots, lists) && bad == Unmigrated(files, Places(dirs, roots, lists))
    {
      var places;
      places, lists := Walk(roots);
      bad := [];
      for i := 0 to |places|
        invariant bad == Unmigrated(files, places[..i])
      {
        assert places[..i + 1][..i] == places[..i];
        match places[i]
        case Missing(root) =>
          bad := bad + [root];
        case At(s) =>
          if !(Target(s) in files && IsStub(files[Target(s)])) {
            bad := bad + [Target(s)];
          }
          if OldSibling(s) in files {
            bad := bad + [OldSibling(s)];
          }
      }
      assert places[..|places|] == places;
    }
  }

  // ---- nothing is lost -----------------------------------------------------------------------------

  /** Every original file still has its content, or its content is in the backups. */
  ghost predicate NothingLost(was: Files, st: State) {
    forall p | p in was :: (p in st.files && st.files[p] == was[p]) || Backup(p, was[p]) in st.backups
  }

  /** A path that was absent is present exactly where an action has written it. */
  ghost predicate Written(was: Files, st: State, plan: seq<Action>, k: nat)
    requires k <= |plan|
  {
    forall p | p !in was :: p in st.files <==>
        exists j | 0 <= j < k :: Writes(plan[j], p)
  }

  lemma StepLosesNothing(allow: seq<Path>, was: Files, st: State, a: Action)
    requires NothingLost(was, st) && Due(was, a)
    ensures NothingLost(was, Stepped(allow, st, a))
  {
    hide IsStub, StubFor, Allowed;
    var next := Stepped(allow, st, a);
    forall p | p in was
      ensures (p in next.files && next.files[p] == was[p]) || Backup(p, was[p]) in next.backups
    {
      assert st.backups <= next.backups;
    }
  }

  /** In every run over every list of roots, denied or not. */
  lemma {:induction false} MigrationLosesNothing(allow: seq<Path>, st: State, places: seq<Place>, k: nat)
    requires k <= |Plan(st.files, places)|
    ensures NothingLost(st.files, After(allow, st, Plan(st.files, places), k))
  {
    hide IsStub, StubFor, Stepped, NothingLost, Due, Plan;
    if k == 0 {
      NothingLostYet(st);
    } else {
      var plan := Plan(st.files, places);
      MigrationLosesNothing(allow, st, places, k - 1);
      PlanMeaning(st.files, places);
      assert plan[k - 1] in plan;
      StepLosesNothing(allow, st.files, After(allow, st, plan, k - 1), plan[k - 1]);
    }
  }

  lemma NothingLostYet(st: State)
    ensures NothingLost(st.files, st)
  {
  }

  // ---- when it is denied ---------------------------------------------------------------------------

  lemma TargetInjective(s: Slot, t: Slot)
    ensures Target(s) == Target(t) <==> s == t
    ensures OldSibling(s) == OldSibling(t) <==> s == t
  {
    if Target(s) == Target(t) {
      assert Target(s)[..|s.dir|] == s.dir && Target(t)[..|t.dir|] == t.dir;
      assert Target(s)[|s.dir| + 1] == s.name && Target(t)[|t.dir| + 1] == t.name;
    }
    if OldSibling(s) == OldSibling(t) {
      assert OldSibling(s)[..|s.dir|] == s.dir && OldSibling(t)[..|t.dir|] == t.dir;
      assert OldSibling(s)[|s.dir|] == s.name && OldSibling(t)[|t.dir|] == t.name;
    }
  }

  predicate Writes(a: Action, p: Path) {
    a.kind in {RelocateSibling, CreateStub} && Target(a.slot) == p
  }

  lemma StepWrites(allow: seq<Path>, was: Files, st: State, a: Action)
    requires Due(was, a) && !Refused(allow, st, a)
    ensures forall p | p !in was :: p in Stepped(allow, st, a).files <==> p in st.files || Writes(a, p)
  {
    hide IsStub, StubFor, Allowed;
  }

  lemma {:induction false} WrittenSoFar(allow: seq<Path>, st: State, plan: seq<Action>, k: nat)
    requires k <= |plan| && forall a | a in plan :: Due(st.files, a)
    requires RunsTo(allow, st, plan, k)
    ensures Written(st.files, After(allow, st, plan, k), plan, k)
  {
    hide IsStub, StubFor, Allowed, Stepped, Refused, Due, Writes;
    if k > 0 {
      WrittenSoFar(allow, st, plan, k - 1);
      assert plan[k - 1] in plan;
      StepWrites(allow, st.files, After(allow, st, plan, k - 1), plan[k - 1]);
    }
  }

  ghost predicate RelocatedTwice(plan: seq<Action>) {
    exists i, j | 0 <= i < j < |plan| :: plan[i] == plan[j] && plan[j].kind == RelocateSibling
  }

  ghost predicate AllAllowed(allow: seq<Path>, places: seq<Place>) {
    forall p | p in places && p.At? :: Allowed(allow, OldSibling(p.slot)) && Allowed(allow, Target(p.slot))
  }

  lemma SlotsAllowed(allow: seq<Path>, files: Files, present: set<Path>, roots: seq<Path>, lists: seq<seq<Path>>)
    requires Lists(files, roots, lists) && forall r | r in roots :: Allowed(allow, r)
    ensures AllAllowed(allow, Places(present, roots, lists))
  {
    PlacesMembers(files, present, roots, lists);
    forall p | p in Places(present, roots, lists) && p.At?
      ensures Allowed(allow, OldSibling(p.slot)) && Allowed(allow, Target(p.slot))
    {
      assert Listed(files, present, roots, p.slot);
      var i :| 0 <= i < |roots| && IsTargetDir(files, roots[i], p.slot.dir);
      assert Allowed(allow, roots[i]);
      var r :| r in allow && r <= roots[i];
      assert r <= OldSibling(p.slot) && r <= Target(p.slot);
    }
  }

  lemma RefusedAt(allow: seq<Path>, st: State, plan: seq<Action>, k: nat)
    requires k < |plan| && (forall a | a in plan :: Due(st.files, a)) && RunsTo(allow, st, plan, k)
    requires Allowed(allow, Target(plan[k].slot)) && Allowed(allow, OldSibling(plan[k].slot))
    ensures Refused(allow, After(allow, st, plan, k), plan[k]) <==>
        plan[k].kind == RelocateSibling && exists j | 0 <= j < k :: plan[j] == plan[k]
  {
    hide IsStub, StubFor, Allowed, RunsTo, After;
    WrittenSoFar(allow, st, plan, k);
    var target := Target(plan[k].slot);
    assert plan[k] in plan;
    if plan[k].kind == RelocateSibling {
      if target in After(allow, st, plan, k).files {
        var j :| 0 <= j < k && Writes(plan[j], target);
        TargetInjective(plan[j].slot, plan[k].slot);
        assert plan[j] in plan;
        assert plan[j] == plan[k];
      }
    }
  }

  /** `apply` on allowed roots is denied exactly when its plan relocates one sibling twice. */
  lemma DeniedIffRelocatedTwice(allow: seq<Path>, st: State, places: seq<Place>)
    requires AllAllowed(allow, places)
    ensures var plan := Plan(st.files, places); RunsTo(allow, st, plan, |plan|) <==> !RelocatedTwice(plan)
  {
    hide IsStub, StubFor, Allowed, Due, Stepped, Refused, After, Plan;
    var plan := Plan(st.files, places);
    PlanMeaning(st.files, places);
    forall k | 0 <= k < |plan|
      ensures Allowed(allow, Target(plan[k].slot)) && Allowed(allow, OldSibling(plan[k].slot))
    {
      assert plan[k] in plan;
    }
    if RunsTo(allow, st, plan, |plan|) {
      forall i, j | 0 <= i < j < |plan| && plan[i] == plan[j]
        ensures plan[j].kind != RelocateSibling
      {
        assert RunsTo(allow, st, plan, j);
        RefusedAt(allow, st, plan, j);
      }
    } else if !RelocatedTwice(plan) {
      RunsThrough(allow, st, plan, |plan|);
    }
  }

  lemma {:induction false} RunsThrough(allow: seq<Path>, st: State, plan: seq<Action>, k: nat)
    requires k <= |plan| && (forall a | a in plan :: Due(st.files, a)) && !RelocatedTwice(plan)
    requires forall a | a in plan :: Allowed(allow, Target(a.slot)) && Allowed(allow, OldSibling(a.slot))
    ensures RunsTo(allow, st, plan, k)
  {
    hide IsStub, StubFor, Allowed, Due, Stepped, Refused, After;
    if k > 0 {
      RunsThrough(allow, st, plan, k - 1);
      assert plan[k - 1] in plan;
      RefusedAt(allow, st, plan, k - 1);
    }
  }

  // ---- where it ends -------------------------------------------------------------------------------

  /** No listed slot's target is another's old sibling. */
  ghost predicate Separate(places: seq<Place>) {
    forall p, q | p in places && q in places && p.At? && q.At? :: Target(p.slot) != OldSibling(q.slot)
  }

  /** What a target holds in the end: the stub it held, the stub moved to it, or a fresh one. */
  function Expected(was: Files, s: Slot): string {
    hide IsStub, StubFor;
    var target, sibling := Target(s), OldSibling(s);
    if target in was then (if IsStub(was[target]) then was[target] else StubFor(s.name))
    else if sibling in was && IsStub(was[sibling]) then was[sibling]
    else StubFor(s.name)
  }

  lemma ExpectedIsStub(was: Files, s: Slot)
    ensures IsStub(Expected(was, s))
  {
    StubsAreStubs(s.name);
    hide IsStub, StubFor;
  }

  /** What holds at a listed slot at every moment of the run. */
  ghost predicate OnCourseAt(was: Files, st: State, s: Slot) {
    hide Expected;
    var target, sibling := Target(s), OldSibling(s);
    && (target in was ==> target in st.files)
    && (target in st.files ==> st.files[target] == Expected(was, s) || (target in was && st.files[target] == was[target]))
    && (sibling in st.files ==> sibling in was && st.files[sibling] == was[sibling])
    && (sibling in was && sibling !in st.files ==> target in st.files)
  }

  ghost predicate OnCourse(was: Files, st: State, places: seq<Place>) {
    forall p | p in places && p.At? :: OnCourseAt(was, st, p.slot)
  }

  /** The lasting effect of an action. */
  ghost predicate Effected(was: Files, st: State, a: Action) {
    hide Expected;
    var target, sibling := Target(a.slot), OldSibling(a.slot);
    if a.kind == RemoveOldSibling then sibling !in st.files
    else
      && target in st.files && st.files[target] == Expected(was, a.slot)
      && (a.kind == RelocateSibling ==> sibling !in st.files)
  }

  /** Slots that are not one another's target and old sibling. */
  predicate Distinct(s: Slot, t: Slot) {
    && Target(s) != OldSibling(t) && Target(t) != OldSibling(s)
    && (s != t ==> Target(s) != Target(t) && OldSibling(s) != OldSibling(t))
  }

  lemma SeparateDistinct(places: seq<Place>, s: Slot, t: Slot)
    requires Separate(places) && At(s) in places && At(t) in places
    ensures Distinct(s, t) && Distinct(s, s)
  {
    TargetInjective(s, t);
    assert At(s).At? && At(t).At?;
  }

  lemma StepAt(allow: seq<Path>, was: Files, st: State, a: Action, s: Slot)
    requires OnCourseAt(was, st, s) && OnCourseAt(was, st, a.slot) && Distinct(a.slot, s) && Distinct(s, s)
    requires Due(was, a) && !Refused(allow, st, a)
    ensures OnCourseAt(was, Stepped(allow, st, a), s)
    ensures a.slot == s ==> Effected(was, Stepped(allow, st, a), a)
  {
    ExpectedIsStub(was, a.slot);
    hide IsStub, StubFor, Allowed;
  }

  lemma EffectLasts(allow: seq<Path>, was: Files, st: State, a: Action, b: Action)
    requires Effected(was, st, a) && Distinct(a.slot, b.slot) && OnCourseAt(was, st, a.slot)
    requires Due(was, a) && Due(was, b) && !Refused(allow, st, b)
    ensures Effected(was, Stepped(allow, st, b), a)
  {
    ExpectedIsStub(was, a.slot);
    hide IsStub, StubFor, Allowed;
  }

  ghost predicate EffectsTo(allow: seq<Path>, st: State, places: seq<Place>, plan: seq<Action>, k: nat)
    requires k <= |plan|
  {
    var now := After(allow, st, plan, k);
    OnCourse(st.files, now, places) && forall j | 0 <= j < k :: Effected(st.files, now, plan[j])
  }

  lemma {:induction false} EffectsSoFar(allow: seq<Path>, st: State, places: seq<Place>, plan: seq<Action>, k: nat)
    requires k <= |plan| && RunsTo(allow, st, plan, k) && Separate(places)
    requires forall a | a in plan :: At(a.slot) in places && Due(st.files, a)
    ensures EffectsTo(allow, st, places, plan, k)
  {
    hide IsStub, StubFor, Allowed, Refused, Stepped, Effected, Separate, Due, OnCourseAt;
    if k == 0 {
      StartsOnCourse(st, places);
    } else {
      EffectsSoFar(allow, st, places, plan, k - 1);
      var before, b := After(allow, st, plan, k - 1), plan[k - 1];
      assert b in plan && At(b.slot).At?;
      forall p | p in places && p.At?
        ensures OnCourseAt(st.files, Stepped(allow, before, b), p.slot)
      {
        SeparateDistinct(places, b.slot, p.slot);
        SeparateDistinct(places, p.slot, p.slot);
        StepAt(allow, st.files, before, b, p.slot);
      }
      SeparateDistinct(places, b.slot, b.slot);
      StepAt(allow, st.files, before, b, b.slot);
      forall j | 0 <= j < k - 1
        ensures Effected(st.files, Stepped(allow, before, b), plan[j])
      {
        assert plan[j] in plan && At(plan[j].slot).At?;
        SeparateDistinct(places, plan[j].slot, b.slot);
        EffectLasts(allow, st.files, before, plan[j], b);
      }
    }
  }

  lemma StartsOnCourse(st: State, places: seq<Place>)
    ensures OnCourse(st.files, st, places)
  {
    hide IsStub, StubFor;
  }

  /** Every listed slot holds its stub and no old sibling. */
  ghost predicate Settled(was: Files, files: Files, places: seq<Place>) {
    forall p | p in places && p.At? ::
      && Target(p.slot) in files && files[Target(p.slot)] == Expected(was, p.slot)
      && OldSibling(p.slot) !in files
  }

  lemma RunSettles(allow: seq<Path>, st: State, places: seq<Place>)
    requires Separate(places)
    requires RunsTo(allow, st, Plan(st.files, places), |Plan(st.files, places)|)
    ensures var plan := Plan(st.files, places); Settled(st.files, After(allow, st, plan, |plan|).files, places)
    ensures var plan := Plan(st.files, places); FamiliesRight(st.files, After(allow, st, plan, |plan|).files, places)
  {
    hide IsStub, StubFor, Expected, After, Plan, RunsTo, Separate;
    var plan := Plan(st.files, places);
    PlanMeaning(st.files, places);
    EffectsSoFar(allow, st, places, plan, |plan|);
    var end := After(allow, st, plan, |plan|);
    forall p | p in places && p.At?
      ensures Target(p.slot) in end.files && end.files[Target(p.slot)] == Expected(st.files, p.slot)
      ensures OldSibling(p.slot) !in end.files
    {
      SlotSettles(st.files, end, plan, p.slot);
    }
    SettledFamilies(st.files, end.files, places);
  }

  /** The stub that a slot's target ends with if it was there before: on the target, else on the sibling. */
  ghost function HadStub(was: Files, s: Slot): Option<string> {
    var target, sibling := Target(s), OldSibling(s);
    if target in was then (if IsStub(was[target]) then Some(was[target]) else None)
    else if sibling in was && IsStub(was[sibling]) then Some(was[sibling])
    else None
  }

  /** A target keeps the stub its slot had, and is else a stub of the slot's own family. */
  ghost predicate FamiliesRight(was: Files, files: Files, places: seq<Place>) {
    forall p | p in places && p.At? ::
      && Target(p.slot) in files && IsStub(files[Target(p.slot)])
      && match HadStub(was, p.slot)
         case Some(text) => files[Target(p.slot)] == text
         case None => p.slot.name in SURFACE_NAMES ==> OwnFamily(p.slot.name, files[Target(p.slot)])
  }

  lemma SettledFamilies(was: Files, files: Files, places: seq<Place>)
    requires Settled(was, files, places)
    ensures FamiliesRight(was, files, places)
  {
    hide IsStub, StubFor, OwnFamily;
    forall p | p in places && p.At?
      ensures p.slot.name in SURFACE_NAMES ==> OwnFamily(p.slot.name, StubFor(p.slot.name))
      ensures IsStub(Expected(was, p.slot))
    {
      ExpectedIsStub(was, p.slot);
      if p.slot.name in SURFACE_NAMES {
        StubsOfFamily(p.slot.name);
      }
    }
  }

  lemma SlotSettles(was: Files, end: State, plan: seq<Action>, s: Slot)
    requires forall a: Action | a.slot == s && Due(was, a) :: a in plan
    requires (forall a | a in plan :: Effected(was, end, a)) && OnCourseAt(was, end, s)
    ensures Target(s) in end.files && end.files[Target(s)] == Expected(was, s) && OldSibling(s) !in end.files
  {
    hide IsStub, StubFor, Expected;
    var target, sibling := Target(s), OldSibling(s);
    if target in was {
      var a := Action(if IsStub(was[target]) then KeepStub else ReplaceStub, s);
      assert Due(was, a) && a in plan;
      if sibling in was {
        assert Due(was, Action(RemoveOldSibling, s)) && Action(RemoveOldSibling, s) in plan;
      }
    } else {
      var a := Action(if sibling in was then RelocateSibling else CreateStub, s);
      assert Due(was, a) && a in plan;
    }
  }

  // ---- what it leaves alone ------------------------------------------------------------------------

  ghost predicate Surface(places: seq<Place>, p: Path) {
    exists q | q in places :: q.At? && (p == Target(q.slot) || p == OldSibling(q.slot))
  }

  ghost predicate Untouched(st: State, now: State, places: seq<Place>) {
    && (forall p | !Surface(places, p) :: (p in now.files <==> p in st.files)
          && (p in st.files ==> now.files[p] == st.files[p]))
    && st.dirs <= now.dirs
    && forall d | d in now.dirs && d !in st.dirs :: exists q | q in places :: q.At? && d <= Parent(Target(q.slot))
  }

  lemma StepUntouched(allow: seq<Path>, st: State, a: Action)
    ensures Untouched(st, Stepped(allow, st, a), [At(a.slot)])
  {
    hide IsStub, StubFor, Allowed;
    assert At(a.slot) in [At(a.slot)];
  }

  /** Only listed targets and old siblings change; only directories above targets appear. */
  lemma {:induction false} OthersUntouched(allow: seq<Path>, st: State, places: seq<Place>, plan: seq<Action>, k: nat)
    requires k <= |plan| && forall a | a in plan :: At(a.slot) in places
    ensures Untouched(st, After(allow, st, plan, k), places)
  {
    hide Stepped, IsStub, StubFor;
    if k > 0 {
      OthersUntouched(allow, st, places, plan, k - 1);
      assert plan[k - 1] in plan;
      StepUntouched(allow, After(allow, st, plan, k - 1), plan[k - 1]);
    }
  }

  // ---- what it reports -----------------------------------------------------------------------------

  /** The path reads differently now. */
  ghost predicate Differs(was: Files, now: Files, p: Path) {
    !(p in was <==> p in now) || (p in was && p in now && was[p] != now[p])
  }

  /** Every path that differs is reported, a relocated sibling through its target; and only targets and old
      siblings of planned slots are. */
  ghost predicate Reported(st: State, now: State, plan: seq<Action>) {
    && st.changed <= now.changed
    && (forall p | Differs(st.files, now.files, p) ::
          || p in now.changed
          || exists a | a in plan :: a.kind == RelocateSibling && p == OldSibling(a.slot) && Target(a.slot) in now.changed)
    && forall p | p in now.changed && p !in st.changed ::
         exists a | a in plan :: p == Target(a.slot) || p == OldSibling(a.slot)
  }

  lemma StepReported(allow: seq<Path>, st: State, a: Action)
    ensures Reported(st, Stepped(allow, st, a), [a])
  {
    hide IsStub, StubFor, Allowed;
    assert a in [a];
  }

  lemma {:induction false} ChangesReported(allow: seq<Path>, st: State, plan: seq<Action>, k: nat)
    requires k <= |plan|
    ensures Reported(st, After(allow, st, plan, k), plan)
  {
    hide Stepped;
    if k > 0 {
      var before, a := After(allow, st, plan, k - 1), plan[k - 1];
      ChangesReported(allow, st, plan, k - 1);
      StepReported(allow, before, a);
      assert a in plan && forall x | x in [a] :: x == a;
      hide After;
      ReportedTwice(st, before, Stepped(allow, before, a), plan, a);
    }
  }

  lemma ReportedTwice(st: State, middle: State, end: State, plan: seq<Action>, a: Action)
    requires a in plan && Reported(st, middle, plan) && Reported(middle, end, [a])
    ensures Reported(st, end, plan)
  {
    assert forall x | x in [a] :: x == a;
    assert forall p | p in middle.changed :: p in end.changed;
    forall p | Differs(st.files, end.files, p)
      ensures Differs(st.files, middle.files, p) || Differs(middle.files, end.files, p)
    {
    }
  }

  // ---- roots that do not overlap -------------------------------------------------------------------

  ghost predicate RootsApart(roots: seq<Path>) {
    forall i, j | 0 <= i < |roots| && 0 <= j < |roots| && i != j :: !(roots[i] <= roots[j])
  }

  lemma CommonExtension(a: Path, b: Path, p: Path)
    requires a <= p && b <= p
    ensures a <= b || b <= a
  {
    if |a| <= |b| {
      assert a == p[..|a|] == b[..|a|];
    } else {
      assert b == p[..|b|] == a[..|b|];
    }
  }

  /** `evals` is pruned, so a directory of that name is a target only as a root. */
  lemma EvalsNeverWalked(files: Files, root: Path, d: Path)
    requires IsTargetDir(files, root, d + ["evals"])
    ensures d + ["evals"] == root
  {
    var p := d + ["evals"];
    assert p[|d|] == "evals";
    assert root <= p ==> root == p[..|root|];
  }

  lemma SlotsOfApartRoots(files: Files, present: set<Path>, roots: seq<Path>, lists: seq<seq<Path>>)
    requires Lists(files, roots, lists) && RootsApart(roots)
    ensures Separate(Places(present, roots, lists))
  {
    var places := Places(present, roots, lists);
    PlacesMembers(files, present, roots, lists);
    hide Places;
    forall p, q | p in places && q in places && p.At? && q.At?
      ensures Target(p.slot) != OldSibling(q.slot)
    {
      AliasMeansEvals(p.slot, q.slot);
      hide ListsTargetDirs;
      NoEvalsOfListed(files, present, roots, p.slot, q.slot);
    }
  }

  lemma AliasMeansEvals(s: Slot, t: Slot)
    ensures Target(s) == OldSibling(t) ==> t.dir == s.dir + ["evals"]
  {
    assert Target(s)[..|Target(s)| - 1] == s.dir + ["evals"];
    assert OldSibling(t)[..|OldSibling(t)| - 1] == t.dir;
  }

  lemma NoEvalsOfListed(files: Files, present: set<Path>, roots: seq<Path>, s: Slot, t: Slot)
    requires Listed(files, present, roots, s) && Listed(files, present, roots, t) && RootsApart(roots)
    ensures t.dir != s.dir + ["evals"]
  {
    var i :| 0 <= i < |roots| && roots[i] in present && IsTargetDir(files, roots[i], s.dir);
    var j :| 0 <= j < |roots| && roots[j] in present && IsTargetDir(files, roots[j], t.dir);
    RootAbove(files, roots[i], s.dir);
    if i == j {
      EvalsBelow(files, roots[i], s.dir);
    } else {
      EvalsElsewhere(files, roots[j], s.dir);
      assert roots[i] <= s.dir;
      assert !(roots[i] <= roots[j]);
    }
  }

  lemma EvalsBelow(files: Files, root: Path, d: Path)
    requires root <= d
    ensures !IsTargetDir(files, root, d + ["evals"])
  {
    if IsTargetDir(files, root, d + ["evals"]) {
      EvalsNeverWalked(files, root, d);
    }
  }

  lemma EvalsElsewhere(files: Files, root: Path, d: Path)
    ensures IsTargetDir(files, root, d + ["evals"]) ==> d <= root
  {
    if IsTargetDir(files, root, d + ["evals"]) {
      EvalsNeverWalked(files, root, d);
    }
  }

  lemma SlotPlacesNoRepeats(dirs: seq<Path>)
    requires NoRepeats(dirs)
    ensures NoRepeats(SlotPlaces(dirs))
  {
    forall i, j | 0 <= i < j < 3 * |dirs|
      ensures SlotPlaces(dirs)[i] != SlotPlaces(dirs)[j]
    {
      if i / 3 == j / 3 {
        assert i % 3 < j % 3;
        assert SURFACE_NAMES[i % 3] != SURFACE_NAMES[j % 3];
      } else {
        assert dirs[i / 3] != dirs[j / 3];
      }
    }
  }

  lemma {:induction false} PlacesNoRepeats(
    files: Files, present: set<Path>, roots: seq<Path>, lists: seq<seq<Path>>)
    requires Lists(files, roots, lists) && RootsApart(roots)
    ensures NoRepeats(Places(present, roots, lists))
  {
    if roots != [] {
      var last := |roots| - 1;
      var before := Places(present, roots[..last], lists[..last]);
      var these := if roots[last] in present then SlotPlaces(lists[last]) else [Missing(roots[last])];
      PlacesNoRepeats(files, present, roots[..last], lists[..last]);
      hide Places, RootsApart, ListsTargetDirs;
      RootPlacesNew(files, present, roots, lists, last);
      NoRepeatsJoined(before, these);
    }
  }

  lemma RootPlacesNew(files: Files, present: set<Path>, roots: seq<Path>, lists: seq<seq<Path>>, last: nat)
    requires Lists(files, roots, lists) && RootsApart(roots) && |roots| == last + 1
    ensures var these := if roots[last] in present then SlotPlaces(lists[last]) else [Missing(roots[last])];
      NoRepeats(these) && forall p | p in these :: p !in Places(present, roots[..last], lists[..last])
  {
    var before := Places(present, roots[..last], lists[..last]);
    var these := if roots[last] in present then SlotPlaces(lists[last]) else [Missing(roots[last])];
    assert ListsTargetDirs(files, roots[last], lists[last]);
    PlacesMembers(files, present, roots[..last], lists[..last]);
    SlotPlacesNoRepeats(lists[last]);
    SlotPlacesMembers(lists[last]);
    hide Places, IsTargetDir, SlotPlaces, Lists;
    forall p | p in these
      ensures p !in before
    {
      if p.At? {
        assert IsTargetDir(files, roots[last], p.slot.dir);
        OtherRootsNot(files, present, roots, last, p.slot);
      } else {
        OtherRootsDiffer(roots, last);
      }
    }
  }

  lemma OtherRootsNot(files: Files, present: set<Path>, roots: seq<Path>, last: nat, s: Slot)
    requires RootsApart(roots) && |roots| == last + 1 && IsTargetDir(files, roots[last], s.dir)
    ensures !Listed(files, present, roots[..last], s)
  {
    hide IsTargetDir, RootsApart;
    forall i | 0 <= i < last
      ensures !IsTargetDir(files, roots[..last][i], s.dir)
    {
      DirOfOneRoot(files, roots, i, last, s.dir);
    }
  }

  lemma OtherRootsDiffer(roots: seq<Path>, last: nat)
    requires RootsApart(roots) && |roots| == last + 1
    ensures roots[last] !in roots[..last]
  {
  }

  lemma DirOfOneRoot(files: Files, roots: seq<Path>, i: nat, j: nat, dir: Path)
    requires i < |roots| && j < |roots| && i != j && RootsApart(roots) && IsTargetDir(files, roots[j], dir)
    ensures !IsTargetDir(files, roots[i], dir)
  {
    RootAbove(files, roots[j], dir);
    NotAbove(roots, j, i, dir);
  }

  lemma NotAbove(roots: seq<Path>, i: nat, j: nat, p: Path)
    requires i < |roots| && j < |roots| && i != j && RootsApart(roots) && roots[i] <= p
    ensures !(roots[j] <= p)
  {
    if roots[j] <= p {
      CommonExtension(roots[i], roots[j], p);
    }
  }

  // ---- afterwards ----------------------------------------------------------------------------------

  /** The run creates no new target directory. */
  lemma ListingShrinks(st: State, now: State, places: seq<Place>, roots: seq<Path>, root: Path, d: Path)
    requires Untouched(st, now, places) && IsTargetDir(now.files, root, d)
    requires forall p | p in places && p.At? :: OldSibling(p.slot) !in now.files
    ensures IsTargetDir(st.files, root, d)
  {
    if d != root {
      var f :| f in now.files && Marks(f) && Parent(f) == d;
      if f !in st.files {
        assert Surface(places, f);
        var q :| q in places && q.At? && (f == Target(q.slot) || f == OldSibling(q.slot));
        assert f == Target(q.slot);
        assert Parent(f) == q.slot.dir + ["evals"];
        EvalsNeverWalked(now.files, root, q.slot.dir);
      }
    }
  }

  /** No root that was missing has come into being. */
  ghost predicate NoNewRoot(st: State, now: State, roots: seq<Path>) {
    forall r | r in roots && r in now.dirs :: r in st.dirs
  }

  lemma ApartRootsNotCreated(st: State, now: State, places: seq<Place>, roots: seq<Path>, lists: seq<seq<Path>>)
    requires Lists(st.files, roots, lists) && RootsApart(roots) && places == Places(st.dirs, roots, lists)
    requires Untouched(st, now, places)
    ensures NoNewRoot(st, now, roots)
  {
    hide IsTargetDir, ListsTargetDirs, Places, RootsApart;
    PlacesMembers(st.files, st.dirs, roots, lists);
    forall j, q | 0 <= j < |roots| && q in places && q.At? && roots[j] <= Parent(Target(q.slot))
      ensures roots[j] in st.dirs
    {
      AboveListed(st.files, st.dirs, roots, q.slot, j);
    }
  }

  lemma AboveListed(files: Files, present: set<Path>, roots: seq<Path>, s: Slot, j: nat)
    requires Listed(files, present, roots, s) && RootsApart(roots) && j < |roots|
    requires roots[j] <= Parent(Target(s))
    ensures roots[j] in present
  {
    assert Parent(Target(s)) == s.dir + ["evals"];
    var i :| 0 <= i < |roots| && roots[i] in present && IsTargetDir(files, roots[i], s.dir);
    RootAbove(files, roots[i], s.dir);
    CommonExtension(roots[j], roots[i], s.dir + ["evals"]);
  }

  lemma RootAbove(files: Files, root: Path, dir: Path)
    requires IsTargetDir(files, root, dir)
    ensures root <= dir
  {
  }

  lemma {:induction false} UnmigratedMeaning(files: Files, places: seq<Place>)
    ensures forall p :: p in Unmigrated(files, places) <==>
        || Missing(p) in places
        || exists q | q in places :: q.At? && (
             || (p == Target(q.slot) && !(p in files && IsStub(files[p])))
             || (p == OldSibling(q.slot) && p in files))
  {
    hide IsStub;
    if places != [] {
      var last := |places| - 1;
      UnmigratedMeaning(files, places[..last]);
      assert places == places[..last] + [places[last]];
    }
  }

  // ---- roots that are no listed directory's `evals` ------------------------------------------------

  /** Directories come with those above them, and every file lies in one. */
  ghost predicate FileSystem(st: State) {
    && (forall d, k | d in st.dirs && 0 <= k <= |d| :: d[..k] in st.dirs)
    && forall f | f in st.files :: Parent(f) in st.dirs
  }

  /** No root, present or not, is the `evals` directory of a listed one. */
  ghost predicate NoEvalsRoot(files: Files, present: set<Path>, roots: seq<Path>) {
    forall s, r | Listed(files, present, roots, s) && r in roots :: r != s.dir + ["evals"]
  }

  lemma SlotsOfPlainRoots(files: Files, present: set<Path>, roots: seq<Path>, lists: seq<seq<Path>>)
    requires Lists(files, roots, lists) && NoEvalsRoot(files, present, roots)
    ensures Separate(Places(present, roots, lists))
  {
    var places := Places(present, roots, lists);
    PlacesMembers(files, present, roots, lists);
    hide Places, ListsTargetDirs;
    forall p, q | p in places && q in places && p.At? && q.At?
      ensures Target(p.slot) != OldSibling(q.slot)
    {
      AliasMeansEvals(p.slot, q.slot);
      EvalsListedIsRoot(files, present, roots, p.slot, q.slot);
    }
  }

  lemma EvalsListedIsRoot(files: Files, present: set<Path>, roots: seq<Path>, s: Slot, t: Slot)
    requires Listed(files, present, roots, s) && Listed(files, present, roots, t)
    requires NoEvalsRoot(files, present, roots)
    ensures t.dir != s.dir + ["evals"]
  {
    var j :| 0 <= j < |roots| && roots[j] in present && IsTargetDir(files, roots[j], t.dir);
    assert roots[j] in roots;
    EvalsIsRoot(files, roots[j], s.dir);
  }

  lemma EvalsIsRoot(files: Files, root: Path, d: Path)
    ensures IsTargetDir(files, root, d + ["evals"]) ==> d + ["evals"] == root
  {
    if IsTargetDir(files, root, d + ["evals"]) {
      EvalsNeverWalked(files, root, d);
    }
  }

  lemma ListedExists(st: State, roots: seq<Path>, s: Slot)
    requires FileSystem(st) && Listed(st.files, st.dirs, roots, s)
    ensures s.dir in st.dirs
  {
    var i :| 0 <= i < |roots| && roots[i] in st.dirs && IsTargetDir(st.files, roots[i], s.dir);
  }

  lemma PlainRootsNotCreated(st: State, now: State, places: seq<Place>, roots: seq<Path>, lists: seq<seq<Path>>)
    requires FileSystem(st) && Lists(st.files, roots, lists) && places == Places(st.dirs, roots, lists)
    requires NoEvalsRoot(st.files, st.dirs, roots) && Untouched(st, now, places)
    ensures NoNewRoot(st, now, roots)
  {
    hide IsTargetDir, ListsTargetDirs, Places, FileSystem;
    PlacesMembers(st.files, st.dirs, roots, lists);
    forall r, q | r in roots && q in places && q.At? && r <= Parent(Target(q.slot))
      ensures r in st.dirs
    {
      assert Listed(st.files, st.dirs, roots, q.slot);
      ListedExists(st, roots, q.slot);
      BelowEvals(st, q.slot.dir, r);
      assert Parent(Target(q.slot)) == q.slot.dir + ["evals"];
    }
  }

  lemma BelowEvals(st: State, d: Path, r: Path)
    requires FileSystem(st) && d in st.dirs
    ensures r <= d + ["evals"] ==> r == d + ["evals"] || r in st.dirs
  {
    if r <= d + ["evals"] {
      assert r == (d + ["evals"])[..|r|];
      assert |r| <= |d| ==> r == d[..|r|];
    }
  }

  lemma AncestryClosed(p: Path)
    ensures forall d, k | d in Ancestry(p) && 0 <= k <= |d| :: d[..k] in Ancestry(p)
    ensures p in Ancestry(p)
  {
    forall d, k | d in Ancestry(p) && 0 <= k <= |d|
      ensures d[..k] in Ancestry(p)
    {
      assert d[..k] == p[..k];
    }
    assert p == p[..|p|];
  }

  /** What the file system promises, every action keeps. */
  lemma {:induction false} FileSystemKept(allow: seq<Path>, st: State, plan: seq<Action>, k: nat)
    requires FileSystem(st) && k <= |plan|
    ensures FileSystem(After(allow, st, plan, k))
  {
    if k > 0 {
      FileSystemKept(allow, st, plan, k - 1);
      StepKeepsFileSystem(allow, After(allow, st, plan, k - 1), plan[k - 1]);
    }
  }

  lemma StepKeepsFileSystem(allow: seq<Path>, st: State, a: Action)
    requires FileSystem(st)
    ensures FileSystem(Stepped(allow, st, a))
  {
    hide IsStub, StubFor, Allowed, Ancestry, Parent;
    AncestryClosed(Parent(Target(a.slot)));
  }

  /** The end of a run that goes through over slots that do not alias. */
  lemma RunEnds(
    allow: seq<Path>, st: State, roots: seq<Path>, lists: seq<seq<Path>>, later: seq<seq<Path>>, end: State)
    requires Lists(st.files, roots, lists) && Lists(end.files, roots, later) && Separate(Places(st.dirs, roots, lists))
    requires var plan := Plan(st.files, Places(st.dirs, roots, lists));
      RunsTo(allow, st, plan, |plan|) && end == After(allow, st, plan, |plan|)
    requires NoNewRoot(st, end, roots) && Untouched(st, end, Places(st.dirs, roots, lists))
    ensures SettledFor(st, roots, lists, end, later)
  {
    hide IsStub, StubFor, Allowed, Refused, After, Plan, RunsTo, Places, Separate, Unmigrated;
    hide ListsTargetDirs;
    var places, places' := Places(st.dirs, roots, lists), Places(end.dirs, roots, later);
    RunSettles(allow, st, places);
    SettledListing(st, roots, lists, later, end);
    PlanMeaning(end.files, places');
    UnmigratedMeaning(end.files, places');
  }

  /** Every listed surface is its stub with no old sibling; `verify` then reports exactly the roots that
      never existed, and a second plan only keeps stubs. */
  ghost predicate SettledFor(st: State, roots: seq<Path>, lists: seq<seq<Path>>, end: State, later: seq<seq<Path>>)
    requires |lists| == |roots| && |later| == |roots|
  {
    && Settled(st.files, end.files, Places(st.dirs, roots, lists))
    && FamiliesRight(st.files, end.files, Places(st.dirs, roots, lists))
    && (forall p :: p in Unmigrated(end.files, Places(end.dirs, roots, later)) <==> p in roots && p !in st.dirs)
    && forall a | a in Plan(end.files, Places(end.dirs, roots, later)) :: a.kind == KeepStub
  }

  /** Over any roots, nested or repeated, none of which is a listed directory's `evals`: `apply` goes
      through exactly when its plan relocates no sibling twice, and then everything listed is settled
      and nothing else has changed. */
  lemma MigrationSettles(
    allow: seq<Path>, st: State, roots: seq<Path>, lists: seq<seq<Path>>, later: seq<seq<Path>>, end: State)
    requires FileSystem(st) && NoEvalsRoot(st.files, st.dirs, roots)
    requires Lists(st.files, roots, lists) && forall r | r in roots :: Allowed(allow, r)
    requires var plan := Plan(st.files, Places(st.dirs, roots, lists)); end == After(allow, st, plan, |plan|)
    requires Lists(end.files, roots, later)
    ensures var plan := Plan(st.files, Places(st.dirs, roots, lists));
      && (RunsTo(allow, st, plan, |plan|) <==> !RelocatedTwice(plan))
      && (RunsTo(allow, st, plan, |plan|) ==> SettledFor(st, roots, lists, end, later))
    ensures Untouched(st, end, Places(st.dirs, roots, lists)) && NothingLost(st.files, end) && FileSystem(end)
  {
    hide IsStub, StubFor, Allowed, Refused, After, Plan, RunsTo, NothingLost, Places, Separate, SettledFor;
    hide ListsTargetDirs, NoEvalsRoot, FileSystem, Untouched, RelocatedTwice;
    var places := Places(st.dirs, roots, lists);
    var plan := Plan(st.files, places);
    SlotsAllowed(allow, st.files, st.dirs, roots, lists);
    PlanMeaning(st.files, places);
    DeniedIffRelocatedTwice(allow, st, places);
    SlotsOfPlainRoots(st.files, st.dirs, roots, lists);
    OthersUntouched(allow, st, places, plan, |plan|);
    MigrationLosesNothing(allow, st, places, |plan|);
    FileSystemKept(allow, st, plan, |plan|);
    PlainRootsNotCreated(st, end, places, roots, lists);
    if RunsTo(allow, st, plan, |plan|) {
      RunEnds(allow, st, roots, lists, later, end);
    }
  }

  /** Over roots none of which lies inside another, one root above all, `apply` always goes through. */
  lemma ApartRootsSettle(
    allow: seq<Path>, st: State, roots: seq<Path>, lists: seq<seq<Path>>, later: seq<seq<Path>>, end: State)
    requires RootsApart(roots) && Lists(st.files, roots, lists) && forall r | r in roots :: Allowed(allow, r)
    requires var plan := Plan(st.files, Places(st.dirs, roots, lists)); end == After(allow, st, plan, |plan|)
    requires Lists(end.files, roots, later)
    ensures var plan := Plan(st.files, Places(st.dirs, roots, lists)); RunsTo(allow, st, plan, |plan|)
    ensures SettledFor(st, roots, lists, end, later)
    ensures Untouched(st, end, Places(st.dirs, roots, lists)) && NothingLost(st.files, end)
  {
    hide IsStub, StubFor, Allowed, Refused, After, Plan, RunsTo, NothingLost, Places, Separate, SettledFor;
    hide ListsTargetDirs, RootsApart, Untouched;
    var places := Places(st.dirs, roots, lists);
    var plan := Plan(st.files, places);
    SlotsAllowed(allow, st.files, st.dirs, roots, lists);
    PlacesNoRepeats(st.files, st.dirs, roots, lists);
    PlanNoRepeats(st.files, places);
    PlanMeaning(st.files, places);
    DeniedIffRelocatedTwice(allow, st, places);
    SlotsOfApartRoots(st.files, st.dirs, roots, lists);
    OthersUntouched(allow, st, places, plan, |plan|);
    MigrationLosesNothing(allow, st, places, |plan|);
    ApartRootsNotCreated(st, end, places, roots, lists);
    RunEnds(allow, st, roots, lists, later, end);
  }

  lemma SettledListing(st: State, roots: seq<Path>, lists: seq<seq<Path>>, later: seq<seq<Path>>, end: State)
    requires NoNewRoot(st, end, roots) && Lists(st.files, roots, lists) && Lists(end.files, roots, later)
    requires Settled(st.files, end.files, Places(st.dirs, roots, lists))
    requires Untouched(st, end, Places(st.dirs, roots, lists))
    ensures forall p | p in Places(end.dirs, roots, later) && p.At? ::
        && Target(p.slot) in end.files && IsStub(end.files[Target(p.slot)]) && OldSibling(p.slot) !in end.files
    ensures forall r :: Missing(r) in Places(end.dirs, roots, later) <==> r in roots && r !in st.dirs
  {
    hide IsStub, StubFor, Expected, Places, IsTargetDir;
    var places, places' := Places(st.dirs, roots, lists), Places(end.dirs, roots, later);
    PlacesMembers(st.files, st.dirs, roots, lists);
    PlacesMembers(end.files, end.dirs, roots, later);
    forall r
      ensures Missing(r) in places' <==> r in roots && r !in st.dirs
    {
    }
    forall p | p in places' && p.At?
      ensures p in places && IsStub(Expected(st.files, p.slot))
    {
      ExpectedIsStub(st.files, p.slot);
      assert Listed(end.files, end.dirs, roots, p.slot);
      var i :| 0 <= i < |roots| && roots[i] in end.dirs && IsTargetDir(end.files, roots[i], p.slot.dir);
      ListingShrinks(st, end, places, roots, roots[i], p.slot.dir);
      assert roots[i] in roots;
      assert Listed(st.files, st.dirs, roots, p.slot);
    }
  }

  // ---- roots that do overlap -----------------------------------------------------------------------

  /** A root listed twice is denied as soon as one of its siblings has to be relocated. */
  lemma RepeatedRootDenied(allow: seq<Path>, st: State, root: Path, dirs: seq<Path>, s: Slot)
    requires root in st.dirs && ListsTargetDirs(st.files, root, dirs) && Allowed(allow, root)
    requires IsTargetDir(st.files, root, s.dir) && s.name in SURFACE_NAMES && Due(st.files, Action(RelocateSibling, s))
    ensures var plan := Plan(st.files, Places(st.dirs, [root, root], [dirs, dirs])); !RunsTo(allow, st, plan, |plan|)
  {
    hide IsStub, StubFor, Allowed, RunsTo, After, IsTargetDir, Plan;
    var half := SlotPlaces(dirs);
    var places := Places(st.dirs, [root, root], [dirs, dirs]);
    assert places == half + half by {
      assert [root, root][..1] == [root] && [dirs, dirs][..1] == [dirs];
      assert Places(st.dirs, [root], [dirs]) == Places(st.dirs, [], []) + half;
    }
    SlotsAllowed(allow, st.files, st.dirs, [root, root], [dirs, dirs]);
    SlotPlacesMembers(dirs);
    hide Places, SlotPlaces;
    PlanOfTwice(st.files, half, half);
    PlanMeaning(st.files, half);
    Doubled(Plan(st.files, half), Action(RelocateSibling, s));
    DeniedIffRelocatedTwice(allow, st, places);
  }

  lemma Doubled(half: seq<Action>, a: Action)
    requires a in half && a.kind == RelocateSibling
    ensures RelocatedTwice(half + half)
  {
    var i :| 0 <= i < |half| && half[i] == a;
    assert (half + half)[i] == a && (half + half)[|half| + i] == a;
  }

  lemma {:induction false} PlanOfTwice(files: Files, a: seq<Place>, b: seq<Place>)
    ensures Plan(files, a + b) == Plan(files, a) + Plan(files, b)
  {
    hide PlanFor;
    if b == [] {
      assert a + b == a;
    } else {
      var last := |b| - 1;
      PlanOfTwice(files, a, b[..last]);
      assert (a + b)[..|a + b| - 1] == a + b[..last];
    }
  }

  /** While a listed target is another listed slot's old sibling, `verify` fails: one wants the file that
      the other forbids. */
  lemma AliasNeverVerifies(files: Files, places: seq<Place>)
    requires !Separate(places)
    ensures Unmigrated(files, places) != []
  {
    hide IsStub;
    UnmigratedMeaning(files, places);
    var p, q :| p in places && q in places && p.At? && q.At? && Target(p.slot) == OldSibling(q.slot);
    assert Target(p.slot) in Unmigrated(files, places);
  }

  /** So it fails after every run over a root that is the `evals` of a listed directory, if the run leaves
      that directory listed: it is a root itself, or holds a SKILL.md, which no action touches. */
  lemma EvalsRootNeverSettles(
    allow: seq<Path>, st: State, roots: seq<Path>, lists: seq<seq<Path>>, k: nat, later: seq<seq<Path>>, s: Slot)
    requires Lists(st.files, roots, lists) && Listed(st.files, st.dirs, roots, s) && s.dir + ["evals"] in roots
    requires s.dir in roots || s.dir + ["SKILL.md"] in st.files
    requires k <= |Plan(st.files, Places(st.dirs, roots, lists))|
    requires Lists(After(allow, st, Plan(st.files, Places(st.dirs, roots, lists)), k).files, roots, later)
    ensures var now := After(allow, st, Plan(st.files, Places(st.dirs, roots, lists)), k);
      Unmigrated(now.files, Places(now.dirs, roots, later)) != []
  {
    hide IsStub, StubFor, Allowed, After, Plan, Places, Separate, Unmigrated, ListsTargetDirs;
    var places := Places(st.dirs, roots, lists);
    var plan := Plan(st.files, places);
    var now := After(allow, st, plan, k);
    PlanMeaning(st.files, places);
    OthersUntouched(allow, st, places, plan, k);
    PlacesMembers(st.files, st.dirs, roots, lists);
    StillListed(st, now, places, roots, s);
    ListedAliasFails(now, roots, later, s);
  }

  lemma StillListed(st: State, now: State, places: seq<Place>, roots: seq<Path>, s: Slot)
    requires Untouched(st, now, places) && Listed(st.files, st.dirs, roots, s)
    requires forall q | q in places && q.At? :: q.slot.name in SURFACE_NAMES
    requires s.dir in roots || s.dir + ["SKILL.md"] in st.files
    ensures (exists i | 0 <= i < |roots| :: roots[i] == s.dir) || Listed(now.files, now.dirs, roots, s)
  {
    if s.dir !in roots {
      var f := s.dir + ["SKILL.md"];
      forall q | q in places && q.At?
        ensures f != Target(q.slot) && f != OldSibling(q.slot)
      {
        assert Target(q.slot)[|Target(q.slot)| - 1] == q.slot.name && f[|f| - 1] == "SKILL.md";
        assert OldSibling(q.slot)[|OldSibling(q.slot)| - 1] == q.slot.name;
        assert |"SKILL.md"| == 8 && |"GOTCHA.md"| == 9 && |"LEARNED.md"| == 10 && |"LEARNING.md"| == 11;
      }
      assert !Surface(places, f) && f in now.files;
      assert Marks(f) && Parent(f) == s.dir;
      var i :| 0 <= i < |roots| && roots[i] in st.dirs && IsTargetDir(st.files, roots[i], s.dir);
      assert IsTargetDir(now.files, roots[i], s.dir);
    }
  }

  lemma ListedAliasFails(now: State, roots: seq<Path>, later: seq<seq<Path>>, s: Slot)
    requires Lists(now.files, roots, later) && s.dir + ["evals"] in roots && s.name in SURFACE_NAMES
    requires (exists i | 0 <= i < |roots| :: roots[i] == s.dir) || Listed(now.files, now.dirs, roots, s)
    ensures Unmigrated(now.files, Places(now.dirs, roots, later)) != []
  {
    hide IsStub, StubFor, Places, ListsTargetDirs;
    var places, t := Places(now.dirs, roots, later), Slot(s.dir + ["evals"], s.name);
    PlacesMembers(now.files, now.dirs, roots, later);
    UnmigratedMeaning(now.files, places);
    var j :| 0 <= j < |roots| && roots[j] == t.dir;
    if t.dir !in now.dirs {
      assert Missing(t.dir) in places;
    } else if !Listed(now.files, now.dirs, roots, s) {
      var i :| 0 <= i < |roots| && roots[i] == s.dir;
      assert IsTargetDir(now.files, roots[i], s.dir);
      assert Missing(s.dir) in places;
    } else {
      assert IsTargetDir(now.files, roots[j], t.dir) && Listed(now.files, now.dirs, roots, t);
      assert At(s) in places && At(t) in places && At(s).At? && At(t).At?;
      assert Target(s) == OldSibling(t);
      AliasNeverVerifies(now.files, places);
    }
  }

  /** A root together with its own `evals` never verifies, on any files at all. */
  lemma EvalsRootNeverVerifies(files: Files, present: set<Path>, roots: seq<Path>, lists: seq<seq<Path>>, root: Path)
    requires Lists(files, roots, lists) && root in roots && root + ["evals"] in roots
    ensures Unmigrated(files, Places(present, roots, lists)) != []
  {
    var i :| 0 <= i < |roots| && roots[i] == root;
    assert "GOTCHA.md" == SURFACE_NAMES[0];
    ListedAliasFails(State(files, present, [], []), roots, lists, Slot(root, "GOTCHA.md"));
  }
}
