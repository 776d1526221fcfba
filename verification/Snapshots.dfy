/** The skill-context tables: applying a plan, reading the current snapshot back, verifying it, and
    comparing it with the live packages (kaizen_components/skill_context.py).

    A surface row's hash is a function of its face, so the hashed facts list the faces alone. */
module Snapshots {
  import opened Wrappers
  import opened Orders
  import opened SkillContexts

  datatype SyncRow = SyncRow(id: string, status: string, plan: Digest, inventory: Digest, skillCount: int,
                             surfaceCount: int, hosts: seq<Host>, current: bool, test: bool, hash: Digest)

  datatype ContextRow = ContextRow(id: string, sync: string, card: Card, hash: Digest)

  datatype SurfaceRow = SurfaceRow(context: string, face: Face, hash: Digest)

  datatype Db = Db(syncs: seq<SyncRow>, contexts: seq<ContextRow>, surfaces: seq<SurfaceRow>)

  /** What `_read_current_rows` returns. */
  datatype View = View(sync: Option<SyncRow>, contexts: seq<ContextRow>, surfaces: seq<SurfaceRow>)

  // ---- reading -------------------------------------------------------------------------------------

  predicate IsCurrent(row: SyncRow) {
    row.current && !row.test
  }

  function CurrentSync(syncs: seq<SyncRow>): Option<SyncRow> {
    if syncs == [] then None
    else if IsCurrent(syncs[0]) then Some(syncs[0])
    else CurrentSync(syncs[1..])
  }

  function ContextsOf(contexts: seq<ContextRow>, sync: string): seq<ContextRow> {
    if contexts == [] then []
    else (if contexts[0].sync == sync then [contexts[0]] else []) + ContextsOf(contexts[1..], sync)
  }

  predicate Holds(contexts: seq<ContextRow>, id: string) {
    exists c | c in contexts :: c.id == id
  }

  function SurfacesOf(surfaces: seq<SurfaceRow>, contexts: seq<ContextRow>): seq<SurfaceRow> {
    if surfaces == [] then []
    else (if Holds(contexts, surfaces[0].context) then [surfaces[0]] else []) + SurfacesOf(surfaces[1..], contexts)
  }

  predicate RowNameLe(a: ContextRow, b: ContextRow) {
    LexLe(a.card.name, b.card.name)
  }

  function NameOf(contexts: seq<ContextRow>, id: string): Option<string> {
    if contexts == [] then None
    else if contexts[|contexts| - 1].id == id then Some(contexts[|contexts| - 1].card.name)
    else NameOf(contexts[..|contexts| - 1], id)
  }

  /** By skill name, then by host name. */
  function SurfaceLe(contexts: seq<ContextRow>): (SurfaceRow, SurfaceRow) -> bool {
    (a: SurfaceRow, b: SurfaceRow) =>
      var first, second := NameOf(contexts, a.context), NameOf(contexts, b.context);
      first.Some? && second.Some? && LexLe(first.value, second.value)
      && (first == second ==> a.face.host == Claude || b.face.host == Codex)
  }

  function ReadCurrent(db: Db): View {
    match CurrentSync(db.syncs)
    case None => View(None, [], [])
    case Some(sync) =>
      var contexts := Sort(RowNameLe, ContextsOf(db.contexts, sync.id));
      View(Some(sync), contexts, Sort(SurfaceLe(contexts), SurfacesOf(db.surfaces, contexts)))
  }

  // ---- verifying -----------------------------------------------------------------------------------

  /** The registry's order of hosts. */
  predicate HostLe(a: Face, b: Face) {
    a.host == Codex || b.host == Claude
  }

  function FacesFor(surfaces: seq<SurfaceRow>, id: string): seq<Face> {
    if surfaces == [] then []
    else (if surfaces[0].context == id then [surfaces[0].face] else []) + FacesFor(surfaces[1..], id)
  }

  /** A skill's facts as its rows tell them. */
  function Rebuilt(surfaces: seq<SurfaceRow>, row: ContextRow): Facts {
    Facts(row.card, Sort(HostLe, FacesFor(surfaces, row.id)))
  }

  function RebuiltAll(surfaces: seq<SurfaceRow>, contexts: seq<ContextRow>): (r: seq<Facts>)
    ensures |r| == |contexts|
  {
    seq(|contexts|, i requires 0 <= i < |contexts| => Rebuilt(surfaces, contexts[i]))
  }

  function StoredInventory(fold: string -> string, v: View): seq<Facts> {
    Sort(FoldLe(fold), RebuiltAll(v.surfaces, v.contexts))
  }

  predicate SyncIntact(v: View)
    requires v.sync.Some?
  {
    var sync := v.sync.value;
    && HostScope(sync.hosts) && sync.skillCount == |v.contexts| && sync.surfaceCount == |v.surfaces|
    && sync.hash == OfSync(sync.status, sync.plan, sync.inventory, sync.skillCount, sync.surfaceCount, sync.hosts, false)
  }

  predicate SurfaceIntact(s: SurfaceRow) {
    s.face.policy in POLICY_STATES && s.hash == OfFace(s.face)
  }

  predicate ContextIntact(surfaces: seq<SurfaceRow>, c: ContextRow) {
    && c.card.publication in PUBLICATION_STATUSES && SafeReason(c.card.reason)
    && c.hash == OfFacts(Rebuilt(surfaces, c))
  }

  /** `_verify_current_integrity` accepts. */
  predicate Intact(fold: string -> string, v: View) {
    v.sync.None? || (
      && SyncIntact(v)
      && (forall s | s in v.surfaces :: SurfaceIntact(s))
      && (forall c | c in v.contexts :: ContextIntact(v.surfaces, c))
      && v.sync.value.inventory == OfInventory(StoredInventory(fold, v)))
  }

  method CheckSurfaces(surfaces: seq<SurfaceRow>) returns (ok: bool)
    ensures ok <==> forall s | s in surfaces :: SurfaceIntact(s)
  {
    hide SurfaceIntact;
    for i := 0 to |surfaces|
      invariant forall k | 0 <= k < i :: SurfaceIntact(surfaces[k])
    {
      if !SurfaceIntact(surfaces[i]) {
        return false;
      }
    }
    return true;
  }

  method CheckContexts(surfaces: seq<SurfaceRow>, contexts: seq<ContextRow>) returns (ok: bool, records: seq<Facts>)
    ensures ok <==> forall c | c in contexts :: ContextIntact(surfaces, c)
    ensures ok ==> records == RebuiltAll(surfaces, contexts)
  {
    hide ContextIntact, Rebuilt;
    records := [];
    for i := 0 to |contexts|
      invariant forall k | 0 <= k < i :: ContextIntact(surfaces, contexts[k])
      invariant |records| == i && forall k | 0 <= k < i :: records[k] == Rebuilt(surfaces, contexts[k])
    {
      if !ContextIntact(surfaces, contexts[i]) {
        return false, [];
      }
      records := records + [Rebuilt(surfaces, contexts[i])];
    }
    return true, records;
  }

  method VerifyCurrent(fold: string -> string, v: View) returns (ok: bool)
    ensures ok <==> Intact(fold, v)
  {
    hide SyncIntact, SurfaceIntact, ContextIntact, RebuiltAll, FoldLe;
    if v.sync.None? {
      return true;
    }
    if !SyncIntact(v) {
      return false;
    }
    ok := CheckSurfaces(v.surfaces);
    if !ok {
      return;
    }
    var records;
    ok, records := CheckContexts(v.surfaces, v.contexts);
    if ok {
      ok := v.sync.value.inventory == OfInventory(Sort(FoldLe(fold), records));
    }
  }

  // ---- what the verifier would notice --------------------------------------------------------------

  /** A surface row altered under its old hash is noticed. */
  lemma AlteredSurface(fold: string -> string, v: View, i: nat, face: Face)
    requires v.sync.Some? && Intact(fold, v) && i < |v.surfaces| && face != v.surfaces[i].face
    ensures !Intact(fold, v.(surfaces := v.surfaces[i := v.surfaces[i].(face := face)]))
  {
    hide SyncIntact, ContextIntact, StoredInventory;
    var row := v.surfaces[i].(face := face);
    assert SurfaceIntact(v.surfaces[i]) && !SurfaceIntact(row);
    assert v.surfaces[i := row][i] == row;
  }

  /** A context row altered under its old hash is noticed. */
  lemma AlteredContext(fold: string -> string, v: View, i: nat, card: Card)
    requires v.sync.Some? && Intact(fold, v) && i < |v.contexts| && card != v.contexts[i].card
    ensures !Intact(fold, v.(contexts := v.contexts[i := v.contexts[i].(card := card)]))
  {
    hide SyncIntact, SurfaceIntact, StoredInventory, SafeReason;
    var row := v.contexts[i].(card := card);
    assert ContextIntact(v.surfaces, v.contexts[i]) && !ContextIntact(v.surfaces, row);
    assert v.contexts[i := row][i] == row;
  }

  /** A sync row altered under its old hash is noticed, and so are a lost and an added child row. */
  lemma AlteredSync(fold: string -> string, v: View, row: SyncRow)
    requires v.sync.Some? && Intact(fold, v) && row.hash == v.sync.value.hash
    requires (row.status, row.plan, row.inventory, row.skillCount, row.surfaceCount, row.hosts)
          != (v.sync.value.status, v.sync.value.plan, v.sync.value.inventory, v.sync.value.skillCount,
              v.sync.value.surfaceCount, v.sync.value.hosts)
    ensures !Intact(fold, v.(sync := Some(row)))
  {
    hide SurfaceIntact, ContextIntact, StoredInventory, HostScope;
  }

  lemma RowsCounted(fold: string -> string, v: View, w: View)
    requires v.sync.Some? && Intact(fold, v) && w.sync == v.sync && Intact(fold, w)
    ensures |w.contexts| == |v.contexts| && |w.surfaces| == |v.surfaces|
    ensures StoredInventory(fold, w) == StoredInventory(fold, v)
  {
    hide SurfaceIntact, ContextIntact, StoredInventory, HostScope;
  }

  // ---- planning and applying -----------------------------------------------------------------------

  function FaceCount(records: seq<Facts>): nat {
    if records == [] then 0 else FaceCount(records[..|records| - 1]) + |records[|records| - 1].faces|
  }

  function PlanOf(storeRoot: string, hosts: seq<Host>, test: bool, records: seq<Facts>): PlanCore {
    PlanCore(storeRoot, hosts, test, OfInventory(records), |records|, FaceCount(records), records)
  }

  predicate Conflicted(records: seq<Facts>) {
    exists f | f in records :: exists face | face in f.faces :: face.status in CONFLICTS
  }

  /** The plan, unless a host surface is in the way, if it is the one whose hash is confirmed. */
  function Accepted(storeRoot: string, hosts: seq<Host>, test: bool, records: seq<Facts>, orphans: nat,
                    confirm: Option<Digest>): Result<PlanCore, Refusal>
  {
    var plan := PlanOf(storeRoot, hosts, test, records);
    if Conflicted(records) then Denied(SurfaceConflict)
    else if orphans > 0 then Denied(OrphanSurface)
    else if confirm.None? then Denied(ConfirmRequired)
    else if confirm.value != OfPlan(plan) then Denied(PlanMismatch)
    else Ok(plan)
  }

  function Flipped(syncs: seq<SyncRow>): (r: seq<SyncRow>)
    ensures |r| == |syncs|
  {
    seq(|syncs|, i requires 0 <= i < |syncs| =>
      if IsCurrent(syncs[i]) then syncs[i].(current := false) else syncs[i])
  }

  function NewSync(core: PlanCore, id: string): SyncRow {
    SyncRow(id, "complete", OfPlan(core), core.inventory, core.skillCount, core.surfaceCount, core.hosts, !core.test,
            core.test, OfSync("complete", OfPlan(core), core.inventory, core.skillCount, core.surfaceCount, core.hosts,
                              core.test))
  }

  function NewContexts(sync: string, ids: seq<string>, records: seq<Facts>): (r: seq<ContextRow>)
    requires |ids| == |records|
    ensures |r| == |records|
  {
    seq(|records|, i requires 0 <= i < |records| => ContextRow(ids[i], sync, records[i].card, OfFacts(records[i])))
  }

  function FaceRows(id: string, faces: seq<Face>): (r: seq<SurfaceRow>)
    ensures |r| == |faces|
  {
    seq(|faces|, i requires 0 <= i < |faces| => SurfaceRow(id, faces[i], OfFace(faces[i])))
  }

  function NewSurfaces(ids: seq<string>, records: seq<Facts>): (r: seq<SurfaceRow>)
    requires |ids| == |records|
    ensures |r| == FaceCount(records)
  {
    if records == [] then []
    else
      var last := |records| - 1;
      NewSurfaces(ids[..last], records[..last]) + FaceRows(ids[last], records[last].faces)
  }

  function Applied(db: Db, core: PlanCore, id: string, ids: seq<string>): Db
    requires |ids| == |core.skills|
  {
    Db((if core.test then db.syncs else Flipped(db.syncs)) + [NewSync(core, id)],
       db.contexts + NewContexts(id, ids, core.skills), db.surfaces + NewSurfaces(ids, core.skills))
  }

  predicate NoOp(fold: string -> string, db: Db, core: PlanCore) {
    var v := ReadCurrent(db);
    !core.test && Intact(fold, v) && v.sync.Some? && v.sync.value.plan == OfPlan(core)
    && v.sync.value.inventory == core.inventory
  }

  /** The names that appear, change and disappear. */
  datatype Changes = Changes(added: set<string>, updated: set<string>, retired: set<string>)

  ghost function Hashes(contexts: seq<ContextRow>): map<string, Digest> {
    if contexts == [] then map[]
    else
      var last := contexts[|contexts| - 1];
      Hashes(contexts[..|contexts| - 1])[last.card.name := last.hash]
  }

  ghost predicate ChangesBetween(was: map<string, Digest>, now: map<string, Digest>, c: Changes) {
    && c.added == now.Keys - was.Keys && c.retired == was.Keys - now.Keys
    && c.updated == set name | name in was && name in now && was[name] != now[name]
  }

  lemma NoRows(id: string)
    ensures NewContexts(id, [], []) == [] && NewSurfaces([], []) == [] && Hashes(NewContexts(id, [], [])) == map[]
  {
  }

  /** What one more record adds. */
  lemma NextRows(id: string, ids: seq<string>, records: seq<Facts>, i: nat)
    requires |ids| == |records| && i < |ids|
    ensures var f, row := records[i], ContextRow(ids[i], id, records[i].card, OfFacts(records[i]));
            var was, now := NewContexts(id, ids[..i], records[..i]), NewContexts(id, ids[..i + 1], records[..i + 1]);
            && now == was + [row] && Hashes(now) == Hashes(was)[f.card.name := OfFacts(f)]
            && NewSurfaces(ids[..i + 1], records[..i + 1])
               == NewSurfaces(ids[..i], records[..i]) + FaceRows(ids[i], f.faces)
  {
    assert ids[..i + 1][..i] == ids[..i] && records[..i + 1][..i] == records[..i];
    var was, row := NewContexts(id, ids[..i], records[..i]), ContextRow(ids[i], id, records[i].card, OfFacts(records[i]));
    assert NewContexts(id, ids[..i + 1], records[..i + 1]) == was + [row];
    assert (was + [row])[..i] == was;
  }

  /** The changes lead from the old names to the new ones: what is retired was there, what is added was not,
      and of the names that stay exactly those with another hash are updated. */
  lemma ChangesMeaning(was: map<string, Digest>, now: map<string, Digest>, c: Changes)
    requires ChangesBetween(was, now, c)
    ensures c.retired <= was.Keys && c.added !! was.Keys && (was.Keys - c.retired) + c.added == now.Keys
    ensures forall name | name in was && name in now :: name in c.updated <==> was[name] != now[name]
    ensures c.updated <= was.Keys - c.retired
  {
  }

  /** The hashes of new rows: each record's name with the digest of its facts. */
  lemma {:induction false} NewHashes(id: string, ids: seq<string>, records: seq<Facts>)
    requires |ids| == |records| && NamesDistinct(records)
    ensures var hashes := Hashes(NewContexts(id, ids, records));
      && (forall name :: name in hashes <==> exists f :: f in records && f.card.name == name)
      && forall f | f in records :: f.card.name in hashes && hashes[f.card.name] == OfFacts(f)
  {
    hide NewContexts, Hashes;
    if records == [] {
      NoRows(id);
      assert ids == [];
    } else {
      var last := |records| - 1;
      LastNameNew(records);
      NewHashes(id, ids[..last], records[..last]);
      NextRows(id, ids, records, last);
      assert ids[..last + 1] == ids && records[..last + 1] == records;
      hide NamesDistinct, NewSurfaces, FaceRows;
      assert records == records[..last] + [records[last]];
    }
  }

  lemma LastNameNew(records: seq<Facts>)
    requires NamesDistinct(records) && records != []
    ensures var last := |records| - 1;
      NamesDistinct(records[..last]) && forall f | f in records[..last] :: f.card.name != records[last].card.name
  {
  }

  class Store {
    var syncs: seq<SyncRow>
    var contexts: seq<ContextRow>
    var surfaces: seq<SurfaceRow>

    ghost function Tables(): Db
      reads this
    {
      Db(syncs, contexts, surfaces)
    }

    constructor ()
      ensures Tables() == Db([], [], [])
    {
      syncs, contexts, surfaces := [], [], [];
    }

    method Unset()
      modifies this`syncs
      ensures syncs == Flipped(old(syncs))
    {
      var flipped: seq<SyncRow> := [];
      for i := 0 to |syncs|
        invariant syncs == old(syncs)
        invariant flipped == Flipped(syncs[..i])
      {
        flipped := flipped + [if IsCurrent(syncs[i]) then syncs[i].(current := false) else syncs[i]];
      }
      assert syncs[..|syncs|] == syncs;
      syncs := flipped;
    }

    method InsertFaces(id: string, faces: seq<Face>)
      modifies this`surfaces
      ensures surfaces == old(surfaces) + FaceRows(id, faces)
    {
      for k := 0 to |faces|
        invariant surfaces == old(surfaces) + FaceRows(id, faces[..k])
      {
        surfaces := surfaces + [SurfaceRow(id, faces[k], OfFace(faces[k]))];
      }
      assert faces[..|faces|] == faces;
    }

    method InsertRows(id: string, ids: seq<string>, records: seq<Facts>) returns (hashes: map<string, Digest>)
      requires |ids| == |records|
      modifies this`contexts, this`surfaces
      ensures contexts == old(contexts) + NewContexts(id, ids, records)
      ensures surfaces == old(surfaces) + NewSurfaces(ids, records)
      ensures hashes == Hashes(NewContexts(id, ids, records))
    {
      hide Hashes, NewContexts, NewSurfaces, FaceRows, FaceCount;
      NoRows(id);
      hashes := map[];
      for i := 0 to |records|
        invariant contexts == old(contexts) + NewContexts(id, ids[..i], records[..i])
        invariant surfaces == old(surfaces) + NewSurfaces(ids[..i], records[..i])
        invariant hashes == Hashes(NewContexts(id, ids[..i], records[..i]))
      {
        var f := records[i];
        NextRows(id, ids, records, i);
        hashes := hashes[f.card.name := OfFacts(f)];
        contexts := contexts + [ContextRow(ids[i], id, f.card, OfFacts(f))];
        InsertFaces(ids[i], f.faces);
      }
      assert ids[..|ids|] == ids && records[..|records|] == records;
    }

    /** `context_sync` with the action apply: replan, compare with the confirmed hash, persist. */
    method Sync(fold: string -> string, storeRoot: string, hosts: seq<Host>, test: bool, records: seq<Facts>,
                orphans: nat, confirm: Option<Digest>, id: string, ids: seq<string>)
      returns (result: Result<string, Refusal>)
      requires |ids| == |records|
      modifies this
      ensures var plan := Accepted(storeRoot, hosts, test, records, orphans, confirm);
        && (plan.Denied? ==> Tables() == old(Tables()) && result == Denied(plan.error))
        && (plan.Ok? ==> result.Ok?)
        && (plan.Ok? && NoOp(fold, old(Tables()), plan.value) ==> Tables() == old(Tables()))
        && (plan.Ok? && !NoOp(fold, old(Tables()), plan.value) ==>
            Tables() == Applied(old(Tables()), plan.value, id, ids))
    {
      hide NoOp, Applied, Conflicted, ChangesBetween, Hashes;
      if Conflicted(records) {
        return Denied(SurfaceConflict);
      }
      if orphans > 0 {
        return Denied(OrphanSurface);
      }
      var core := PlanOf(storeRoot, hosts, test, records);
      if confirm.None? {
        return Denied(ConfirmRequired);
      }
      if confirm.value != OfPlan(core) {
        return Denied(PlanMismatch);
      }
      var sync, noOp, changes := Persist(fold, core, id, ids);
      return Ok(sync);
    }

    /** The transaction of `context_sync`; `id` and `ids` are newly drawn. */
    method Persist(fold: string -> string, core: PlanCore, id: string, ids: seq<string>)
      returns (sync: string, noOp: bool, changes: Changes)
      requires |ids| == |core.skills|
      modifies this
      ensures noOp == NoOp(fold, old(Tables()), core)
      ensures Tables() == if noOp then old(Tables()) else Applied(old(Tables()), core, id, ids)
      ensures noOp ==> sync == ReadCurrent(old(Tables())).sync.value.id && changes == Changes({}, {}, {})
      ensures !noOp ==> sync == id && ChangesBetween(
            Hashes(ReadCurrent(old(Tables())).contexts), Hashes(NewContexts(id, ids, core.skills)), changes)
    {
      hide Intact, IsCurrent, Flipped, NewContexts, NewSurfaces, Hashes, SurfaceLe, RowNameLe;
      var v := ReadCurrent(Db(syncs, contexts, surfaces));
      var intact := VerifyCurrent(fold, v);
      if !core.test && intact && v.sync.Some? && v.sync.value.plan == OfPlan(core)
         && v.sync.value.inventory == core.inventory {
        return v.sync.value.id, true, Changes({}, {}, {});
      }
      var was := OldHashes(v.contexts);
      if !core.test {
        Unset();
      }
      syncs := syncs + [NewSync(core, id)];
      var now := InsertRows(id, ids, core.skills);
      var updated := set name | name in was && name in now && was[name] != now[name];
      changes := Changes(now.Keys - was.Keys, updated, was.Keys - now.Keys);
      return id, false, changes;
    }
  }

  /** Why a plan is refused: a surface of a recorded skill in the way first, then an orphan, then the missing
      confirmation, then another plan's. */
  lemma RefusedPlan(storeRoot: string, hosts: seq<Host>, test: bool, records: seq<Facts>, orphans: nat,
                    confirm: Option<Digest>)
    ensures var inTheWay := exists f, face | f in records && face in f.faces ::
        face.status in {"wrong_target", "dangling_link", "real_directory"};
      Accepted(storeRoot, hosts, test, records, orphans, confirm) ==
      if inTheWay then Denied(SurfaceConflict)
      else if orphans > 0 then Denied(OrphanSurface)
      else if confirm == None then Denied(ConfirmRequired)
      else if confirm == Some(OfPlan(PlanOf(storeRoot, hosts, test, records))) then
        Ok(PlanOf(storeRoot, hosts, test, records))
      else Denied(PlanMismatch)
  {
    hide PlanOf;
  }

  /** A confirmed hash pins the plan: what is applied is what was reviewed, down to each record. */
  lemma ConfirmedIsReviewed(reviewed: PlanCore, storeRoot: string, hosts: seq<Host>, test: bool, records: seq<Facts>,
                            orphans: nat)
    ensures (Accepted(storeRoot, hosts, test, records, orphans, Some(OfPlan(reviewed))).Ok? <==>
             !Conflicted(records) && orphans == 0 && reviewed == PlanOf(storeRoot, hosts, test, records))
    ensures Accepted(storeRoot, hosts, test, records, orphans, Some(OfPlan(reviewed))).Ok? ==>
              reviewed.skills == records && reviewed.test == test && reviewed.hosts == hosts
  {
    hide Conflicted;
  }

  method OldHashes(contexts: seq<ContextRow>) returns (hashes: map<string, Digest>)
    ensures hashes == Hashes(contexts)
  {
    hashes := map[];
    for i := 0 to |contexts|
      invariant hashes == Hashes(contexts[..i])
    {
      assert contexts[..i + 1][..i] == contexts[..i];
      hashes := hashes[contexts[i].card.name := contexts[i].hash];
    }
    assert contexts[..|contexts|] == contexts;
  }

  // ---- what every production apply leaves ----------------------------------------------------------

  ghost predicate SyncIdsDistinct(syncs: seq<SyncRow>) {
    forall i, j | 0 <= i < j < |syncs| :: syncs[i].id != syncs[j].id
  }

  /** At most one row is current, and no test row is. */
  ghost predicate OneCurrent(syncs: seq<SyncRow>) {
    && (forall i | 0 <= i < |syncs| :: syncs[i].current ==> !syncs[i].test)
    && forall i, j | 0 <= i < j < |syncs| :: !(syncs[i].current && syncs[j].current)
  }

  ghost predicate ContextIdsDistinct(contexts: seq<ContextRow>) {
    forall i, j | 0 <= i < j < |contexts| :: contexts[i].id != contexts[j].id
  }

  /** One row a skill in each snapshot. */
  ghost predicate SkillsDistinct(contexts: seq<ContextRow>) {
    forall i, j | 0 <= i < j < |contexts| && contexts[i].sync == contexts[j].sync ::
      contexts[i].card.name != contexts[j].card.name
  }

  /** One row a host in each context. */
  ghost predicate HostsDistinct(surfaces: seq<SurfaceRow>) {
    forall i, j | 0 <= i < j < |surfaces| && surfaces[i].context == surfaces[j].context ::
      surfaces[i].face.host != surfaces[j].face.host
  }

  ghost predicate KnownSync(syncs: seq<SyncRow>, id: string) {
    exists r | r in syncs :: r.id == id
  }

  ghost predicate References(db: Db) {
    && (forall c | c in db.contexts :: KnownSync(db.syncs, c.sync))
    && forall s | s in db.surfaces :: Holds(db.contexts, s.context)
  }

  ghost predicate Inv(db: Db) {
    && SyncIdsDistinct(db.syncs) && OneCurrent(db.syncs)
    && ContextIdsDistinct(db.contexts) && SkillsDistinct(db.contexts) && HostsDistinct(db.surfaces)
    && References(db)
  }

  /** Newly drawn ids. */
  ghost predicate Fresh(db: Db, id: string, ids: seq<string>) {
    && !KnownSync(db.syncs, id) && NoRepeats(ids)
    && forall i | i in ids :: !Holds(db.contexts, i)
  }

  /** An apply rewrites nothing but the flag of the row that was current: every earlier row stays. */
  lemma HistoryKept(db: Db, core: PlanCore, id: string, ids: seq<string>)
    requires |ids| == |core.skills|
    ensures var next := Applied(db, core, id, ids);
      && db.contexts <= next.contexts && db.surfaces <= next.surfaces && |next.syncs| == |db.syncs| + 1
      && |next.contexts| == |db.contexts| + |core.skills|
      && forall i | 0 <= i < |db.syncs| ::
           && next.syncs[i] == db.syncs[i].(current := next.syncs[i].current)
           && (next.syncs[i].current <==> db.syncs[i].current && (core.test || db.syncs[i].test))
  {
    hide NewContexts, NewSurfaces, NewSync;
  }

  // ---- the rows of a new snapshot ------------------------------------------------------------------

  lemma {:induction false} ContextsOfJoined(a: seq<ContextRow>, b: seq<ContextRow>, sync: string)
    ensures ContextsOf(a + b, sync) == ContextsOf(a, sync) + ContextsOf(b, sync)
  {
    if a == [] {
      assert a + b == b;
    } else {
      JoinedTail(a, b);
      ContextsOfJoined(a[1..], b, sync);
      Regroup(if a[0].sync == sync then [a[0]] else [], ContextsOf(a[1..], sync), ContextsOf(b, sync));
    }
  }

  lemma {:induction false} ContextsOfAll(a: seq<ContextRow>, sync: string)
    ensures (forall c | c in a :: c.sync == sync) ==> ContextsOf(a, sync) == a
    ensures (forall c | c in a :: c.sync != sync) ==> ContextsOf(a, sync) == []
    ensures forall c :: c in ContextsOf(a, sync) <==> c in a && c.sync == sync
  {
    if a != [] {
      assert a == [a[0]] + a[1..];
      ContextsOfAll(a[1..], sync);
    }
  }

  lemma {:induction false} SurfacesOfJoined(a: seq<SurfaceRow>, b: seq<SurfaceRow>, contexts: seq<ContextRow>)
    ensures SurfacesOf(a + b, contexts) == SurfacesOf(a, contexts) + SurfacesOf(b, contexts)
  {
    if a == [] {
      assert a + b == b;
    } else {
      hide Holds;
      JoinedTail(a, b);
      SurfacesOfJoined(a[1..], b, contexts);
      Regroup(if Holds(contexts, a[0].context) then [a[0]] else [], SurfacesOf(a[1..], contexts),
              SurfacesOf(b, contexts));
    }
  }

  lemma {:induction false} SurfacesOfAll(a: seq<SurfaceRow>, contexts: seq<ContextRow>)
    ensures (forall s | s in a :: Holds(contexts, s.context)) ==> SurfacesOf(a, contexts) == a
    ensures (forall s | s in a :: !Holds(contexts, s.context)) ==> SurfacesOf(a, contexts) == []
    ensures forall s :: s in SurfacesOf(a, contexts) <==> s in a && Holds(contexts, s.context)
  {
    hide Holds;
    if a != [] {
      assert a == [a[0]] + a[1..];
      SurfacesOfAll(a[1..], contexts);
    }
  }

  lemma {:induction false} FacesForJoined(a: seq<SurfaceRow>, b: seq<SurfaceRow>, id: string)
    ensures FacesFor(a + b, id) == FacesFor(a, id) + FacesFor(b, id)
  {
    if a == [] {
      assert a + b == b;
    } else {
      JoinedTail(a, b);
      FacesForJoined(a[1..], b, id);
      Regroup(if a[0].context == id then [a[0].face] else [], FacesFor(a[1..], id), FacesFor(b, id));
    }
  }

  lemma PullOut(b: seq<SurfaceRow>, k: nat, id: string)
    requires k < |b|
    ensures var rest := b[..k] + b[k + 1..];
      && multiset(rest) == multiset(b) - multiset{b[k]}
      && multiset(FacesFor(b, id)) == multiset(FacesFor([b[k]], id)) + multiset(FacesFor(rest, id))
  {
    var before, after := b[..k], b[k + 1..];
    assert b == before + ([b[k]] + after);
    hide FacesFor;
    FacesForJoined(before, [b[k]] + after, id);
    FacesForJoined([b[k]], after, id);
    FacesForJoined(before, after, id);
    MiddleOut(before, b[k], after);
    var f, g, h := FacesFor(before, id), FacesFor([b[k]], id), FacesFor(after, id);
    assert multiset(f + (g + h)) == multiset(f) + multiset(g) + multiset(h);
    assert multiset(f + h) == multiset(f) + multiset(h);
  }

  lemma MiddleOut<T>(before: seq<T>, x: T, after: seq<T>)
    ensures multiset(before + after) == multiset(before + ([x] + after)) - multiset{x}
  {
    assert multiset(before + ([x] + after)) == multiset(before) + multiset{x} + multiset(after);
    assert multiset(before + after) == multiset(before) + multiset(after);
  }

  /** Which faces a context has does not depend on the order the surfaces are read in. */
  lemma {:induction false} FacesForReordered(a: seq<SurfaceRow>, b: seq<SurfaceRow>, id: string)
    requires multiset(a) == multiset(b)
    ensures multiset(FacesFor(a, id)) == multiset(FacesFor(b, id))
  {
    hide FacesFor;
    if a == [] {
      assert |multiset(b)| == 0;
      assert b == [];
    } else {
      assert a[0] in multiset(b);
      var k :| 0 <= k < |b| && b[k] == a[0];
      var restA, restB := a[..0] + a[1..], b[..k] + b[k + 1..];
      PullOut(a, 0, id);
      PullOut(b, k, id);
      FacesForReordered(restA, restB, id);
    }
  }

  lemma {:induction false} FacesOfRows(id: string, faces: seq<Face>, other: string)
    ensures FacesFor(FaceRows(id, faces), other) == if id == other then faces else []
  {
    if faces != [] {
      var rows := FaceRows(id, faces);
      assert rows[1..] == FaceRows(id, faces[1..]);
      FacesOfRows(id, faces[1..], other);
    }
  }

  lemma {:induction false} FacesOfOthers(ids: seq<string>, records: seq<Facts>, id: string)
    requires |ids| == |records| && id !in ids
    ensures FacesFor(NewSurfaces(ids, records), id) == []
  {
    if records != [] {
      var last := |records| - 1;
      FacesOfOthers(ids[..last], records[..last], id);
      FacesForJoined(NewSurfaces(ids[..last], records[..last]), FaceRows(ids[last], records[last].faces), id);
      FacesOfRows(ids[last], records[last].faces, id);
    }
  }

  lemma {:induction false} FacesOfNew(ids: seq<string>, records: seq<Facts>, i: nat)
    requires |ids| == |records| && NoRepeats(ids) && i < |ids|
    ensures FacesFor(NewSurfaces(ids, records), ids[i]) == records[i].faces
  {
    var last := |records| - 1;
    FacesForJoined(NewSurfaces(ids[..last], records[..last]), FaceRows(ids[last], records[last].faces), ids[i]);
    FacesOfRows(ids[last], records[last].faces, ids[i]);
    if i == last {
      assert ids[last] !in ids[..last];
      FacesOfOthers(ids[..last], records[..last], ids[i]);
    } else {
      FacesOfNew(ids[..last], records[..last], i);
    }
  }

  lemma {:induction false} NewSurfaceMembers(ids: seq<string>, records: seq<Facts>, s: SurfaceRow)
    requires |ids| == |records| && s in NewSurfaces(ids, records)
    ensures exists i, k | 0 <= i < |ids| && 0 <= k < |records[i].faces| ::
              s == SurfaceRow(ids[i], records[i].faces[k], OfFace(records[i].faces[k]))
  {
    var last := |records| - 1;
    if s in NewSurfaces(ids[..last], records[..last]) {
      NewSurfaceMembers(ids[..last], records[..last], s);
      var i, k :| 0 <= i < last && 0 <= k < |records[..last][i].faces|
        && s == SurfaceRow(ids[..last][i], records[..last][i].faces[k], OfFace(records[..last][i].faces[k]));
      assert s == SurfaceRow(ids[i], records[i].faces[k], OfFace(records[i].faces[k]));
    } else {
      assert s in FaceRows(ids[last], records[last].faces);
      var k :| 0 <= k < |records[last].faces| && s == FaceRows(ids[last], records[last].faces)[k];
      assert s == SurfaceRow(ids[last], records[last].faces[k], OfFace(records[last].faces[k]));
    }
  }

  // ---- rebuilding the records ----------------------------------------------------------------------

  lemma HostOrder()
    ensures Total(HostLe) && Transitive(HostLe)
  {
  }

  lemma SoundFaces(hosts: seq<Host>, f: Facts)
    requires HostScope(hosts) && Sound(hosts, f)
    ensures SortedBy(HostLe, f.faces) && NoTies(HostLe, f.faces)
  {
    hide SafeReason;
    assert |f.faces| <= 2 && (|hosts| == 2 ==> hosts[0] == Codex && hosts[1] == Claude);
    forall x, y | x in f.faces && y in f.faces && HostLe(x, y) && HostLe(y, x)
      ensures x == y
    {
      var i :| 0 <= i < |f.faces| && f.faces[i] == x;
      var j :| 0 <= j < |f.faces| && f.faces[j] == y;
      assert f.faces[i].host == hosts[i] && f.faces[j].host == hosts[j];
    }
  }

  /** Faces in the registry's order are what any order of them sorts to. */
  lemma SoundFacesSort(hosts: seq<Host>, f: Facts, faces: seq<Face>)
    requires HostScope(hosts) && Sound(hosts, f) && multiset(faces) == multiset(f.faces)
    ensures Sort(HostLe, faces) == f.faces
  {
    SoundFaces(hosts, f);
    HostOrder();
    SortSorts(HostLe, faces);
    SameMembers(faces, f.faces);
    hide Sound, HostScope, HostLe;
    SameMembers(Sort(HostLe, faces), f.faces);
    SortedUnique(HostLe, Sort(HostLe, faces), f.faces);
  }

  /** A new context row rebuilds its record, whatever order the surfaces are read in. */
  lemma NewRowRebuilds(hosts: seq<Host>, sync: string, ids: seq<string>, records: seq<Facts>, read: seq<SurfaceRow>, i: nat)
    requires |ids| == |records| && NoRepeats(ids) && i < |ids| && HostScope(hosts) && Sound(hosts, records[i])
    requires multiset(read) == multiset(NewSurfaces(ids, records))
    ensures Rebuilt(read, NewContexts(sync, ids, records)[i]) == records[i]
  {
    hide Sound, HostScope;
    FacesForReordered(read, NewSurfaces(ids, records), ids[i]);
    FacesOfNew(ids, records, i);
    SoundFacesSort(hosts, records[i], FacesFor(read, ids[i]));
  }

  lemma RebuiltFirst(surfaces: seq<SurfaceRow>, row: ContextRow, rows: seq<ContextRow>)
    ensures RebuiltAll(surfaces, [row] + rows) == [Rebuilt(surfaces, row)] + RebuiltAll(surfaces, rows)
  {
    hide Rebuilt;
  }

  lemma RebuiltName(surfaces: seq<SurfaceRow>, row: ContextRow, other: ContextRow)
    ensures NameLe(Rebuilt(surfaces, row), Rebuilt(surfaces, other)) == RowNameLe(row, other)
  {
    hide LexLe, Sort;
  }

  lemma {:induction false} InsertRebuilt(surfaces: seq<SurfaceRow>, row: ContextRow, rows: seq<ContextRow>)
    ensures RebuiltAll(surfaces, Insert(RowNameLe, row, rows))
         == Insert(NameLe, Rebuilt(surfaces, row), RebuiltAll(surfaces, rows))
  {
    hide RebuiltAll, Rebuilt, RowNameLe, NameLe, Insert;
    var none: seq<ContextRow> := [];
    var all := RebuiltAll(surfaces, rows);
    RebuiltFirst(surfaces, row, rows);
    RebuiltFirst(surfaces, row, none);
    NothingRebuilt(surfaces);
    InsertStep(RowNameLe, row, rows);
    InsertStep(NameLe, Rebuilt(surfaces, row), all);
    if rows == [] {
      assert [row] + none == [row] && [Rebuilt(surfaces, row)] + [] == [Rebuilt(surfaces, row)];
    } else {
      var rest := rows[1..];
      assert rows == [rows[0]] + rest;
      RebuiltFirst(surfaces, rows[0], rest);
      assert all[0] == Rebuilt(surfaces, rows[0]) && all[1..] == RebuiltAll(surfaces, rest);
      RebuiltFirst(surfaces, rows[0], Insert(RowNameLe, row, rest));
      RebuiltName(surfaces, row, rows[0]);
      InsertRebuilt(surfaces, row, rest);
    }
  }

  lemma NothingRebuilt(surfaces: seq<SurfaceRow>)
    ensures RebuiltAll(surfaces, []) == []
  {
  }

  /** Rebuilding the rows in name order is putting the rebuilt records in name order. */
  lemma {:induction false} SortRebuilt(surfaces: seq<SurfaceRow>, rows: seq<ContextRow>)
    ensures RebuiltAll(surfaces, Sort(RowNameLe, rows)) == Sort(NameLe, RebuiltAll(surfaces, rows))
  {
    hide RebuiltAll, Rebuilt, RowNameLe, NameLe, Insert, Sort;
    NothingRebuilt(surfaces);
    if rows == [] {
      NothingSorted(RowNameLe);
      NothingSorted(NameLe);
    } else {
      var rest, all := rows[1..], RebuiltAll(surfaces, rows);
      assert rows == [rows[0]] + rest;
      RebuiltFirst(surfaces, rows[0], rest);
      assert all[0] == Rebuilt(surfaces, rows[0]) && all[1..] == RebuiltAll(surfaces, rest);
      SortStep(RowNameLe, rows);
      SortStep(NameLe, all);
      SortRebuilt(surfaces, rest);
      InsertRebuilt(surfaces, rows[0], Sort(RowNameLe, rest));
    }
  }

  // ---- the current row -----------------------------------------------------------------------------

  lemma {:induction false} CurrentSyncMeaning(syncs: seq<SyncRow>)
    ensures match CurrentSync(syncs)
            case None => forall r | r in syncs :: !IsCurrent(r)
            case Some(row) => row in syncs && IsCurrent(row)
  {
    if syncs != [] {
      assert syncs == [syncs[0]] + syncs[1..];
      CurrentSyncMeaning(syncs[1..]);
    }
  }

  lemma CurrentSyncUnique(syncs: seq<SyncRow>, row: SyncRow)
    requires OneCurrent(syncs) && row in syncs && IsCurrent(row)
    ensures CurrentSync(syncs) == Some(row)
  {
    CurrentSyncMeaning(syncs);
    var found := CurrentSync(syncs).value;
    var i :| 0 <= i < |syncs| && syncs[i] == row;
    var j :| 0 <= j < |syncs| && syncs[j] == found;
  }

  /** The invariant of the tables is kept by every apply, test or not. */
  lemma AppliedKeepsInv(db: Db, core: PlanCore, id: string, ids: seq<string>)
    requires Inv(db) && |ids| == |core.skills| && Fresh(db, id, ids)
    requires NamesDistinct(core.skills) && forall f | f in core.skills :: Sound(core.hosts, f)
    requires HostScope(core.hosts)
    ensures Inv(Applied(db, core, id, ids))
  {
    SyncsKept(db, core, id, ids);
    ContextsKept(db, core, id, ids);
    SurfacesKept(db, core, id, ids);
  }

  lemma SyncsKept(db: Db, core: PlanCore, id: string, ids: seq<string>)
    requires SyncIdsDistinct(db.syncs) && OneCurrent(db.syncs) && |ids| == |core.skills| && !KnownSync(db.syncs, id)
    ensures var syncs := Applied(db, core, id, ids).syncs; SyncIdsDistinct(syncs) && OneCurrent(syncs)
    ensures var syncs := Applied(db, core, id, ids).syncs;
      forall other | KnownSync(db.syncs, other) || other == id :: KnownSync(syncs, other)
    ensures core.test ==> forall r | r in Applied(db, core, id, ids).syncs && r.current :: r in db.syncs
  {
    hide NewContexts, NewSurfaces;
    var syncs := Applied(db, core, id, ids).syncs;
    forall i | 0 <= i < |db.syncs|
      ensures syncs[i].id == db.syncs[i].id && syncs[i].id != id
      ensures syncs[i].test == db.syncs[i].test && (syncs[i].current ==> core.test && db.syncs[i].current)
    {
    }
    forall other | KnownSync(db.syncs, other) || other == id
      ensures KnownSync(syncs, other)
    {
      if other == id {
        assert syncs[|db.syncs|] in syncs;
      } else {
        var r :| r in db.syncs && r.id == other;
        var i :| 0 <= i < |db.syncs| && db.syncs[i] == r;
        assert syncs[i] in syncs;
      }
    }
  }

  lemma ContextsKept(db: Db, core: PlanCore, id: string, ids: seq<string>)
    requires Inv(db) && |ids| == |core.skills| && Fresh(db, id, ids) && NamesDistinct(core.skills)
    ensures var next := Applied(db, core, id, ids);
      ContextIdsDistinct(next.contexts) && SkillsDistinct(next.contexts)
      && forall c | c in next.contexts :: KnownSync(next.syncs, c.sync)
  {
    hide NewSurfaces, NewSync, OneCurrent, HostsDistinct;
    SyncsKept(db, core, id, ids);
    hide Flipped, KnownSync;
    var contexts := Applied(db, core, id, ids).contexts;
    forall i, j | 0 <= i < j < |contexts|
      ensures contexts[i].id != contexts[j].id
      ensures contexts[i].sync == contexts[j].sync ==> contexts[i].card.name != contexts[j].card.name
    {
      if j >= |db.contexts| {
        assert contexts[j].id == ids[j - |db.contexts|] && contexts[j].sync == id;
        if i < |db.contexts| {
          assert contexts[i] in db.contexts && contexts[j].id in ids;
        }
      }
    }
  }

  lemma {:induction false} NewHostsDistinct(hosts: seq<Host>, ids: seq<string>, records: seq<Facts>)
    requires |ids| == |records| && NoRepeats(ids) && HostScope(hosts)
    requires forall f | f in records :: Sound(hosts, f)
    ensures HostsDistinct(NewSurfaces(ids, records))
  {
    if records != [] {
      var last := |records| - 1;
      NewHostsDistinct(hosts, ids[..last], records[..last]);
      var before, these := NewSurfaces(ids[..last], records[..last]), FaceRows(ids[last], records[last].faces);
      forall s | s in before
        ensures s.context != ids[last]
      {
        NewSurfaceMembers(ids[..last], records[..last], s);
      }
      assert Sound(hosts, records[last]);
      forall i, j | 0 <= i < j < |these|
        ensures these[i].face.host != these[j].face.host
      {
        assert these[i].face.host == hosts[i] && these[j].face.host == hosts[j];
      }
      HostsDistinctJoined(before, these);
    }
  }

  lemma HostsDistinctJoined(a: seq<SurfaceRow>, b: seq<SurfaceRow>)
    requires HostsDistinct(a) && HostsDistinct(b)
    requires forall s, t | s in a && t in b :: s.context != t.context
    ensures HostsDistinct(a + b)
  {
    forall i, j | 0 <= i < |a| && 0 <= j < |b|
      ensures a[i].context != b[j].context
    {
      assert a[i] in a && b[j] in b;
    }
  }

  lemma SurfacesKept(db: Db, core: PlanCore, id: string, ids: seq<string>)
    requires HostsDistinct(db.surfaces) && References(db) && |ids| == |core.skills| && Fresh(db, id, ids)
    requires HostScope(core.hosts) && forall f | f in core.skills :: Sound(core.hosts, f)
    ensures var next := Applied(db, core, id, ids);
      HostsDistinct(next.surfaces) && forall s | s in next.surfaces :: Holds(next.contexts, s.context)
  {
    hide HostsDistinct, Sound, NewSync, Flipped, HostScope;
    var next, rows := Applied(db, core, id, ids), NewSurfaces(ids, core.skills);
    NewHostsDistinct(core.hosts, ids, core.skills);
    forall s | s in rows
      ensures s.context in ids && Holds(next.contexts, s.context)
    {
      NewSurfaceMembers(ids, core.skills, s);
      var i :| 0 <= i < |ids| && s.context == ids[i];
      assert next.contexts[|db.contexts| + i].id == ids[i];
    }
    forall s | s in db.surfaces
      ensures s.context !in ids && Holds(next.contexts, s.context)
    {
      var c :| c in db.contexts && c.id == s.context;
      assert c in next.contexts;
    }
    HostsDistinctJoined(db.surfaces, rows);
  }

  // ---- the writer against the verifier -------------------------------------------------------------

  /** After a production apply the view is the new snapshot alone. */
  lemma NewView(db: Db, core: PlanCore, id: string, ids: seq<string>)
    requires Inv(db) && |ids| == |core.skills| && Fresh(db, id, ids) && !core.test
    ensures var v := ReadCurrent(Applied(db, core, id, ids));
      && v.sync == Some(NewSync(core, id)) && v.contexts == Sort(RowNameLe, NewContexts(id, ids, core.skills))
      && multiset(v.surfaces) == multiset(NewSurfaces(ids, core.skills))
  {
    hide NewSync, HostsDistinct, SkillsDistinct, ContextIdsDistinct;
    var next := Applied(db, core, id, ids);
    NewSyncCurrent(db, core, id, ids);
    hide Flipped, IsCurrent, OneCurrent, SyncIdsDistinct;
    var rows := NewContexts(id, ids, core.skills);
    NewContextsRead(db, id, rows);
    var contexts := Sort(RowNameLe, rows);
    SameMembers(contexts, rows);
    NewSurfacesRead(db, id, ids, core.skills, contexts);
    assert ReadCurrent(next).surfaces == Sort(SurfaceLe(contexts), NewSurfaces(ids, core.skills));
  }

  lemma NewSyncCurrent(db: Db, core: PlanCore, id: string, ids: seq<string>)
    requires SyncIdsDistinct(db.syncs) && OneCurrent(db.syncs) && |ids| == |core.skills| && !KnownSync(db.syncs, id)
    requires !core.test
    ensures CurrentSync(Applied(db, core, id, ids).syncs) == Some(NewSync(core, id))
    ensures NewSync(core, id).id == id
  {
    hide NewContexts, NewSurfaces;
    SyncsKept(db, core, id, ids);
    var syncs := Applied(db, core, id, ids).syncs;
    assert syncs[|db.syncs|] == NewSync(core, id);
    CurrentSyncUnique(syncs, NewSync(core, id));
  }

  lemma NewContextsRead(db: Db, id: string, rows: seq<ContextRow>)
    requires References(db) && !KnownSync(db.syncs, id) && forall c | c in rows :: c.sync == id
    ensures ContextsOf(db.contexts + rows, id) == rows
  {
    ContextsOfJoined(db.contexts, rows, id);
    ContextsOfAll(db.contexts, id);
    ContextsOfAll(rows, id);
  }

  lemma NewSurfacesRead(db: Db, id: string, ids: seq<string>, records: seq<Facts>, contexts: seq<ContextRow>)
    requires References(db) && |ids| == |records| && Fresh(db, id, ids)
    requires forall c :: c in contexts <==> c in NewContexts(id, ids, records)
    ensures SurfacesOf(db.surfaces + NewSurfaces(ids, records), contexts) == NewSurfaces(ids, records)
  {
    hide NewContexts, NewSurfaces, SurfacesOf, References, Fresh;
    var news := NewSurfaces(ids, records);
    SurfacesOfJoined(db.surfaces, news, contexts);
    SurfacesOfAll(db.surfaces, contexts);
    SurfacesOfAll(news, contexts);
    OldNotHeld(db, id, ids, records, contexts);
    NewHeld(id, ids, records, contexts);
  }

  lemma OldNotHeld(db: Db, id: string, ids: seq<string>, records: seq<Facts>, contexts: seq<ContextRow>)
    requires References(db) && |ids| == |records| && Fresh(db, id, ids)
    requires forall c :: c in contexts <==> c in NewContexts(id, ids, records)
    ensures forall s | s in db.surfaces :: !Holds(contexts, s.context)
  {
    forall c | c in contexts
      ensures !Holds(db.contexts, c.id)
    {
      var i :| 0 <= i < |ids| && NewContexts(id, ids, records)[i] == c;
      assert ids[i] in ids;
    }
  }

  lemma NewHeld(id: string, ids: seq<string>, records: seq<Facts>, contexts: seq<ContextRow>)
    requires |ids| == |records| && forall c :: c in contexts <==> c in NewContexts(id, ids, records)
    ensures forall s | s in NewSurfaces(ids, records) :: Holds(contexts, s.context)
  {
    hide NewSurfaces;
    forall s | s in NewSurfaces(ids, records)
      ensures Holds(contexts, s.context)
    {
      NewSurfaceMembers(ids, records, s);
      var i :| 0 <= i < |ids| && s.context == ids[i];
      var c := NewContexts(id, ids, records)[i];
      assert c in contexts && c.id == ids[i];
    }
  }

  lemma NewSurfacesIntact(hosts: seq<Host>, ids: seq<string>, records: seq<Facts>)
    requires |ids| == |records| && forall f | f in records :: Sound(hosts, f)
    ensures forall s | s in NewSurfaces(ids, records) :: SurfaceIntact(s)
  {
    hide NewSurfaces, SafeReason;
    forall s | s in NewSurfaces(ids, records)
      ensures SurfaceIntact(s)
    {
      NewSurfaceMembers(ids, records, s);
      var i, k :| 0 <= i < |ids| && 0 <= k < |records[i].faces|
        && s == SurfaceRow(ids[i], records[i].faces[k], OfFace(records[i].faces[k]));
      assert Sound(hosts, records[i]);
    }
  }

  lemma NewContextsIntact(hosts: seq<Host>, id: string, ids: seq<string>, records: seq<Facts>, read: seq<SurfaceRow>)
    requires |ids| == |records| && NoRepeats(ids) && HostScope(hosts) && forall f | f in records :: Sound(hosts, f)
    requires multiset(read) == multiset(NewSurfaces(ids, records))
    ensures forall c | c in NewContexts(id, ids, records) :: ContextIntact(read, c)
    ensures RebuiltAll(read, NewContexts(id, ids, records)) == records
  {
    hide HostScope, SafeReason, Rebuilt, NewSurfaces;
    var rows := NewContexts(id, ids, records);
    forall i | 0 <= i < |rows|
      ensures Rebuilt(read, rows[i]) == records[i] && Sound(hosts, records[i])
    {
      assert records[i] in records;
      NewRowRebuilds(hosts, id, ids, records, read, i);
    }
  }

  lemma NewRowsIntact(hosts: seq<Host>, id: string, ids: seq<string>, records: seq<Facts>, v: View)
    requires |ids| == |records| && NoRepeats(ids) && HostScope(hosts) && forall f | f in records :: Sound(hosts, f)
    requires v.contexts == Sort(RowNameLe, NewContexts(id, ids, records))
    requires multiset(v.surfaces) == multiset(NewSurfaces(ids, records))
    ensures forall s | s in v.surfaces :: SurfaceIntact(s)
    ensures forall c | c in v.contexts :: ContextIntact(v.surfaces, c)
    ensures RebuiltAll(v.surfaces, v.contexts) == Sort(NameLe, records)
  {
    hide HostScope, Sound, SurfaceIntact, ContextIntact, RebuiltAll, NewSurfaces, NewContexts, RowNameLe, NameLe;
    SameMembers(v.contexts, NewContexts(id, ids, records));
    SameMembers(v.surfaces, NewSurfaces(ids, records));
    NewSurfacesIntact(hosts, ids, records);
    NewContextsIntact(hosts, id, ids, records, v.surfaces);
    SortRebuilt(v.surfaces, NewContexts(id, ids, records));
  }

  /** What a plan of normalised records is. */
  ghost predicate IsPlan(fold: string -> string, core: PlanCore) {
    && HostScope(core.hosts) && Normal(fold, core.hosts, core.skills)
    && core == PlanOf(core.storeRoot, core.hosts, core.test, core.skills)
  }

  /** A production apply leaves one current snapshot, its own; the verifier accepts it, and applying the
      same plan again is a no-op, exactly when names that fold alike were recorded in name order:
      always, when no two names fold alike. */
  lemma ApplyThenVerify(fold: string -> string, db: Db, core: PlanCore, id: string, ids: seq<string>)
    requires Inv(db) && |ids| == |core.skills| && Fresh(db, id, ids) && !core.test && IsPlan(fold, core)
    ensures var next := Applied(db, core, id, ids);
      && Inv(next) && ReadCurrent(next).sync == Some(NewSync(core, id))
      && (Intact(fold, ReadCurrent(next)) <==> TiesAscend(fold, core.skills))
      && (NoOp(fold, next, core) <==> TiesAscend(fold, core.skills))
  {
    hide Inv, NewContexts, NewSurfaces, Applied, ReadCurrent, TiesAscend, Sound, HostScope;
    AppliedKeepsInv(db, core, id, ids);
    NewView(db, core, id, ids);
    FreshDistinct(db, id, ids);
    ViewIntact(fold, core, id, ids, ReadCurrent(Applied(db, core, id, ids)));
    hide Intact;
  }

  lemma ViewIntact(fold: string -> string, core: PlanCore, id: string, ids: seq<string>, v: View)
    requires |ids| == |core.skills| && NoRepeats(ids) && !core.test && IsPlan(fold, core)
    requires v.sync == Some(NewSync(core, id)) && v.contexts == Sort(RowNameLe, NewContexts(id, ids, core.skills))
    requires multiset(v.surfaces) == multiset(NewSurfaces(ids, core.skills))
    ensures Intact(fold, v) <==> TiesAscend(fold, core.skills)
  {
    hide TiesAscend, Sound, HostScope, SurfaceIntact, ContextIntact, SyncIntact, RebuiltAll, FoldLe, NameLe, RowNameLe;
    hide NewContexts, NewSurfaces, Sort, SortedBy, NamesDistinct, NoRepeats, FaceCount;
    NewSyncIntact(core, id, ids, v);
    NewRowsIntact(core.hosts, id, ids, core.skills, v);
    ResortRestores(fold, core.skills);
  }

  lemma FreshDistinct(db: Db, id: string, ids: seq<string>)
    requires Fresh(db, id, ids)
    ensures NoRepeats(ids)
  {
  }

  lemma NewSyncIntact(core: PlanCore, id: string, ids: seq<string>, v: View)
    requires |ids| == |core.skills| && !core.test && HostScope(core.hosts)
    requires core == PlanOf(core.storeRoot, core.hosts, core.test, core.skills)
    requires v.sync == Some(NewSync(core, id)) && v.contexts == Sort(RowNameLe, NewContexts(id, ids, core.skills))
    requires multiset(v.surfaces) == multiset(NewSurfaces(ids, core.skills))
    ensures SyncIntact(v)
  {
    hide HostScope, NewContexts, NewSurfaces;
    SameMembers(v.surfaces, NewSurfaces(ids, core.skills));
  }

  lemma DistinctFoldsAscend(fold: string -> string, records: seq<Facts>)
    requires forall i, j | 0 <= i < j < |records| :: fold(records[i].card.name) != fold(records[j].card.name)
    ensures TiesAscend(fold, records)
  {
  }

  lemma {:induction false} CurrentSyncJoined(a: seq<SyncRow>, row: SyncRow)
    requires !IsCurrent(row)
    ensures CurrentSync(a + [row]) == CurrentSync(a)
  {
    if a != [] {
      assert (a + [row])[1..] == a[1..] + [row];
      CurrentSyncJoined(a[1..], row);
    }
  }

  /** A test apply leaves the production view as it was. */
  lemma TestApplySpares(db: Db, core: PlanCore, id: string, ids: seq<string>)
    requires Inv(db) && |ids| == |core.skills| && Fresh(db, id, ids) && core.test
    ensures ReadCurrent(Applied(db, core, id, ids)) == ReadCurrent(db)
  {
    hide HostsDistinct, SkillsDistinct, ContextIdsDistinct, SurfaceLe, RowNameLe, NewSurfaces, Fresh;
    CurrentSyncJoined(db.syncs, NewSync(core, id));
    CurrentSyncMeaning(db.syncs);
    hide OneCurrent;
    if CurrentSync(db.syncs).Some? {
      var sync := CurrentSync(db.syncs).value;
      OtherContextsSpared(db, sync.id, id, ids, core.skills);
      var read := ContextsOf(db.contexts, sync.id);
      var contexts := Sort(RowNameLe, read);
      SameMembers(contexts, read);
      OtherSurfacesSpared(db, id, ids, core.skills, contexts);
    }
  }

  lemma OtherContextsSpared(db: Db, sync: string, id: string, ids: seq<string>, records: seq<Facts>)
    requires |ids| == |records| && Fresh(db, id, ids) && KnownSync(db.syncs, sync)
    ensures ContextsOf(db.contexts + NewContexts(id, ids, records), sync) == ContextsOf(db.contexts, sync)
    ensures forall c | c in ContextsOf(db.contexts, sync) :: c in db.contexts
  {
    var rows := NewContexts(id, ids, records);
    ContextsOfJoined(db.contexts, rows, sync);
    ContextsOfAll(rows, sync);
    ContextsOfAll(db.contexts, sync);
  }

  lemma OtherSurfacesSpared(db: Db, id: string, ids: seq<string>, records: seq<Facts>, contexts: seq<ContextRow>)
    requires |ids| == |records| && Fresh(db, id, ids) && forall c | c in contexts :: c in db.contexts
    ensures SurfacesOf(db.surfaces + NewSurfaces(ids, records), contexts) == SurfacesOf(db.surfaces, contexts)
  {
    var news := NewSurfaces(ids, records);
    SurfacesOfJoined(db.surfaces, news, contexts);
    SurfacesOfAll(news, contexts);
    forall s | s in news
      ensures !Holds(contexts, s.context)
    {
      NewSurfaceMembers(ids, records, s);
      assert s.context in ids;
    }
  }

  // ---- whole runs ----------------------------------------------------------------------------------

  /** One confirmed apply with the ids it draws. */
  datatype Request = Request(core: PlanCore, id: string, ids: seq<string>)

  function Performed(fold: string -> string, db: Db, r: Request): Db {
    if |r.ids| != |r.core.skills| || NoOp(fold, db, r.core) then db else Applied(db, r.core, r.id, r.ids)
  }

  function Play(fold: string -> string, db: Db, requests: seq<Request>): Db {
    if requests == [] then db
    else Performed(fold, Play(fold, db, requests[..|requests| - 1]), requests[|requests| - 1])
  }

  /** Every request carries a plan of normalised records and draws new ids. */
  ghost predicate ValidRun(fold: string -> string, db: Db, requests: seq<Request>) {
    requests != [] ==>
      var before, r := requests[..|requests| - 1], requests[|requests| - 1];
      && ValidRun(fold, db, before) && IsPlan(fold, r.core) && |r.ids| == |r.core.skills|
      && Fresh(Play(fold, db, before), r.id, r.ids)
  }

  lemma PerformedKeepsInv(fold: string -> string, db: Db, r: Request)
    requires Inv(db) && IsPlan(fold, r.core) && |r.ids| == |r.core.skills| && Fresh(db, r.id, r.ids)
    ensures Inv(Performed(fold, db, r))
    ensures r.core.test ==> ReadCurrent(Performed(fold, db, r)) == ReadCurrent(db)
  {
    hide Inv, Fresh, Applied, NoOp, HostScope, Sound, ReadCurrent;
    AppliedKeepsInv(db, r.core, r.id, r.ids);
    if r.core.test {
      TestApplySpares(db, r.core, r.id, r.ids);
    }
  }

  lemma {:induction false} PlayKeepsInv(fold: string -> string, db: Db, requests: seq<Request>)
    requires Inv(db) && ValidRun(fold, db, requests)
    ensures Inv(Play(fold, db, requests))
  {
    hide Inv, Fresh, Performed, IsPlan;
    if requests != [] {
      var before := requests[..|requests| - 1];
      PlayKeepsInv(fold, db, before);
      PerformedKeepsInv(fold, Play(fold, db, before), requests[|requests| - 1]);
    }
  }

  /** After any run of applies, real and test, no-ops included, the current snapshot is that of the last
      production request, and it verifies if that request's names that fold alike ascend. */
  lemma {:induction false} LastApplyStands(fold: string -> string, db: Db, requests: seq<Request>, k: nat)
    requires Inv(db) && ValidRun(fold, db, requests) && k < |requests|
    requires !requests[k].core.test && forall j | k < j < |requests| :: requests[j].core.test
    ensures var v := ReadCurrent(Play(fold, db, requests));
      && v.sync.Some? && v.sync.value.plan == OfPlan(requests[k].core)
      && (TiesAscend(fold, requests[k].core.skills) ==> Intact(fold, v))
  {
    hide Inv, Fresh, Applied, IsPlan, ReadCurrent, Intact, TiesAscend;
    var before, last := requests[..|requests| - 1], requests[|requests| - 1];
    PlayKeepsInv(fold, db, before);
    var was := Play(fold, db, before);
    if k == |before| {
      if !NoOp(fold, was, last.core) {
        ApplyThenVerify(fold, was, last.core, last.id, last.ids);
      }
    } else {
      LastApplyStands(fold, db, before, k);
      PerformedKeepsInv(fold, was, last);
    }
  }

  lemma EmptyInv()
    ensures Inv(Db([], [], []))
  {
  }
}
