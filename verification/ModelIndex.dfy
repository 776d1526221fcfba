/** The per-model embedding indexes: re-chunking, back-filling, activation and retention
    (kaizen_components/model_index.py, evidence.py, model_ops.py). Creation times are integers. */
module ModelIndex {
  import opened Wrappers
  import opened Orders

  /** A chunk_embeddings row. */
  datatype Row = Row(chunk: string, model: string, created: int)

  /** `chunks` maps each evidence chunk to its document. */
  datatype State = State(chunks: map<string, string>, rows: seq<Row>, active: Option<string>)

  datatype Denial = RowTaken | IndexAbsent | IndexIncomplete(indexed: nat, total: nat) | PruneActive

  // ---- queries -----------------------------------------------------------------------------------

  /** `SELECT COUNT(*) ... WHERE embedding_model = ?`. */
  function CountModel(rows: seq<Row>, model: string): nat {
    if rows == [] then 0
    else CountModel(rows[..|rows| - 1], model) + if rows[|rows| - 1].model == model then 1 else 0
  }

  predicate Indexed(rows: seq<Row>, chunk: string, model: string) {
    exists r | r in rows :: r.chunk == chunk && r.model == model
  }

  /** The models that occur, each once. */
  function Models(rows: seq<Row>): (r: seq<string>)
    ensures NoRepeats(r)
    ensures forall m :: m in r <==> exists x :: x in rows && x.model == m
  {
    if rows == [] then []
    else
      var front, last := Models(rows[..|rows| - 1]), rows[|rows| - 1];
      assert rows == rows[..|rows| - 1] + [last];
      assert forall x :: x in rows <==> x in rows[..|rows| - 1] || x == last;
      if last.model in front then front else front + [last.model]
  }

  /** `MAX(created_at)` of a model's rows. */
  function Latest(rows: seq<Row>, model: string): Option<int> {
    if rows == [] then None
    else
      var front, last := Latest(rows[..|rows| - 1], model), rows[|rows| - 1];
      if last.model == model && (front.None? || last.created > front.value) then Some(last.created) else front
  }

  function Age(rows: seq<Row>, model: string): int {
    var latest := Latest(rows, model);
    if latest.Some? then latest.value else 0
  }

  /** Most recently built first, then by name. */
  predicate NewerFirst(rows: seq<Row>, a: string, b: string) {
    if Age(rows, a) != Age(rows, b) then Age(rows, a) > Age(rows, b) else LexLe(a, b)
  }

  /** The names of `list_models`. */
  function ListModels(rows: seq<Row>): seq<string> {
    Sort((a: string, b: string) => NewerFirst(rows, a, b), Models(rows))
  }

  function Without(rows: seq<Row>, drop: seq<string>): seq<Row> {
    if rows == [] then []
    else
      var front, last := Without(rows[..|rows| - 1], drop), rows[|rows| - 1];
      if last.model in drop then front else front + [last]
  }

  function Excluding(names: seq<string>, out: seq<string>): seq<string> {
    if names == [] then []
    else
      var front, last := Excluding(names[..|names| - 1], out), names[|names| - 1];
      if last in out then front else front + [last]
  }

  // ---- the transactions ----------------------------------------------------------------------------

  function RowsOfOthers(rows: seq<Row>, chunks: map<string, string>, document: string): seq<Row> {
    if rows == [] then []
    else
      var front, last := RowsOfOthers(rows[..|rows| - 1], chunks, document), rows[|rows| - 1];
      if last.chunk in chunks && chunks[last.chunk] == document then front else front + [last]
  }

  function Embedded(ids: seq<string>, model: string, now: int): seq<Row> {
    seq(|ids|, k requires 0 <= k < |ids| => Row(ids[k], model, now))
  }

  /** Re-chunk a document: embeddings first, then chunks, then the new rows. */
  function Rechunked(s: State, document: string, ids: seq<string>, model: Option<string>, now: int)
    : (State, Result<(), Denial>)
  {
    var kept := map c | c in s.chunks && s.chunks[c] != document :: s.chunks[c];
    var rows := RowsOfOthers(s.rows, s.chunks, document);
    if (exists k | 0 <= k < |ids| :: ids[k] in kept || ids[k] in ids[..k]) then (s, Denied(RowTaken))
    else
      (s.(chunks := map c | c in kept.Keys + (set id | id in ids) :: if c in kept then kept[c] else document,
          rows := rows + if model.Some? then Embedded(ids, model.value, now) else []), Ok(()))
  }

  /** `INSERT OR IGNORE` of one embedding per listed chunk. */
  function Backfilled(rows: seq<Row>, ids: seq<string>, model: string, now: int): seq<Row> {
    if ids == [] then rows
    else
      var so_far, id := Backfilled(rows, ids[..|ids| - 1], model, now), ids[|ids| - 1];
      if Indexed(so_far, id, model) then so_far else so_far + [Row(id, model, now)]
  }

  function Activated(s: State, model: string): (State, Result<(), Denial>) {
    var total, indexed := |s.chunks|, CountModel(s.rows, model);
    if total > 0 && indexed == 0 then (s, Denied(IndexAbsent))
    else if indexed < total then (s, Denied(IndexIncomplete(indexed, total)))
    else (s.(active := Some(model)), Ok(()))
  }

  /** What `prune_to_keep` drops; a window of zero or less keeps all. */
  function Surplus(names: seq<string>, active: string, keep: int): seq<string> {
    if keep <= 0 then []
    else
      Excluding(names, Kept(names, active, keep))
  }

  /** The active model, then the most recent others up to the window. */
  function Kept(names: seq<string>, active: string, keep: int): (r: seq<string>)
    requires keep > 0
    ensures |r| <= keep && r != []
  {
    var others := Excluding(names, [active]);
    [active] + if keep - 1 < |others| then others[..keep - 1] else others
  }

  datatype Target = Previous | AllButActive | One(model: string)

  /** What `_prune` drops: only indexed models, never the active one. */
  function PruneTargets(names: seq<string>, active: Option<string>, t: Target): Result<seq<string>, Denial> {
    var others := if active.Some? then Excluding(names, [active.value]) else names;
    match t
    case Previous => Ok(if others == [] then [] else [others[0]])
    case AllButActive => Ok(others)
    case One(m) => if active == Some(m) then Denied(PruneActive) else Ok(if m in names then [m] else [])
  }

  class Index {
    var chunks: map<string, string>
    var rows: seq<Row>
    var active: Option<string>

    function Value(): State
      reads this
    {
      State(chunks, rows, active)
    }

    /** `_delete_models`. */
    method DeleteModels(models: seq<string>)
      modifies this`rows
      ensures rows == Without(old(rows), models)
    {
      var kept: seq<Row> := [];
      for k := 0 to |rows|
        invariant rows == old(rows)
        invariant kept == Without(rows[..k], models)
      {
        assert rows[..k + 1][..k] == rows[..k];
        if rows[k].model !in models {
          kept := kept + [rows[k]];
        }
      }
      assert rows[..|rows|] == rows;
      rows := kept;
    }

    /** What other writers commit before the next access. */
    method Interlude(others: State -> State)
      modifies this
      ensures Value() == others(old(Value()))
    {
      var now := others(Value());
      chunks, rows, active := now.chunks, now.rows, now.active;
    }

    /** `prune_to_keep`: a read, then the deletion in its own transaction. */
    method PruneToKeep(model: string, keep: int, beforeDelete: State -> State) returns (dropped: seq<string>)
      modifies this
      ensures dropped == Surplus(ListModels(old(rows)), model, keep)
      ensures keep <= 0 ==> Value() == old(Value())
      ensures keep > 0 ==> Value() == Deleted(beforeDelete(old(Value())), dropped)
    {
      if keep <= 0 {
        return [];
      }
      var names := ListModels(rows);
      var others := Excluding(names, [model]);
      var kept := [model] + if keep - 1 < |others| then others[..keep - 1] else others;
      dropped := Excluding(names, kept);
      Interlude(beforeDelete);
      DeleteModels(dropped);
    }

    /** Point retrieval at a model that indexes every chunk, then prune. Other writers may commit
        between the activation and the read of the list, and again before the deletion. */
    method ActivateModel(model: string, keep: int, beforeList: State -> State, beforeDelete: State -> State)
      returns (result: Result<seq<string>, Denial>)
      modifies this
      ensures var (s, activation) := Activated(old(Value()), model);
        && (activation.Denied? ==> Value() == s && result == Denied(activation.error))
        && (activation.Ok? && s.chunks == map[] ==> Value() == s && result == Ok([]))
        && (activation.Ok? && s.chunks != map[] ==>
            var listed := beforeList(s);
            && result == Ok(Surplus(ListModels(listed.rows), model, keep))
            && Value() == if keep <= 0 then listed else Deleted(beforeDelete(listed), result.value))
    {
      var total, indexed := |chunks|, CountModel(rows, model);
      if total > 0 && indexed == 0 {
        return Denied(IndexAbsent);
      }
      if indexed < total {
        return Denied(IndexIncomplete(indexed, total));
      }
      active := Some(model);
      if total == 0 {
        return Ok([]);
      }
      Interlude(beforeList);
      var pruned := PruneToKeep(model, keep, beforeDelete);
      result := Ok(pruned);
    }

    /** `_prune`: the active model and the list are read one after the other, before the deletion. */
    method Prune(t: Target, beforeList: State -> State, beforeDelete: State -> State)
      returns (result: Result<seq<string>, Denial>)
      modifies this
      ensures var listed := beforeList(old(Value()));
        && result == PruneTargets(ListModels(listed.rows), old(active), t)
        && Value() == if result.Ok? then Deleted(beforeDelete(listed), result.value) else listed
    {
      var seen := active;
      Interlude(beforeList);
      result := PruneTargets(ListModels(rows), seen, t);
      if result.Ok? {
        Interlude(beforeDelete);
        DeleteModels(result.value);
      }
    }
  }

  /** `_delete_models` as a step. */
  function Deleted(s: State, models: seq<string>): State {
    s.(rows := Without(s.rows, models))
  }

  lemma {:induction false} WithoutNothing(rows: seq<Row>)
    ensures Without(rows, []) == rows
  {
    if rows != [] {
      WithoutNothing(rows[..|rows| - 1]);
      assert rows == rows[..|rows| - 1] + [rows[|rows| - 1]];
    }
  }

  // ---- no embedding outlives its chunk -------------------------------------------------------------

  /** The primary key (chunk_id, embedding_model), and every row's chunk exists. */
  ghost predicate Inv(s: State) {
    && (forall i, j | 0 <= i < j < |s.rows| :: s.rows[i].chunk != s.rows[j].chunk || s.rows[i].model != s.rows[j].model)
    && (forall r | r in s.rows :: r.chunk in s.chunks)
  }

  /** What a command has read and not yet written. */
  datatype Job =
    | Backfilling(model: string, listed: seq<string>)
    | Retaining(activated: string, keep: int)
    | Pruning(seen: Option<string>)
    | Deleting(models: seq<string>)
    | Done

  datatype World = World(index: State, jobs: seq<Job>)

  /** The separate accesses of the commands; `job` is the one that continues. */
  datatype Step =
    | Rechunk(document: string, ids: seq<string>, embedWith: Option<string>, now: int)
    | ListMissing(model: string, within: Option<string>, order: seq<string>)
    | Insert(job: nat, at: int)
    | Activate(activate: string, keep: int)
    | ReadActive
    | PlanDeletion(job: nat, target: Target)
    | Delete(job: nat)

  /** The chunks a back-fill lists: those it reads as missing, in the order of the query. */
  ghost predicate ListsMissing(s: State, model: string, within: Option<string>, order: seq<string>) {
    && NoRepeats(order)
    && forall c :: c in order <==> c in s.chunks && (within.Some? ==> s.chunks[c] == within.value)
                                   && !Indexed(s.rows, c, model)
  }

  /** One access: a read that leaves a job, or a transaction that finishes one. */
  ghost predicate Steps(w: World, a: Step, w': World) {
    var s := w.index;
    match a
    case Rechunk(document, ids, embedWith, now) => w' == w.(index := Rechunked(s, document, ids, embedWith, now).0)
    case ListMissing(model, within, order) =>
      ListsMissing(s, model, within, order) && w' == w.(jobs := w.jobs + [Backfilling(model, order)])
    case Insert(k, at) =>
      && k < |w.jobs| && w.jobs[k].Backfilling?
      && w' == World(s.(rows := Backfilled(s.rows, w.jobs[k].listed, w.jobs[k].model, at)), w.jobs[k := Done])
    case Activate(model, keep) =>
      w' == (if Activated(s, model).1.Denied? then w
             else if s.chunks == map[] then w.(index := Activated(s, model).0)
             else World(Activated(s, model).0, w.jobs + [Retaining(model, keep)]))
    case ReadActive => w' == w.(jobs := w.jobs + [Pruning(s.active)])
    case PlanDeletion(k, t) =>
      && k < |w.jobs| && (w.jobs[k].Retaining? || w.jobs[k].Pruning?)
      && w' == w.(jobs := w.jobs[k := Deleting(Planned(s, w.jobs[k], t))])
    case Delete(k) =>
      && k < |w.jobs| && w.jobs[k].Deleting?
      && w' == World(Deleted(s, w.jobs[k].models), w.jobs[k := Done])
  }

  /** The models a retention or a prune decides to delete on what it reads now. */
  function Planned(s: State, job: Job, t: Target): seq<string>
    requires job.Retaining? || job.Pruning?
  {
    if job.Retaining? then Surplus(ListModels(s.rows), job.activated, job.keep)
    else
      var targets := PruneTargets(ListModels(s.rows), job.seen, t);
      if targets.Ok? then targets.value else []
  }

  /** A prune deletes what its command would name on this list, and nothing where that refuses. */
  lemma PrunePlanned(s: State, job: Job, t: Target)
    requires job.Pruning?
    ensures match PruneTargets(ListModels(s.rows), job.seen, t)
            case Ok(names) => Planned(s, job, t) == names
            case Denied(_) => Planned(s, job, t) == []
  {
  }

  ghost predicate Behaves(states: seq<World>, steps: seq<Step>) {
    && |states| == |steps| + 1
    && forall k | 0 <= k < |steps| :: Steps(states[k], steps[k], states[k + 1])
  }

  ghost predicate Keys(rows: seq<Row>) {
    forall i, j | 0 <= i < j < |rows| :: rows[i].chunk != rows[j].chunk || rows[i].model != rows[j].model
  }

  lemma {:induction false} WithoutMembers(rows: seq<Row>, drop: seq<string>)
    ensures forall r :: r in Without(rows, drop) <==> r in rows && r.model !in drop
    ensures Keys(rows) ==> Keys(Without(rows, drop))
  {
    if rows != [] {
      WithoutMembers(rows[..|rows| - 1], drop);
      assert rows == rows[..|rows| - 1] + [rows[|rows| - 1]];
      KeysSplit(rows[..|rows| - 1], rows[|rows| - 1]);
      KeysSplit(Without(rows[..|rows| - 1], drop), rows[|rows| - 1]);
    }
  }

  /** A row may join a keyed table exactly when its key is new. */
  lemma KeysSplit(rows: seq<Row>, r: Row)
    ensures Keys(rows + [r]) <==> Keys(rows) && !Indexed(rows, r.chunk, r.model)
  {
    var all := rows + [r];
    if Keys(all) {
      forall i, j | 0 <= i < j < |rows|
        ensures rows[i].chunk != rows[j].chunk || rows[i].model != rows[j].model
      {
        assert all[i] == rows[i] && all[j] == rows[j];
      }
      forall x | x in rows
        ensures x.chunk != r.chunk || x.model != r.model
      {
        var i :| 0 <= i < |rows| && rows[i] == x;
        assert all[i] == x && all[|rows|] == r;
      }
    }
  }

  lemma {:induction false} RowsOfOthersMembers(rows: seq<Row>, chunks: map<string, string>, document: string)
    ensures forall r :: r in RowsOfOthers(rows, chunks, document) <==>
                        r in rows && !(r.chunk in chunks && chunks[r.chunk] == document)
    ensures Keys(rows) ==> Keys(RowsOfOthers(rows, chunks, document))
  {
    if rows != [] {
      RowsOfOthersMembers(rows[..|rows| - 1], chunks, document);
      assert rows == rows[..|rows| - 1] + [rows[|rows| - 1]];
      KeysSplit(rows[..|rows| - 1], rows[|rows| - 1]);
      KeysSplit(RowsOfOthers(rows[..|rows| - 1], chunks, document), rows[|rows| - 1]);
    }
  }

  lemma {:induction false} BackfilledMembers(rows: seq<Row>, ids: seq<string>, model: string, now: int)
    ensures forall r | r in Backfilled(rows, ids, model, now) :: r in rows || (r.chunk in ids && r.model == model)
    ensures forall r | r in rows :: r in Backfilled(rows, ids, model, now)
    ensures forall id | id in ids :: Indexed(Backfilled(rows, ids, model, now), id, model)
    ensures Keys(rows) ==> Keys(Backfilled(rows, ids, model, now))
  {
    if ids != [] {
      var front, id := ids[..|ids| - 1], ids[|ids| - 1];
      BackfilledMembers(rows, front, model, now);
      assert ids == front + [id];
      var before := Backfilled(rows, front, model, now);
      KeysSplit(before, Row(id, model, now));
      var after := Backfilled(rows, ids, model, now);
      assert forall r | r in before :: r in after;
      if !Indexed(before, id, model) {
        assert after == before + [Row(id, model, now)];
        assert Row(id, model, now) in after;
      }
      forall x | x in ids
        ensures Indexed(after, x, model)
      {
        if x in front {
          assert Indexed(before, x, model);
        }
      }
    }
  }

  lemma EmbeddedKeys(rows: seq<Row>, ids: seq<string>, model: string, now: int)
    requires Keys(rows) && NoRepeats(ids)
    requires forall r | r in rows :: r.chunk !in ids
    ensures Keys(rows + Embedded(ids, model, now))
  {
    var all := rows + Embedded(ids, model, now);
    forall i, j | 0 <= i < j < |all|
      ensures all[i].chunk != all[j].chunk || all[i].model != all[j].model
    {
      if j >= |rows| {
        assert all[j].chunk == ids[j - |rows|];
        if i < |rows| {
          assert rows[i] in rows;
        }
      }
    }
  }

  /** Re-chunking a document replaces its chunks and their embeddings, keeps all others, and embeds the new
      chunks if it has a model; it is refused where a new id is taken or listed twice. */
  lemma RechunkExact(s: State, document: string, ids: seq<string>, model: Option<string>, now: int)
    ensures var (s', result) := Rechunked(s, document, ids, model, now);
      && (result.Ok? <==> NoRepeats(ids) && forall id | id in ids && id in s.chunks :: s.chunks[id] == document)
      && (result.Denied? ==> s' == s)
      && (result.Ok? ==>
          && s'.active == s.active
          && (forall c :: c in s'.chunks <==> c in ids || (c in s.chunks && s.chunks[c] != document))
          && (forall c | c in s'.chunks :: s'.chunks[c] == if c in ids then document else s.chunks[c])
          && (forall r :: r in s'.rows <==>
                || (r in s.rows && !(r.chunk in s.chunks && s.chunks[r.chunk] == document))
                || (model.Some? && r.chunk in ids && r == Row(r.chunk, model.value, now))))
  {
    var (s', result) := Rechunked(s, document, ids, model, now);
    RowsOfOthersMembers(s.rows, s.chunks, document);
    RefusedIds(ids, map c | c in s.chunks && s.chunks[c] != document :: s.chunks[c]);
    if result.Ok? && model.Some? {
      EmbeddedMembers(ids, model.value, now);
    }
  }

  lemma RefusedIds(ids: seq<string>, kept: map<string, string>)
    ensures (exists k | 0 <= k < |ids| :: ids[k] in kept || ids[k] in ids[..k]) <==>
            !NoRepeats(ids) || exists id :: id in ids && id in kept
  {
    if !NoRepeats(ids) {
      var i, j :| 0 <= i < j < |ids| && ids[i] == ids[j];
      assert ids[..j][i] == ids[j];
    }
  }

  lemma EmbeddedMembers(ids: seq<string>, model: string, now: int)
    ensures forall r :: r in Embedded(ids, model, now) <==> r.chunk in ids && r == Row(r.chunk, model, now)
  {
    forall r: Row | r.chunk in ids && r == Row(r.chunk, model, now)
      ensures r in Embedded(ids, model, now)
    {
      var k :| 0 <= k < |ids| && ids[k] == r.chunk;
      assert Embedded(ids, model, now)[k] == r;
    }
  }

  /** A back-fill adds an embedding, dated now, for each listed chunk that has none, and nothing else. */
  lemma {:induction false} BackfillExact(rows: seq<Row>, ids: seq<string>, model: string, now: int)
    ensures forall r :: r in Backfilled(rows, ids, model, now) <==>
              r in rows || (r == Row(r.chunk, model, now) && r.chunk in ids && !Indexed(rows, r.chunk, model))
  {
    if ids != [] {
      var front, id := ids[..|ids| - 1], ids[|ids| - 1];
      BackfillExact(rows, front, model, now);
      assert ids == front + [id];
      var before := Backfilled(rows, front, model, now);
      assert Indexed(before, id, model) <==> Indexed(rows, id, model) || id in front by {
        if id in front && !Indexed(rows, id, model) {
          assert Row(id, model, now) in before;
        }
      }
    }
  }

  lemma RechunkKeepsInv(s: State, document: string, ids: seq<string>, model: Option<string>, now: int)
    requires Inv(s)
    ensures Inv(Rechunked(s, document, ids, model, now).0)
  {
    var (s', result) := Rechunked(s, document, ids, model, now);
    if result.Ok? {
      var kept := map c | c in s.chunks && s.chunks[c] != document :: s.chunks[c];
      var rows := RowsOfOthers(s.rows, s.chunks, document);
      RowsOfOthersMembers(s.rows, s.chunks, document);
      assert Keys(rows);
      forall i, j | 0 <= i < j < |ids|
        ensures ids[i] != ids[j]
      {
        assert ids[..j][i] == ids[i];
        assert !(ids[j] in kept || ids[j] in ids[..j]);
      }
      forall k | 0 <= k < |ids|
        ensures ids[k] !in kept
      {
        assert !(ids[k] in kept || ids[k] in ids[..k]);
      }
      forall r | r in rows
        ensures r.chunk in kept && r.chunk !in ids
      {
        assert r in s.rows;
      }
      if model.Some? {
        EmbeddedKeys(rows, ids, model.value, now);
      }
    }
  }

  /** A back-fill keeps the invariant exactly when every chunk it listed is still there. */
  lemma BackfillKeepsInvIff(s: State, order: seq<string>, model: string, at: int)
    requires Inv(s)
    ensures Inv(s.(rows := Backfilled(s.rows, order, model, at))) <==> forall id | id in order :: id in s.chunks
  {
    assert Keys(s.rows);
    var rows := Backfilled(s.rows, order, model, at);
    BackfilledMembers(s.rows, order, model, at);
    assert Keys(rows);
    forall id | id in order && id !in s.chunks
      ensures exists r :: r in rows && r.chunk !in s.chunks
    {
      assert Indexed(rows, id, model);
    }
  }

  /** Every back-fill insert of the run still finds the chunks it had listed. */
  ghost predicate InsertsFind(states: seq<World>, steps: seq<Step>, upTo: nat)
    requires Behaves(states, steps) && upTo <= |steps|
  {
    forall k | 0 <= k < upTo && steps[k].Insert? :: FindsListed(states[k], steps[k].job)
  }

  ghost predicate FindsListed(w: World, k: nat) {
    k < |w.jobs| && w.jobs[k].Backfilling? && forall id | id in w.jobs[k].listed :: id in w.index.chunks
  }

  lemma StepKeepsInvIff(w: World, a: Step, w': World)
    requires Inv(w.index) && Steps(w, a, w')
    ensures Inv(w'.index) <==> (a.Insert? ==> FindsListed(w, a.job))
  {
    hide Surplus, PruneTargets, ListModels, Rechunked, Backfilled;
    assert Keys(w.index.rows);
    match a
    case Rechunk(document, ids, embedWith, now) => RechunkKeepsInv(w.index, document, ids, embedWith, now);
    case ListMissing(model, within, order) =>
    case Insert(k, at) => BackfillKeepsInvIff(w.index, w.jobs[k].listed, w.jobs[k].model, at);
    case Activate(model, keep) =>
    case ReadActive =>
    case PlanDeletion(k, t) =>
    case Delete(k) => WithoutMembers(w.index.rows, w.jobs[k].models);
  }

  /** In every interleaving no embedding outlives its chunk, up to any moment, exactly when each
      back-fill inserted only for chunks still there. */
  lemma {:induction false} BehaviourKeepsInv(states: seq<World>, steps: seq<Step>, upTo: nat)
    requires Behaves(states, steps) && upTo <= |steps| && Inv(states[0].index)
    ensures (forall k | 0 <= k <= upTo :: Inv(states[k].index)) <==> InsertsFind(states, steps, upTo)
  {
    hide Inv, Steps, FindsListed;
    if upTo > 0 {
      BehaviourKeepsInv(states, steps, upTo - 1);
      assert Steps(states[upTo - 1], steps[upTo - 1], states[upTo]);
      if Inv(states[upTo - 1].index) {
        StepKeepsInvIff(states[upTo - 1], steps[upTo - 1], states[upTo]);
      }
    }
  }

  /** A back-fill that inserts on the very state it listed finds its chunks. */
  lemma AtomicBackfillFinds(s: State, model: string, within: Option<string>, order: seq<string>, at: int)
    requires Inv(s) && ListsMissing(s, model, within, order)
    ensures Inv(s.(rows := Backfilled(s.rows, order, model, at)))
  {
    BackfillKeepsInvIff(s, order, model, at);
  }

  // ---- activation ----------------------------------------------------------------------------------

  /** Every chunk carries an embedding of the model. */
  ghost predicate Covered(s: State, model: string) {
    forall c | c in s.chunks :: Indexed(s.rows, c, model)
  }

  ghost function ChunksOf(rows: seq<Row>, model: string): set<string> {
    set r | r in rows && r.model == model :: r.chunk
  }

  lemma {:induction false} CountIsCardinality(rows: seq<Row>, model: string)
    requires Keys(rows)
    ensures CountModel(rows, model) == |ChunksOf(rows, model)|
  {
    if rows == [] {
      assert ChunksOf(rows, model) == {};
    } else {
      var front, last := rows[..|rows| - 1], rows[|rows| - 1];
      assert rows == front + [last];
      KeysSplit(front, last);
      ChunksOfJoined(front, last, model);
      hide ChunksOf, Keys;
      CountIsCardinality(front, model);
    }
  }

  lemma ChunksOfJoined(front: seq<Row>, last: Row, model: string)
    requires !Indexed(front, last.chunk, last.model)
    ensures last.model == model ==>
              ChunksOf(front + [last], model) == ChunksOf(front, model) + {last.chunk}
              && last.chunk !in ChunksOf(front, model)
    ensures last.model != model ==> ChunksOf(front + [last], model) == ChunksOf(front, model)
  {
    var all := front + [last];
    forall r
      ensures r in all <==> r in front || r == last
    {
    }
  }

  lemma SubsetCardinality<T>(a: set<T>, b: set<T>)
    requires a <= b
    ensures |a| <= |b|
    ensures |a| == |b| ==> a == b
  {
    assert b == a + (b - a);
  }

  /** Comparing two counts decides full coverage: activation succeeds exactly when every chunk has an
      embedding of the model. */
  lemma ActivationMeansCoverage(s: State, model: string)
    requires Inv(s)
    ensures Activated(s, model).1.Ok? <==> Covered(s, model)
  {
    assert Keys(s.rows);
    CountIsCardinality(s.rows, model);
    var indexed := ChunksOf(s.rows, model);
    SubsetCardinality(indexed, s.chunks.Keys);
    if Covered(s, model) {
      forall c | c in s.chunks
        ensures c in indexed
      {
        assert Indexed(s.rows, c, model);
      }
      assert indexed == s.chunks.Keys;
    } else {
      var c :| c in s.chunks && !Indexed(s.rows, c, model);
      assert c !in indexed;
    }
  }

  /** What a refused activation says, and what an accepted one changes. */
  lemma ActivationExact(s: State, model: string)
    requires Inv(s)
    ensures var (s', result) := Activated(s, model);
      && (result.Ok? ==> s' == s.(active := Some(model)))
      && (result.Denied? ==>
          && s' == s && (exists c | c in s.chunks :: !Indexed(s.rows, c, model))
          && result.error == if exists r | r in s.rows :: r.model == model
                             then IndexIncomplete(|ChunksOf(s.rows, model)|, |s.chunks|) else IndexAbsent)
  {
    ActivationMeansCoverage(s, model);
    assert Keys(s.rows);
    CountIsCardinality(s.rows, model);
    if exists r | r in s.rows :: r.model == model {
      var r :| r in s.rows && r.model == model;
      assert r.chunk in ChunksOf(s.rows, model);
    } else {
      assert ChunksOf(s.rows, model) == {};
    }
  }

  /** The chunks that carry no embedding of the model. */
  ghost function Bare(s: State, model: string): set<string> {
    set c | c in s.chunks && !Indexed(s.rows, c, model)
  }

  /** The listed chunks that are gone. */
  ghost function Gone(s: State, order: seq<string>): set<string> {
    set id | id in order && id !in s.chunks
  }

  lemma BackfilledChunks(s: State, order: seq<string>, model: string, at: int)
    requires Inv(s)
    ensures var stale := s.(rows := Backfilled(s.rows, order, model, at));
      && ChunksOf(stale.rows, model) == (s.chunks.Keys - Bare(stale, model)) + Gone(s, order)
      && CountModel(stale.rows, model) == |s.chunks| - |Bare(stale, model)| + |Gone(s, order)|
  {
    assert Keys(s.rows);
    var rows := Backfilled(s.rows, order, model, at);
    var bare, gone := Bare(s.(rows := rows), model), Gone(s, order);
    BackfilledMembers(s.rows, order, model, at);
    CountIsCardinality(rows, model);
    forall c
      ensures c in ChunksOf(rows, model) <==> c in s.chunks.Keys - bare || c in gone
    {
      EmbeddedOrGone(s, order, model, rows, c);
    }
    hide Backfilled, Keys, ChunksOf, Inv, CountModel;
    assert ChunksOf(rows, model) == (s.chunks.Keys - bare) + gone;
    assert bare <= s.chunks.Keys && (s.chunks.Keys - bare) !! gone by {
      hide Indexed;
    }
    assert |s.chunks.Keys - bare| == |s.chunks.Keys| - |bare|;
  }

  lemma EmbeddedOrGone(s: State, order: seq<string>, model: string, rows: seq<Row>, c: string)
    requires Inv(s)
    requires forall r | r in rows :: r in s.rows || (r.chunk in order && r.model == model)
    requires forall id | id in order :: Indexed(rows, id, model)
    ensures c in ChunksOf(rows, model) <==> (c in s.chunks && Indexed(rows, c, model)) || c in Gone(s, order)
  {
    assert c in ChunksOf(rows, model) <==> Indexed(rows, c, model);
    if Indexed(rows, c, model) && c !in s.chunks {
      var r :| r in rows && r.chunk == c && r.model == model;
      assert r !in s.rows;
    }
  }

  /** A back-fill whose list was read earlier misleads the next activation exactly when some chunk has
      no embedding of the model and the listed chunks that are gone make up the number. */
  lemma StaleBackfillMisleadsIff(s: State, order: seq<string>, model: string, at: int)
    requires Inv(s)
    ensures var stale := s.(rows := Backfilled(s.rows, order, model, at));
      && (Activated(stale, model).1.Ok? <==> |Bare(stale, model)| <= |Gone(s, order)|)
      && (Covered(stale, model) <==> |Bare(stale, model)| == 0)
      && (Activated(stale, model).1.Ok? && !Covered(stale, model) <==>
          0 < |Bare(stale, model)| <= |Gone(s, order)|)
  {
    var stale := s.(rows := Backfilled(s.rows, order, model, at));
    BackfilledChunks(s, order, model, at);
    hide Backfilled, CountModel;
    var bare := Bare(stale, model);
    SubsetCardinality(bare, s.chunks.Keys);
    if !Covered(stale, model) {
      var c :| c in s.chunks && !Indexed(stale.rows, c, model);
      assert c in bare;
    } else {
      assert bare == {};
    }
  }

  /** It happens: between the list and the insert a re-chunk replaces the listed chunk. */
  lemma StaleBackfillMisleads()
    ensures exists s: State, order, later: State ::
              && Inv(s) && ListsMissing(s, "m", None, order)
              && later == Rechunked(s, "d", ["new"], None, 2).0
              && var stale := later.(rows := Backfilled(later.rows, order, "m", 3));
                 Activated(stale, "m").1.Ok? && !Covered(stale, "m")
  {
    assert "new"[0] != "old"[0];
    var s := State(map["old" := "d"], [], None);
    RechunkWhole(s, "d", "new");
    BackfillOne("old", "m");
    var later := Rechunked(s, "d", ["new"], None, 2).0;
    var stale := later.(rows := Backfilled(later.rows, ["old"], "m", 3));
    OnlyMissing(s, "m", "old");
    assert stale == State(map["new" := "d"], [Row("old", "m", 3)], None);
    hide Rechunked, Backfilled;
    CountsAgree(stale, "new", "old", "m");
  }

  lemma OnlyMissing(s: State, model: string, id: string)
    requires s.rows == [] && s.chunks.Keys == {id}
    ensures Inv(s) && ListsMissing(s, model, None, [id])
  {
  }

  lemma BackfillOne(id: string, model: string)
    ensures Backfilled([], [id], model, 3) == [Row(id, model, 3)]
  {
    assert [id][..0] == [];
  }

  lemma CountsAgree(s: State, chunk: string, gone: string, model: string)
    requires s.chunks.Keys == {chunk} && s.rows == [Row(gone, model, 3)] && gone != chunk
    ensures Activated(s, model).1.Ok? && !Covered(s, model)
  {
    assert s.rows[..0] == [];
    assert |s.chunks| == |s.chunks.Keys| == 1;
    assert CountModel(s.rows, model) == 1;
    assert !Indexed(s.rows, chunk, model);
  }

  lemma RechunkWhole(s: State, document: string, id: string)
    requires s.rows == [] && forall c | c in s.chunks :: s.chunks[c] == document
    ensures Rechunked(s, document, [id], None, 2).0 == s.(chunks := map[id := document])
    ensures |Rechunked(s, document, [id], None, 2).0.chunks| == 1
  {
    var ids := [id];
    assert ids[0] !in ids[..0];
    assert (set x | x in ids) == {id};
  }

  // ---- retention -----------------------------------------------------------------------------------

  lemma {:induction false} ExcludingMembers(names: seq<string>, out: seq<string>)
    ensures forall n :: n in Excluding(names, out) <==> n in names && n !in out
    ensures NoRepeats(names) ==> NoRepeats(Excluding(names, out))
  {
    if names != [] {
      ExcludingMembers(names[..|names| - 1], out);
      assert names == names[..|names| - 1] + [names[|names| - 1]];
    }
  }

  /** What a prune decides on one state and deletes on a later one: it spares every model it does not
      name and the one it saw active, so also the one then active, if that has not changed. */
  lemma PruneSpares(listed: State, seen: Option<string>, t: Target, later: State)
    ensures var targets := PruneTargets(ListModels(listed.rows), seen, t);
            targets.Ok? ==>
              && (seen.Some? ==> seen.value !in targets.value)
              && (forall r | r in later.rows && r.model !in targets.value :: r in Deleted(later, targets.value).rows)
              && (later.active == seen ==> !LosesActive(later, targets.value))
  {
    var names := ListModels(listed.rows);
    var targets := PruneTargets(names, seen, t);
    hide ListModels;
    if seen.Some? {
      ExcludingMembers(names, [seen.value]);
    }
    if targets.Ok? {
      WithoutMembers(later.rows, targets.value);
    }
  }

  /** The deletion takes an embedding of the active model. */
  ghost predicate LosesActive(s: State, models: seq<string>) {
    exists r | r in s.rows :: s.active == Some(r.model) && r !in Deleted(s, models).rows
  }

  ghost predicate HasRows(rows: seq<Row>, model: string) {
    exists r | r in rows :: r.model == model
  }

  lemma LosesActiveIff(s: State, models: seq<string>)
    ensures LosesActive(s, models) <==>
            s.active.Some? && s.active.value in models && HasRows(s.rows, s.active.value)
  {
    WithoutMembers(s.rows, models);
  }

  /** A model is as recent as its most recent embedding. */
  lemma {:induction false} LatestMeaning(rows: seq<Row>, model: string)
    ensures Latest(rows, model).None? <==> !HasRows(rows, model)
    ensures Latest(rows, model).Some? ==>
              && (exists r | r in rows :: r.model == model && r.created == Latest(rows, model).value)
              && forall r | r in rows && r.model == model :: r.created <= Latest(rows, model).value
  {
    if rows != [] {
      var front, last := rows[..|rows| - 1], rows[|rows| - 1];
      assert rows == front + [last];
      LatestMeaning(front, model);
      if Latest(front, model).Some? {
        var r :| r in front && r.model == model && r.created == Latest(front, model).value;
        assert r in rows;
      }
      assert last in rows;
    }
  }

  lemma ListedModels(rows: seq<Row>)
    ensures NoRepeats(ListModels(rows))
    ensures forall m :: m in ListModels(rows) <==> exists r :: r in rows && r.model == m
    ensures SortedBy((a: string, b: string) => NewerFirst(rows, a, b), ListModels(rows))
  {
    var le := (a: string, b: string) => NewerFirst(rows, a, b);
    forall a: string, b: string
      ensures le(a, b) || le(b, a)
    {
      LexTotal(a, b);
    }
    forall a: string, b: string, c: string | le(a, b) && le(b, c)
      ensures le(a, c)
    {
      if LexLe(a, b) && LexLe(b, c) {
        LexTransitive(a, b, c);
      }
    }
    SortSorts(le, Models(rows));
    SameMembers(ListModels(rows), Models(rows));
    NoRepeatsStay(Models(rows), ListModels(rows));
  }

  lemma {:induction false} ExcludingSorted(le: (string, string) -> bool, names: seq<string>, out: seq<string>)
    requires SortedBy(le, names)
    ensures SortedBy(le, Excluding(names, out))
  {
    if names != [] {
      var front, last := names[..|names| - 1], names[|names| - 1];
      ExcludingSorted(le, front, out);
      ExcludingMembers(front, out);
      forall n | n in Excluding(front, out)
        ensures le(n, last)
      {
        var k :| 0 <= k < |front| && front[k] == n;
        assert le(names[k], names[|names| - 1]);
      }
    }
  }

  lemma {:induction false} NoRepeatsWithin(a: seq<string>, b: seq<string>)
    requires NoRepeats(a) && forall x | x in a :: x in b
    ensures |a| <= |b|
  {
    var x, y := set k | k in a, set k | k in b;
    DistinctCount(a);
    SetAtMost(b);
    SubsetCardinality(x, y);
  }

  lemma {:induction false} SetAtMost(b: seq<string>)
    ensures |set x | x in b| <= |b|
  {
    if b != [] {
      var front, last := b[..|b| - 1], b[|b| - 1];
      SetAtMost(front);
      assert (set x | x in b) == (set x | x in front) + {last};
    }
  }

  /** The window keeps a front stretch of the other models, so every kept one precedes every dropped
      one. */
  lemma KeptPrecedeDropped(le: (string, string) -> bool, names: seq<string>, active: string, keep: int,
                           a: string, b: string)
    requires keep > 0 && SortedBy(le, names)
    requires a in names && a != active && a !in Surplus(names, active, keep) && b in Surplus(names, active, keep)
    ensures le(a, b)
  {
    var others := Excluding(names, [active]);
    var front := if keep - 1 < |others| then others[..keep - 1] else others;
    ExcludingMembers(names, [active]);
    ExcludingMembers(names, [active] + front);
    ExcludingSorted(le, names, [active]);
    hide Excluding;
    assert a in front;
    var i :| 0 <= i < |front| && front[i] == a;
    assert b in others && b !in front;
    var j :| 0 <= j < |others| && others[j] == b;
    assert forall t | 0 <= t < |front| :: others[t] in front;
    assert le(others[i], others[j]);
  }

  /** What a retention decides on `rows` and deletes on `later`: it never drops the model it activated,
      drops no model newer than another one it keeps, and leaves at most `keep` models unless a new
      one came in between. */
  lemma RetentionKeepsNewest(rows: seq<Row>, activated: string, keep: int, later: seq<Row>)
    requires keep > 0
    ensures var names := ListModels(rows);
            var dropped := Surplus(names, activated, keep);
            && activated !in dropped
            && (forall r | r in later && r.model == activated :: r in Without(later, dropped))
            && ((forall m | m in ListModels(later) :: m in names) ==> |ListModels(Without(later, dropped))| <= keep)
            && (forall a, b | a in names && a != activated && a !in dropped && b in dropped :: NewerFirst(rows, a, b))
  {
    var le := (a: string, b: string) => NewerFirst(rows, a, b);
    var names := ListModels(rows);
    var dropped := Surplus(names, activated, keep);
    ListedModels(rows);
    WithoutMembers(later, dropped);
    ExcludingMembers(names, Kept(names, activated, keep));
    if forall m | m in ListModels(later) :: m in names {
      AtMostKept(names, activated, keep, later);
    }
    hide ListModels, Excluding, Without, NewerFirst;
    assert activated == Kept(names, activated, keep)[0];
    hide Surplus;
    forall a, b | a in names && a != activated && a !in dropped && b in dropped
      ensures NewerFirst(rows, a, b)
    {
      KeptPrecedeDropped(le, names, activated, keep, a, b);
    }
  }

  /** The window is filled: with the activated model, the newest others as far as it goes. So no more is
      dropped than has to be, and nothing without a window. */
  lemma SurplusCount(names: seq<string>, activated: string, keep: int)
    requires NoRepeats(names)
    ensures keep <= 0 ==> Surplus(names, activated, keep) == []
    ensures var others := |Excluding(names, [activated])|;
      keep > 0 ==> |Surplus(names, activated, keep)| == if others > keep - 1 then others - (keep - 1) else 0
  {
    if keep > 0 {
      var others, kept := Excluding(names, [activated]), Kept(names, activated, keep);
      ExcludingMembers(names, [activated]);
      ExcludingMembers(names, kept);
      var front, back := kept[1..], others[|kept| - 1..];
      assert others == front + back && kept == [activated] + front;
      hide Excluding, Kept;
      BackOnly(front, back);
      assert forall n :: n in kept <==> n == activated || n in front;
      SameLength(Excluding(names, kept), back);
    }
  }

  lemma SameLength(a: seq<string>, b: seq<string>)
    requires NoRepeats(a) && NoRepeats(b) && forall n :: n in a <==> n in b
    ensures |a| == |b|
  {
    hide NoRepeats;
    NoRepeatsWithin(a, b);
    NoRepeatsWithin(b, a);
  }

  lemma BackOnly(front: seq<string>, back: seq<string>)
    requires NoRepeats(front + back)
    ensures NoRepeats(back) && forall n :: n in back <==> n in front + back && n !in front
  {
    forall i, j | 0 <= i < |front| && 0 <= j < |back|
      ensures front[i] != back[j]
    {
      assert (front + back)[i] != (front + back)[|front| + j];
    }
    forall i, j | 0 <= i < j < |back|
      ensures back[i] != back[j]
    {
      assert (front + back)[|front| + i] != (front + back)[|front| + j];
    }
  }

  /** What each prune target names: the newest of the models other than the one seen active, all of them, or
      one of them; the one seen active is refused. */
  lemma PruneTargetsMeaning(rows: seq<Row>, seen: Option<string>, t: Target)
    ensures var names := ListModels(rows);
      var result := PruneTargets(names, seen, t);
      match t
      case Previous =>
        && result.Ok? && (result.value == [] <==> forall n | n in names :: Some(n) == seen)
        && (result.value != [] ==>
            && |result.value| == 1 && result.value[0] in names && Some(result.value[0]) != seen
            && forall n | n in names && Some(n) != seen && n != result.value[0] :: NewerFirst(rows, result.value[0], n))
      case AllButActive => result.Ok? && forall n :: n in result.value <==> n in names && Some(n) != seen
      case One(m) =>
        if seen == Some(m) then result == Denied(PruneActive) else result == Ok(if m in names then [m] else [])
  {
    ListedModels(rows);
    var names := ListModels(rows);
    var le := (a: string, b: string) => NewerFirst(rows, a, b);
    var others := if seen.Some? then Excluding(names, [seen.value]) else names;
    if seen.Some? {
      ExcludingMembers(names, [seen.value]);
      ExcludingSorted(le, names, [seen.value]);
    }
    hide ListModels, NewerFirst, Excluding;
    assert SortedBy(le, others) && forall n :: n in others <==> n in names && Some(n) != seen;
    forall n | n in others && n != others[0]
      ensures NewerFirst(rows, others[0], n)
    {
      var k :| 0 <= k < |others| && others[k] == n;
      assert le(others[0], others[k]);
    }
  }

  lemma AtMostKept(names: seq<string>, activated: string, keep: int, later: seq<Row>)
    requires keep > 0 && forall m | m in ListModels(later) :: m in names
    ensures |ListModels(Without(later, Surplus(names, activated, keep)))| <= keep
  {
    var dropped, kept := Surplus(names, activated, keep), Kept(names, activated, keep);
    ListedModels(later);
    ListedModels(Without(later, dropped));
    WithoutMembers(later, dropped);
    ExcludingMembers(names, kept);
    hide ListModels, Excluding, Without, NewerFirst;
    forall m | m in ListModels(Without(later, dropped))
      ensures m in kept
    {
      var r :| r in Without(later, dropped) && r.model == m;
      assert r in later && m in names;
    }
    NoRepeatsWithin(ListModels(Without(later, dropped)), kept);
  }

  // ---- deletions planned earlier -------------------------------------------------------------------

  /** The model a command takes to be the active one: it has activated it, or seen it. */
  function Believed(job: Job): Option<string>
    requires job.Retaining? || job.Pruning?
  {
    if job.Retaining? then Some(job.activated) else job.seen
  }

  lemma PlanSparesBelieved(s: State, job: Job, t: Target)
    requires job.Retaining? || job.Pruning?
    ensures Believed(job).Some? ==> Believed(job).value !in Planned(s, job, t)
  {
    var names := ListModels(s.rows);
    hide ListModels;
    if job.Retaining? {
      if job.keep > 0 {
        ExcludingMembers(names, Kept(names, job.activated, job.keep));
        assert Kept(names, job.activated, job.keep)[0] == job.activated;
      }
    } else if job.seen.Some? {
      ExcludingMembers(names, [job.seen.value]);
    }
  }

  /** Where a job comes from: an activation, a read of the active model, or a plan made at step i. */
  ghost predicate Comes(states: seq<World>, steps: seq<Step>, upTo: nat, j: nat, job: Job)
    requires Behaves(states, steps) && upTo <= |steps|
  {
    match job
    case Retaining(model, keep) =>
      exists h | 0 <= h < upTo :: steps[h] == Activate(model, keep) && states[h + 1].index.active == Some(model)
    case Pruning(seen) => exists h | 0 <= h < upTo :: steps[h] == ReadActive && states[h].index.active == seen
    case Deleting(models) => exists i | 0 <= i < upTo :: PlansAt(states[i], steps[i], j, models)
    case _ => true
  }

  /** The step decides, on what this state holds, that job j is to delete the models. */
  ghost predicate PlansAt(w: World, a: Step, j: nat, models: seq<string>) {
    && a.PlanDeletion? && a.job == j && j < |w.jobs| && (w.jobs[j].Retaining? || w.jobs[j].Pruning?)
    && models == Planned(w.index, w.jobs[j], a.target)
  }

  lemma {:induction false} JobsCome(states: seq<World>, steps: seq<Step>, k: nat, j: nat)
    requires Behaves(states, steps) && k <= |steps| && states[0].jobs == [] && j < |states[k].jobs|
    ensures Comes(states, steps, k, j, states[k].jobs[j])
  {
    hide Planned, Rechunked, Backfilled, Without, ListsMissing;
    if k > 0 {
      var w, a, w' := states[k - 1], steps[k - 1], states[k];
      assert Steps(w, a, w');
      if j < |w.jobs| && w.jobs[j] == w'.jobs[j] {
        JobsCome(states, steps, k - 1, j);
        hide Steps, Behaves;
        ComesLater(states, steps, k, j, w.jobs[j]);
      } else if a.PlanDeletion? {
        assert PlansAt(w, a, j, w'.jobs[j].models);
      }
    }
  }

  lemma ComesLater(states: seq<World>, steps: seq<Step>, k: nat, j: nat, job: Job)
    requires Behaves(states, steps) && 0 < k <= |steps| && Comes(states, steps, k - 1, j, job)
    ensures Comes(states, steps, k, j, job)
  {
    hide Behaves, PlansAt;
  }

  /** In every interleaving a deletion carries out a plan made earlier. It takes embeddings of the model
      active at that moment exactly when that model is indexed and in the plan, which it is not if it
      is still the one the command had activated or seen. */
  lemma DeletionLosesActiveIff(states: seq<World>, steps: seq<Step>, k: nat)
    requires Behaves(states, steps) && k < |steps| && states[0].jobs == [] && steps[k].Delete?
    ensures var j, s := steps[k].job, states[k].index;
      j < |states[k].jobs| && states[k].jobs[j].Deleting? && exists i | 0 <= i < k ::
        && PlansAt(states[i], steps[i], j, states[k].jobs[j].models)
        && (LosesActive(s, states[k].jobs[j].models) <==>
            && s.active.Some? && HasRows(s.rows, s.active.value)
            && s.active.value in Planned(states[i].index, states[i].jobs[j], steps[i].target))
        && (s.active == Believed(states[i].jobs[j]) ==> !LosesActive(s, states[k].jobs[j].models))
  {
    hide Planned, Rechunked, Backfilled, Without, ListsMissing, LosesActive;
    var j, s := steps[k].job, states[k].index;
    assert Steps(states[k], steps[k], states[k + 1]);
    JobsCome(states, steps, k, j);
    var models := states[k].jobs[j].models;
    var i :| 0 <= i < k && PlansAt(states[i], steps[i], j, models);
    hide Steps, Behaves;
    LosesActiveIff(s, models);
    PlanSparesBelieved(states[i].index, states[i].jobs[j], steps[i].target);
  }

  // ---- it happens ----------------------------------------------------------------------------------

  /** A sound state in which no command is under way. */
  ghost predicate Idle(w: World) {
    w.jobs == [] && Inv(w.index)
  }

  /** The step deletes the whole index of the active model while there are chunks. */
  ghost predicate LosesIndex(w: World, a: Step, w': World) {
    && a.Delete? && a.job < |w.jobs| && w.jobs[a.job].Deleting? && LosesActive(w.index, w.jobs[a.job].models)
    && w'.index.active.Some? && CountModel(w'.index.rows, w'.index.active.value) == 0 && w'.index.chunks != map[]
  }

  ghost predicate EndsUnindexed(states: seq<World>, steps: seq<Step>) {
    && |states| == |steps| + 1 && |steps| > 0 && Idle(states[0])
    && LosesIndex(states[|steps| - 1], steps[|steps| - 1], states[|steps|])
  }

  /** Two activations whose retentions interleave: the first deletes the index the second activated. */
  lemma RetentionsRace()
    ensures exists states, steps :: Behaves(states, steps) && EndsUnindexed(states, steps)
  {
    var x, y, z := "x", "y", "z";
    assert x[0] == 'x' && y[0] == 'y' && z[0] == 'z';
    var r, q, p := Row("c", z, 3), Row("c", y, 2), Row("c", x, 1);
    var s := State(map["c" := "d"], [r, q, p], None);
    assert s.chunks.Keys == {"c"};
    hide Steps, Behaves, Inv, LosesIndex;
    var early, first := BothActivate(s, "c", x, y, z);
    var late, last := FirstPrunes(s.(active := Some(y), rows := [r, q]), "c", x, y, z);
    var again := s.(active := Some(y));
    DeletionSteps(again, "c", x, y, z);
    assert again.(rows := again.rows[..2]) == late[0].index;
    BehavesJoined(early, first, Delete(1), late, last);
    EndsJoined(early, first, Delete(1), late, last);
  }

  /** The first command activates x, the second y, and the second plans its retention. */
  lemma BothActivate(s: State, c: string, x: string, y: string, z: string) returns (states: seq<World>, steps: seq<Step>)
    requires x != y && y != z && x != z && s.chunks.Keys == {c}
    requires s.rows == [Row(c, z, 3), Row(c, y, 2), Row(c, x, 1)]
    ensures Behaves(states, steps) && states[0] == World(s, []) && Idle(states[0])
    ensures states[|steps|] == World(s.(active := Some(y)), [Retaining(x, 2), Deleting([x])])
  {
    var first, second := s.(active := Some(x)), s.(active := Some(y));
    SoundStart(s, c, x, y, z);
    hide Steps, Inv;
    assert CountModel(s.rows, x) == 1 && CountModel(s.rows, y) == 1 by {
      ThreeModels(c, x, y, z);
    }
    hide CountModel;
    ActivationSteps(s, c, x, y);
    DeletionSteps(second, c, x, y, z);
    states := [World(s, []), World(first, [Retaining(x, 2)]), World(second, [Retaining(x, 2), Retaining(y, 2)]),
               World(second, [Retaining(x, 2), Deleting([x])])];
    steps := [Activate(x, 2), Activate(y, 2), PlanDeletion(1, Previous)];
  }

  /** With x gone, the first command plans its retention for x and deletes y. */
  lemma FirstPrunes(s: State, c: string, x: string, y: string, z: string) returns (states: seq<World>, steps: seq<Step>)
    requires x != y && y != z && x != z && s.chunks.Keys == {c} && s.active == Some(y)
    requires s.rows == [Row(c, z, 3), Row(c, y, 2)]
    ensures Behaves(states, steps) && states[0] == World(s, [Retaining(x, 2), Done]) && |steps| == 2
    ensures LosesIndex(states[1], steps[1], states[2])
  {
    var after := s.(rows := [Row(c, z, 3)]);
    FirstDeletes(s, after, c, x, y, z);
    LastDeletion(s, after, c, y, z);
    hide Steps, LosesIndex;
    states := [World(s, [Retaining(x, 2), Done]), World(s, [Deleting([y]), Done]), World(after, [Done, Done])];
    steps := [PlanDeletion(0, Previous), Delete(0)];
  }

  lemma LastDeletion(s: State, after: State, c: string, y: string, z: string)
    requires y != z && s.chunks.Keys == {c} && s.active == Some(y)
    requires s.rows == [Row(c, z, 3), Row(c, y, 2)] && after == s.(rows := [Row(c, z, 3)])
    ensures LosesIndex(World(s, [Deleting([y]), Done]), Delete(0), World(after, [Done, Done]))
  {
    LosesMiddle(s, c, y, z);
    var none: seq<Row> := [];
    assert none + [Row(c, z, 3)] == after.rows;
    NoneAtAll(y);
    OneMore(none, Row(c, z, 3), y);
    hide LosesActive, CountModel;
    assert c in after.chunks.Keys;
  }

  lemma FirstDeletes(s: State, after: State, c: string, x: string, y: string, z: string)
    requires x != y && y != z && x != z && s.rows == [Row(c, z, 3), Row(c, y, 2)] && after == s.(rows := [Row(c, z, 3)])
    ensures Steps(World(s, [Retaining(x, 2), Done]), PlanDeletion(0, Previous), World(s, [Deleting([y]), Done]))
    ensures Steps(World(s, [Deleting([y]), Done]), Delete(0), World(after, [Done, Done]))
  {
    hide Steps, ListModels, Surplus, Without;
    ThreeModels(c, x, y, z);
    SurplusComputed(x, y, z);
    Plans(World(s, [Retaining(x, 2), Done]), World(s, [Deleting([y]), Done]), 0, [y]);
    Deletes(World(s, [Deleting([y]), Done]), World(after, [Done, Done]), 0, [y]);
  }

  lemma EndsJoined(early: seq<World>, first: seq<Step>, middle: Step, late: seq<World>, last: seq<Step>)
    requires |early| == |first| + 1 && |late| == 3 && |last| == 2
    requires Idle(early[0]) && LosesIndex(late[1], last[1], late[2])
    ensures EndsUnindexed(early + late, first + [middle] + last)
  {
    hide Idle, LosesIndex;
  }

  lemma BehavesJoined(early: seq<World>, first: seq<Step>, middle: Step, late: seq<World>, last: seq<Step>)
    requires Behaves(early, first) && Behaves(late, last) && Steps(early[|first|], middle, late[0])
    ensures Behaves(early + late, first + [middle] + last)
  {
    hide Steps;
    var states, steps := early + late, first + [middle] + last;
    forall k | 0 <= k < |steps|
      ensures Steps(states[k], steps[k], states[k + 1])
    {
      if k < |first| {
        assert states[k] == early[k] && states[k + 1] == early[k + 1] && steps[k] == first[k];
      } else if k > |first| {
        var i := k - |first| - 1;
        assert states[k] == late[i] && states[k + 1] == late[i + 1] && steps[k] == last[i];
      }
    }
  }

  lemma ActivationSteps(s: State, c: string, x: string, y: string)
    requires s.chunks.Keys == {c} && CountModel(s.rows, x) == 1 && CountModel(s.rows, y) == 1
    ensures var first, second := s.(active := Some(x)), s.(active := Some(y));
      && Steps(World(s, []), Activate(x, 2), World(first, [Retaining(x, 2)]))
      && Steps(World(first, [Retaining(x, 2)]), Activate(y, 2), World(second, [Retaining(x, 2), Retaining(y, 2)]))
  {
    hide Steps, CountModel;
    assert |s.chunks| == |s.chunks.Keys| == 1;
    var first, second := World(s.(active := Some(x)), [Retaining(x, 2)]), s.(active := Some(y));
    Activates(World(s, []), first, x, 2);
    Activates(first, World(second, [Retaining(x, 2), Retaining(y, 2)]), y, 2);
  }

  lemma DeletionSteps(s: State, c: string, x: string, y: string, z: string)
    requires x != y && y != z && x != z && s.rows == [Row(c, z, 3), Row(c, y, 2), Row(c, x, 1)]
    ensures var a, later := Retaining(x, 2), s.(rows := s.rows[..2]);
      && Steps(World(s, [a, Retaining(y, 2)]), PlanDeletion(1, Previous), World(s, [a, Deleting([x])]))
      && Steps(World(s, [a, Deleting([x])]), Delete(1), World(later, [a, Done]))
  {
    hide Steps, ListModels, Surplus, Without;
    ThreeModels(c, x, y, z);
    SurplusComputed(x, y, z);
    var a, later := Retaining(x, 2), s.(rows := s.rows[..2]);
    assert later.rows == [Row(c, z, 3), Row(c, y, 2)];
    Plans(World(s, [a, Retaining(y, 2)]), World(s, [a, Deleting([x])]), 1, [x]);
    Deletes(World(s, [a, Deleting([x])]), World(later, [a, Done]), 1, [x]);
  }

  lemma SoundStart(s: State, c: string, x: string, y: string, z: string)
    requires x != y && y != z && x != z && s.chunks.Keys == {c}
    requires s.rows == [Row(c, z, 3), Row(c, y, 2), Row(c, x, 1)]
    ensures Inv(s)
  {
  }

  lemma LosesMiddle(s: State, c: string, y: string, z: string)
    requires y != z && s.active == Some(y) && s.rows == [Row(c, z, 3), Row(c, y, 2)]
    ensures LosesActive(s, [y])
  {
    LosesActiveIff(s, [y]);
    assert Row(c, y, 2) in s.rows;
  }

  lemma Activates(w: World, w': World, model: string, keep: int)
    requires |w.index.chunks| == 1 && CountModel(w.index.rows, model) == 1 && w.index.chunks != map[]
    requires w' == World(w.index.(active := Some(model)), w.jobs + [Retaining(model, keep)])
    ensures Steps(w, Activate(model, keep), w')
  {
  }

  lemma Plans(w: World, w': World, k: nat, models: seq<string>)
    requires k < |w.jobs| && w.jobs[k].Retaining? && models == Planned(w.index, w.jobs[k], Previous)
    requires w' == w.(jobs := w.jobs[k := Deleting(models)])
    ensures Steps(w, PlanDeletion(k, Previous), w')
  {
    hide Planned;
  }

  lemma Deletes(w: World, w': World, k: nat, models: seq<string>)
    requires k < |w.jobs| && w.jobs[k] == Deleting(models)
    requires w' == World(Deleted(w.index, models), w.jobs[k := Done])
    ensures Steps(w, Delete(k), w')
  {
    hide Deleted;
  }

  // One row or one name more, for computing on short lists.

  lemma OneMore(rows: seq<Row>, r: Row, m: string)
    ensures CountModel(rows + [r], m) == if r.model == m then CountModel(rows, m) + 1 else CountModel(rows, m)
    ensures Without(rows + [r], [m]) == if r.model == m then Without(rows, [m]) else Without(rows, [m]) + [r]
    ensures Models(rows + [r]) == if r.model in Models(rows) then Models(rows) else Models(rows) + [r.model]
    ensures r.model != m ==> Latest(rows + [r], m) == Latest(rows, m)
    ensures r.model == m && Latest(rows, m).None? ==> Latest(rows + [r], m) == Some(r.created)
  {
    assert (rows + [r])[..|rows|] == rows;
  }

  lemma NoneAtAll(m: string)
    ensures CountModel([], m) == 0 && Without([], [m]) == [] && Models([]) == [] && Latest([], m) == None
  {
  }

  lemma OneNameMore(names: seq<string>, n: string, out: seq<string>)
    ensures Excluding(names + [n], out) == if n in out then Excluding(names, out) else Excluding(names, out) + [n]
  {
    assert (names + [n])[..|names|] == names;
  }

  /** Three models, each of one row, listed newest first. */
  lemma ThreeModels(c: string, x: string, y: string, z: string)
    requires x != y && y != z && x != z
    ensures var three, two := [Row(c, z, 3), Row(c, y, 2), Row(c, x, 1)], [Row(c, z, 3), Row(c, y, 2)];
      && CountModel(three, x) == 1 && CountModel(three, y) == 1 && CountModel([Row(c, z, 3)], y) == 0
      && ListModels(three) == [z, y, x] && ListModels(two) == [z, y]
      && Without(three, [x]) == two && Without(two, [y]) == [Row(c, z, 3)]
  {
    var r, q, p := Row(c, z, 3), Row(c, y, 2), Row(c, x, 1);
    var three, two := [r, q, p], [r, q];
    hide CountModel, Without, Models, Latest;
    ThreeListed(c, x, y, z);
    Computed(c, x, x, y, z);
    Computed(c, y, x, y, z);
    Computed(c, z, x, y, z);
    ListsSorted(three, [z, y, x]);
    ListsSorted(two, [z, y]);
  }

  lemma Computed(c: string, m: string, x: string, y: string, z: string)
    requires x != y && y != z && x != z
    ensures var three, two := [Row(c, z, 3), Row(c, y, 2), Row(c, x, 1)], [Row(c, z, 3), Row(c, y, 2)];
      && (m == x ==> Latest(three, m) == Some(1) && CountModel(three, m) == 1 && Without(three, [m]) == two)
      && (m == y ==> Latest(three, m) == Latest(two, m) == Some(2) && CountModel(three, m) == 1
                     && CountModel([Row(c, z, 3)], m) == 0 && Without(two, [m]) == [Row(c, z, 3)])
      && (m == z ==> Latest(three, m) == Latest(two, m) == Some(3))
  {
    hide CountModel, Without, Models, Latest;
    var r, q, p := Row(c, z, 3), Row(c, y, 2), Row(c, x, 1);
    var none: seq<Row> := [];
    assert none + [r] == [r] && [r] + [q] == [r, q] && [r, q] + [p] == [r, q, p];
    NoneAtAll(m);
    OneMore(none, r, m);
    assert Without([r], [m]) == if m == z then [] else [r];
    OneMore([r], q, m);
    OneMore([r, q], p, m);
  }

  lemma ThreeListed(c: string, x: string, y: string, z: string)
    requires x != y && y != z && x != z
    ensures var three, two := [Row(c, z, 3), Row(c, y, 2), Row(c, x, 1)], [Row(c, z, 3), Row(c, y, 2)];
      Models(three) == [z, y, x] && Models(two) == [z, y]
  {
    hide CountModel, Without, Models, Latest;
    var r, q, p := Row(c, z, 3), Row(c, y, 2), Row(c, x, 1);
    var none: seq<Row> := [];
    assert none + [r] == [r] && [r] + [q] == [r, q] && [r, q] + [p] == [r, q, p];
    NoneAtAll(x);
    OneMore(none, r, x);
    OneMore([r], q, x);
    assert Models([r]) == [z] && Models([r, q]) == [z, y];
    OneMore([r, q], p, x);
  }

  lemma ListsSorted(rows: seq<Row>, names: seq<string>)
    requires Models(rows) == names
    requires forall i, j | 0 <= i < j < |names| :: Age(rows, names[i]) > Age(rows, names[j])
    ensures ListModels(rows) == names
  {
    SortIdentity((a: string, b: string) => NewerFirst(rows, a, b), names);
  }

  lemma SurplusComputed(x: string, y: string, z: string)
    requires x != y && y != z && x != z
    ensures Surplus([z, y, x], y, 2) == [x] && Surplus([z, y], x, 2) == [y]
  {
    hide Excluding;
    ExcludedOfThree(x, y, z, [y]);
    ExcludedOfThree(x, y, z, [y, z]);
    ExcludedOfThree(x, y, z, [x]);
    ExcludedOfThree(x, y, z, [x, z]);
    assert Excluding([z, y, x], [y]) == [z, x] && [z, x][..1] == [z] && [y] + [z] == [y, z];
    assert Excluding([z, y], [x]) == [z, y] && [z, y][..1] == [z] && [x] + [z] == [x, z];
  }

  lemma ExcludedOfThree(x: string, y: string, z: string, out: seq<string>)
    ensures var two := if z in out then (if y in out then [] else [y]) else if y in out then [z] else [z, y];
      Excluding([z, y], out) == two && Excluding([z, y, x], out) == if x in out then two else two + [x]
  {
    hide Excluding;
    var none: seq<string> := [];
    assert none + [z] == [z] && [z] + [y] == [z, y] && [z, y] + [x] == [z, y, x];
    assert Excluding(none, out) == [] by {
      NothingExcluded(out);
    }
    OneNameMore(none, z, out);
    OneNameMore([z], y, out);
    OneNameMore([z, y], x, out);
  }

  lemma NothingExcluded(out: seq<string>)
    ensures Excluding([], out) == []
  {
  }
}
