/** The orchestration ledger: the steps T5, T6 and T8 over the run and event tables, their
    denormalised cache, the completion gate and the session digest
    (kaizen_components/agent_runs.py).

    Transactions commit in some serial order; a refused or retried attempt leaves no effect. */
module Ledger {
  import opened Wrappers
  import opened Orders
  import opened Reduction

  const STARTED := "started"
  const RUNNING := "running"
  const WAITING := "waiting_approval"
  const COMPLETED := "completed"
  const FAILED := "failed"

  /** An agent_runs row with the agent_events rows of that run. */
  datatype Run = Run(taskId: Option<string>, state: string, failure: Option<Kind>, log: seq<Event>)

  /** `ids` is the run table's row order; `owner` is the event table's primary-key index, which
      holds for each event id the run it belongs to. */
  datatype Db = Db(ids: seq<string>, runs: map<string, Run>, owner: map<string, string>)

  const EMPTY_DB := Db([], map[], map[])

  /** A T6 payload after schema validation, with the id, time and hash minted before the transaction. */
  datatype Draft = Draft(id: string, createdAt: string, source: Option<string>, correlation: Option<string>,
                         kind: Kind, marker: Marker, contentHash: string)

  datatype Conclusion = Succeeded | HasFailed | Canceled | TimedOutRun

  datatype Denial =
    | KindMarkerDenied | CorrelationRequired | RunNotFound | RowConflict
    | AlreadyFinalized(state: Option<TerminalState>)
    | NotTerminal(openChildren: seq<Option<string>>, approvals: seq<Option<string>>)

  datatype Landed = Landed(id: string, sequenceNo: int, contentHash: string, deduplicated: bool)

  datatype Finalized' = Finalized'(forcedClose: nat, childLeak: bool)

  function AllowedMarkers(kind: Kind): set<Marker> {
    match kind
    case Subagent | Turn => {Open, CloseOk, CloseFail, CloseCanceled}
    case Approval => {Open, Resolved, Declined, TimedOut}
    case ToolCall => {Open, CloseOk, CloseFail}
    case Finalization => {CloseOk, CloseFail, CloseCanceled}
    case _ => {Point}
  }

  function FinalizeMarker(c: Conclusion): Marker {
    match c
    case Succeeded => CloseOk
    case HasFailed | TimedOutRun => CloseFail
    case Canceled => CloseCanceled
  }

  function CacheLabel(state: RunState): string {
    if state.terminal then (if state.terminalState == Some(Success) then COMPLETED else FAILED)
    else if state.unresolvedApprovals != [] then WAITING
    else RUNNING
  }

  /** `COALESCE(MAX(sequence_no), 0)`. */
  function MaxSequence(log: seq<Event>): int {
    if log == [] then 0
    else
      var rest, last := MaxSequence(log[..|log| - 1]), log[|log| - 1].sequenceNo;
      if |log| == 1 || last > rest then last else rest
  }

  function FindSource(log: seq<Event>, source: string): (r: Option<Event>)
    ensures r.Some? ==> r.value in log && r.value.source == Some(source)
    ensures r.None? ==> forall e | e in log :: e.source != Some(source)
  {
    if log == [] then None
    else if log[0].source == Some(source) then Some(log[0])
    else
      assert log == [log[0]] + log[1..];
      FindSource(log[1..], source)
  }

  /** `_refresh_cache`. */
  function Refreshed(run: Run): Run {
    var state := Reduced(run.log);
    run.(state := CacheLabel(state), failure := state.failureCategory)
  }

  predicate DraftAccepted(d: Draft) {
    && d.marker in AllowedMarkers(d.kind)
    && (IsSpanKind(d.kind) ==> d.correlation.Some? && d.correlation.value != "")
  }

  function Row(d: Draft, sequenceNo: int): Event {
    Event(d.id, d.createdAt, sequenceNo, d.source, d.correlation, d.kind, d.marker, d.contentHash)
  }

  // ---- the steps as functions of the tables ------------------------------------------------------

  function Started(db: Db, id: string, taskId: Option<string>): (Db, Result<string, Denial>) {
    if id in db.runs then (db, Denied(RowConflict))
    else (db.(ids := db.ids + [id], runs := db.runs[id := Run(taskId, STARTED, None, [])]), Ok(id))
  }

  function Appended(db: Db, run: string, e: Event): Db
    requires run in db.runs
  {
    var row := db.runs[run];
    db.(runs := db.runs[run := Refreshed(row.(log := row.log + [e]))], owner := db.owner[e.id := run])
  }

  function Added(db: Db, run: string, d: Draft): (Db, Result<Landed, Denial>) {
    if d.marker !in AllowedMarkers(d.kind) then (db, Denied(KindMarkerDenied))
    else if !DraftAccepted(d) then (db, Denied(CorrelationRequired))
    else if run !in db.runs then (db, Denied(RunNotFound))
    else
      var log := db.runs[run].log;
      var existing := if d.source.Some? then FindSource(log, d.source.value) else None;
      if existing.Some? then
        (db, Ok(Landed(existing.value.id, existing.value.sequenceNo, existing.value.contentHash, true)))
      else if d.id in db.owner then (db, Denied(RowConflict))
      else
        var e := Row(d, MaxSequence(log) + 1);
        (Appended(db, run, e), Ok(Landed(e.id, e.sequenceNo, e.contentHash, false)))
  }

  function Concluded(db: Db, run: string, c: Conclusion, id: string, createdAt: string, hash: string)
    : (Db, Result<Finalized', Denial>)
  {
    if run !in db.runs then (db, Denied(RunNotFound))
    else
      var log := db.runs[run].log;
      var state := Reduced(log);
      var forced := |state.openChildren| + |state.unresolvedApprovals|;
      if state.terminal then (db, Denied(AlreadyFinalized(state.terminalState)))
      else if c == Succeeded && forced > 0 then
        (db, Denied(NotTerminal(state.openChildren, state.unresolvedApprovals)))
      else if id in db.owner then (db, Denied(RowConflict))
      else
        var e := Event(id, createdAt, MaxSequence(log) + 1, None, None, Finalization, FinalizeMarker(c), hash);
        (Appended(db, run, e), Ok(Finalized'(forced, c != Succeeded && state.openChildren != [])))
  }

  // ---- the steps as the operations perform them --------------------------------------------------

  class Tables {
    var ids: seq<string>
    var runs: map<string, Run>
    var owner: map<string, string>

    constructor ()
      ensures Value() == EMPTY_DB
    {
      ids, runs, owner := [], map[], map[];
    }

    function Value(): Db
      reads this
    {
      Db(ids, runs, owner)
    }

    method RefreshCache(run: string)
      requires run in runs
      modifies this`runs
      ensures runs == old(runs)[run := Refreshed(old(runs)[run])]
    {
      var state := Reduce(runs[run].log);
      runs := runs[run := runs[run].(state := CacheLabel(state), failure := state.failureCategory)];
    }

    /** T5. */
    method StartRun(id: string, taskId: Option<string>) returns (result: Result<string, Denial>)
      modifies this
      ensures (Value(), result) == Started(old(Value()), id, taskId)
    {
      if id in runs {
        return Denied(RowConflict);
      }
      ids := ids + [id];
      runs := runs[id := Run(taskId, STARTED, None, [])];
      result := Ok(id);
    }

    /** T6. */
    method AddEvent(run: string, d: Draft) returns (result: Result<Landed, Denial>)
      modifies this
      ensures (Value(), result) == Added(old(Value()), run, d)
    {
      hide Reduced;
      if d.marker !in AllowedMarkers(d.kind) {
        return Denied(KindMarkerDenied);
      }
      if IsSpanKind(d.kind) && (d.correlation.None? || d.correlation.value == "") {
        return Denied(CorrelationRequired);
      }
      if run !in runs {
        return Denied(RunNotFound);
      }
      if d.source.Some? {
        var existing := FindSource(runs[run].log, d.source.value);
        if existing.Some? {
          var e := existing.value;
          return Ok(Landed(e.id, e.sequenceNo, e.contentHash, true));
        }
      }
      var sequenceNo := MaxSequence(runs[run].log) + 1;
      if d.id in owner {
        return Denied(RowConflict);
      }
      runs := runs[run := runs[run].(log := runs[run].log + [Row(d, sequenceNo)])];
      owner := owner[d.id := run];
      RefreshCache(run);
      assert runs == Added(old(Value()), run, d).0.runs;
      result := Ok(Landed(d.id, sequenceNo, d.contentHash, false));
    }

    /** T8. */
    method Finalize(run: string, c: Conclusion, id: string, createdAt: string, hash: string)
      returns (result: Result<Finalized', Denial>)
      modifies this
      ensures (Value(), result) == Concluded(old(Value()), run, c, id, createdAt, hash)
    {
      hide Reduced, MaxSequence, FinalizeMarker, CacheLabel;
      if run !in runs {
        return Denied(RunNotFound);
      }
      var state := Reduce(runs[run].log);
      if state.terminal {
        return Denied(AlreadyFinalized(state.terminalState));
      }
      var forced := |state.openChildren| + |state.unresolvedApprovals|;
      if c == Succeeded && forced > 0 {
        return Denied(NotTerminal(state.openChildren, state.unresolvedApprovals));
      }
      var sequenceNo := MaxSequence(runs[run].log) + 1;
      if id in owner {
        return Denied(RowConflict);
      }
      var e := Event(id, createdAt, sequenceNo, None, None, Finalization, FinalizeMarker(c), hash);
      runs := runs[run := runs[run].(log := runs[run].log + [e])];
      owner := owner[id := run];
      RefreshCache(run);
      assert runs == Concluded(old(Value()), run, c, id, createdAt, hash).0.runs;
      result := Ok(Finalized'(forced, c != Succeeded && state.openChildren != []));
    }
  }

  // ---- histories ---------------------------------------------------------------------------------

  datatype Command =
    | T5(id: string, taskId: Option<string>)
    | T6(run: string, draft: Draft)
    | T8(run: string, conclusion: Conclusion, id: string, createdAt: string, hash: string)

  function Next(db: Db, c: Command): Db {
    match c
    case T5(id, taskId) => Started(db, id, taskId).0
    case T6(run, draft) => Added(db, run, draft).0
    case T8(run, conclusion, id, createdAt, hash) => Concluded(db, run, conclusion, id, createdAt, hash).0
  }

  function Exec(db: Db, commands: seq<Command>): Db
    decreases |commands|
  {
    if commands == [] then db else Exec(Next(db, commands[0]), commands[1..])
  }

  ghost predicate Gapless(log: seq<Event>) {
    forall k | 0 <= k < |log| :: log[k].sequenceNo == k + 1
  }

  ghost predicate SourcesOnce(log: seq<Event>) {
    forall i, j | 0 <= i < j < |log| && log[i].source.Some? :: log[i].source != log[j].source
  }

  ghost predicate IdsOnce(log: seq<Event>) {
    forall i, j | 0 <= i < j < |log| :: log[i].id != log[j].id
  }

  ghost predicate CacheAgrees(run: Run) {
    if run.log == [] then run.state == STARTED && run.failure == None else run == Refreshed(run)
  }

  ghost predicate GoodRun(run: Run) {
    Gapless(run.log) && SourcesOnce(run.log) && IdsOnce(run.log) && CacheAgrees(run)
  }

  ghost predicate Indexed(log: seq<Event>, owner: map<string, string>, run: string) {
    forall e | e in log :: e.id in owner && owner[e.id] == run
  }

  ghost predicate Inv(db: Db) {
    && NoRepeats(db.ids)
    && (forall r :: r in db.ids <==> r in db.runs)
    && (forall r | r in db.runs :: GoodRun(db.runs[r]) && Indexed(db.runs[r].log, db.owner, r))
  }

  lemma {:induction false} MaxIsLength(log: seq<Event>)
    requires Gapless(log)
    ensures MaxSequence(log) == |log|
  {
    if log != [] {
      MaxIsLength(log[..|log| - 1]);
    }
  }

  lemma AppendKeepsLog(log: seq<Event>, e: Event)
    requires Gapless(log) && SourcesOnce(log) && IdsOnce(log) && e.sequenceNo == |log| + 1
    requires forall x | x in log :: x.id != e.id
    requires e.source.Some? ==> forall x | x in log :: x.source != e.source
    ensures Gapless(log + [e]) && SourcesOnce(log + [e]) && IdsOnce(log + [e])
  {
    forall i | 0 <= i < |log|
      ensures log[i].id != e.id && (e.source.Some? ==> log[i].source != e.source)
    {
      assert log[i] in log;
    }
  }

  lemma AppendKeepsInv(db: Db, run: string, e: Event)
    requires Inv(db) && run in db.runs && e.sequenceNo == MaxSequence(db.runs[run].log) + 1
    requires e.id !in db.owner
    requires e.source.Some? ==> forall x | x in db.runs[run].log :: x.source != e.source
    ensures Inv(Appended(db, run, e))
  {
    hide Reduced;
    var row, db' := db.runs[run], Appended(db, run, e);
    assert GoodRun(row) && Indexed(row.log, db.owner, run);
    MaxIsLength(row.log);
    AppendKeepsLog(row.log, e);
    assert GoodRun(Refreshed(row.(log := row.log + [e])));
    hide GoodRun, Refreshed, MaxSequence;
    forall r | r in db'.runs
      ensures GoodRun(db'.runs[r]) && Indexed(db'.runs[r].log, db'.owner, r)
    {
      assert GoodRun(db.runs[r]) && Indexed(db.runs[r].log, db.owner, r);
      if r == run {
        RefreshKeepsLog(row.(log := row.log + [e]));
        assert forall x | x in row.log + [e] :: x in row.log || x == e;
      }
    }
  }

  lemma RefreshKeepsLog(run: Run)
    ensures Refreshed(run).log == run.log
  {
  }

  lemma StartKeepsInv(db: Db, id: string, taskId: Option<string>)
    requires Inv(db)
    ensures Inv(Started(db, id, taskId).0)
  {
    var db' := Started(db, id, taskId).0;
    forall r | r in db'.runs
      ensures GoodRun(db'.runs[r]) && Indexed(db'.runs[r].log, db'.owner, r)
    {
      assert r in db.runs ==> GoodRun(db.runs[r]) && Indexed(db.runs[r].log, db.owner, r);
    }
  }

  lemma AddKeepsInv(db: Db, run: string, d: Draft)
    requires Inv(db)
    ensures Inv(Added(db, run, d).0)
  {
    hide Reduced, Inv;
    if Added(db, run, d).0 != db {
      AppendKeepsInv(db, run, Row(d, MaxSequence(db.runs[run].log) + 1));
    }
  }

  lemma ConcludeKeepsInv(db: Db, run: string, c: Conclusion, id: string, createdAt: string, hash: string)
    requires Inv(db)
    ensures Inv(Concluded(db, run, c, id, createdAt, hash).0)
  {
    hide Reduced, Inv;
    if Concluded(db, run, c, id, createdAt, hash).0 != db {
      AppendKeepsInv(db, run, Event(id, createdAt, MaxSequence(db.runs[run].log) + 1, None, None, Finalization,
                                    FinalizeMarker(c), hash));
    }
  }

  lemma NextKeepsInv(db: Db, c: Command)
    requires Inv(db)
    ensures Inv(Next(db, c))
  {
    hide Started, Added, Concluded, Inv;
    match c
    case T5(id, taskId) => StartKeepsInv(db, id, taskId);
    case T6(run, d) => AddKeepsInv(db, run, d);
    case T8(run, conclusion, id, createdAt, hash) => ConcludeKeepsInv(db, run, conclusion, id, createdAt, hash);
  }

  /** Every reachable ledger: sequence numbers 1..n, each source id once per run, cache in agreement. */
  lemma {:induction false} ExecKeepsInv(db: Db, commands: seq<Command>)
    requires Inv(db)
    ensures Inv(Exec(db, commands))
    decreases |commands|
  {
    if commands != [] {
      NextKeepsInv(db, commands[0]);
      ExecKeepsInv(Next(db, commands[0]), commands[1..]);
    }
  }
}
