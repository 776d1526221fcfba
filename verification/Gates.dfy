/** The completion gate shared by Q2 and W2, and the session digest
    (kaizen_components/agent_runs.py). Both recompute run state from events. */
module Gates {
  import opened Wrappers
  import opened Orders
  import opened Reduction
  import opened Ledger
  import opened Histories

  /** `run_blocks_completion`. */
  predicate BlocksCompletion(state: RunState) {
    !state.terminal && (state.openChildren != [] || state.unresolvedApprovals != [])
  }

  /** What the gate reports when it denies. */
  datatype Block = Block(runs: seq<string>, liveChildren: nat, approvals: nat)

  /** The linked runs, among the table rows `ids`, that block. */
  function BlockingRuns(db: Db, ids: seq<string>, taskId: string): seq<string> {
    if ids == [] then []
    else
      var front, last := BlockingRuns(db, ids[..|ids| - 1], taskId), ids[|ids| - 1];
      if last in db.runs && db.runs[last].taskId == Some(taskId) && BlocksCompletion(Reduced(db.runs[last].log))
      then front + [last] else front
  }

  function OpenCount(db: Db, ids: seq<string>, kind: Kind): nat {
    if ids == [] then 0
    else
      var front, last := OpenCount(db, ids[..|ids| - 1], kind), ids[|ids| - 1];
      if last !in db.runs then front
      else
        var state := Reduced(db.runs[last].log);
        front + if kind == Subagent then |state.openChildren| else |state.unresolvedApprovals|
  }

  function LiveBlock(db: Db, taskId: string): Option<Block> {
    var runs := BlockingRuns(db, db.ids, taskId);
    if runs == [] then None
    else Some(Block(runs, OpenCount(db, runs, Subagent), OpenCount(db, runs, Approval)))
  }

  /** The open spans of one kind over some runs, counted in their events. */
  ghost function OpenTotal(db: Db, ids: seq<string>, kind: Kind): nat {
    if ids == [] then 0
    else
      OpenTotal(db, ids[..|ids| - 1], kind)
      + if ids[|ids| - 1] in db.runs then |OpenIds(db.runs[ids[|ids| - 1]].log, kind)| else 0
  }

  lemma {:induction false} OpenCountIsTotal(db: Db, ids: seq<string>)
    ensures OpenCount(db, ids, Subagent) == OpenTotal(db, ids, Subagent)
    ensures OpenCount(db, ids, Approval) == OpenTotal(db, ids, Approval)
  {
    hide Reduced, OpenIds;
    if ids != [] {
      var last := ids[|ids| - 1];
      OpenCountIsTotal(db, ids[..|ids| - 1]);
      if last in db.runs {
        OpenCountMeaning(db.runs[last].log, Subagent);
        OpenCountMeaning(db.runs[last].log, Approval);
      }
    }
  }

  lemma {:induction false} BlockingRunsListed(db: Db, ids: seq<string>, taskId: string)
    ensures forall r :: r in BlockingRuns(db, ids, taskId) <==>
              r in ids && r in db.runs && db.runs[r].taskId == Some(taskId) && BlocksCompletion(Reduced(db.runs[r].log))
  {
    hide Reduced;
    if ids != [] {
      BlockingRunsListed(db, ids[..|ids| - 1], taskId);
      assert ids == ids[..|ids| - 1] + [ids[|ids| - 1]];
    }
  }

  /** `task_live_orchestration`. */
  method TaskLiveOrchestration(db: Db, taskId: string) returns (block: Option<Block>)
    ensures block == LiveBlock(db, taskId)
  {
    hide Reduced;
    var runs: seq<string>, children: nat, approvals: nat := [], 0, 0;
    for i := 0 to |db.ids|
      invariant runs == BlockingRuns(db, db.ids[..i], taskId)
      invariant children == OpenCount(db, runs, Subagent) && approvals == OpenCount(db, runs, Approval)
    {
      assert db.ids[..i + 1][..i] == db.ids[..i];
      var run := db.ids[i];
      if run in db.runs && db.runs[run].taskId == Some(taskId) {
        var state := Reduce(db.runs[run].log);
        if BlocksCompletion(state) {
          assert (runs + [run])[..|runs|] == runs;
          runs := runs + [run];
          children := children + |state.openChildren|;
          approvals := approvals + |state.unresolvedApprovals|;
        }
      }
    }
    assert db.ids[..|db.ids|] == db.ids;
    block := if runs == [] then None else Some(Block(runs, children, approvals));
  }

  // ---- what passing the gate means -----------------------------------------------------------------

  /** A linked run that has no finalization and holds an open child or an open approval. */
  ghost predicate LiveRun(run: Run, taskId: string) {
    && run.taskId == Some(taskId)
    && !Finalized(run.log)
    && exists s: Span :: s.kind in {Subagent, Approval} && OpenSpan(run.log, s)
  }

  lemma BlocksMeaning(log: seq<Event>)
    ensures BlocksCompletion(Reduced(log)) <==>
            !Finalized(log) && exists s: Span :: s.kind in {Subagent, Approval} && OpenSpan(log, s)
  {
    var state := Reduced(log);
    TerminalMeaning(log);
    hide Reduced;
    if state.openChildren != [] {
      OpenListMeaning(log, Subagent, state.openChildren[0]);
      assert OpenSpan(log, Span(Subagent, state.openChildren[0]));
    }
    if state.unresolvedApprovals != [] {
      OpenListMeaning(log, Approval, state.unresolvedApprovals[0]);
      assert OpenSpan(log, Span(Approval, state.unresolvedApprovals[0]));
    }
    if exists s: Span :: s.kind in {Subagent, Approval} && OpenSpan(log, s) {
      var s: Span :| s.kind in {Subagent, Approval} && OpenSpan(log, s);
      OpenListMeaning(log, s.kind, s.correlation);
    }
  }

  /** The gate passes exactly when no linked run is live; otherwise it names the live runs, each
      once, and its counts are the sums over them. */
  lemma GateMeaning(db: Db, taskId: string)
    requires Reachable(db)
    ensures LiveBlock(db, taskId).None? <==> forall r | r in db.runs :: !LiveRun(db.runs[r], taskId)
    ensures LiveBlock(db, taskId).Some? ==>
              var b := LiveBlock(db, taskId).value;
              && NoRepeats(b.runs)
              && (forall r :: r in b.runs <==> r in db.runs && LiveRun(db.runs[r], taskId))
              && b.liveChildren == OpenTotal(db, b.runs, Subagent)
              && b.approvals == OpenTotal(db, b.runs, Approval)
              && b.liveChildren + b.approvals > 0
  {
    hide Reduced;
    ReachableInv(db);
    BlockingRunsListed(db, db.ids, taskId);
    forall r | r in db.runs
      ensures LiveRun(db.runs[r], taskId) <==> r in BlockingRuns(db, db.ids, taskId)
    {
      BlocksMeaning(db.runs[r].log);
    }
    BlockingRunsOnce(db, db.ids, taskId);
    var runs := BlockingRuns(db, db.ids, taskId);
    OpenCountIsTotal(db, runs);
    if runs != [] {
      assert runs[|runs| - 1] in runs;
    }
  }

  lemma {:induction false} BlockingRunsOnce(db: Db, ids: seq<string>, taskId: string)
    requires NoRepeats(ids)
    ensures NoRepeats(BlockingRuns(db, ids, taskId))
  {
    hide Reduced;
    if ids != [] {
      var front := ids[..|ids| - 1];
      BlockingRunsOnce(db, front, taskId);
      BlockingRunsListed(db, front, taskId);
    }
  }

  // ---- the session digest --------------------------------------------------------------------------

  datatype Entry = Entry(id: string, openChildren: nat, approvals: nat)

  function EntryOf(id: string, run: Run): Entry {
    var state := Reduced(run.log);
    Entry(id, |state.openChildren|, |state.unresolvedApprovals|)
  }

  /** The non-terminal runs, recomputed from events with no look at the cache. */
  ghost function ActiveEntries(db: Db, ids: seq<string>): seq<Entry>
    requires forall r | r in ids :: r in db.runs
  {
    if ids == [] then []
    else
      var front, last := ActiveEntries(db, ids[..|ids| - 1]), ids[|ids| - 1];
      if Reduced(db.runs[last].log).terminal then front else front + [EntryOf(last, db.runs[last])]
  }

  ghost function Waiting(entries: seq<Entry>): seq<Entry> {
    if entries == [] then []
    else
      var front, last := Waiting(entries[..|entries| - 1]), entries[|entries| - 1];
      if last.approvals > 0 then front + [last] else front
  }

  ghost function ChildSum(entries: seq<Entry>): nat {
    if entries == [] then 0 else ChildSum(entries[..|entries| - 1]) + entries[|entries| - 1].openChildren
  }

  lemma PrefilterExact(db: Db, run: string)
    requires Reachable(db) && run in db.runs
    ensures Skipped(db.runs[run]) <==> Reduced(db.runs[run].log).terminal
  {
    hide Reduced;
    CacheTerminal(db, run);
  }

  /** `state NOT IN ('completed', 'failed')` rules the row out. */
  predicate Skipped(run: Run) {
    run.state == COMPLETED || run.state == FAILED
  }

  /** The runs of the table whose recomputed state leaks, in table order. */
  ghost function LeakingRuns(db: Db, ids: seq<string>): seq<string> {
    if ids == [] then []
    else
      var front, last := LeakingRuns(db, ids[..|ids| - 1]), ids[|ids| - 1];
      if last in db.runs && Reduced(db.runs[last].log).childLeak then front + [last] else front
  }

  lemma LeaksGrow(db: Db, i: nat)
    requires i < |db.ids|
    ensures var before, run := LeakingRuns(db, db.ids[..i]), db.ids[i];
            LeakingRuns(db, db.ids[..i + 1]) ==
            if run in db.runs && Reduced(db.runs[run].log).childLeak then before + [run] else before
  {
    hide Reduced;
    assert db.ids[..i + 1][..i] == db.ids[..i];
  }

  /** `find_child_leaks`. */
  method FindChildLeaks(db: Db) returns (leaks: seq<string>)
    ensures leaks == LeakingRuns(db, db.ids)
  {
    hide Reduced, LeakingRuns;
    assert db.ids[..0] == [] && LeakingRuns(db, []) == [] by {
      NoLeaksYet(db);
    }
    leaks := [];
    for i := 0 to |db.ids|
      invariant leaks == LeakingRuns(db, db.ids[..i])
    {
      LeaksGrow(db, i);
      var run := db.ids[i];
      if run in db.runs {
        var state := Reduce(db.runs[run].log);
        if state.childLeak {
          leaks := leaks + [run];
        }
      }
    }
    assert db.ids[..|db.ids|] == db.ids;
  }

  lemma NoLeaksYet(db: Db)
    ensures LeakingRuns(db, []) == []
  {
  }

  /** The canary counts exactly the runs whose last finalization reads success over an open child. */
  lemma {:induction false} LeakingRunsMeaning(db: Db, ids: seq<string>)
    requires Reachable(db)
    ensures forall r :: r in LeakingRuns(db, ids) <==>
              r in ids && r in db.runs && SaysSuccess(db.runs[r].log) && SomeOpenChild(db.runs[r].log)
  {
    hide Reduced, SaysSuccess, SomeOpenChild, Reachable;
    if ids != [] {
      var last := ids[|ids| - 1];
      LeakingRunsMeaning(db, ids[..|ids| - 1]);
      assert ids == ids[..|ids| - 1] + [last];
      ReachableInv(db);
      if last in db.runs {
        SourcesOnceIn(db, last);
        LeakMeaning(db.runs[last].log);
      }
    }
  }

  /** A run that T6 alone has finalized over an open child is not live for the gate. */
  lemma UngatedLeakPasses(run: Run, taskId: string)
    requires LeaksUngated(run)
    ensures !LiveRun(run, taskId) && !BlocksCompletion(Reduced(run.log))
  {
    hide Reduced;
    TerminalMeaning(run.log);
  }

  lemma ActiveGrows(db: Db, rows: seq<string>, i: nat)
    requires i < |rows| && forall r | r in rows :: r in db.runs
    ensures var active, run := ActiveEntries(db, rows[..i]), rows[i];
            ActiveEntries(db, rows[..i + 1]) ==
            if Reduced(db.runs[run].log).terminal then active else active + [EntryOf(run, db.runs[run])]
  {
    hide Reduced, EntryOf;
    assert rows[..i + 1][..i] == rows[..i];
  }

  lemma EntryMore(active: seq<Entry>, entry: Entry)
    ensures ChildSum(active + [entry]) == ChildSum(active) + entry.openChildren
    ensures Waiting(active + [entry]) == if entry.approvals > 0 then Waiting(active) + [entry] else Waiting(active)
  {
    assert (active + [entry])[..|active|] == active;
  }

  lemma NoEntriesYet(db: Db)
    ensures ActiveEntries(db, []) == [] && Waiting([]) == [] && ChildSum([]) == 0
  {
  }

  datatype Digest = Digest(active: seq<Entry>, waiting: seq<Entry>, liveChildren: nat, leaks: nat, activeCount: nat,
                           waitingCount: nat)

  function Shown<T>(all: seq<T>, limit: nat): seq<T> {
    if limit < |all| then all[..limit] else all
  }

  /** The scan behind the digest, over `rows` in whatever order the query lists them; the cached column
      only pre-filters it. */
  method Scan(db: Db, rows: seq<string>) returns (active: seq<Entry>, waiting: seq<Entry>, liveChildren: nat)
    requires Reachable(db) && forall r | r in rows :: r in db.runs
    ensures active == ActiveEntries(db, rows) && waiting == Waiting(active) && liveChildren == ChildSum(active)
  {
    hide Reduced, Reachable, Skipped, ActiveEntries, Waiting, ChildSum;
    active, waiting, liveChildren := [], [], 0;
    NoEntriesYet(db);
    assert rows[..0] == [];
    for i := 0 to |rows|
      invariant active == ActiveEntries(db, rows[..i])
      invariant waiting == Waiting(active) && liveChildren == ChildSum(active)
    {
      var run := rows[i];
      PrefilterExact(db, run);
      ActiveGrows(db, rows, i);
      if !Skipped(db.runs[run]) {
        var state := Reduce(db.runs[run].log);
        if !state.terminal {
          var entry := Entry(run, |state.openChildren|, |state.unresolvedApprovals|);
          EntryMore(active, entry);
          active, liveChildren := active + [entry], liveChildren + entry.openChildren;
          if state.unresolvedApprovals != [] {
            waiting := waiting + [entry];
          }
        }
      }
    }
    assert rows[..|rows|] == rows;
  }

  /** `session_digest_sections`: counts over all runs, lists cut at the limit. On a reachable ledger the
      pre-filter loses no live run. */
  method SessionDigest(db: Db, rows: seq<string>, limit: nat) returns (d: Digest)
    requires Reachable(db) && forall r | r in rows :: r in db.runs
    ensures var active := ActiveEntries(db, rows);
      && d.active <= active && |d.active| == (if limit < |active| then limit else |active|)
      && d.waiting <= Waiting(active) && |d.waiting| == (if limit < |Waiting(active)| then limit else |Waiting(active)|)
      && d.liveChildren == ChildSum(active) && d.activeCount == |active| && d.waitingCount == |Waiting(active)|
      && d.leaks == |LeakingRuns(db, db.ids)|
  {
    var active, waiting, liveChildren := Scan(db, rows);
    var leaks := FindChildLeaks(db);
    d := Digest(Shown(active, limit), Shown(waiting, limit), liveChildren, |leaks|, |active|, |waiting|);
  }

  // ---- what the digest says of the events ----------------------------------------------------------

  lemma EntryMeaning(id: string, run: Run)
    ensures EntryOf(id, run) ==
            Entry(id, |OpenIds(run.log, Subagent)|, |OpenIds(run.log, Approval)|)
  {
    hide Reduced, OpenIds;
    OpenCountMeaning(run.log, Subagent);
    OpenCountMeaning(run.log, Approval);
  }

  ghost function IdsOf(entries: seq<Entry>): seq<string> {
    seq(|entries|, i requires 0 <= i < |entries| => entries[i].id)
  }

  /** The rows without a finalization, in scan order; with `waiting`, only those with an open approval. */
  ghost function Unfinished(db: Db, rows: seq<string>, waiting: bool): seq<string>
    requires forall r | r in rows :: r in db.runs
  {
    if rows == [] then []
    else
      var front, log := Unfinished(db, rows[..|rows| - 1], waiting), db.runs[rows[|rows| - 1]].log;
      if !Finalized(log) && (waiting ==> OpenIds(log, Approval) != {}) then front + [rows[|rows| - 1]] else front
  }

  lemma UnfinishedMore(db: Db, front: seq<string>, last: string, waiting: bool)
    requires last in db.runs && forall r | r in front :: r in db.runs
    ensures var log := db.runs[last].log;
            Unfinished(db, front + [last], waiting) == Unfinished(db, front, waiting)
              + if !Finalized(log) && (waiting ==> OpenIds(log, Approval) != {}) then [last] else []
  {
    hide Finalized, OpenIds;
    assert (front + [last])[..|front|] == front;
  }

  /** The entries of a digest list the unfinished runs and, of these, the waiting ones, with their counts. */
  ghost predicate Digested(db: Db, rows: seq<string>, active: seq<Entry>)
    requires forall r | r in rows :: r in db.runs
  {
    && IdsOf(active) == Unfinished(db, rows, false) && IdsOf(Waiting(active)) == Unfinished(db, rows, true)
    && ChildSum(active) == OpenTotal(db, IdsOf(active), Subagent)
    && forall e | e in active :: e.id in db.runs && e == EntryOf(e.id, db.runs[e.id])
  }

  lemma DigestedMore(db: Db, front: seq<string>, last: string, active: seq<Entry>, more: seq<Entry>)
    requires last in db.runs && (forall r | r in front :: r in db.runs) && Digested(db, front, active)
    requires more == if Finalized(db.runs[last].log) then active else active + [EntryOf(last, db.runs[last])]
    ensures Digested(db, front + [last], more)
  {
    hide EntryOf, Finalized, OpenIds, IdsOf, Unfinished, Waiting, ChildSum, OpenTotal, Reduced;
    UnfinishedMore(db, front, last, false);
    UnfinishedMore(db, front, last, true);
    if !Finalized(db.runs[last].log) {
      var entry := EntryOf(last, db.runs[last]);
      EntryMeaning(last, db.runs[last]);
      CountIsNone(OpenIds(db.runs[last].log, Approval));
      EntryMore(active, entry);
      IdsMore(active, entry);
      IdsMore(Waiting(active), entry);
      OpenTotalMore(db, IdsOf(active), last);
    }
  }

  lemma CountIsNone<T>(s: set<T>)
    ensures |s| == 0 <==> s == {}
  {
  }

  /** The digest lists the unfinished runs and, of these, the waiting ones, in scan order; its counts are
      those of the open spans in their events. */
  lemma {:induction false} DigestMeaning(db: Db, rows: seq<string>)
    requires forall r | r in rows :: r in db.runs
    ensures Digested(db, rows, ActiveEntries(db, rows))
  {
    if rows == [] {
      NothingDigested(db);
    } else {
      var front, last := rows[..|rows| - 1], rows[|rows| - 1];
      DigestMeaning(db, front);
      hide Digested, ActiveEntries, Reduced, EntryOf, Finalized;
      ActiveMore(db, front, last);
      DigestedMore(db, front, last, ActiveEntries(db, front), ActiveEntries(db, front + [last]));
      assert rows == front + [last];
    }
  }

  lemma NothingDigested(db: Db)
    ensures Digested(db, [], ActiveEntries(db, []))
  {
  }

  lemma ActiveMore(db: Db, front: seq<string>, last: string)
    requires last in db.runs && forall r | r in front :: r in db.runs
    ensures var active, run := ActiveEntries(db, front), db.runs[last];
            ActiveEntries(db, front + [last]) == if Finalized(run.log) then active else active + [EntryOf(last, run)]
  {
    assert (front + [last])[..|front|] == front;
    TerminalMeaning(db.runs[last].log);
    hide Reduced, EntryOf, Finalized;
  }

  lemma IdsMore(entries: seq<Entry>, e: Entry)
    ensures IdsOf(entries + [e]) == IdsOf(entries) + [e.id]
  {
  }

  lemma OpenTotalMore(db: Db, ids: seq<string>, id: string)
    requires id in db.runs
    ensures OpenTotal(db, ids + [id], Subagent) == OpenTotal(db, ids, Subagent) + |OpenIds(db.runs[id].log, Subagent)|
  {
    hide OpenIds;
    assert (ids + [id])[..|ids|] == ids;
  }
}
