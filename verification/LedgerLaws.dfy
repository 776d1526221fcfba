/** What each step of the ledger does and refuses, said of the events alone
    (kaizen_components/agent_runs.py). */
module LedgerLaws {
  import opened Wrappers
  import opened Orders
  import opened Reduction
  import opened Ledger
  import opened Histories

  /** Some child or approval is open. */
  ghost predicate SomethingOpen(log: seq<Event>) {
    OpenIds(log, Subagent) != {} || OpenIds(log, Approval) != {}
  }

  /** The run's log has gained this event; its cache is refreshed, and nothing else has changed. */
  ghost predicate Gained(db: Db, run: string, e: Event, db': Db) {
    && run in db.runs && db'.ids == db.ids && db'.owner == db.owner[e.id := run]
    && db'.runs.Keys == db.runs.Keys
    && db'.runs[run].taskId == db.runs[run].taskId && db'.runs[run].log == db.runs[run].log + [e]
    && CacheAgrees(db'.runs[run])
    && forall r | r in db.runs && r != run :: db'.runs[r] == db.runs[r]
  }

  lemma AppendedGains(db: Db, run: string, e: Event)
    requires run in db.runs
    ensures Gained(db, run, e, Appended(db, run, e))
  {
    hide Reduced;
  }

  // ---- T5 ------------------------------------------------------------------------------------------

  /** A run starts under a new id, without events, and no other run changes. */
  lemma StartExact(db: Db, id: string, taskId: Option<string>)
    ensures var (db', result) := Started(db, id, taskId);
      && (result.Ok? <==> id !in db.runs) && (result.Denied? ==> db' == db)
      && (result.Ok? ==>
          && result.value == id && id in db'.runs && db'.ids == db.ids + [id] && db'.owner == db.owner
          && db'.runs[id].log == [] && db'.runs[id].taskId == taskId && CacheAgrees(db'.runs[id])
          && forall r | r in db.runs :: r in db'.runs && db'.runs[r] == db.runs[r])
  {
    hide Reduced;
  }

  // ---- T6 ------------------------------------------------------------------------------------------

  /** The kinds that are spans. */
  ghost predicate Spans(kind: Kind) {
    match kind
    case Subagent | Approval | Turn | ToolCall => true
    case _ => false
  }

  /** A span can be opened, and its other markers close it. Every other kind but the finalization is a point. */
  lemma MarkersOfKind(kind: Kind)
    ensures Spans(kind) ==>
              Open in AllowedMarkers(kind) && AllowedMarkers(kind) - {Open} <= CloseMarkers(kind)
              && Open !in CloseMarkers(kind) && CloseMarkers(kind) - AllowedMarkers(kind) <= {CloseCanceled}
    ensures kind == Finalization ==> AllowedMarkers(kind) == {CloseOk, CloseFail, CloseCanceled}
    ensures !Spans(kind) && kind != Finalization ==> AllowedMarkers(kind) == {Point}
  {
  }

  /** The log holds a row of the draft's source id. */
  ghost predicate Delivered(log: seq<Event>, d: Draft) {
    exists e | e in log :: d.source.Some? && e.source == d.source
  }

  /** T6 says why it refuses, in this order; it reports an earlier delivery of the source id and changes
      nothing, and otherwise appends the draft under the next number. */
  lemma DeliveryExact(db: Db, run: string, d: Draft)
    requires Inv(db)
    ensures var (db', result) := Added(db, run, d);
      var needsId := Spans(d.kind) && (d.correlation == None || d.correlation == Some(""));
      if d.marker !in AllowedMarkers(d.kind) then result == Denied(KindMarkerDenied) && db' == db
      else if needsId then result == Denied(CorrelationRequired) && db' == db
      else if run !in db.runs then result == Denied(RunNotFound) && db' == db
      else if Delivered(db.runs[run].log, d) then db' == db && result.Ok? && result.value.deduplicated
      else if d.id in db.owner then result == Denied(RowConflict) && db' == db
      else
        var e := Event(d.id, d.createdAt, |db.runs[run].log| + 1, d.source, d.correlation, d.kind, d.marker, d.contentHash);
        Gained(db, run, e, db') && result == Ok(Landed(d.id, e.sequenceNo, d.contentHash, false))
  {
    hide Reduced, Gained;
    if run in db.runs {
      SourcesOnceIn(db, run);
      MaxIsLength(db.runs[run].log);
      AppendedGains(db, run, Row(d, |db.runs[run].log| + 1));
    }
  }

  lemma FailureAfter(log: seq<Event>, e: Event)
    requires Gapless(log) && Gapless(log + [e])
    ensures Reduced(log + [e]).failureCategory
         == if IsFailurePoint(e) then Some(e.kind) else Reduced(log).failureCategory
  {
    FailureFolded(log);
    FailureFolded(log + [e]);
    FoldMore(log, e);
    StepFinalization(FoldAll(log), e);
    hide FoldAll, Reduced, Gapless, IsFailurePoint, Step;
  }

  lemma FailureFolded(log: seq<Event>)
    requires Gapless(log)
    ensures Reduced(log).failureCategory == FoldAll(log).failure
  {
    LogIsSorted(log);
    hide FoldAll, OpenOf, Gapless;
  }

  lemma FoldMore(log: seq<Event>, e: Event)
    ensures FoldAll(log + [e]) == Step(FoldAll(log), e)
  {
    hide Step;
    assert (log + [e])[..|log|] == log;
  }

  /** A delivered failure is the run's cached failure from then on, until the next; nothing else that is
      delivered changes the column. */
  lemma FailureCached(db: Db, run: string, d: Draft)
    requires Inv(db) && Added(db, run, d).1.Ok? && !Added(db, run, d).1.value.deduplicated
    ensures run in db.runs && run in Added(db, run, d).0.runs
         && Added(db, run, d).0.runs[run].failure
            == match d.kind
               case Transport | Auth | RateLimit | Context => Some(d.kind)
               case _ => db.runs[run].failure
  {
    hide Reduced;
    var log := db.runs[run].log;
    SourcesOnceIn(db, run);
    MaxIsLength(log);
    FailureAfter(log, Row(d, |log| + 1));
    if log == [] {
      NothingFailed();
    }
  }

  lemma NothingFailed()
    ensures Reduced([]).failureCategory == None
  {
  }

  // ---- T8 ------------------------------------------------------------------------------------------

  lemma NothingForced(log: seq<Event>)
    ensures |Reduced(log).openChildren| == |OpenIds(log, Subagent)|
    ensures |Reduced(log).unresolvedApprovals| == |OpenIds(log, Approval)|
    ensures Reduced(log).openChildren == [] <==> OpenIds(log, Subagent) == {}
    ensures Reduced(log).unresolvedApprovals == [] <==> OpenIds(log, Approval) == {}
  {
    hide Reduced;
    OpenCountMeaning(log, Subagent);
    OpenCountMeaning(log, Approval);
  }

  /** T8 is refused as already finalized exactly when the log holds a finalization; else a success is
      refused exactly when something is open; else it lands under a new id. A refusal changes nothing. */
  lemma FinalizeExact(db: Db, run: string, c: Conclusion, id: string, createdAt: string, hash: string)
    requires Inv(db)
    ensures var (db', result) := Concluded(db, run, c, id, createdAt, hash);
      && (result.Denied? ==> db' == db)
      && if run !in db.runs then result == Denied(RunNotFound)
         else
           var log := db.runs[run].log;
           var marker := match c case Succeeded => CloseOk case Canceled => CloseCanceled case _ => CloseFail;
           if Finalized(log) then
             result == Denied(AlreadyFinalized(Some(if SaysSuccess(log) then Success else Failure)))
           else if c == Succeeded && SomethingOpen(log) then
             && result.Denied? && result.error.NotTerminal?
             && (set x | x in result.error.openChildren) == OpenIds(log, Subagent)
             && (set x | x in result.error.approvals) == OpenIds(log, Approval)
           else if id in db.owner then result == Denied(RowConflict)
           else
             && Gained(db, run, Event(id, createdAt, |log| + 1, None, None, Finalization, marker, hash), db')
             && result.Ok? && result.value.forcedClose == |OpenIds(log, Subagent)| + |OpenIds(log, Approval)|
             && (result.value.childLeak <==> c != Succeeded && OpenIds(log, Subagent) != {})
  {
    hide Reduced, Gained, OpenIds, SaysSuccess, Finalized;
    if run in db.runs {
      var log := db.runs[run].log;
      SourcesOnceIn(db, run);
      MaxIsLength(log);
      TerminalMeaning(log);
      SuccessMeaning(log);
      NothingForced(log);
      OpenCountMeaning(log, Subagent);
      OpenCountMeaning(log, Approval);
      AppendedGains(db, run, Event(id, createdAt, |log| + 1, None, None, Finalization, FinalizeMarker(c), hash));
    }
  }

  lemma FinalizedStays(before: seq<Event>, after: seq<Event>)
    requires before <= after && Finalized(before)
    ensures Finalized(after)
  {
    var e :| e in before && e.kind == Finalization;
    assert e in after;
  }

  /** After one accepted T8, every later T8 on that run is refused, whatever comes in between. */
  lemma FinalizedOnce(db: Db, run: string, c: Conclusion, id: string, createdAt: string, hash: string,
                      commands: seq<Command>, c': Conclusion, id': string, createdAt': string, hash': string)
    requires Inv(db) && Concluded(db, run, c, id, createdAt, hash).1.Ok?
    ensures var later := Exec(Concluded(db, run, c, id, createdAt, hash).0, commands);
      var again := Concluded(later, run, c', id', createdAt', hash');
      again.0 == later && again.1.Denied? && again.1.error.AlreadyFinalized?
  {
    hide Reduced, Exec, Concluded, OpenIds;
    var db' := Concluded(db, run, c, id, createdAt, hash).0;
    FinalizeExact(db, run, c, id, createdAt, hash);
    ConcludeKeepsInv(db, run, c, id, createdAt, hash);
    assert db'.runs[run].log[|db.runs[run].log|].kind == Finalization;
    assert db'.runs[run].log[|db.runs[run].log|] in db'.runs[run].log;
    ExecExtendsLog(db', commands, run);
    ExecKeepsInv(db', commands);
    FinalizedStays(db'.runs[run].log, Exec(db', commands).runs[run].log);
    FinalizeExact(Exec(db', commands), run, c', id', createdAt', hash');
  }

  // ---- the cached label ----------------------------------------------------------------------------

  lemma LabelsDiffer()
    ensures STARTED != RUNNING && STARTED != WAITING && STARTED != COMPLETED && STARTED != FAILED
    ensures RUNNING != WAITING && RUNNING != COMPLETED && RUNNING != FAILED
    ensures WAITING != COMPLETED && WAITING != FAILED && COMPLETED != FAILED
  {
    assert |STARTED| == 7 && |RUNNING| == 7 && |WAITING| == 16 && |COMPLETED| == 9 && |FAILED| == 6;
    assert STARTED[0] == 's' && RUNNING[0] == 'r';
  }

  /** What the cached column of a reachable ledger says of the run's events. */
  lemma CacheMeaning(db: Db, run: string)
    requires Reachable(db) && run in db.runs
    ensures var row := db.runs[run];
      && (row.state == STARTED <==> row.log == [])
      && (row.state == COMPLETED <==> SaysSuccess(row.log))
      && (row.state == FAILED <==> Finalized(row.log) && !SaysSuccess(row.log))
      && (row.state == WAITING <==> !Finalized(row.log) && OpenIds(row.log, Approval) != {})
      && (row.state == RUNNING <==> row.log != [] && !Finalized(row.log) && OpenIds(row.log, Approval) == {})
  {
    hide Reduced, Reachable, OpenIds;
    ReachableInv(db);
    SourcesOnceIn(db, run);
    LabelsDiffer();
    var log := db.runs[run].log;
    if log == [] {
      NothingIn();
    } else {
      TerminalMeaning(log);
      NothingForced(log);
      SuccessMeaning(log);
    }
  }

  lemma NothingIn()
    ensures !Finalized([]) && !SaysSuccess([]) && OpenIds([], Approval) == {}
  {
  }

  lemma SuccessMeaning(log: seq<Event>)
    requires Gapless(log)
    ensures Reduced(log).terminalState == Some(Success) <==> SaysSuccess(log)
    ensures Finalized(log) ==> Reduced(log).terminalState == Some(if SaysSuccess(log) then Success else Failure)
  {
    LogIsSorted(log);
    hide Reduced;
    TerminalMeaning(log);
    if Finalized(log) {
      var k := LastFinalization(log);
      LastFinalizationWins(log, k);
      if SaysSuccess(log) {
        var i :| 0 <= i < |log| && log[i].kind == Finalization && log[i].marker == CloseOk
          && forall j | i < j < |log| :: log[j].kind != Finalization;
        assert i == k;
      }
    }
  }
}
