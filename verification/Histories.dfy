/** What whole runs of the ledger guarantee: replay, sequencing, cache agreement, leaks. */
module Histories {
  import opened Wrappers
  import opened Orders
  import opened Reduction
  import opened Ledger

  ghost predicate Reachable(db: Db) {
    exists commands :: db == Exec(EMPTY_DB, commands)
  }

  lemma ReachableInv(db: Db)
    requires Reachable(db)
    ensures Inv(db)
  {
    var commands :| db == Exec(EMPTY_DB, commands);
    ExecKeepsInv(EMPTY_DB, commands);
  }

  // ---- the event log is append-only --------------------------------------------------------------

  lemma NextExtendsLog(db: Db, c: Command, run: string)
    requires run in db.runs
    ensures run in Next(db, c).runs && db.runs[run].log <= Next(db, c).runs[run].log
    ensures Next(db, c).runs[run].taskId == db.runs[run].taskId
  {
    hide Reduced;
  }

  lemma {:induction false} ExecExtendsLog(db: Db, commands: seq<Command>, run: string)
    requires run in db.runs
    ensures run in Exec(db, commands).runs && db.runs[run].log <= Exec(db, commands).runs[run].log
    ensures Exec(db, commands).runs[run].taskId == db.runs[run].taskId
    decreases |commands|
  {
    hide Next;
    if commands != [] {
      NextExtendsLog(db, commands[0], run);
      ExecExtendsLog(Next(db, commands[0]), commands[1..], run);
    }
  }

  // ---- idempotent replay -------------------------------------------------------------------------

  lemma {:induction false} FindSourceUnique(log: seq<Event>, e: Event)
    requires SourcesOnce(log) && e in log && e.source.Some?
    ensures FindSource(log, e.source.value) == Some(e)
  {
    if log[0] != e {
      var k :| 0 <= k < |log| && log[k] == e;
      assert log[1..][k - 1] == e;
      assert log[0].source != log[k].source;
      FindSourceUnique(log[1..], e);
    }
  }

  /** An accepted delivery leaves its row in the log, under the id and number it reported. */
  lemma DeliveryLands(db: Db, run: string, d: Draft)
    requires Inv(db) && d.source.Some? && Added(db, run, d).1.Ok?
    ensures run in Added(db, run, d).0.runs
    ensures var landed := Added(db, run, d).1.value;
            exists e :: e in Added(db, run, d).0.runs[run].log && e.source == d.source
              && e.id == landed.id && e.sequenceNo == landed.sequenceNo && e.contentHash == landed.contentHash
  {
    hide Reduced, Inv;
    var log := db.runs[run].log;
    var existing := FindSource(log, d.source.value);
    if existing.Some? {
      assert existing.value in log;
    } else {
      var e := Row(d, MaxSequence(log) + 1);
      assert (log + [e])[|log|] == e;
      assert e in Added(db, run, d).0.runs[run].log;
    }
  }

  /** Delivering a source id again, after any history, reports the first row and changes nothing. */
  lemma Redelivery(db: Db, run: string, first: Draft, commands: seq<Command>, again: Draft)
    requires Reachable(db) && first.source.Some? && Added(db, run, first).1.Ok?
    requires again.source == first.source && DraftAccepted(again)
    ensures var landed := Added(db, run, first).1.value;
            var later := Exec(Added(db, run, first).0, commands);
            Added(later, run, again) ==
            (later, Ok(Landed(landed.id, landed.sequenceNo, landed.contentHash, true)))
  {
    hide Reduced, Inv;
    ReachableInv(db);
    DeliveryLands(db, run, first);
    var then' := Added(db, run, first).0;
    var later := Exec(then', commands);
    AddKeepsInv(db, run, first);
    ExecKeepsInv(then', commands);
    ExecExtendsLog(then', commands, run);
    var landed := Added(db, run, first).1.value;
    var e :| e in then'.runs[run].log && e.source == first.source
      && e.id == landed.id && e.sequenceNo == landed.sequenceNo && e.contentHash == landed.contentHash;
    assert e in later.runs[run].log;
    SourcesOnceIn(later, run);
    FindSourceUnique(later.runs[run].log, e);
  }

  lemma SourcesOnceIn(db: Db, run: string)
    requires Inv(db) && run in db.runs
    ensures SourcesOnce(db.runs[run].log) && Gapless(db.runs[run].log) && CacheAgrees(db.runs[run])
    ensures IdsOnce(db.runs[run].log)
  {
    assert GoodRun(db.runs[run]);
  }

  // ---- the cache ---------------------------------------------------------------------------------

  /** The cached column is terminal exactly when the recomputed state is. */
  lemma CacheTerminal(db: Db, run: string)
    requires Reachable(db) && run in db.runs
    ensures db.runs[run].state in {COMPLETED, FAILED} <==> Reduced(db.runs[run].log).terminal
    ensures db.runs[run].failure == Reduced(db.runs[run].log).failureCategory
  {
    ReachableInv(db);
    SourcesOnceIn(db, run);
    LabelTerminal(Reduced(db.runs[run].log));
    if db.runs[run].log == [] {
      assert Sort(KeyLe, []) == [];
    }
  }

  lemma LabelTerminal(state: RunState)
    ensures CacheLabel(state) in {COMPLETED, FAILED} <==> state.terminal
    ensures STARTED !in {COMPLETED, FAILED}
  {
    assert STARTED[0] == 's' && COMPLETED[0] == 'c' && FAILED[0] == 'f' && RUNNING[0] == 'r' && WAITING[0] == 'w';
  }

  /** A reachable log is already in key order, so the fold reads it as it was written. */
  lemma LogIsSorted(log: seq<Event>)
    requires Gapless(log)
    ensures Sort(KeyLe, log) == log
  {
    SortIdentity(KeyLe, log);
  }

  // ---- leaks -------------------------------------------------------------------------------------

  /** Success as the last word so far. */
  ghost predicate SaysSuccess(log: seq<Event>) {
    exists k | 0 <= k < |log| ::
      && log[k].kind == Finalization && log[k].marker == CloseOk
      && forall j | k < j < |log| :: log[j].kind != Finalization
  }

  ghost predicate SomeOpenChild(log: seq<Event>) {
    exists c :: OpenSpan(log, Span(Subagent, c))
  }

  /** The run leaks: its last finalization reads success while a child span is open. */
  lemma LeakMeaning(log: seq<Event>)
    requires Gapless(log)
    ensures Reduced(log).childLeak <==> SomeOpenChild(log) && SaysSuccess(log)
  {
    LeakParts(log);
    hide Reduced;
    SomeChildOpen(log);
    hide SomeOpenChild, OpenSpan;
    FoldFinalization(log);
    if Finalized(log) {
      var k := LastFinalization(log);
      FoldLastFinalization(log, k);
      hide FoldAll;
    }
  }

  lemma LeakParts(log: seq<Event>)
    requires Gapless(log)
    ensures Reduced(log).childLeak <==>
            FoldAll(log).finalization == Some(CloseOk) && Reduced(log).openChildren != []
  {
    LogIsSorted(log);
    hide FoldAll, OpenOf;
  }

  lemma SomeChildOpen(log: seq<Event>)
    ensures Reduced(log).openChildren != [] <==> SomeOpenChild(log)
  {
    hide Reduced, OpenSpan;
    var children := Reduced(log).openChildren;
    if SomeOpenChild(log) {
      var c :| OpenSpan(log, Span(Subagent, c));
      OpenListMeaning(log, Subagent, c);
    }
    if children != [] {
      OpenListMeaning(log, Subagent, children[0]);
    }
  }

  /** Which event makes a log without a leak leak: a success finalization over an open child, or the
      opening of a child, never closed, after a last word of success. */
  lemma AppendLeaksIff(log: seq<Event>, e: Event)
    requires Gapless(log) && e.sequenceNo == |log| + 1 && !Reduced(log).childLeak
    ensures Reduced(log + [e]).childLeak <==>
      || (e.kind == Finalization && e.marker == CloseOk && SomeOpenChild(log))
      || (e.kind == Subagent && e.marker == Open && SaysSuccess(log)
          && Phase(log, Span(Subagent, e.correlation)) != Closed)
  {
    hide Reduced, OpenSpan, Phase, SaysSuccess, SomeOpenChild;
    LeakMeaning(log);
    LeakMeaning(log + [e]);
    LastWordAfter(log, e);
    OpenChildAfter(log, e);
  }

  lemma LastWordAfter(log: seq<Event>, e: Event)
    ensures SaysSuccess(log + [e]) <==> if e.kind == Finalization then e.marker == CloseOk else SaysSuccess(log)
  {
    var all := log + [e];
    assert all[|log|] == e;
    if e.kind != Finalization && SaysSuccess(log) {
      var k :| 0 <= k < |log| && log[k].kind == Finalization && log[k].marker == CloseOk
        && forall j | k < j < |log| :: log[j].kind != Finalization;
      assert all[k] == log[k];
    }
    if e.kind != Finalization && SaysSuccess(all) {
      var k :| 0 <= k < |all| && all[k].kind == Finalization && all[k].marker == CloseOk
        && forall j | k < j < |all| :: all[j].kind != Finalization;
      assert log[k] == all[k] && forall j | k < j < |log| :: log[j] == all[j];
    }
  }

  /** A child is open after the event if the event opened it, or it was open and the event did not close it. */
  lemma OpenChildAfter(log: seq<Event>, e: Event)
    ensures e.kind == Finalization ==> (SomeOpenChild(log + [e]) <==> SomeOpenChild(log))
    ensures !SomeOpenChild(log) ==> (SomeOpenChild(log + [e]) <==>
              e.kind == Subagent && e.marker == Open && Phase(log, Span(Subagent, e.correlation)) != Closed)
  {
    forall c
      ensures e.kind != Subagent ==> (OpenSpan(log + [e], Span(Subagent, c)) <==> OpenSpan(log, Span(Subagent, c)))
      ensures !OpenSpan(log, Span(Subagent, c)) ==> (OpenSpan(log + [e], Span(Subagent, c)) <==>
                e.kind == Subagent && e.marker == Open && e.correlation == c && Phase(log, Span(Subagent, c)) != Closed)
    {
      OpenAfter(log, e, Span(Subagent, c));
    }
    hide OpenSpan, Phase;
    if !SomeOpenChild(log) && e.kind == Subagent && e.marker == Open {
      assert OpenSpan(log + [e], Span(Subagent, e.correlation)) <==>
          Phase(log, Span(Subagent, e.correlation)) != Closed;
    }
  }

  lemma OpenAfter(log: seq<Event>, e: Event, span: Span)
    requires span.kind == Subagent
    ensures e.kind != Subagent ==> (OpenSpan(log + [e], span) <==> OpenSpan(log, span))
    ensures !OpenSpan(log, span) ==> (OpenSpan(log + [e], span) <==>
              e.kind == Subagent && e.marker == Open && e.correlation == span.correlation && Phase(log, span) != Closed)
  {
    forall m
      ensures Recorded(log + [e], span, m) <==>
          Recorded(log, span, m) || (e.kind == span.kind && e.correlation == span.correlation && e.marker == m)
    {
      if Recorded(log, span, m) {
        RecordedGrows(log, [e], span, m);
      }
      assert e in log + [e];
    }
    hide Recorded;
  }

  /** Of a T6 delivery that lands as a new row, in a reachable ledger: the same, of its draft. */
  lemma DeliveryLeaksIff(db: Db, run: string, d: Draft)
    requires Reachable(db) && run in db.runs && !Reduced(db.runs[run].log).childLeak
    requires Added(db, run, d).1.Ok? && !Added(db, run, d).1.value.deduplicated
    ensures run in Added(db, run, d).0.runs
    ensures var log := db.runs[run].log;
      Reduced(Added(db, run, d).0.runs[run].log).childLeak <==>
      || (d.kind == Finalization && d.marker == CloseOk && SomeOpenChild(log))
      || (d.kind == Subagent && d.marker == Open && SaysSuccess(log)
          && Phase(log, Span(Subagent, d.correlation)) != Closed)
  {
    hide Reduced, Phase, SomeOpenChild, SaysSuccess, Reachable;
    ReachableInv(db);
    SourcesOnceIn(db, run);
    var log := db.runs[run].log;
    MaxIsLength(log);
    AppendLeaksIff(log, Row(d, |log| + 1));
  }

  lemma {:induction false} LastFinalization(log: seq<Event>) returns (k: nat)
    requires Finalized(log)
    ensures k < |log| && log[k].kind == Finalization && forall j | k < j < |log| :: log[j].kind != Finalization
  {
    var e :| e in log && e.kind == Finalization;
    k := |log| - 1;
    while log[k].kind != Finalization
      invariant 0 <= k < |log| && forall j | k < j < |log| :: log[j].kind != Finalization
      invariant exists i :: 0 <= i <= k && log[i] == e
      decreases k
    {
      k := k - 1;
    }
  }

  ghost predicate IsOpenEvent(e: Event, span: Span) {
    e.kind == span.kind && e.correlation == span.correlation && e.marker == Open
  }

  /** What a T8 success saw: no child and no approval open in the events before it. */
  lemma SuccessSawNothingOpen(db: Db, run: string, id: string, createdAt: string, hash: string, span: Span)
    requires Concluded(db, run, Succeeded, id, createdAt, hash).1.Ok?
    requires span.kind in {Subagent, Approval}
    ensures run in db.runs && !OpenSpan(db.runs[run].log, span)
  {
    hide Reduced;
    OpenListMeaning(db.runs[run].log, span.kind, span.correlation);
  }

  /** A span still open at the end but not open at an earlier point had no open event by then. */
  lemma NeverOpenBefore(before: seq<Event>, rest: seq<Event>, span: Span)
    requires OpenSpan(before + rest, span) && !OpenSpan(before, span)
    ensures !Recorded(before, span, Open)
  {
    forall m | m in CloseMarkers(span.kind) && Recorded(before, span, m)
      ensures Recorded(before + rest, span, m)
    {
      RecordedGrows(before, rest, span, m);
    }
  }

  lemma OpenEventsAfter(before: seq<Event>, log: seq<Event>, span: Span)
    requires Gapless(log) && before < log && log[|before|].kind == Finalization
    requires IsSpanKind(span.kind) && OpenSpan(log, span) && !OpenSpan(before, span)
    ensures exists e :: e in log && IsOpenEvent(e, span)
    ensures forall e | e in log && IsOpenEvent(e, span) :: e.sequenceNo > |before| + 1
  {
    var rest := log[|before|..];
    assert log == before + rest;
    NeverOpenBefore(before, rest, span);
    var o :| o in log && o.kind == span.kind && o.correlation == span.correlation && o.marker == Open;
    assert IsOpenEvent(o, span);
    forall i | 0 <= i < |before|
      ensures !IsOpenEvent(log[i], span)
    {
      assert before[i] in before;
    }
    forall e | e in log && IsOpenEvent(e, span)
      ensures e.sequenceNo > |before| + 1
    {
      var k :| 0 <= k < |log| && log[k] == e;
      assert k > |before|;
    }
  }

  /** If a run finalized by a T8 success later leaks, every leaked child was opened only after that
      finalization: all of its open events, and there is one, carry a later sequence number. */
  lemma LeakOpenedAfterSuccess(db: Db, run: string, id: string, createdAt: string, hash: string,
                               commands: seq<Command>, c: Option<string>)
    requires Reachable(db) && Concluded(db, run, Succeeded, id, createdAt, hash).1.Ok?
    requires var later := Exec(Concluded(db, run, Succeeded, id, createdAt, hash).0, commands);
             run in later.runs && Reduced(later.runs[run].log).childLeak
             && c in Reduced(later.runs[run].log).openChildren
    ensures var finalized := MaxSequence(db.runs[run].log) + 1;
            var log := Exec(Concluded(db, run, Succeeded, id, createdAt, hash).0, commands).runs[run].log;
            && (exists e :: e in log && IsOpenEvent(e, Span(Subagent, c)))
            && (forall e | e in log && IsOpenEvent(e, Span(Subagent, c)) :: e.sequenceNo > finalized)
  {
    hide Reduced, Inv, OpenSpan, Gapless, IsOpenEvent;
    var after := Concluded(db, run, Succeeded, id, createdAt, hash).0;
    var later := Exec(after, commands);
    ReachableInv(db);
    SourcesOnceIn(db, run);
    MaxIsLength(db.runs[run].log);
    SuccessSawNothingOpen(db, run, id, createdAt, hash, Span(Subagent, c));
    ConcludeKeepsInv(db, run, Succeeded, id, createdAt, hash);
    ExecKeepsInv(after, commands);
    SourcesOnceIn(later, run);
    ExecExtendsLog(after, commands, run);
    FinalizationLands(db, run, id, createdAt, hash);
    OpenListMeaning(later.runs[run].log, Subagent, c);
    OpenEventsAfter(db.runs[run].log, later.runs[run].log, Span(Subagent, c));
  }

  lemma FinalizationLands(db: Db, run: string, id: string, createdAt: string, hash: string)
    requires Concluded(db, run, Succeeded, id, createdAt, hash).1.Ok?
    ensures run in db.runs && run in Concluded(db, run, Succeeded, id, createdAt, hash).0.runs
    ensures var log := Concluded(db, run, Succeeded, id, createdAt, hash).0.runs[run].log;
            db.runs[run].log < log && log[|db.runs[run].log|].kind == Finalization
  {
    hide Reduced;
  }

  /** T6 never asks whether the run is terminal, so the leak is reachable: a child opened after a
      clean T8 success leaks. */
  lemma LeakReachable()
    ensures exists db: Db, run :: Reachable(db) && run in db.runs && Reduced(db.runs[run].log).childLeak
  {
    LeakScenario("r", "e", "ee", Draft("ee", "t", None, Some("child"), Subagent, Open, "h"));
  }

  /** The other route needs no T8: T6 also takes a success finalization while a child is open. It passes no
      gate, leaks at once, and from then on the run no longer blocks Q2 or W2 though its child is open. */
  lemma LeakWithoutGate()
    ensures exists db: Db, run :: Reachable(db) && run in db.runs && LeaksUngated(db.runs[run])
  {
    FinalizedOverChild("r", Draft("e", "t", None, Some("child"), Subagent, Open, "h"),
                       Draft("ee", "t", None, None, Finalization, CloseOk, "h"));
  }

  /** The run leaks and is terminal with its child open, its log being one opening and one finalization. */
  ghost predicate LeaksUngated(run: Run) {
    && Reduced(run.log).childLeak && Reduced(run.log).terminal && SomeOpenChild(run.log)
    && |run.log| == 2 && run.log[0].kind == Subagent && run.log[1].kind == Finalization
  }

  lemma FinalizedOverChild(run: string, child: Draft, final: Draft)
    requires child.id != final.id && child.kind == Subagent && child.marker == Open && child.source.None?
    requires child.correlation.Some? && child.correlation.value != ""
    requires final.kind == Finalization && final.marker == CloseOk && final.source.None?
    ensures exists db: Db, r :: Reachable(db) && r in db.runs && LeaksUngated(db.runs[r])
  {
    var a, b, c := T5(run, None), T6(run, child), T6(run, final);
    var db1 := Started(EMPTY_DB, run, None).0;
    var db2 := Added(db1, run, child).0;
    LandsSecond(db1, run, child, final);
    var db3 := Added(db2, run, final).0;
    hide Added, Started, Reduced, Exec;
    ExecThree(EMPTY_DB, a, b, c);
    ReachedUngated(EMPTY_DB, [a, b, c], db3, run);
  }

  lemma ReachedUngated(db: Db, commands: seq<Command>, later: Db, run: string)
    requires db == EMPTY_DB && Exec(db, commands) == later && run in later.runs && LeaksUngated(later.runs[run])
    ensures exists db: Db, r :: Reachable(db) && r in db.runs && LeaksUngated(db.runs[r])
  {
    hide Exec, LeaksUngated;
    assert Reachable(later);
  }

  lemma LandsSecond(db: Db, run: string, child: Draft, final: Draft)
    requires run in db.runs && db.runs[run].log == [] && db.owner == map[] && child.id != final.id
    requires child.kind == Subagent && child.marker == Open && child.source.None?
    requires child.correlation.Some? && child.correlation.value != ""
    requires final.kind == Finalization && final.marker == CloseOk && final.source.None?
    ensures var later := Added(Added(db, run, child).0, run, final).0;
            run in later.runs && LeaksUngated(later.runs[run])
  {
    hide Reduced, MaxSequence, FindSource, CacheLabel, LeaksUngated;
    var none: seq<Event> := [];
    var first := [Row(child, 1)];
    assert first[..0] == none;
    MaxIsLength(none);
    MaxIsLength(first);
    var middle := Added(db, run, child).0;
    assert none + first == first && middle.runs[run].log == first;
    assert first + [Row(final, 2)] == [Row(child, 1), Row(final, 2)];
    TwoEventsLeak(Row(child, 1), Row(final, 2), Added(middle, run, final).0.runs[run]);
  }

  lemma TwoEventsLeak(first: Event, second: Event, run: Run)
    requires run.log == [first, second] && first.sequenceNo == 1 && second.sequenceNo == 2
    requires first.kind == Subagent && first.marker == Open
    requires second.kind == Finalization && second.marker == CloseOk
    ensures LeaksUngated(run)
  {
    hide Reduced;
    assert run.log[0] in run.log && run.log[1] in run.log;
    assert OpenSpan(run.log, Span(Subagent, first.correlation));
    LeakMeaning(run.log);
    TerminalMeaning(run.log);
  }

  lemma LeakScenario(run: string, first: string, second: string, child: Draft)
    requires first != second && child.id == second && child.kind == Subagent && child.marker == Open
    requires child.source.None? && child.correlation.Some? && child.correlation.value != ""
    ensures exists db: Db, r :: Reachable(db) && r in db.runs && Reduced(db.runs[r].log).childLeak
  {
    var a, b, c := T5(run, None), T8(run, Succeeded, first, "t", "h"), T6(run, child);
    var db1 := Started(EMPTY_DB, run, None).0;
    var db2 := CleanSuccess(db1, run, first);
    OpensChild(db2, run, child);
    ExecThree(EMPTY_DB, a, b, c);
    ReachedBy(EMPTY_DB, [a, b, c], Added(db2, run, child).0, run);
  }

  lemma ReachedBy(db: Db, commands: seq<Command>, later: Db, run: string)
    requires db == EMPTY_DB && Exec(db, commands) == later && run in later.runs && Reduced(later.runs[run].log).childLeak
    ensures exists db: Db, r :: Reachable(db) && r in db.runs && Reduced(db.runs[r].log).childLeak
  {
    hide Exec, Reduced;
    assert Reachable(later);
  }

  lemma ExecThree(db: Db, a: Command, b: Command, c: Command)
    ensures Exec(db, [a, b, c]) == Next(Next(Next(db, a), b), c)
  {
    hide Next;
    assert [a, b, c][1..] == [b, c] && [b, c][1..] == [c] && [c][1..] == [];
    var one := Next(db, a);
    var two := Next(one, b);
    assert Exec(two, [c]) == Next(two, c);
    assert Exec(one, [b, c]) == Exec(two, [c]);
  }

  lemma CleanSuccess(db: Db, run: string, id: string) returns (db': Db)
    requires run in db.runs && db.runs[run].log == [] && id !in db.owner
    ensures db' == Concluded(db, run, Succeeded, id, "t", "h").0
    ensures db'.owner == db.owner[id := run] && run in db'.runs
    ensures db'.runs[run].log == [Event(id, "t", 1, None, None, Finalization, CloseOk, "h")]
  {
    assert Sort(KeyLe, []) == [];
    assert !Reduced([]).terminal && Reduced([]).openChildren == [] && Reduced([]).unresolvedApprovals == [];
    hide Reduced;
    db' := Concluded(db, run, Succeeded, id, "t", "h").0;
  }

  lemma OpensChild(db: Db, run: string, d: Draft)
    requires run in db.runs && |db.runs[run].log| == 1 && db.runs[run].log[0].sequenceNo == 1
    requires db.runs[run].log[0].kind == Finalization && db.runs[run].log[0].marker == CloseOk
    requires d.kind == Subagent && d.marker == Open && d.source.None? && d.id !in db.owner
    requires d.correlation.Some? && d.correlation.value != ""
    ensures run in Added(db, run, d).0.runs && Reduced(Added(db, run, d).0.runs[run].log).childLeak
  {
    hide Reduced;
    var log := Added(db, run, d).0.runs[run].log;
    assert log == db.runs[run].log + [Row(d, 2)];
    assert log[1] in log;
    assert OpenSpan(log, Span(Subagent, d.correlation));
    assert log[0].kind == Finalization && log[0].marker == CloseOk;
    assert forall j | 0 < j < |log| :: log[j].kind != Finalization;
    LeakMeaning(log);
  }
}
