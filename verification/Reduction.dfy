/** The pure projection of one run's events to run state (kaizen_components/agent_runs.py). */
module Reduction {
  import opened Orders
  import opened Wrappers

  datatype Kind =
    | Subagent | Approval | Turn | ToolCall
    | Transport | Auth | RateLimit | Context
    | Finalization
    | Verification | HookEvent | PermissionModeChanged | Compaction | ChatMessage | Profile

  datatype Marker =
    | Open | CloseOk | CloseFail | CloseCanceled
    | Resolved | Declined | TimedOut
    | Point

  /** One agent_events row. A missing creation time is the empty string, as the sort key reads it. */
  datatype Event = Event(id: string, createdAt: string, sequenceNo: int, source: Option<string>,
                         correlation: Option<string>, kind: Kind, marker: Marker, contentHash: string)

  datatype Span = Span(kind: Kind, correlation: Option<string>)

  /** What the loop of `reduce` carries. `order` is the insertion order of the dictionary `spans`. */
  datatype Fold = Fold(order: seq<Span>, spans: map<Span, set<Marker>>, finalization: Option<Marker>,
                       failure: Option<Kind>, firstSeen: Option<string>, lastSeen: Option<string>)

  datatype TerminalState = Success | Failure

  datatype RunState = RunState(openChildren: seq<Option<string>>, unresolvedApprovals: seq<Option<string>>,
                               openTurns: seq<Option<string>>, openToolCalls: seq<Option<string>>,
                               terminal: bool, terminalState: Option<TerminalState>, childLeak: bool,
                               failureCategory: Option<Kind>, firstSeen: Option<string>,
                               lastSeen: Option<string>, eventCount: nat)

  predicate IsSpanKind(kind: Kind) {
    kind in {Subagent, Approval, Turn, ToolCall}
  }

  predicate IsFailurePoint(e: Event) {
    e.kind in {Transport, Auth, RateLimit, Context} && e.marker == Point
  }

  function CloseMarkers(kind: Kind): set<Marker> {
    if kind == Approval then {Resolved, Declined, TimedOut} else {CloseOk, CloseFail, CloseCanceled}
  }

  predicate SpanOpen(kind: Kind, markers: set<Marker>) {
    Open in markers && markers * CloseMarkers(kind) == {}
  }

  // ---- the sort key (sequence_no, created_at, id) ----------------------------------------------

  predicate KeyLe(a: Event, b: Event) {
    if a.sequenceNo != b.sequenceNo then a.sequenceNo < b.sequenceNo
    else if a.createdAt != b.createdAt then LexLe(a.createdAt, b.createdAt)
    else LexLe(a.id, b.id)
  }

  lemma KeyOrder()
    ensures Total(KeyLe) && Transitive(KeyLe)
  {
    forall a: Event, b: Event
      ensures KeyLe(a, b) || KeyLe(b, a)
    {
      LexTotal(a.createdAt, b.createdAt);
      LexTotal(a.id, b.id);
    }
    forall a: Event, b: Event, c: Event | KeyLe(a, b) && KeyLe(b, c)
      ensures KeyLe(a, c)
    {
      if a.createdAt != b.createdAt && b.createdAt != c.createdAt && a.createdAt == c.createdAt {
        LexTotal(a.createdAt, b.createdAt);
        if LexLe(a.createdAt, b.createdAt) && LexLe(b.createdAt, a.createdAt) {
          LexAntisymmetric(a.createdAt, b.createdAt);
        }
      }
      if LexLe(a.createdAt, b.createdAt) && LexLe(b.createdAt, c.createdAt) {
        LexTransitive(a.createdAt, b.createdAt, c.createdAt);
      }
      if LexLe(a.id, b.id) && LexLe(b.id, c.id) {
        LexTransitive(a.id, b.id, c.id);
      }
    }
  }

  /** The primary key: two rows with one id are one row. */
  ghost predicate DistinctIds(events: seq<Event>) {
    forall x, y | x in events && y in events && x.id == y.id :: x == y
  }

  lemma DistinctIdsNeverTie(events: seq<Event>)
    requires DistinctIds(events)
    ensures NoTies(KeyLe, events)
  {
    forall x, y | x in events && y in events && KeyLe(x, y) && KeyLe(y, x)
      ensures x == y
    {
      if x.createdAt != y.createdAt {
        LexAntisymmetric(x.createdAt, y.createdAt);
      }
      LexAntisymmetric(x.id, y.id);
    }
  }

  // ---- the fold --------------------------------------------------------------------------------

  const EMPTY := Fold([], map[], None, None, None, None)

  /** `spans.setdefault(span, set()).add(marker)`. */
  function Mark(spans: map<Span, set<Marker>>, span: Span, m: Marker): map<Span, set<Marker>> {
    spans[span := (if span in spans then spans[span] else {}) + {m}]
  }

  function Step(acc: Fold, e: Event): Fold {
    var seen := if e.createdAt == "" then acc
                else acc.(firstSeen := if acc.firstSeen.Some? then acc.firstSeen else Some(e.createdAt),
                          lastSeen := Some(e.createdAt));
    if e.kind == Finalization then seen.(finalization := Some(e.marker))
    else if IsFailurePoint(e) then seen.(failure := Some(e.kind))
    else if IsSpanKind(e.kind) then
      var span := Span(e.kind, e.correlation);
      seen.(order := if span in seen.spans then seen.order else seen.order + [span],
            spans := Mark(seen.spans, span, e.marker))
    else seen
  }

  function FoldAll(events: seq<Event>): Fold {
    if events == [] then EMPTY else Step(FoldAll(events[..|events| - 1]), events[|events| - 1])
  }

  function OpenOf(order: seq<Span>, spans: map<Span, set<Marker>>, kind: Kind): seq<Option<string>> {
    if order == [] then []
    else
      var rest := OpenOf(order[1..], spans, kind);
      if order[0].kind == kind && order[0] in spans && SpanOpen(kind, spans[order[0]])
      then [order[0].correlation] + rest else rest
  }

  function Project(acc: Fold, count: nat): RunState {
    var children := OpenOf(acc.order, acc.spans, Subagent);
    var terminal := acc.finalization.Some?;
    var terminalState := if !terminal then None
                         else if acc.finalization.value == CloseOk then Some(Success) else Some(Failure);
    RunState(children, OpenOf(acc.order, acc.spans, Approval), OpenOf(acc.order, acc.spans, Turn),
             OpenOf(acc.order, acc.spans, ToolCall), terminal, terminalState,
             terminal && terminalState == Some(Success) && children != [],
             acc.failure, acc.firstSeen, acc.lastSeen, count)
  }

  function Reduced(events: seq<Event>): RunState {
    Project(FoldAll(Sort(KeyLe, events)), |events|)
  }

  /** `reduce`: sort, then one pass over the ordered events. */
  method Reduce(events: seq<Event>) returns (state: RunState)
    ensures state == Reduced(events)
  {
    var ordered := Sort(KeyLe, events);
    var acc := EMPTY;
    for i := 0 to |ordered|
      invariant acc == FoldAll(ordered[..i])
    {
      assert ordered[..i + 1][..i] == ordered[..i];
      acc := Step(acc, ordered[i]);
    }
    assert ordered[..|ordered|] == ordered;
    state := Project(acc, |events|);
  }

  /** Out-of-order delivery changes nothing: not the open lists' order, nor the first and last seen. */
  lemma ReduceOrderIndependent(a: seq<Event>, b: seq<Event>)
    requires multiset(a) == multiset(b) && DistinctIds(a)
    ensures Reduced(a) == Reduced(b)
  {
    KeyOrder();
    DistinctIdsNeverTie(a);
    SortPermutation(KeyLe, a, b);
    SameMembers(a, b);
  }

  // ---- what the state says about the events ------------------------------------------------------

  ghost predicate Recorded(events: seq<Event>, span: Span, marker: Marker) {
    exists e :: e in events && e.kind == span.kind && e.correlation == span.correlation && e.marker == marker
  }

  /** Open: some open marker and no close marker, whatever their order. */
  ghost predicate OpenSpan(events: seq<Event>, span: Span) {
    && Recorded(events, span, Open)
    && forall m | m in CloseMarkers(span.kind) :: !Recorded(events, span, m)
  }

  ghost predicate SpansAgree(acc: Fold, events: seq<Event>) {
    && (forall s :: s in acc.order <==> s in acc.spans)
    && NoRepeats(acc.order)
    && (forall s, m {:trigger m in acc.spans[s]} | s in acc.spans && m in acc.spans[s] :: Recorded(events, s, m))
    && (forall e | e in events && IsSpanKind(e.kind) ::
          Span(e.kind, e.correlation) in acc.spans && e.marker in acc.spans[Span(e.kind, e.correlation)])
  }

  ghost predicate Finalized(events: seq<Event>) {
    exists e :: e in events && e.kind == Finalization
  }

  lemma StepSpans(acc: Fold, e: Event)
    ensures var span := Span(e.kind, e.correlation);
            if IsSpanKind(e.kind) then
              Step(acc, e).spans == Mark(acc.spans, span, e.marker)
              && Step(acc, e).order == if span in acc.spans then acc.order else acc.order + [span]
            else Step(acc, e).spans == acc.spans && Step(acc, e).order == acc.order
  {
  }

  lemma StepSpansAgree(acc: Fold, events: seq<Event>, e: Event)
    requires SpansAgree(acc, events)
    ensures SpansAgree(Step(acc, e), events + [e])
  {
    StepSpans(acc, e);
    hide Step;
    var acc', all := Step(acc, e), events + [e];
    forall s, m | s in acc'.spans && m in acc'.spans[s]
      ensures Recorded(all, s, m)
    {
      if s in acc.spans && m in acc.spans[s] {
        RecordedGrows(events, [e], s, m);
      } else {
        assert e in all && e.kind == s.kind && e.correlation == s.correlation && e.marker == m;
      }
    }
    forall x | x in all && IsSpanKind(x.kind)
      ensures Span(x.kind, x.correlation) in acc'.spans && x.marker in acc'.spans[Span(x.kind, x.correlation)]
    {
      assert x in events || x == e;
    }
  }

  lemma {:induction false} FoldAllAgrees(events: seq<Event>)
    ensures SpansAgree(FoldAll(events), events)
  {
    if events != [] {
      var front := events[..|events| - 1];
      FoldAllAgrees(front);
      StepSpansAgree(FoldAll(front), front, events[|events| - 1]);
      assert front + [events[|events| - 1]] == events;
    }
  }

  lemma StepFinalization(acc: Fold, e: Event)
    ensures Step(acc, e).finalization == if e.kind == Finalization then Some(e.marker) else acc.finalization
    ensures Step(acc, e).failure == if IsFailurePoint(e) then Some(e.kind) else acc.failure
  {
  }

  lemma {:induction false} FoldFinalization(events: seq<Event>)
    ensures FoldAll(events).finalization.Some? <==> Finalized(events)
  {
    hide Step;
    if events != [] {
      var front, last := events[..|events| - 1], events[|events| - 1];
      FoldFinalization(front);
      StepFinalization(FoldAll(front), last);
      assert events == front + [last];
      if last.kind == Finalization {
        assert last in events;
      } else if Finalized(front) {
        var e :| e in front && e.kind == Finalization;
        assert e in events;
      }
    }
  }

  lemma {:induction false} OpenOfMembers(order: seq<Span>, spans: map<Span, set<Marker>>, kind: Kind, c: Option<string>)
    ensures c in OpenOf(order, spans, kind) <==>
            Span(kind, c) in order && Span(kind, c) in spans && SpanOpen(kind, spans[Span(kind, c)])
  {
    if order != [] {
      OpenOfMembers(order[1..], spans, kind, c);
      assert order == [order[0]] + order[1..];
    }
  }

  lemma {:induction false} OpenOfNoRepeats(order: seq<Span>, spans: map<Span, set<Marker>>, kind: Kind)
    requires NoRepeats(order)
    ensures NoRepeats(OpenOf(order, spans, kind))
  {
    if order != [] {
      OpenOfNoRepeats(order[1..], spans, kind);
      OpenOfMembers(order[1..], spans, kind, order[0].correlation);
    }
  }

  ghost function ListOf(state: RunState, kind: Kind): seq<Option<string>> {
    match kind
    case Subagent => state.openChildren
    case Approval => state.unresolvedApprovals
    case Turn => state.openTurns
    case _ => state.openToolCalls
  }

  lemma RecordedSorted(events: seq<Event>, span: Span, m: Marker)
    ensures Recorded(Sort(KeyLe, events), span, m) <==> Recorded(events, span, m)
  {
    SameMembers(Sort(KeyLe, events), events);
  }

  /** The open lists hold exactly the open spans of their kind. */
  lemma OpenListMeaning(events: seq<Event>, kind: Kind, c: Option<string>)
    requires IsSpanKind(kind)
    ensures c in ListOf(Reduced(events), kind) <==> OpenSpan(events, Span(kind, c))
    ensures NoRepeats(ListOf(Reduced(events), kind))
  {
    var ordered := Sort(KeyLe, events);
    var acc := FoldAll(ordered);
    var span := Span(kind, c);
    FoldAllAgrees(ordered);
    OpenOfMembers(acc.order, acc.spans, kind, c);
    OpenOfNoRepeats(acc.order, acc.spans, kind);
    forall m: Marker
      ensures Recorded(events, span, m) <==> span in acc.spans && m in acc.spans[span]
    {
      RecordedSorted(events, span, m);
      if Recorded(ordered, span, m) {
        var e :| e in ordered && e.kind == kind && e.correlation == c && e.marker == m;
      }
    }
    if OpenSpan(events, span) {
      assert SpanOpen(kind, acc.spans[span]);
    }
    if c in ListOf(Reduced(events), kind) {
      forall m | m in CloseMarkers(kind)
        ensures !Recorded(events, span, m)
      {
        assert m !in acc.spans[span] * CloseMarkers(kind);
      }
    }
  }

  /** The correlation ids of the open spans of one kind, read off the events. */
  ghost function OpenIds(events: seq<Event>, kind: Kind): set<Option<string>> {
    set e | e in events && e.kind == kind && OpenSpan(events, Span(kind, e.correlation)) :: e.correlation
  }

  /** Each open list has as many members as there are open spans of its kind. */
  lemma OpenCountMeaning(events: seq<Event>, kind: Kind)
    requires IsSpanKind(kind)
    ensures (set c | c in ListOf(Reduced(events), kind)) == OpenIds(events, kind)
    ensures |ListOf(Reduced(events), kind)| == |OpenIds(events, kind)|
  {
    hide Reduced, ListOf;
    var list := ListOf(Reduced(events), kind);
    forall c
      ensures c in list <==> c in OpenIds(events, kind)
    {
      OpenListMeaning(events, kind, c);
      if OpenSpan(events, Span(kind, c)) {
        var e :| e in events && e.kind == kind && e.correlation == c && e.marker == Open;
      }
    }
    OpenListMeaning(events, kind, None);
    DistinctCount(list);
  }

  /** The place of the first event of a span. */
  ghost function FirstOf(events: seq<Event>, span: Span): nat {
    if events == [] then 0
    else if events[0].kind == span.kind && events[0].correlation == span.correlation then 0
    else 1 + FirstOf(events[1..], span)
  }

  lemma {:induction false} FirstOfMore(events: seq<Event>, e: Event, span: Span)
    ensures FirstOf(events, span) <= |events|
    ensures FirstOf(events + [e], span) ==
            if FirstOf(events, span) < |events| then FirstOf(events, span)
            else if e.kind == span.kind && e.correlation == span.correlation then |events|
            else |events| + 1
  {
    if events == [] {
      assert ([] + [e])[1..] == [];
    } else {
      assert (events + [e])[1..] == events[1..] + [e];
      FirstOfMore(events[1..], e, span);
    }
  }

  /** The dictionary of spans keeps them in the order of their first events. */
  ghost predicate FirstSeenOrder(order: seq<Span>, events: seq<Event>) {
    && (forall s | s in order :: FirstOf(events, s) < |events|)
    && forall i, j | 0 <= i < j < |order| :: FirstOf(events, order[i]) < FirstOf(events, order[j])
  }

  /** `order` holds every span that the events have, in the order of their first events. */
  ghost predicate OrderAgrees(order: seq<Span>, events: seq<Event>) {
    && FirstSeenOrder(order, events)
    && forall s: Span | IsSpanKind(s.kind) && FirstOf(events, s) < |events| :: s in order
  }

  lemma OrderMore(order: seq<Span>, order': seq<Span>, front: seq<Event>, e: Event)
    requires OrderAgrees(order, front)
    requires var span := Span(e.kind, e.correlation);
             order' == if !IsSpanKind(e.kind) || span in order then order else order + [span]
    ensures OrderAgrees(order', front + [e])
  {
    hide IsSpanKind;
    forall s: Span
      ensures FirstOf(front, s) <= |front|
      ensures FirstOf(front + [e], s) ==
              if FirstOf(front, s) < |front| then FirstOf(front, s)
              else if e.kind == s.kind && e.correlation == s.correlation then |front| else |front| + 1
    {
      FirstOfMore(front, e, s);
    }
  }

  lemma {:induction false} FoldOrder(events: seq<Event>)
    ensures OrderAgrees(FoldAll(events).order, events)
  {
    if events != [] {
      var front, e := events[..|events| - 1], events[|events| - 1];
      var acc, span := FoldAll(front), Span(e.kind, e.correlation);
      assert events == front + [e];
      FoldOrder(front);
      FoldAllAgrees(front);
      StepSpans(acc, e);
      hide Step, OrderAgrees;
      if IsSpanKind(e.kind) {
        assert span in acc.spans <==> span in acc.order;
      }
      OrderMore(acc.order, FoldAll(events).order, front, e);
    }
  }

  /** The open lists keep that order. */
  lemma OpenListOrder(events: seq<Event>, kind: Kind, i: nat, j: nat)
    requires IsSpanKind(kind) && i < j < |ListOf(Reduced(events), kind)|
    ensures var ordered, list := Sort(KeyLe, events), ListOf(Reduced(events), kind);
            FirstOf(ordered, Span(kind, list[i])) < FirstOf(ordered, Span(kind, list[j]))
  {
    var acc := FoldAll(Sort(KeyLe, events));
    FoldOrder(Sort(KeyLe, events));
    hide FoldAll, Sort;
    OpenOfOrder(Sort(KeyLe, events), acc.order, acc.spans, kind, i, j);
  }

  lemma {:induction false} OpenOfOrder(events: seq<Event>, order: seq<Span>, spans: map<Span, set<Marker>>, kind: Kind,
                                       i: nat, j: nat)
    requires FirstSeenOrder(order, events) && i < j < |OpenOf(order, spans, kind)|
    ensures var list := OpenOf(order, spans, kind);
            FirstOf(events, Span(kind, list[i])) < FirstOf(events, Span(kind, list[j]))
  {
    var rest, list := OpenOf(order[1..], spans, kind), OpenOf(order, spans, kind);
    var kept := |list| > |rest|;
    if kept && i == 0 {
      OpenOfMembers(order[1..], spans, kind, list[j]);
      assert list[j] == rest[j - 1];
      var k :| 0 <= k < |order[1..]| && order[1..][k] == Span(kind, list[j]);
      assert order[0] == Span(kind, list[0]) && order[k + 1] == Span(kind, list[j]);
    } else {
      OpenOfOrder(events, order[1..], spans, kind, if kept then i - 1 else i, if kept then j - 1 else j);
    }
  }

  lemma CountOfEvents(events: seq<Event>)
    ensures Reduced(events).eventCount == |events|
  {
    hide FoldAll, Sort, OpenOf;
  }

  lemma TerminalMeaning(events: seq<Event>)
    ensures Reduced(events).terminal <==> Finalized(events)
    ensures Reduced(events).terminalState.Some? <==> Reduced(events).terminal
  {
    FoldFinalization(Sort(KeyLe, events));
    SameMembers(Sort(KeyLe, events), events);
  }

  lemma {:induction false} FoldLastFinalization(ordered: seq<Event>, k: nat)
    requires k < |ordered| && ordered[k].kind == Finalization
    requires forall j | k < j < |ordered| :: ordered[j].kind != Finalization
    ensures FoldAll(ordered).finalization == Some(ordered[k].marker)
    decreases |ordered|
  {
    hide Step;
    StepFinalization(FoldAll(ordered[..|ordered| - 1]), ordered[|ordered| - 1]);
    if k < |ordered| - 1 {
      FoldLastFinalization(ordered[..|ordered| - 1], k);
    }
  }

  /** The last finalization in key order decides the terminal state, so a later failing one hides a leak. */
  lemma LastFinalizationWins(events: seq<Event>, k: nat)
    requires var ordered := Sort(KeyLe, events); k < |ordered| && ordered[k].kind == Finalization
    requires forall j | k < j < |events| :: Sort(KeyLe, events)[j].kind != Finalization
    ensures Reduced(events).terminal && Reduced(events).terminalState ==
            Some(if Sort(KeyLe, events)[k].marker == CloseOk then Success else Failure)
  {
    hide FoldAll, OpenOf, Sort;
    FoldLastFinalization(Sort(KeyLe, events), k);
  }

  lemma {:induction false} FoldLastFailure(ordered: seq<Event>, k: nat)
    requires k < |ordered| && IsFailurePoint(ordered[k])
    requires forall j | k < j < |ordered| :: !IsFailurePoint(ordered[j])
    ensures FoldAll(ordered).failure == Some(ordered[k].kind)
    decreases |ordered|
  {
    hide Step;
    StepFinalization(FoldAll(ordered[..|ordered| - 1]), ordered[|ordered| - 1]);
    if k < |ordered| - 1 {
      FoldLastFailure(ordered[..|ordered| - 1], k);
    }
  }

  lemma {:induction false} FoldNoFailure(ordered: seq<Event>)
    requires forall e | e in ordered :: !IsFailurePoint(e)
    ensures FoldAll(ordered).failure == None
  {
    hide Step;
    if ordered != [] {
      StepFinalization(FoldAll(ordered[..|ordered| - 1]), ordered[|ordered| - 1]);
      FoldNoFailure(ordered[..|ordered| - 1]);
    }
  }

  /** The last failing point in key order is the failure category, and there is none without one. */
  lemma LastFailureWins(events: seq<Event>)
    ensures (forall e | e in events :: !IsFailurePoint(e)) <==> Reduced(events).failureCategory == None
    ensures forall k | 0 <= k < |events| && IsFailurePoint(Sort(KeyLe, events)[k])
              && (forall j | k < j < |events| :: !IsFailurePoint(Sort(KeyLe, events)[j])) ::
              Reduced(events).failureCategory == Some(Sort(KeyLe, events)[k].kind)
  {
    hide FoldAll, OpenOf, Sort, IsFailurePoint;
    var ordered := Sort(KeyLe, events);
    SameMembers(ordered, events);
    if forall e | e in events :: !IsFailurePoint(e) {
      FoldNoFailure(ordered);
    } else {
      var e :| e in events && IsFailurePoint(e);
      assert e in ordered;
      var k := LastFailure(ordered, e);
      FoldLastFailure(ordered, k);
    }
    forall k | 0 <= k < |events| && IsFailurePoint(ordered[k])
        && forall j | k < j < |events| :: !IsFailurePoint(ordered[j])
      ensures Reduced(events).failureCategory == Some(ordered[k].kind)
    {
      FoldLastFailure(ordered, k);
    }
  }

  lemma {:induction false} LastFailure(ordered: seq<Event>, e: Event) returns (k: nat)
    requires e in ordered && IsFailurePoint(e)
    ensures k < |ordered| && IsFailurePoint(ordered[k]) && forall j | k < j < |ordered| :: !IsFailurePoint(ordered[j])
  {
    k := |ordered| - 1;
    while !IsFailurePoint(ordered[k])
      invariant 0 <= k < |ordered| && forall j | k < j < |ordered| :: !IsFailurePoint(ordered[j])
      invariant exists i :: 0 <= i <= k && ordered[i] == e
      decreases k
    {
      k := k - 1;
    }
  }

  /** The creation times in key order, blank ones skipped. */
  ghost function Times(ordered: seq<Event>): seq<string> {
    if ordered == [] then []
    else
      var front, last := Times(ordered[..|ordered| - 1]), ordered[|ordered| - 1];
      if last.createdAt == "" then front else front + [last.createdAt]
  }

  lemma {:induction false} FoldSeen(ordered: seq<Event>)
    ensures var times := Times(ordered);
      && FoldAll(ordered).firstSeen == (if times == [] then None else Some(times[0]))
      && FoldAll(ordered).lastSeen == if times == [] then None else Some(times[|times| - 1])
  {
    if ordered != [] {
      FoldSeen(ordered[..|ordered| - 1]);
      StepSeen(FoldAll(ordered[..|ordered| - 1]), ordered[|ordered| - 1]);
      hide Step;
    }
  }

  lemma StepSeen(acc: Fold, e: Event)
    ensures Step(acc, e).firstSeen ==
            if e.createdAt != "" && acc.firstSeen.None? then Some(e.createdAt) else acc.firstSeen
    ensures Step(acc, e).lastSeen == if e.createdAt != "" then Some(e.createdAt) else acc.lastSeen
  {
  }

  /** First and last seen are the first and last creation times in key order, which is by sequence number
      and so need not be the earliest and latest. */
  lemma SeenMeaning(events: seq<Event>)
    ensures var times := Times(Sort(KeyLe, events));
      && Reduced(events).firstSeen == (if times == [] then None else Some(times[0]))
      && Reduced(events).lastSeen == if times == [] then None else Some(times[|times| - 1])
  {
    hide FoldAll, OpenOf, Sort;
    FoldSeen(Sort(KeyLe, events));
  }

  // ---- spans only move forward -----------------------------------------------------------------

  datatype SpanPhase = NeverOpen | IsOpen | Closed

  ghost function Phase(events: seq<Event>, span: Span): SpanPhase {
    if exists m :: m in CloseMarkers(span.kind) && Recorded(events, span, m) then Closed
    else if Recorded(events, span, Open) then IsOpen
    else NeverOpen
  }

  ghost predicate PhaseLe(a: SpanPhase, b: SpanPhase) {
    a == NeverOpen || a == b || b == Closed
  }

  lemma RecordedGrows(events: seq<Event>, more: seq<Event>, span: Span, m: Marker)
    requires Recorded(events, span, m)
    ensures Recorded(events + more, span, m)
  {
    var e :| e in events && e.kind == span.kind && e.correlation == span.correlation && e.marker == m;
    assert e in events + more;
  }

  /** Appending events takes a span only from never open to open to closed. */
  lemma PhaseMovesForward(events: seq<Event>, more: seq<Event>, span: Span)
    ensures PhaseLe(Phase(events, span), Phase(events + more, span))
    ensures Phase(events, span) == IsOpen <==> OpenSpan(events, span)
  {
    if exists m :: m in CloseMarkers(span.kind) && Recorded(events, span, m) {
      var m :| m in CloseMarkers(span.kind) && Recorded(events, span, m);
      RecordedGrows(events, more, span, m);
    } else if Recorded(events, span, Open) {
      RecordedGrows(events, more, span, Open);
    }
  }
}
