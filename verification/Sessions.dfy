/** Session ownership under the node and epoch fence, instruction ordinals, approval decisions
    (kaizen_components/db.py, kaizen_components/session_records.py). */
module Sessions {
  import opened Wrappers
  import opened Retry

  datatype Instruction = Instruction(id: string, ordinal: int, text: string)

  /** An agent_sessions row, nullable columns as options, with its instruction rows. */
  datatype Session = Session(owner: Option<string>, epoch: Option<int>, instructions: seq<Instruction>)

  datatype ApprovalState = Open | Approved | Rejected | Canceled | ClearedByEngine | Deferred

  /** An approval_requests row belongs to one session. */
  datatype Approval = Approval(session: string, state: ApprovalState)

  datatype Db = Db(sessions: map<string, Session>, approvals: map<string, Approval>)

  datatype Fence = Fence(session: string, owner: Option<string>, epoch: Option<int>)

  /** Writes to a session carry the writer's node when distribution is active; `Transition` carries its
      caller's fence. */
  datatype Call =
    | Start(id: string, owner: Option<string>, epoch: Option<int>)
    | Attach(session: string, newOwner: string, expectedOwner: string, expectedEpoch: int)
    | InstructionAdd(target: string, node: Option<string>, instruction: string, text: string)
    | RequestApproval(approval: string, of: string, asker: Option<string>)
    | Transition(decided: string, to: ApprovalState, openOnly: bool, fence: Option<Fence>)

  const STALE := Refused("DENIED_STALE_FENCE")
  const NO_SESSION := Refused("DENIED_SESSION_NOT_FOUND")
  const NO_APPROVAL := Refused("DENIED_APPROVAL_NOT_FOUND")
  const DECIDED := Refused("DENIED_APPROVAL_ALREADY_DECIDED")
  const DUPLICATE := Fault("UNIQUE constraint failed")

  // ---- the fence -----------------------------------------------------------------------------------

  /** The check `write_tx` makes on its own connection: a missing or unowned row is not fenced. */
  predicate FencePasses(db: Db, f: Fence) {
    f.session in db.sessions && db.sessions[f.session].owner.Some? ==>
      var row := db.sessions[f.session];
      row.owner == f.owner && (f.epoch.Some? ==> row.epoch == f.epoch)
  }

  /** The wrapped operation runs only behind a fence that holds. */
  function Fenced(db: Db, fence: Option<Fence>, operation: Attempt<Db, int>): Attempt<Db, int> {
    if fence.Some? && !FencePasses(db, fence.value) then Raised(STALE) else operation
  }

  // ---- the operations ------------------------------------------------------------------------------

  /** `COALESCE(MAX(seq), 0)`. */
  function MaxOrdinal(rows: seq<Instruction>): int {
    if rows == [] then 0
    else
      var rest, last := MaxOrdinal(rows[..|rows| - 1]), rows[|rows| - 1].ordinal;
      if |rows| == 1 || last > rest then last else rest
  }

  predicate IsDecided(s: ApprovalState) {
    s in {Approved, Rejected, Canceled, ClearedByEngine}
  }

  function StartOp(db: Db, id: string, owner: Option<string>, epoch: Option<int>): Attempt<Db, int> {
    if id in db.sessions then Raised(DUPLICATE)
    else Finished(db.(sessions := db.sessions[id := Session(owner, epoch, [])]), 0)
  }

  function AttachOp(db: Db, id: string, newOwner: string, expectedEpoch: int): Attempt<Db, int> {
    if id !in db.sessions then Raised(NO_SESSION)
    else
      var row := db.sessions[id].(owner := Some(newOwner), epoch := Some(expectedEpoch + 1));
      Finished(db.(sessions := db.sessions[id := row]), expectedEpoch + 1)
  }

  function InstructionOp(db: Db, id: string, row: string, text: string): Attempt<Db, int> {
    if id !in db.sessions then Raised(NO_SESSION)
    else
      var s := db.sessions[id];
      var ordinal := MaxOrdinal(s.instructions) + 1;
      var s' := s.(instructions := s.instructions + [Instruction(row, ordinal, text)]);
      Finished(db.(sessions := db.sessions[id := s']), ordinal)
  }

  function RequestOp(db: Db, id: string, of: string): Attempt<Db, int> {
    if of !in db.sessions then Raised(NO_SESSION)
    else if id in db.approvals then Raised(DUPLICATE)
    else Finished(db.(approvals := db.approvals[id := Approval(of, Open)]), 0)
  }

  function TransitionOp(db: Db, id: string, target: ApprovalState, openOnly: bool): Attempt<Db, int> {
    if id !in db.approvals then Raised(NO_APPROVAL)
    else
      var row := db.approvals[id];
      if (if openOnly then row.state != Open else IsDecided(row.state)) then Raised(DECIDED)
      else Finished(db.(approvals := db.approvals[id := row.(state := target)]), 0)
  }

  /** A call's operation under the fence its caller passes to `write_tx`. */
  function Perform(db: Db, c: Call): Attempt<Db, int> {
    match c
    case Start(id, owner, epoch) => StartOp(db, id, owner, epoch)
    case Attach(id, newOwner, expectedOwner, expectedEpoch) =>
      Fenced(db, Some(Fence(id, Some(expectedOwner), Some(expectedEpoch))), AttachOp(db, id, newOwner, expectedEpoch))
    case InstructionAdd(id, node, row, text) =>
      Fenced(db, if node.Some? then Some(Fence(id, node, None)) else None, InstructionOp(db, id, row, text))
    case RequestApproval(id, of, node) =>
      Fenced(db, if node.Some? then Some(Fence(of, node, None)) else None, RequestOp(db, id, of))
    case Transition(id, target, openOnly, fence) => Fenced(db, fence, TransitionOp(db, id, target, openOnly))
  }

  /** A call at the moment it commits or is refused. */
  function Apply(db: Db, c: Call): (Db, Result<int, Error>) {
    match Perform(db, c)
    case Finished(db', v) => (db', Ok(v))
    case Raised(e) => (db, Denied(e))
  }

  /** `write_tx`: a call run through the retry loop takes effect at most once, exactly as `Apply`
      says, on top of whatever was committed before its last attempt. */
  method WriteTx(db: Db, c: Call, transient: string -> bool, weather: nat -> Weather<Db>)
    returns (out: Outcome<Db, int>)
    ensures out.commits == if out.result.Ok? then 1 else 0
    ensures exists k: nat :: 1 <= k <= ATTEMPTS && LandsAt(out, db, c, transient, weather, k)
  {
    var operation := (db: Db, attempt: nat) => Perform(db, c);
    out := WithRetry(db, operation, transient, weather, ATTEMPTS, TOTAL_SECONDS);
    ghost var k: nat :| 1 <= k <= ATTEMPTS
      && EndsAt(out, db, operation, transient, weather, ATTEMPTS, TOTAL_SECONDS, k);
    BackoffBudget(ATTEMPTS, TOTAL_SECONDS, k - 1);
    EndLands(out, db, c, operation, transient, weather, k);
  }

  /** Attempt j raises e: a fault of its surroundings, or what `Apply` answers on the state it starts from. */
  ghost predicate FailsAt(db: Db, c: Call, weather: nat -> Weather<Db>, j: nat, e: Error) {
    var before, w := OthersUpTo(db, weather, j), weather(j);
    || w.connect == Some(e)
    || (w.connect.None? && (
          || w.begin == Some(e)
          || (w.begin.None? && (
                || Apply(before, c).1 == Denied(e)
                || (Apply(before, c).1.Ok? && w.commit == Some(e))))))
  }

  /** The error is caught and retried. */
  ghost predicate Retries(db: Db, c: Call, transient: string -> bool, weather: nat -> Weather<Db>, j: nat, e: Error) {
    FailsAt(db, c, weather, j, e) && weather(j).connect.None? && Retryable(e, transient)
  }

  /** Each of the first attempts failed with its error and was retried. */
  ghost predicate RetriedSoFar(errors: seq<Error>, db: Db, c: Call, transient: string -> bool,
                               weather: nat -> Weather<Db>)
  {
    forall i | 0 <= i < |errors| :: Retries(db, c, transient, weather, i + 1, errors[i])
  }

  /** The call ends with attempt k, all before it having failed retryably. It returns the answer of `Apply`
      on the state of that attempt if nothing faults there, else the error of that attempt, unless all
      attempts are used up. */
  ghost predicate LandsAt(out: Outcome<Db, int>, db: Db, c: Call, transient: string -> bool,
                          weather: nat -> Weather<Db>, k: nat)
    requires k >= 1
  {
    var before := OthersUpTo(db, weather, k);
    && Sum(out.slept) <= TOTAL_SECONDS
    && (Sum(out.slept) == TOTAL_SECONDS <==> k == ATTEMPTS)
    && (exists errors :: |errors| == k - 1 && RetriedSoFar(errors, db, c, transient, weather))
    && match out.result
       case Ok(v) => Clean(weather(k)) && Apply(before, c) == (out.state, Ok(v))
       case Denied(Propagated(e)) =>
         out.state == before && FailsAt(db, c, weather, k, e) && !Retries(db, c, transient, weather, k, e)
       case Denied(Exhausted(errors)) =>
         && out.state == before && k == ATTEMPTS && |errors| == ATTEMPTS
         && RetriedSoFar(errors, db, c, transient, weather)
  }

  lemma RaisedIsFailure(db: Db, c: Call, op: (Db, nat) -> Attempt<Db, int>, weather: nat -> Weather<Db>, j: nat)
    requires forall s, n :: op(s, n) == Perform(s, c)
    ensures var t := TryOnce(OthersUpTo(db, weather, j), op, weather(j), j);
      && (forall e :: FailsAt(db, c, weather, j, e) <==> t.Failed? && t.error == e)
      && (t.Failed? ==> (t.caught <==> weather(j).connect.None?))
  {
    hide OthersUpTo, Perform;
    TryExact(OthersUpTo(db, weather, j), op, weather(j), j);
  }

  lemma RetriedIsRetry(errors: seq<Error>, db: Db, c: Call, op: (Db, nat) -> Attempt<Db, int>,
                       transient: string -> bool, weather: nat -> Weather<Db>, n: nat)
    requires forall s, n :: op(s, n) == Perform(s, c)
    requires n >= 1 && RetriedBefore(errors, db, op, transient, weather, n)
    ensures |errors| == n - 1 && RetriedSoFar(errors, db, c, transient, weather)
  {
    hide OthersUpTo, Perform, FailsAt, TryOnce, Retryable;
    forall i | 0 <= i < |errors|
      ensures Retries(db, c, transient, weather, i + 1, errors[i])
    {
      assert RetriedAt(errors, db, op, transient, weather, i + 1);
      RaisedIsFailure(db, c, op, weather, i + 1);
    }
  }

  lemma EndLands(out: Outcome<Db, int>, db: Db, c: Call, op: (Db, nat) -> Attempt<Db, int>, transient: string -> bool,
                 weather: nat -> Weather<Db>, k: nat)
    requires forall s, n :: op(s, n) == Perform(s, c)
    requires 1 <= k <= ATTEMPTS && EndsAt(out, db, op, transient, weather, ATTEMPTS, TOTAL_SECONDS, k)
    requires Sum(out.slept) <= TOTAL_SECONDS && (Sum(out.slept) == TOTAL_SECONDS <==> k == ATTEMPTS)
    ensures LandsAt(out, db, c, transient, weather, k)
  {
    hide OthersUpTo, Perform, FailsAt, TryOnce, Retryable, RetriedBefore, RetriedSoFar, Sum, Delays;
    RaisedIsFailure(db, c, op, weather, k);
    var before := OthersUpTo(db, weather, k);
    assert op(before, k) == Perform(before, c);
    match out.result
    case Ok(_) =>
      var errors :| RetriedBefore(errors, db, op, transient, weather, k);
      RetriedIsRetry(errors, db, c, op, transient, weather, k);
    case Denied(Propagated(_)) =>
      var errors :| RetriedBefore(errors, db, op, transient, weather, k);
      RetriedIsRetry(errors, db, c, op, transient, weather, k);
    case Denied(Exhausted(errors)) =>
      RetriedIsRetry(errors, db, c, op, transient, weather, ATTEMPTS + 1);
      var earlier := errors[..ATTEMPTS - 1];
      assert RetriedSoFar(earlier, db, c, transient, weather) by {
        Earlier(errors, db, c, transient, weather);
      }
  }

  lemma Earlier(errors: seq<Error>, db: Db, c: Call, transient: string -> bool, weather: nat -> Weather<Db>)
    requires errors != [] && RetriedSoFar(errors, db, c, transient, weather)
    ensures RetriedSoFar(errors[..|errors| - 1], db, c, transient, weather)
  {
    hide Retries;
  }

  /** Where nothing faults at the first attempt and the call's own error, if any, is not retryable, the call
      takes one attempt and answers as `Apply` does. */
  lemma CleanCall(out: Outcome<Db, int>, db: Db, c: Call, transient: string -> bool, weather: nat -> Weather<Db>, k: nat)
    requires 1 <= k <= ATTEMPTS && LandsAt(out, db, c, transient, weather, k) && Clean(weather(1))
    requires var answer := Apply(weather(1).others(db), c).1; answer.Denied? ==> !Retryable(answer.error, transient)
    ensures var (db', answer) := Apply(weather(1).others(db), c);
      && k == 1
      && (answer.Ok? ==> out.result == Ok(answer.value) && out.state == db')
      && (answer.Denied? ==> out.result == Denied(Propagated(answer.error)) && out.state == weather(1).others(db))
  {
    hide Apply, Sum, Retryable;
    assert OthersUpTo(db, weather, 1) == weather(1).others(OthersUpTo(db, weather, 0)) == weather(1).others(db);
    var errors :| |errors| == k - 1 && RetriedSoFar(errors, db, c, transient, weather);
    assert errors != [] ==> Retries(db, c, transient, weather, 1, errors[0]);
  }

  /** No denial of a call is ever retried, and its only other error is the violated key. */
  lemma ErrorsOfCalls(db: Db, c: Call)
    ensures Apply(db, c).1.Denied? ==> Apply(db, c).1.error in {STALE, NO_SESSION, NO_APPROVAL, DECIDED, DUPLICATE}
    ensures Apply(db, c).1.Denied? ==> Apply(db, c).0 == db
  {
  }

  // ---- histories -----------------------------------------------------------------------------------

  function Exec(db: Db, calls: seq<Call>): Db
    decreases |calls|
  {
    if calls == [] then db else Exec(Apply(db, calls[0]).0, calls[1..])
  }

  /** A history ends with its last call, on what came before. */
  lemma {:induction false} ExecEnds(db: Db, calls: seq<Call>, last: Call)
    ensures Exec(db, []) == db && Exec(db, calls + [last]) == Apply(Exec(db, calls), last).0
    decreases |calls|
  {
    if calls != [] {
      ExecEnds(Apply(db, calls[0]).0, calls[1..], last);
      assert (calls + [last])[1..] == calls[1..] + [last];
    }
  }

  ghost predicate Owned(db: Db, id: string) {
    id in db.sessions && db.sessions[id].owner.Some?
  }

  /** Attach succeeds on an owned session exactly when it names the current owner and epoch. */
  lemma AttachExact(db: Db, c: Call)
    requires c.Attach? && Owned(db, c.session)
    ensures var row := db.sessions[c.session];
            Apply(db, c).1.Ok? <==> row.owner == Some(c.expectedOwner) && row.epoch == Some(c.expectedEpoch)
    ensures !Apply(db, c).1.Ok? ==> Apply(db, c) == (db, Denied(STALE))
  {
  }

  /** Owner and epoch of an owned session change only by a matching attach, and by one epoch. */
  lemma OwnershipChange(db: Db, c: Call, id: string)
    requires Owned(db, id)
    ensures Owned(Apply(db, c).0, id)
    ensures var row, row' := db.sessions[id], Apply(db, c).0.sessions[id];
            (row'.owner == row.owner && row'.epoch == row.epoch)
            || (c.Attach? && c.session == id && row.owner == Some(c.expectedOwner) && row.epoch == Some(c.expectedEpoch)
                && row'.owner == Some(c.newOwner) && row'.epoch == Some(c.expectedEpoch + 1))
  {
  }

  ghost predicate PastEpoch(db: Db, id: string, epoch: int) {
    Owned(db, id) && (db.sessions[id].epoch.Some? ==> db.sessions[id].epoch.value > epoch)
  }

  lemma {:induction false} StaysPast(db: Db, calls: seq<Call>, id: string, epoch: int)
    requires PastEpoch(db, id, epoch)
    ensures PastEpoch(Exec(db, calls), id, epoch)
    decreases |calls|
  {
    if calls != [] {
      OwnershipChange(db, calls[0], id);
      hide Apply;
      StaysPast(Apply(db, calls[0]).0, calls[1..], id, epoch);
    }
  }

  /** At most one attach per expected epoch succeeds, whatever happens in between. */
  lemma OneAttachPerEpoch(db: Db, first: Call, calls: seq<Call>, second: Call)
    requires first.Attach? && second.Attach? && first.session == second.session
    requires first.expectedEpoch == second.expectedEpoch
    requires Apply(db, first).1.Ok?
    ensures var later := Exec(Apply(db, first).0, calls);
            Apply(later, second) == (later, Denied(STALE))
  {
    var after := Apply(db, first).0;
    assert PastEpoch(after, first.session, first.expectedEpoch);
    StaysPast(after, calls, first.session, first.expectedEpoch);
    AttachExact(Exec(after, calls), second);
  }

  /** The call writes under a fence that names the session and the node. */
  predicate FencedBy(c: Call, id: string, node: string) {
    match c
    case InstructionAdd(target, writer, _, _) => target == id && writer == Some(node)
    case RequestApproval(_, of, asker) => of == id && asker == Some(node)
    case Transition(_, _, _, fence) => fence.Some? && fence.value.session == id && fence.value.owner == Some(node)
    case _ => false
  }

  /** Its operation without the fence. */
  function Unfenced(c: Call): Call {
    match c
    case InstructionAdd(_, _, _, _) => c.(node := None)
    case RequestApproval(_, _, _) => c.(asker := None)
    case Transition(_, _, _, _) => c.(fence := None)
    case _ => c
  }

  /** The session is nobody's, or the node's at the epoch the fence asks for. */
  ghost predicate MayWrite(db: Db, c: Call, id: string, node: string) {
    Owned(db, id) ==>
      && db.sessions[id].owner == Some(node)
      && (c.Transition? && c.fence.Some? && c.fence.value.epoch.Some? ==> db.sessions[id].epoch == c.fence.value.epoch)
  }

  /** A fenced write, be it an instruction, an approval request or a decision, does what it does unfenced
      exactly where the session is the writer's or nobody's; elsewhere it is stale and changes nothing. */
  lemma FencedWriteExact(db: Db, c: Call, id: string, node: string)
    requires FencedBy(c, id, node)
    ensures Apply(db, c) == if MayWrite(db, c, id, node) then Apply(db, Unfenced(c)) else (db, Denied(STALE))
    ensures c.InstructionAdd? ==> (Apply(db, c).1.Ok? <==> id in db.sessions && MayWrite(db, c, id, node))
    ensures c.RequestApproval? ==>
              (Apply(db, c).1.Ok? <==> id in db.sessions && c.approval !in db.approvals && MayWrite(db, c, id, node))
    ensures c.Transition? ==> (Apply(db, c).1.Ok? <==>
              && c.decided in db.approvals && MayWrite(db, c, id, node)
              && if c.openOnly then db.approvals[c.decided].state == Open else !IsDecided(db.approvals[c.decided].state))
  {
  }

  ghost predicate HandsTo(c: Call, id: string, node: string) {
    c.Attach? && c.session == id && c.newOwner == node
  }

  lemma {:induction false} NotHandedBack(db: Db, calls: seq<Call>, id: string, node: string)
    requires Owned(db, id) && db.sessions[id].owner != Some(node)
    requires forall c | c in calls :: !HandsTo(c, id, node)
    ensures Owned(Exec(db, calls), id) && Exec(db, calls).sessions[id].owner != Some(node)
    decreases |calls|
  {
    if calls != [] {
      OwnershipChange(db, calls[0], id);
      assert calls[0] in calls;
      hide Apply;
      NotHandedBack(Apply(db, calls[0]).0, calls[1..], id, node);
    }
  }

  /** A node that lost a session writes and decides nothing in it until some attach hands it back. */
  lemma DisplacedOwnerRefused(db: Db, handoff: Call, calls: seq<Call>, write: Call, node: string)
    requires handoff.Attach? && Apply(db, handoff).1.Ok?
    requires FencedBy(write, handoff.session, node) && node != handoff.newOwner
    requires forall c | c in calls :: !HandsTo(c, handoff.session, node)
    ensures var later := Exec(Apply(db, handoff).0, calls);
            Apply(later, write) == (later, Denied(STALE))
  {
    var after := Apply(db, handoff).0;
    NotHandedBack(after, calls, handoff.session, node);
    FencedWriteExact(Exec(after, calls), write, handoff.session, node);
  }

  /** An approval never changes its session, so the fence chosen by a read before the transaction is
      still that of the approval's session when the decision lands. */
  lemma {:induction false} ApprovalKeepsSession(db: Db, calls: seq<Call>, id: string)
    requires id in db.approvals
    ensures id in Exec(db, calls).approvals && Exec(db, calls).approvals[id].session == db.approvals[id].session
    decreases |calls|
  {
    if calls != [] {
      assert id in Apply(db, calls[0]).0.approvals;
      assert Apply(db, calls[0]).0.approvals[id].session == db.approvals[id].session;
      hide Apply;
      ApprovalKeepsSession(Apply(db, calls[0]).0, calls[1..], id);
    }
  }

  /** An approval of the session handed over, decided under the fence of its session, by a node that has
      not got the session back: refused. */
  lemma DisplacedDecisionRefused(db: Db, handoff: Call, calls: seq<Call>, id: string, to: ApprovalState,
                                 openOnly: bool, node: string, epoch: Option<int>)
    requires handoff.Attach? && Apply(db, handoff).1.Ok? && node != handoff.newOwner
    requires id in db.approvals && db.approvals[id].session == handoff.session
    requires forall c | c in calls :: !HandsTo(c, handoff.session, node)
    ensures var later := Exec(Apply(db, handoff).0, calls);
      && id in later.approvals && later.approvals[id].session == handoff.session
      && Apply(later, Transition(id, to, openOnly, Some(Fence(later.approvals[id].session, Some(node), epoch))))
         == (later, Denied(STALE))
  {
    ApprovalKeepsSession(Apply(db, handoff).0, calls, id);
    hide Exec, Apply;
    DisplacedOwnerRefused(db, handoff, calls,
                          Transition(id, to, openOnly, Some(Fence(handoff.session, Some(node), epoch))), node);
  }

  // ---- what each call writes -----------------------------------------------------------------------

  /** A session starts once, with the owner and epoch given and no instruction. */
  lemma StartExact(db: Db, c: Call)
    requires c.Start?
    ensures Apply(db, c) == if c.id in db.sessions then (db, Denied(DUPLICATE))
                            else (db.(sessions := db.sessions[c.id := Session(c.owner, c.epoch, [])]), Ok(0))
  {
  }

  /** A missing session cannot be attached; one that nobody owns can, at any epoch. */
  lemma AttachUnowned(db: Db, c: Call)
    requires c.Attach? && !Owned(db, c.session)
    ensures c.session !in db.sessions ==> Apply(db, c) == (db, Denied(NO_SESSION))
    ensures c.session in db.sessions ==>
              && Apply(db, c).1 == Ok(c.expectedEpoch + 1)
              && var row := Apply(db, c).0.sessions[c.session];
                 row.owner == Some(c.newOwner) && row.epoch == Some(c.expectedEpoch + 1)
                 && row.instructions == db.sessions[c.session].instructions
  {
  }

  /** An instruction that lands is the last of its session, under the next ordinal, as it was given; a
      request that lands is open; a transition that lands sets the state asked for. Nothing else changes. */
  lemma WritesExact(db: Db, c: Call)
    requires OrdinalsGapless(db) && Apply(db, c).1.Ok?
    ensures var (db', answer) := Apply(db, c);
      && (c.InstructionAdd? ==>
          && c.target in db.sessions && answer.value == |db.sessions[c.target].instructions| + 1
          && db' == db.(sessions := db.sessions[c.target := db.sessions[c.target].(instructions :=
               db.sessions[c.target].instructions + [Instruction(c.instruction, answer.value, c.text)])]))
      && (c.RequestApproval? ==>
          && c.of in db.sessions && c.approval !in db.approvals
          && db' == db.(approvals := db.approvals[c.approval := Approval(c.of, Open)]))
      && (c.Transition? ==>
          && c.decided in db.approvals
          && db' == db.(approvals := db.approvals[c.decided := db.approvals[c.decided].(state := c.to)]))
  {
    if c.InstructionAdd? && c.target in db.sessions {
      MaxIsCount(db.sessions[c.target].instructions);
    }
  }

  // ---- instruction ordinals ------------------------------------------------------------------------

  ghost predicate Numbered(rows: seq<Instruction>) {
    forall k | 0 <= k < |rows| :: rows[k].ordinal == k + 1
  }

  ghost predicate OrdinalsGapless(db: Db) {
    forall id | id in db.sessions :: Numbered(db.sessions[id].instructions)
  }

  lemma {:induction false} MaxOrdinalIsLargest(rows: seq<Instruction>)
    ensures forall row | row in rows :: row.ordinal <= MaxOrdinal(rows)
    ensures if rows == [] then MaxOrdinal(rows) == 0 else exists row | row in rows :: row.ordinal == MaxOrdinal(rows)
  {
    if rows != [] {
      var front, last := rows[..|rows| - 1], rows[|rows| - 1];
      MaxOrdinalIsLargest(front);
      assert rows == front + [last];
      assert last in rows;
      if front != [] {
        var row :| row in front && row.ordinal == MaxOrdinal(front);
        assert row in rows;
      }
    }
  }

  lemma {:induction false} MaxIsCount(rows: seq<Instruction>)
    requires Numbered(rows)
    ensures MaxOrdinal(rows) == |rows|
  {
    if rows != [] {
      MaxIsCount(rows[..|rows| - 1]);
    }
  }

  lemma ApplyKeepsOrdinals(db: Db, c: Call)
    requires OrdinalsGapless(db)
    ensures OrdinalsGapless(Apply(db, c).0)
  {
    if c.InstructionAdd? && c.target in db.sessions {
      MaxIsCount(db.sessions[c.target].instructions);
    }
  }

  /** Every history numbers each session's instructions 1..n. */
  lemma {:induction false} ExecKeepsOrdinals(db: Db, calls: seq<Call>)
    requires OrdinalsGapless(db)
    ensures OrdinalsGapless(Exec(db, calls))
    decreases |calls|
  {
    if calls != [] {
      ApplyKeepsOrdinals(db, calls[0]);
      hide Apply;
      ExecKeepsOrdinals(Apply(db, calls[0]).0, calls[1..]);
    }
  }

  // ---- approvals -----------------------------------------------------------------------------------

  lemma DecidedStays(db: Db, c: Call, id: string)
    requires id in db.approvals && IsDecided(db.approvals[id].state)
    ensures id in Apply(db, c).0.approvals && Apply(db, c).0.approvals[id] == db.approvals[id]
    ensures c.Transition? && c.decided == id ==> !Apply(db, c).1.Ok?
  {
  }

  lemma {:induction false} DecidedForever(db: Db, calls: seq<Call>, id: string)
    requires id in db.approvals && IsDecided(db.approvals[id].state)
    ensures id in Exec(db, calls).approvals && Exec(db, calls).approvals[id] == db.approvals[id]
    decreases |calls|
  {
    if calls != [] {
      DecidedStays(db, calls[0], id);
      hide Apply;
      DecidedForever(Apply(db, calls[0]).0, calls[1..], id);
    }
  }

  /** An approval is decided once: after one decision lands, every later transition of it is refused
      and the decision stands. */
  lemma OneDecision(db: Db, first: Call, calls: seq<Call>, second: Call)
    requires first.Transition? && IsDecided(first.to) && Apply(db, first).1.Ok?
    requires second.Transition? && second.decided == first.decided
    ensures var later := Exec(Apply(db, first).0, calls);
            && !Apply(later, second).1.Ok? && Apply(later, second).0 == later
            && first.decided in later.approvals && later.approvals[first.decided].state == first.to
  {
    var after := Apply(db, first).0;
    DecidedForever(after, calls, first.decided);
    DecidedStays(Exec(after, calls), second, first.decided);
  }
}
