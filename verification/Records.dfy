/** Hash-chained revisions of lifecycle and plan records, and the writes the completion gate guards
    (kaizen_components/task_records.py, plan_records.py, proof_artifacts.py).

    An update reads the head first, outside its transaction, and commits later; any other committed
    writes may fall in between. Hashes are symbolic: equal exactly on equal records. */
module Records {
  import opened Wrappers
  import opened Text
  import opened Orders
  import opened Reduction
  import opened Ledger
  import opened Histories
  import opened Gates

  datatype Table = TaskTable | LifecycleTable | PlanTable

  datatype Key = Key(table: Table, id: string)

  datatype Material =
    | UpdateMaterial(id: string, summary: string, body: string, status: string)
    | PlanMaterial(id: string, title: string, summary: string, body: string)

  datatype Hash = Sha256(material: Material)

  datatype Revision = Revision(id: string, number: int, summary: string, body: string, status: string,
                               contentHash: Hash, previousHash: Option<Hash>)

  /** A head row with its revision rows. */
  datatype Record = Record(title: string, summary: string, body: string, status: string, contentHash: Hash,
                           currentRevision: string, revisions: seq<Revision>)

  /** The arguments of an update; an absent one keeps the value read. */
  datatype Patch = Patch(summary: Option<string>, body: Option<string>, status: Option<string>)

  /** What an update carries from its read to its transaction. */
  datatype Pending = Pending(key: Key, revision: string, summary: string, body: string, status: string, contentHash: Hash)

  datatype Verification = Verification(id: string, taskId: Option<string>, conclusion: string)

  datatype Refusal = RecordNotFound | RowTaken | PlanStatusInvalid | LiveChildren(block: Block)

  /** `used` is the primary-key index of the revision tables. */
  datatype State = State(ledger: Db, records: map<Key, Record>, used: set<Key>, drafts: seq<Pending>,
                         verified: seq<Verification>)

  const PLAN_STATUSES := {"draft", "active", "blocked", "completed", "canceled"}
  const TERMINAL_STATUSES := {"done", "completed", "resolved", "closed"}
  const GATED_CONCLUSIONS := {"VERIFIED_ACCEPTABLE", "ACCEPTABLE_WITH_CONCERNS"}

  predicate TerminalStatus(status: string) {
    Lower(Strip(status)) in TERMINAL_STATUSES
  }

  function FirstHash(key: Key, title: string, summary: string, body: string, status: string): Hash {
    if key.table == PlanTable then Sha256(PlanMaterial(key.id, title, summary, body))
    else Sha256(UpdateMaterial(key.id, summary, body, status))
  }

  // ---- the operations as functions of the tables ---------------------------------------------------

  function AddedRecord(s: State, key: Key, revision: string, title: string, summary: string, body: string, status: string)
    : (State, Result<Hash, Refusal>)
  {
    if key.table == PlanTable && status !in PLAN_STATUSES then (s, Denied(PlanStatusInvalid))
    else if key in s.records || Key(key.table, revision) in s.used then (s, Denied(RowTaken))
    else
      var hash := FirstHash(key, title, summary, body, status);
      var first := Revision(revision, 1, summary, body, status, hash, None);
      (s.(records := s.records[key := Record(title, summary, body, status, hash, revision, [first])],
          used := s.used + {Key(key.table, revision)}), Ok(hash))
  }

  /** The update names no status of its own. */
  predicate KeepsStatus(key: Key, patch: Patch) {
    patch.status.None? || (key.table != PlanTable && patch.status.value == "")
  }

  /** The read phase: fill the absent arguments from the head as it is now. */
  function Prepared(s: State, key: Key, revision: string, patch: Patch): Result<Pending, Refusal> {
    if key !in s.records then Denied(RecordNotFound)
    else
      var head := s.records[key];
      var summary := if patch.summary.Some? then patch.summary.value else head.summary;
      var body := if patch.body.Some? then patch.body.value else head.body;
      var status := if KeepsStatus(key, patch) then head.status else patch.status.value;
      if key.table == PlanTable && status !in PLAN_STATUSES then Denied(PlanStatusInvalid)
      else Ok(Pending(key, revision, summary, body, status, Sha256(UpdateMaterial(key.id, summary, body, status))))
  }

  /** The transaction: gate, chain to the head's hash as it is then, count the revisions, write. */
  function Committed(s: State, d: Pending): (State, Result<Hash, Refusal>)
  {
    var block := if d.key.table == TaskTable && TerminalStatus(d.status) then LiveBlock(s.ledger, d.key.id) else None;
    if block.Some? then (s, Denied(LiveChildren(block.value)))
    else if d.key !in s.records then (s, Denied(RecordNotFound))
    else if Key(d.key.table, d.revision) in s.used then (s, Denied(RowTaken))
    else (Revised(s, d), Ok(d.contentHash))
  }

  function Revised(s: State, d: Pending): State
    requires d.key in s.records
  {
    var head := s.records[d.key];
    var row := Revision(d.revision, |head.revisions| + 1, d.summary, d.body, d.status, d.contentHash,
                        Some(head.contentHash));
    var head' := head.(summary := d.summary, body := d.body, status := d.status, contentHash := d.contentHash,
                       currentRevision := d.revision, revisions := head.revisions + [row]);
    s.(records := s.records[d.key := head'], used := s.used + {Key(d.key.table, d.revision)})
  }

  /** Q2. */
  function VerificationAdded(s: State, v: Verification): (State, Result<(), Refusal>)
  {
    var gated := v.conclusion in GATED_CONCLUSIONS && v.taskId.Some? && v.taskId.value != "";
    var block := if gated then LiveBlock(s.ledger, v.taskId.value) else None;
    if block.Some? then (s, Denied(LiveChildren(block.value)))
    else (s.(verified := s.verified + [v]), Ok(()))
  }

  // ---- the operations as the modules perform them --------------------------------------------------

  class Plane {
    var ledger: Db
    var records: map<Key, Record>
    var used: set<Key>
    var drafts: seq<Pending>
    var verified: seq<Verification>

    function Value(): State
      reads this
    {
      State(ledger, records, used, drafts, verified)
    }

    method AddRecord(key: Key, revision: string, title: string, summary: string, body: string, status: string)
      returns (result: Result<Hash, Refusal>)
      modifies this
      ensures (Value(), result) == AddedRecord(old(Value()), key, revision, title, summary, body, status)
    {
      if key.table == PlanTable && status !in PLAN_STATUSES {
        return Denied(PlanStatusInvalid);
      }
      if key in records || Key(key.table, revision) in used {
        return Denied(RowTaken);
      }
      var hash := FirstHash(key, title, summary, body, status);
      var first := Revision(revision, 1, summary, body, status, hash, None);
      records := records[key := Record(title, summary, body, status, hash, revision, [first])];
      used := used + {Key(key.table, revision)};
      result := Ok(hash);
    }

    method CommitUpdate(d: Pending) returns (result: Result<Hash, Refusal>)
      modifies this
      ensures (Value(), result) == Committed(old(Value()), d)
    {
      hide LiveBlock, TerminalStatus;
      if d.key.table == TaskTable && TerminalStatus(d.status) {
        var block := TaskLiveOrchestration(ledger, d.key.id);
        if block.Some? {
          return Denied(LiveChildren(block.value));
        }
      }
      if d.key !in records {
        return Denied(RecordNotFound);
      }
      if Key(d.key.table, d.revision) in used {
        return Denied(RowTaken);
      }
      var head := records[d.key];
      var count := |head.revisions|;
      var previous := head.contentHash;
      head := head.(summary := d.summary, body := d.body, status := d.status, contentHash := d.contentHash,
                    currentRevision := d.revision);
      head := head.(revisions := head.revisions + [Revision(d.revision, count + 1, d.summary, d.body, d.status,
                                                            d.contentHash, Some(previous))]);
      records := records[d.key := head];
      used := used + {Key(d.key.table, d.revision)};
      result := Ok(d.contentHash);
    }

    method AddVerification(v: Verification) returns (result: Result<(), Refusal>)
      modifies this
      ensures (Value(), result) == VerificationAdded(old(Value()), v)
    {
      hide LiveBlock;
      if v.conclusion in GATED_CONCLUSIONS && v.taskId.Some? && v.taskId.value != "" {
        var block := TaskLiveOrchestration(ledger, v.taskId.value);
        if block.Some? {
          return Denied(LiveChildren(block.value));
        }
      }
      verified := verified + [v];
      result := Ok(());
    }
  }

  // ---- histories -------------------------------------------------------------------------------------

  datatype Action =
    | Add(key: Key, revision: string, title: string, summary: string, body: string, status: string)
    | Read(readKey: Key, readRevision: string, patch: Patch)
    | Commit(draft: nat)
    | Verify(verification: Verification)
    | Orchestrate(command: Command)

  /** Any interleaving: reads put drafts aside, commits pick up any earlier draft. */
  function After(s: State, a: Action): State
  {
    match a
    case Add(key, revision, title, summary, body, status) =>
      AddedRecord(s, key, revision, title, summary, body, status).0
    case Read(key, revision, patch) =>
      var r := Prepared(s, key, revision, patch);
      if r.Ok? then s.(drafts := s.drafts + [r.value]) else s
    case Commit(k) => if k < |s.drafts| then Committed(s, s.drafts[k]).0 else s
    case Verify(v) => VerificationAdded(s, v).0
    case Orchestrate(command) => s.(ledger := Next(s.ledger, command))
  }

  const START := State(EMPTY_DB, map[], {}, [], [])

  function Play(s: State, actions: seq<Action>): State
    decreases |actions|
  {
    if actions == [] then s else Play(After(s, actions[0]), actions[1..])
  }

  /** Revision k has number k, chains to revision k-1, and hashes its own content; the head is the
      last revision. */
  ghost predicate ChainOk(key: Key, r: Record) {
    && r.revisions != []
    && (forall k | 0 <= k < |r.revisions| :: LinkOk(key, r, k))
    && var last := r.revisions[|r.revisions| - 1];
       r.contentHash == last.contentHash && r.currentRevision == last.id
       && r.summary == last.summary && r.body == last.body && r.status == last.status
  }

  ghost predicate LinkOk(key: Key, r: Record, k: nat)
    requires k < |r.revisions|
  {
    var v := r.revisions[k];
    && v.number == k + 1
    && v.previousHash == (if k == 0 then None else Some(r.revisions[k - 1].contentHash))
    && v.contentHash == if k == 0 then FirstHash(key, r.title, v.summary, v.body, v.status)
                        else Sha256(UpdateMaterial(key.id, v.summary, v.body, v.status))
  }

  ghost predicate Good(s: State) {
    && Reachable(s.ledger)
    && (forall k | k in s.records :: ChainOk(k, s.records[k]))
    && (forall d | d in s.drafts :: d.contentHash == Sha256(UpdateMaterial(d.key.id, d.summary, d.body, d.status)))
  }

  lemma RevisedKeepsChain(s: State, d: Pending)
    requires d.key in s.records && ChainOk(d.key, s.records[d.key])
    requires d.contentHash == Sha256(UpdateMaterial(d.key.id, d.summary, d.body, d.status))
    ensures ChainOk(d.key, Revised(s, d).records[d.key])
  {
    var r, r' := s.records[d.key], Revised(s, d).records[d.key];
    forall k | 0 <= k < |r'.revisions|
      ensures LinkOk(d.key, r', k)
    {
      if k < |r.revisions| {
        assert LinkOk(d.key, r, k);
      }
    }
  }

  lemma {:induction false} ExecAppend(db: Db, commands: seq<Command>, c: Command)
    ensures Exec(db, commands + [c]) == Next(Exec(db, commands), c)
    decreases |commands|
  {
    hide Next;
    if commands == [] {
      assert commands + [c] == [c] && [c][1..] == [];
      assert Exec(Next(db, c), []) == Next(db, c);
    } else {
      assert (commands + [c])[1..] == commands[1..] + [c];
      ExecAppend(Next(db, commands[0]), commands[1..], c);
    }
  }

  lemma NextReachable(db: Db, c: Command)
    requires Reachable(db)
    ensures Reachable(Next(db, c))
  {
    hide Next;
    var commands :| db == Exec(EMPTY_DB, commands);
    ExecAppend(EMPTY_DB, commands, c);
  }

  lemma AfterKeepsGood(s: State, a: Action)
    requires Good(s)
    ensures Good(After(s, a))
  {
    hide LiveBlock, Next, Reachable, ChainOk, TerminalStatus;
    match a
    case Add(key, revision, title, summary, body, status) =>
      if AddedRecord(s, key, revision, title, summary, body, status).1.Ok? {
        FirstRevisionOk(s, key, revision, title, summary, body, status);
      }
    case Read(key, revision, patch) =>
    case Commit(k) =>
      if k < |s.drafts| && Committed(s, s.drafts[k]).1.Ok? {
        assert s.drafts[k] in s.drafts;
        RevisedKeepsChain(s, s.drafts[k]);
      }
    case Verify(v) =>
    case Orchestrate(command) =>
      NextReachable(s.ledger, command);
  }

  lemma FirstRevisionOk(s: State, key: Key, revision: string, title: string, summary: string, body: string, status: string)
    requires AddedRecord(s, key, revision, title, summary, body, status).1.Ok?
    ensures ChainOk(key, AddedRecord(s, key, revision, title, summary, body, status).0.records[key])
  {
  }

  lemma StartGood()
    ensures Good(START)
  {
    assert Exec(EMPTY_DB, []) == EMPTY_DB;
  }

  /** Under every interleaving of stale reads and committed updates the chains are intact. */
  lemma {:induction false} ChainsIntact(s: State, actions: seq<Action>)
    requires Good(s)
    ensures Good(Play(s, actions))
    decreases |actions|
  {
    hide After, Good;
    if actions != [] {
      AfterKeepsGood(s, actions[0]);
      ChainsIntact(After(s, actions[0]), actions[1..]);
    }
  }

  /** Revisions are never rewritten: each action leaves a record's earlier revisions as a prefix. */
  lemma {:induction false} RevisionsAppendOnly(s: State, actions: seq<Action>, key: Key)
    requires key in s.records
    ensures key in Play(s, actions).records
    ensures s.records[key].revisions <= Play(s, actions).records[key].revisions
    decreases |actions|
  {
    if actions != [] {
      AfterAppends(s, actions[0], key);
      hide After;
      RevisionsAppendOnly(After(s, actions[0]), actions[1..], key);
    }
  }

  lemma AfterAppends(s: State, a: Action, key: Key)
    requires key in s.records
    ensures key in After(s, a).records && s.records[key].revisions <= After(s, a).records[key].revisions
  {
    hide LiveBlock, Next, TerminalStatus;
  }

  /** When reading for an update fails, and what it carries otherwise. */
  lemma PreparedExact(s: State, key: Key, revision: string, patch: Patch)
    ensures var r := Prepared(s, key, revision, patch);
      && (r == Denied(RecordNotFound) <==> key !in s.records)
      && (key in s.records ==>
          var status := match patch.status
                        case None => s.records[key].status
                        case Some(text) => if text == "" && key.table != PlanTable then s.records[key].status else text;
          && (r.Denied? <==> key.table == PlanTable && status !in PLAN_STATUSES)
          && (r.Denied? ==> r.error == PlanStatusInvalid)
          && (r.Ok? ==> r.value.key == key && r.value.revision == revision && r.value.status == status))
  {
  }

  /** A field that the update does name holds the named value after the commit, in the head and in the new
      revision, whatever was committed since the read; no other record changes. */
  lemma NamedFieldsLand(s: State, key: Key, revision: string, patch: Patch, actions: seq<Action>)
    requires Prepared(s, key, revision, patch).Ok?
    requires Committed(Play(s, actions), Prepared(s, key, revision, patch).value).1.Ok?
    ensures var d, now := Prepared(s, key, revision, patch).value, Play(s, actions);
            var later := Committed(now, d).0;
            && key in later.records && later.records[key].revisions != []
            && var head := later.records[key];
               var last := head.revisions[|head.revisions| - 1];
               && (patch.summary.Some? ==> head.summary == last.summary == patch.summary.value)
               && (patch.body.Some? ==> head.body == last.body == patch.body.value)
               && (!KeepsStatus(key, patch) ==> head.status == last.status == patch.status.value)
               && head.currentRevision == last.id == revision
               && later.ledger == now.ledger && later.verified == now.verified
               && forall k | k in now.records && k != key :: k in later.records && later.records[k] == now.records[k]
  {
    hide LiveBlock, TerminalStatus, Play;
  }

  /** A new record starts with revision 1, as given; a taken id or revision and, for plans, an unknown status
      are refused, and a refusal changes nothing. */
  lemma AddExact(s: State, key: Key, revision: string, title: string, summary: string, body: string, status: string)
    ensures var (s', result) := AddedRecord(s, key, revision, title, summary, body, status);
      && (result.Ok? <==> (key.table == PlanTable ==> status in PLAN_STATUSES) && key !in s.records
                          && Key(key.table, revision) !in s.used)
      && (result.Denied? ==> s' == s)
      && (result.Ok? ==>
          && key in s'.records && s'.ledger == s.ledger && |s'.records[key].revisions| == 1
          && var head := s'.records[key];
             && (head.title, head.summary, head.body, head.status) == (title, summary, body, status)
             && head.currentRevision == revision && head.revisions[0].previousHash == None
             && head.contentHash == head.revisions[0].contentHash
             && head.contentHash == (match key.table
                                     case PlanTable => Sha256(PlanMaterial(key.id, title, summary, body))
                                     case _ => Sha256(UpdateMaterial(key.id, summary, body, status)))
             && forall k | k in s.records :: k in s'.records && s'.records[k] == s.records[k])
  {
  }

  /** A status closes a task if it spells one of four words, capitals and outer blanks aside. */
  lemma TerminalSpelling(left: string, word: string, right: string)
    requires Blank(left, 0, |left|) && Blank(right, 0, |right|) && Trimmed(word) && word != []
    ensures TerminalStatus(left + word + right) <==>
            Spells(word, "done") || Spells(word, "completed") || Spells(word, "resolved") || Spells(word, "closed")
  {
    hide Spells, Strip, Lower;
    StripBetween(left, word, right);
    WordSpelling(word);
  }

  lemma WordSpelling(word: string)
    ensures Lower(word) in TERMINAL_STATUSES <==>
            Spells(word, "done") || Spells(word, "completed") || Spells(word, "resolved") || Spells(word, "closed")
  {
    hide Spells, Lower;
    NoCapitals();
    LowerMeaning(word, "done");
    LowerMeaning(word, "completed");
    LowerMeaning(word, "resolved");
    LowerMeaning(word, "closed");
  }

  lemma NoCapitals()
    ensures forall c | c in "done" || c in "completed" || c in "resolved" || c in "closed" :: c !in CAPITALS
  {
    Alphabet();
  }

  /** Only tasks that an update would close are gated: every other draft lands where its record exists and
      its revision id is new. Only the two success conclusions for a task gate a verification. */
  lemma UngatedLand(s: State, d: Pending, v: Verification)
    ensures !(d.key.table == TaskTable && TerminalStatus(d.status)) ==>
              (Committed(s, d).1.Ok? <==> d.key in s.records && Key(d.key.table, d.revision) !in s.used)
    ensures Committed(s, d).1.Denied? ==> Committed(s, d).0 == s
    ensures v.conclusion !in {"VERIFIED_ACCEPTABLE", "ACCEPTABLE_WITH_CONCERNS"} || v.taskId in {None, Some("")} ==>
              VerificationAdded(s, v) == (s.(verified := s.verified + [v]), Ok(()))
  {
    hide LiveBlock, TerminalStatus;
  }

  /** The later value is the one first read, so the value in between lasts exactly if it is that one. */
  ghost predicate Reverts(first: string, between: string, later: string) {
    later == first && (later == between <==> between == first)
  }

  /** A draft commits at most once. A field its update did not name goes back to the value it read, so
      it survives the commit exactly where nobody has changed it since the read. */
  lemma StaleFieldsReturn(s: State, key: Key, revision: string, patch: Patch, actions: seq<Action>)
    requires Prepared(s, key, revision, patch).Ok?
    requires Committed(Play(s, actions), Prepared(s, key, revision, patch).value).1.Ok?
    ensures var d, now := Prepared(s, key, revision, patch).value, Play(s, actions);
            var later := Committed(now, d).0;
            && key in later.records && key in now.records && !Committed(later, d).1.Ok?
            && (patch.summary.None? ==>
                Reverts(s.records[key].summary, now.records[key].summary, later.records[key].summary))
            && (patch.body.None? ==> Reverts(s.records[key].body, now.records[key].body, later.records[key].body))
            && (KeepsStatus(key, patch) ==>
                Reverts(s.records[key].status, now.records[key].status, later.records[key].status))
  {
    hide LiveBlock, TerminalStatus, Play;
  }

  /** Two updates read the same head; the first writes the body, the second only the summary. After both
      the written body is gone from the head, for every record and every text, and is left only in
      the revision between. */
  lemma ConcurrentUpdateLost(key: Key, ids: seq<string>, title: string, summary: string, body: string, status: string,
                             newBody: string, newSummary: string)
    requires |ids| == 3 && NoRepeats(ids)
    requires key.table == PlanTable ==> status in PLAN_STATUSES
    requires key.table == TaskTable ==> !TerminalStatus(status)
    ensures var end := Play(START, [Add(key, ids[0], title, summary, body, status),
                                    Read(key, ids[1], Patch(None, Some(newBody), None)),
                                    Read(key, ids[2], Patch(Some(newSummary), None, None)), Commit(0), Commit(1)]);
            && key in end.records && |end.records[key].revisions| == 3
            && end.records[key].summary == newSummary && end.records[key].body == body
            && end.records[key].revisions[1].body == newBody
  {
    hide After, TerminalStatus, Play;
    var a, b, c := Add(key, ids[0], title, summary, body, status), Read(key, ids[1], Patch(None, Some(newBody), None)),
      Read(key, ids[2], Patch(Some(newSummary), None, None));
    var s3 := BothRead(key, ids, title, summary, body, status, newBody, newSummary);
    assert Key(key.table, ids[1]).id != ids[0] && Key(key.table, ids[2]).id != ids[0];
    BothCommit(s3, key, s3.drafts[0], s3.drafts[1]);
    PlayFive(START, a, b, c, Commit(0), Commit(1));
  }

  lemma BothRead(key: Key, ids: seq<string>, title: string, summary: string, body: string, status: string,
                 newBody: string, newSummary: string) returns (s: State)
    requires |ids| == 3 && NoRepeats(ids)
    requires key.table == PlanTable ==> status in PLAN_STATUSES
    ensures s == After(After(After(START, Add(key, ids[0], title, summary, body, status)),
                             Read(key, ids[1], Patch(None, Some(newBody), None))),
                       Read(key, ids[2], Patch(Some(newSummary), None, None)))
    ensures key in s.records && |s.records[key].revisions| == 1 && |s.drafts| == 2
    ensures s.used == {Key(key.table, ids[0])}
    ensures s.drafts[0] == Pending(key, ids[1], summary, newBody, status, s.drafts[0].contentHash)
    ensures s.drafts[1] == Pending(key, ids[2], newSummary, body, status, s.drafts[1].contentHash)
  {
    s := After(After(START, Add(key, ids[0], title, summary, body, status)),
               Read(key, ids[1], Patch(None, Some(newBody), None)));
    assert |s.drafts| == 1 && key in s.records;
    s := After(s, Read(key, ids[2], Patch(Some(newSummary), None, None)));
  }

  lemma BothCommit(s: State, key: Key, first: Pending, second: Pending)
    requires key in s.records && |s.records[key].revisions| == 1 && s.drafts == [first, second]
    requires first.key == key && second.key == key && first.revision != second.revision
    requires Key(key.table, first.revision) !in s.used && Key(key.table, second.revision) !in s.used
    requires key.table == TaskTable ==> !TerminalStatus(first.status) && !TerminalStatus(second.status)
    ensures var end := After(After(s, Commit(0)), Commit(1));
            && key in end.records && |end.records[key].revisions| == 3
            && end.records[key].summary == second.summary && end.records[key].body == second.body
            && end.records[key].revisions[1].body == first.body
  {
    hide TerminalStatus, LiveBlock;
    var middle := After(s, Commit(0));
    assert middle == Revised(s, first);
    assert After(middle, Commit(1)) == Revised(middle, second);
  }

  /** Where the head's hash at the commit is still the one read, nobody has changed a field. */
  lemma UnchangedHashKeepsFields(s: State, actions: seq<Action>, key: Key)
    requires Good(s) && key in s.records
    ensures var now := Play(s, actions);
            && key in now.records
            && (now.records[key].contentHash == s.records[key].contentHash ==>
                SameFields(s.records[key], now.records[key]))
  {
    RevisionsAppendOnly(s, actions, key);
    ChainsIntact(s, actions);
    hide Play;
    var now := Play(s, actions);
    if now.records[key].contentHash == s.records[key].contentHash {
      SameHashSameFields(key, s.records[key], now.records[key]);
    }
  }

  predicate SameFields(r: Record, later: Record) {
    later.summary == r.summary && later.body == r.body && later.status == r.status
  }

  lemma SameHashSameFields(key: Key, r: Record, later: Record)
    requires ChainOk(key, r) && ChainOk(key, later) && r.revisions <= later.revisions
    requires later.contentHash == r.contentHash
    ensures SameFields(r, later)
  {
    assert LinkOk(key, r, |r.revisions| - 1) && LinkOk(key, later, |later.revisions| - 1);
  }

  lemma PlayFive(s: State, a: Action, b: Action, c: Action, d: Action, e: Action)
    ensures Play(s, [a, b, c, d, e]) == After(After(After(After(After(s, a), b), c), d), e)
  {
    hide After;
    assert [a, b, c, d, e][1..] == [b, c, d, e] && [b, c, d, e][1..] == [c, d, e];
    assert [c, d, e][1..] == [d, e] && [d, e][1..] == [e] && [e][1..] == [];
    var two := After(After(s, a), b);
    var three := After(two, c);
    assert Play(three, [d, e]) == Play(After(three, d), [e]);
    assert Play(two, [c, d, e]) == Play(three, [d, e]);
  }

  // ---- what the gate guarantees at a commit --------------------------------------------------------

  /** W2: a task reaches a terminal status only at a moment when no linked run is live, and is refused
      only for that reason, with the live runs named and counted. */
  lemma TaskCloseGate(s: State, d: Pending)
    requires Good(s) && d.key.table == TaskTable && TerminalStatus(d.status)
    ensures Committed(s, d).1.Ok? ==> forall r | r in s.ledger.runs :: !LiveRun(s.ledger.runs[r], d.key.id)
    ensures (exists b :: Committed(s, d) == (s, Denied(LiveChildren(b)))) <==>
            exists r :: r in s.ledger.runs && LiveRun(s.ledger.runs[r], d.key.id)
    ensures forall b | Committed(s, d).1 == Denied(LiveChildren(b)) :: BlockReports(s.ledger, d.key.id, b)
  {
    hide Reduced, LiveRun, Reachable, TerminalStatus, LiveBlock;
    GateMeaning(s.ledger, d.key.id);
    var block := LiveBlock(s.ledger, d.key.id);
    if block.Some? {
      assert Committed(s, d) == (s, Denied(LiveChildren(block.value)));
    }
  }

  /** Q2: the same for a success verification of a task. */
  lemma SuccessVerificationGate(s: State, v: Verification)
    requires Good(s) && v.conclusion in GATED_CONCLUSIONS && v.taskId.Some? && v.taskId.value != ""
    ensures VerificationAdded(s, v).1.Ok? <==> forall r | r in s.ledger.runs :: !LiveRun(s.ledger.runs[r], v.taskId.value)
    ensures forall b | VerificationAdded(s, v).1 == Denied(LiveChildren(b)) ::
              BlockReports(s.ledger, v.taskId.value, b)
  {
    hide Reduced, LiveRun, Reachable, LiveBlock;
    GateMeaning(s.ledger, v.taskId.value);
  }

  /** The report lists each live linked run once and adds up its open children and approvals. */
  ghost predicate BlockReports(db: Db, taskId: string, b: Block) {
    && NoRepeats(b.runs)
    && (forall r :: r in b.runs <==> r in db.runs && LiveRun(db.runs[r], taskId))
    && b.liveChildren == OpenTotal(db, b.runs, Subagent)
    && b.approvals == OpenTotal(db, b.runs, Approval)
    && b.liveChildren + b.approvals > 0
  }
}
