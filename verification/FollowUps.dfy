/** The in-memory queue of follow-up prompts (extension/src/followUpQueue.ts). The id
    `follow-up-<n>` is its number n. */
module FollowUps {
  import opened Wrappers

  const QUEUE_LIMIT := 10

  datatype PauseReason = Failure | Interrupt | Kill | ApprovalTimeout | LeaseConflict | UncertainTransport

  datatype Item = Item(id: nat, prompt: string, token: Option<string>)

  datatype Rejection = EmptyPrompt | QueueFull

  datatype State = State(items: seq<Item>, pauseReason: Option<PauseReason>, dispatching: Option<nat>, sequence: nat)

  const FRESH := State([], None, None, 0)

  /** WhiteSpace and LineTerminator of ECMA-262, which `trim` removes. */
  predicate IsScriptSpace(c: char) {
    var n := c as int;
    || 9 <= n <= 13 || n == 32 || n == 0xA0 || n == 0x1680 || 0x2000 <= n <= 0x200A
    || n == 0x2028 || n == 0x2029 || n == 0x202F || n == 0x205F || n == 0x3000 || n == 0xFEFF
  }

  function TrimStart(s: string): string {
    if s != [] && IsScriptSpace(s[0]) then TrimStart(s[1..]) else s
  }

  function TrimEnd(s: string): string {
    if s != [] && IsScriptSpace(s[|s| - 1]) then TrimEnd(s[..|s| - 1]) else s
  }

  function Trim(s: string): string {
    TrimEnd(TrimStart(s))
  }

  // ---- the methods as functions of the state -------------------------------------------------------

  function Enqueued(q: State, prompt: string, token: Option<string>): (State, Result<Item, Rejection>) {
    var text := Trim(prompt);
    if text == [] then (q, Denied(EmptyPrompt))
    else if |q.items| >= QUEUE_LIMIT then (q, Denied(QueueFull))
    else
      var item := Item(q.sequence + 1, text, if token == Some("") then None else token);
      (q.(items := q.items + [item], sequence := q.sequence + 1), Ok(item))
  }

  function Dispatched(q: State): (State, Option<Item>) {
    if q.pauseReason.Some? || q.dispatching.Some? || q.items == [] then (q, None)
    else (q.(dispatching := Some(q.items[0].id)), Some(q.items[0]))
  }

  function Acknowledged(q: State, id: nat): (State, bool) {
    if q.dispatching != Some(id) || q.items == [] || q.items[0].id != id then (q, false)
    else (q.(items := q.items[1..], dispatching := None), true)
  }

  function DispatchRejected(q: State, id: nat): State {
    if q.dispatching == Some(id) then q.(dispatching := None) else q
  }

  function Paused(q: State, reason: PauseReason): State {
    if q.items == [] then q else q.(pauseReason := Some(reason), dispatching := None)
  }

  function Cleared(q: State): State {
    q.(items := [], pauseReason := None, dispatching := None)
  }

  class FollowUpQueue {
    var items: seq<Item>
    var pauseReason: Option<PauseReason>
    var dispatching: Option<nat>
    var sequence: nat

    function Value(): State
      reads this
    {
      State(items, pauseReason, dispatching, sequence)
    }

    constructor ()
      ensures Value() == FRESH
    {
      items, pauseReason, dispatching, sequence := [], None, None, 0;
    }

    method Enqueue(prompt: string, token: Option<string>) returns (result: Result<Item, Rejection>)
      modifies this
      ensures (Value(), result) == Enqueued(old(Value()), prompt, token)
    {
      var text := Trim(prompt);
      if text == [] {
        return Denied(EmptyPrompt);
      }
      if |items| >= QUEUE_LIMIT {
        return Denied(QueueFull);
      }
      sequence := sequence + 1;
      var item := Item(sequence, text, if token == Some("") then None else token);
      items := items + [item];
      result := Ok(item);
    }

    method BeginDispatch() returns (item: Option<Item>)
      modifies this
      ensures (Value(), item) == Dispatched(old(Value()))
    {
      if pauseReason.Some? || dispatching.Some? || items == [] {
        return None;
      }
      dispatching := Some(items[0].id);
      item := Some(items[0]);
    }

    method AcknowledgeDurable(id: nat) returns (removed: bool)
      modifies this
      ensures (Value(), removed) == Acknowledged(old(Value()), id)
    {
      if dispatching != Some(id) || items == [] || items[0].id != id {
        return false;
      }
      items := items[1..];
      dispatching := None;
      removed := true;
    }

    method RejectDispatch(id: nat)
      modifies this
      ensures Value() == DispatchRejected(old(Value()), id)
    {
      if dispatching == Some(id) {
        dispatching := None;
      }
    }

    method Pause(reason: PauseReason)
      modifies this
      ensures Value() == Paused(old(Value()), reason)
    {
      if items == [] {
        return;
      }
      pauseReason := Some(reason);
      dispatching := None;
    }

    method Clear()
      modifies this
      ensures Value() == Cleared(old(Value()))
    {
      items := [];
      pauseReason := None;
      dispatching := None;
    }
  }

  // ---- what each call does for its callers ---------------------------------------------------------

  /** Trimming leaves the stretch between the outer whitespace. */
  lemma TrimMeaning(s: string) returns (lo: nat, hi: nat)
    ensures lo <= hi <= |s| && Trim(s) == s[lo..hi]
    ensures forall k | 0 <= k < lo || hi <= k < |s| :: IsScriptSpace(s[k])
    ensures lo < hi ==> !IsScriptSpace(s[lo]) && !IsScriptSpace(s[hi - 1])
  {
    hide IsScriptSpace;
    lo := StartMeaning(s);
    var t := s[lo..];
    var n := EndMeaning(t);
    hi := lo + n;
    assert t[..n] == s[lo..hi];
    forall k | hi <= k < |s|
      ensures IsScriptSpace(s[k])
    {
      assert t[k - lo] == s[k];
    }
  }

  lemma {:induction false} StartMeaning(s: string) returns (lo: nat)
    ensures lo <= |s| && TrimStart(s) == s[lo..] && (forall k | 0 <= k < lo :: IsScriptSpace(s[k]))
    ensures lo < |s| ==> !IsScriptSpace(s[lo])
  {
    hide IsScriptSpace;
    if s == [] || !IsScriptSpace(s[0]) {
      lo := 0;
    } else {
      var rest := StartMeaning(s[1..]);
      lo := rest + 1;
      assert forall k | 1 <= k < lo :: s[k] == s[1..][k - 1];
    }
  }

  lemma {:induction false} EndMeaning(s: string) returns (n: nat)
    ensures n <= |s| && TrimEnd(s) == s[..n] && (forall k | n <= k < |s| :: IsScriptSpace(s[k]))
    ensures n > 0 ==> !IsScriptSpace(s[n - 1])
  {
    hide IsScriptSpace;
    if s == [] || !IsScriptSpace(s[|s| - 1]) {
      n := |s|;
    } else {
      n := EndMeaning(s[..|s| - 1]);
    }
  }

  /** An accepted prompt goes to the back, trimmed, under a number no prompt has had, and changes nothing
      else; an empty one is refused before a full queue is. */
  lemma EnqueueExact(q: State, prompt: string, token: Option<string>)
    ensures var (q', result) := Enqueued(q, prompt, token);
      && (result.Denied? ==> q' == q && result.error == if Trim(prompt) == [] then EmptyPrompt else QueueFull)
      && (result.Ok? <==> Trim(prompt) != [] && |q.items| < 10)
      && (result.Ok? ==>
          && q'.items == q.items + [result.value] && result.value.prompt == Trim(prompt)
          && result.value.id == q.sequence + 1 == q'.sequence
          && result.value.token == (if token == Some("") then None else token)
          && q'.pauseReason == q.pauseReason && q'.dispatching == q.dispatching)
  {
  }

  /** What is offered is the head, and it is offered exactly when nothing else is on its way and the queue is
      neither paused nor empty. Refused, it is offered again; acknowledged, and only under its own id, it
      leaves the front. */
  lemma OfferIsHead(q: State)
    ensures var (q', offer) := Dispatched(q);
      && (offer.Some? <==> q.pauseReason.None? && q.dispatching.None? && q.items != [])
      && (offer.None? ==> q' == q)
      && (offer.Some? ==>
          && offer.value == q.items[0] && q' == q.(dispatching := Some(q.items[0].id))
          && Dispatched(DispatchRejected(q', offer.value.id)) == (q', offer)
          && Acknowledged(q', offer.value.id) == (q.(items := q.items[1..]), true))
      && (forall id: nat | q'.dispatching != Some(id) :: DispatchRejected(q', id) == q')
      && forall id | Acknowledged(q', id).1 :: q'.items != [] && id == q'.items[0].id
  {
  }

  /** A pause records its reason, keeps the prompts and offers nothing; an empty queue is not paused. */
  lemma PauseExact(q: State, reason: PauseReason)
    ensures q.items == [] ==> Paused(q, reason) == q
    ensures q.items != [] ==>
              && Paused(q, reason).items == q.items && Paused(q, reason).pauseReason == Some(reason)
              && Dispatched(Paused(q, reason)) == (Paused(q, reason), None)
  {
  }

  /** Clearing drops the prompts and the pause; numbering goes on, so no later prompt takes an old id. */
  lemma ClearExact(q: State, prompt: string)
    requires Trim(prompt) != []
    ensures Cleared(q).items == [] && Dispatched(Cleared(q)).1 == None
    ensures var (q', result) := Enqueued(Cleared(q), prompt, None);
            result.Ok? && result.value.id == q.sequence + 1 && Dispatched(q').1 == Some(result.value)
  {
  }

  // ---- histories -----------------------------------------------------------------------------------

  datatype Action =
    | Enqueue(prompt: string, token: Option<string>)
    | BeginDispatch
    | Acknowledge(acknowledged: nat)
    | Reject(rejected: nat)
    | Pause(reason: PauseReason)
    | Clear

  /** The queue, and since the last clear the accepted prompts and the acknowledged ones, each in the
      order the callers saw them. */
  datatype History = History(queue: State, accepted: seq<string>, acknowledged: seq<string>)

  function After(h: History, a: Action): History {
    match a
    case Enqueue(prompt, token) =>
      var (q, result) := Enqueued(h.queue, prompt, token);
      h.(queue := q, accepted := if result.Ok? then h.accepted + [result.value.prompt] else h.accepted)
    case BeginDispatch => h.(queue := Dispatched(h.queue).0)
    case Acknowledge(id) =>
      var (q, removed) := Acknowledged(h.queue, id);
      h.(queue := q, acknowledged := if removed then h.acknowledged + [h.queue.items[0].prompt] else h.acknowledged)
    case Reject(id) => h.(queue := DispatchRejected(h.queue, id))
    case Pause(reason) => h.(queue := Paused(h.queue, reason))
    case Clear => History(Cleared(h.queue), [], [])
  }

  function Play(h: History, actions: seq<Action>): History
    decreases |actions|
  {
    if actions == [] then h else Play(After(h, actions[0]), actions[1..])
  }

  /** A history ends with its last action, on what came before. */
  lemma {:induction false} PlayEnds(h: History, actions: seq<Action>, last: Action)
    ensures Play(h, []) == h && Play(h, actions + [last]) == After(Play(h, actions), last)
    decreases |actions|
  {
    if actions != [] {
      PlayEnds(After(h, actions[0]), actions[1..], last);
      assert (actions + [last])[1..] == actions[1..] + [last];
    }
  }

  ghost function Prompts(items: seq<Item>): (r: seq<string>)
    ensures |r| == |items| && forall k | 0 <= k < |items| :: r[k] == items[k].prompt
  {
    seq(|items|, k requires 0 <= k < |items| => items[k].prompt)
  }

  ghost predicate ItemsOrdered(q: State) {
    && |q.items| <= QUEUE_LIMIT
    && (forall i, j | 0 <= i < j < |q.items| :: q.items[i].id < q.items[j].id)
    && (forall i | 0 <= i < |q.items| :: q.items[i].id <= q.sequence && q.items[i].prompt != [])
  }

  /** At most the head is on its way out, never while paused; an empty queue is neither. */
  ghost predicate FlagsConsistent(q: State) {
    && (q.dispatching.Some? ==> q.items != [] && q.dispatching == Some(q.items[0].id) && q.pauseReason.None?)
    && (q.pauseReason.Some? ==> q.items != [])
  }

  ghost predicate Inv(h: History) {
    && ItemsOrdered(h.queue) && FlagsConsistent(h.queue)
    && h.accepted == h.acknowledged + Prompts(h.queue.items)
  }

  lemma EnqueueKeepsInv(h: History, prompt: string, token: Option<string>)
    requires Inv(h)
    ensures Inv(After(h, Enqueue(prompt, token)))
  {
    hide Trim;
    var result := Enqueued(h.queue, prompt, token).1;
    if result.Ok? {
      assert Prompts(h.queue.items + [result.value]) == Prompts(h.queue.items) + [result.value.prompt];
    }
  }

  lemma DropHead(q: State)
    requires ItemsOrdered(q) && q.items != []
    ensures ItemsOrdered(q.(items := q.items[1..], dispatching := None))
    ensures Prompts(q.items) == [q.items[0].prompt] + Prompts(q.items[1..])
  {
    var rest := q.items[1..];
    assert forall k | 0 <= k < |rest| :: rest[k] == q.items[k + 1];
  }

  lemma AcknowledgeKeepsInv(h: History, id: nat)
    requires Inv(h)
    ensures Inv(After(h, Acknowledge(id)))
  {
    hide ItemsOrdered, Prompts;
    if Acknowledged(h.queue, id).1 {
      DropHead(h.queue);
      assert FlagsConsistent(After(h, Acknowledge(id)).queue);
    }
  }

  lemma AfterKeepsInv(h: History, a: Action)
    requires Inv(h)
    ensures Inv(After(h, a))
  {
    hide Trim, ItemsOrdered;
    match a
    case Enqueue(prompt, token) => EnqueueKeepsInv(h, prompt, token);
    case Acknowledge(id) => AcknowledgeKeepsInv(h, id);
    case Clear => ClearKeepsInv(h);
    case _ => ItemsUntouched(h, a);
  }

  lemma ClearKeepsInv(h: History)
    ensures Inv(After(h, Clear))
  {
  }

  lemma ItemsUntouched(h: History, a: Action)
    requires a.BeginDispatch? || a.Reject? || a.Pause?
    requires ItemsOrdered(h.queue)
    ensures ItemsOrdered(After(h, a).queue) && After(h, a).queue.items == h.queue.items
  {
  }

  /** Every reachable queue is bounded, ordered and consistent, and since the last clear the accepted
      prompts are the acknowledged ones followed by the pending ones: none lost, repeated or
      reordered. */
  lemma {:induction false} QueueIsFifo(h: History, actions: seq<Action>)
    requires Inv(h)
    ensures Inv(Play(h, actions))
    decreases |actions|
  {
    hide After, Inv;
    if actions != [] {
      AfterKeepsInv(h, actions[0]);
      QueueIsFifo(After(h, actions[0]), actions[1..]);
    }
  }

  lemma FreshInv()
    ensures Inv(History(FRESH, [], []))
  {
  }

  /** Once paused, a queue offers nothing until it is cleared: pending prompts stay where they are. */
  lemma {:induction false} PausedHolds(h: History, actions: seq<Action>)
    requires Inv(h) && h.queue.pauseReason.Some?
    requires Clear !in actions
    ensures var later := Play(h, actions);
            && later.queue.pauseReason.Some? && later.acknowledged == h.acknowledged
            && h.queue.items <= later.queue.items && Dispatched(later.queue).1.None?
    decreases |actions|
  {
    hide Trim;
    if actions != [] {
      assert actions[0] in actions;
      AfterKeepsInv(h, actions[0]);
      var next := After(h, actions[0]);
      assert next.queue.pauseReason.Some? && next.acknowledged == h.acknowledged;
      assert h.queue.items <= next.queue.items;
      hide After;
      PausedHolds(next, actions[1..]);
    }
  }
}
