/** The bounded retry around every write transaction (kaizen_components/db_retry.py).

    An attempt that raises leaves no effect. What other writers commit before each attempt, and which
    steps fault, is the environment's choice. */
module Retry {
  import opened Wrappers

  const ATTEMPTS := 6
  const TOTAL_SECONDS := 4.0

  /** A deliberate denial, or a fault of the database carrying its message. */
  datatype Error = Refused(code: string) | Fault(message: string)

  datatype Attempt<S, R> = Finished(state: S, value: R) | Raised(error: Error)

  /** One attempt's surroundings: the writes of others, and a fault at connect, BEGIN or COMMIT. */
  datatype Weather<!S> = Weather(others: S -> S, connect: Option<Error>, begin: Option<Error>, commit: Option<Error>)

  datatype Failure = Propagated(error: Error) | Exhausted(errors: seq<Error>)

  /** `commits` counts this call's commits. */
  datatype Outcome<S, R> = Outcome(state: S, result: Result<R, Failure>, slept: seq<real>, commits: nat)

  /** `transient` is the message scan for conflict, busy, snapshot or lock. */
  predicate Retryable(e: Error, transient: string -> bool) {
    e.Fault? && transient(e.message)
  }

  // ---- the back-off schedule -----------------------------------------------------------------------

  /** 1 + 2 + ... + n. */
  function WeightSum(n: nat): nat {
    if n == 0 then 0 else WeightSum(n - 1) + n
  }

  lemma {:induction false} WeightSumPositive(n: nat)
    requires n > 0
    ensures WeightSum(n) > 0
  {
  }

  /** `total` times weight over the sum of the weights. */
  function Share(total: real, part: nat, whole: nat): real
    requires whole > 0
  {
    total * (part as real) / (whole as real)
  }

  function RetryDelay(attempts: nat, total: real, index: nat): real
    requires attempts <= 1 || index < attempts - 1
  {
    if attempts <= 1 then 0.0
    else
      WeightSumPositive(attempts - 1);
      Share(total, index + 1, WeightSum(attempts - 1))
  }

  function Sum(xs: seq<real>): real {
    if xs == [] then 0.0 else Sum(xs[..|xs| - 1]) + xs[|xs| - 1]
  }

  /** The sleeps before attempt k + 1, the first k delays of the schedule. */
  function Delays(attempts: nat, total: real, k: nat): seq<real>
    requires k == 0 || k <= attempts - 1
  {
    seq(k, i requires 0 <= i < k => RetryDelay(attempts, total, i))
  }

  lemma WeightSumMonotone(j: nat, n: nat)
    requires j <= n
    ensures WeightSum(j) <= WeightSum(n)
    ensures j < n ==> WeightSum(j) < WeightSum(n)
  {
    if j < n {
      WeightSumMonotone(j, n - 1);
    }
  }

  lemma LastDelay(attempts: nat, total: real, k: nat)
    requires 0 < k <= attempts - 1
    ensures Sum(Delays(attempts, total, k)) ==
            Sum(Delays(attempts, total, k - 1)) + RetryDelay(attempts, total, k - 1)
  {
    hide RetryDelay;
    assert Delays(attempts, total, k)[..k - 1] == Delays(attempts, total, k - 1);
  }

  lemma SharesAdd(total: real, a: nat, b: nat, whole: nat)
    requires whole > 0
    ensures Share(total, a, whole) + Share(total, b, whole) == Share(total, a + b, whole)
  {
    var x, y, c := a as real, b as real, whole as real;
    assert (a + b) as real == x + y;
    assert total * x / c + total * y / c == total * (x + y) / c;
  }

  lemma {:induction false} DelaySum(attempts: nat, total: real, k: nat)
    requires attempts >= 2 && k <= attempts - 1
    ensures WeightSum(attempts - 1) > 0
    ensures Sum(Delays(attempts, total, k)) == Share(total, WeightSum(k), WeightSum(attempts - 1))
  {
    WeightSumPositive(attempts - 1);
    if k == 0 {
      assert Share(total, 0, WeightSum(attempts - 1)) == 0.0;
    } else {
      DelaySum(attempts, total, k - 1);
      LastDelay(attempts, total, k);
      SharesAdd(total, WeightSum(k - 1), k, WeightSum(attempts - 1));
      assert RetryDelay(attempts, total, k - 1) == Share(total, k, WeightSum(attempts - 1));
      hide Sum, Delays, RetryDelay, Share;
    }
  }

  /** For any number of attempts the back-off stays within the budget and uses it up exactly when
      every attempt but the last was followed by a sleep. */
  lemma BackoffBudget(attempts: nat, total: real, k: nat)
    requires attempts >= 2 && k <= attempts - 1 && total > 0.0
    ensures Sum(Delays(attempts, total, k)) <= total
    ensures Sum(Delays(attempts, total, k)) == total <==> k == attempts - 1
  {
    DelaySum(attempts, total, k);
    hide RetryDelay, Sum, Delays;
    WeightSumMonotone(k, attempts - 1);
    ShareBound(total, WeightSum(k), WeightSum(attempts - 1));
  }

  lemma ShareBound(total: real, part: nat, whole: nat)
    requires total > 0.0 && part <= whole && whole > 0
    ensures Share(total, part, whole) <= total
    ensures Share(total, part, whole) == total <==> part == whole
  {
    var share, a, c := Share(total, part, whole), part as real, whole as real;
    assert share * c == total * a;
    Cancel(share, total, a, c);
  }

  lemma Cancel(share: real, t: real, a: real, c: real)
    requires share * c == t * a && t > 0.0 && a <= c && c > 0.0
    ensures share <= t && (share == t <==> a == c)
  {
    assert (t - share) * c == t * (c - a);
  }

  // ---- the attempts --------------------------------------------------------------------------------

  /** What one attempt does: an error, or the committed state and value. A connect fault is raised
      outside the handler, so `caught` is false for it. */
  datatype Try<S, R> = Landed(state: S, value: R) | Failed(error: Error, caught: bool)

  function TryOnce<S, R>(s: S, op: (S, nat) -> Attempt<S, R>, w: Weather<S>, attempt: nat): Try<S, R> {
    if w.connect.Some? then Failed(w.connect.value, false)
    else if w.begin.Some? then Failed(w.begin.value, true)
    else
      match op(s, attempt)
      case Raised(e) => Failed(e, true)
      case Finished(s', v) => if w.commit.Some? then Failed(w.commit.value, true) else Landed(s', v)
  }

  /** No fault at connect, BEGIN or COMMIT. */
  predicate Clean<S>(w: Weather<S>) {
    w.connect.None? && w.begin.None? && w.commit.None?
  }

  /** The error that an attempt raises: of the connect, else of the BEGIN, else of the operation, else of
      the COMMIT. */
  ghost predicate Raises<S, R>(s: S, op: (S, nat) -> Attempt<S, R>, w: Weather<S>, attempt: nat, e: Error) {
    || w.connect == Some(e)
    || (w.connect.None? && (
          || w.begin == Some(e)
          || (w.begin.None? && (
                || op(s, attempt) == Raised(e)
                || (op(s, attempt).Finished? && w.commit == Some(e))))))
  }

  /** An attempt lands exactly when nothing faults and the operation finishes; otherwise it raises one error,
      which the loop catches unless it comes from the connect. */
  lemma TryExact<S, R>(s: S, op: (S, nat) -> Attempt<S, R>, w: Weather<S>, attempt: nat)
    ensures var t := TryOnce(s, op, w, attempt);
      && (t.Landed? <==> Clean(w) && op(s, attempt).Finished?)
      && (t.Landed? ==> op(s, attempt) == Finished(t.state, t.value))
      && (forall e :: (t.Failed? && t.error == e) <==> Raises(s, op, w, attempt, e))
      && (t.Failed? ==> (t.caught <==> w.connect.None?))
  {
  }

  /** The state attempt k starts from when none of this call's attempts has landed. */
  function OthersUpTo<S>(s: S, weather: nat -> Weather<S>, k: nat): S {
    if k == 0 then s else weather(k).others(OthersUpTo(s, weather, k - 1))
  }

  method WithRetry<S, R>(s: S, op: (S, nat) -> Attempt<S, R>, transient: string -> bool,
                         weather: nat -> Weather<S>, attempts: nat, total: real)
    returns (out: Outcome<S, R>)
    requires attempts >= 1
    ensures out.commits == if out.result.Ok? then 1 else 0
    ensures exists k: nat :: 1 <= k <= attempts && EndsAt(out, s, op, transient, weather, attempts, total, k)
  {
    hide Share;
    var errors: seq<Error>, slept: seq<real>, state := [], [], s;
    var commits: nat := 0;
    var attempt := 1;
    while true
      invariant 1 <= attempt <= attempts && commits == 0
      invariant state == OthersUpTo(s, weather, attempt - 1)
      invariant RetriedBefore(errors, s, op, transient, weather, attempt)
      invariant slept == Delays(attempts, total, attempt - 1)
      decreases attempts - attempt
    {
      state := weather(attempt).others(state);
      match TryOnce(state, op, weather(attempt), attempt)
      case Landed(state', value) =>
        commits := commits + 1;
        out := Outcome(state', Ok(value), slept, commits);
        assert EndsAt(out, s, op, transient, weather, attempts, total, attempt);
        return;
      case Failed(error, caught) =>
        if !caught || !Retryable(error, transient) {
          out := Outcome(state, Denied(Propagated(error)), slept, commits);
          assert EndsAt(out, s, op, transient, weather, attempts, total, attempt);
          return;
        }
        RetriedGrows(errors, error, s, op, transient, weather, attempt);
        errors := errors + [error];
        if attempt == attempts {
          out := Outcome(state, Denied(Exhausted(errors)), slept, commits);
          assert EndsAt(out, s, op, transient, weather, attempts, total, attempt);
          return;
        }
        slept := slept + [RetryDelay(attempts, total, attempt - 1)];
        assert slept == Delays(attempts, total, attempt);
        attempt := attempt + 1;
    }
  }

  /** Every attempt before `k` failed with a retryable error, and these are the errors in order. */
  ghost predicate RetriedBefore<S, R>(errors: seq<Error>, s: S, op: (S, nat) -> Attempt<S, R>,
                                      transient: string -> bool, weather: nat -> Weather<S>, k: nat)
    requires k >= 1
  {
    && |errors| == k - 1
    && forall j | 1 <= j < k :: RetriedAt(errors, s, op, transient, weather, j)
  }

  lemma RetriedGrows<S, R>(errors: seq<Error>, e: Error, s: S, op: (S, nat) -> Attempt<S, R>,
                           transient: string -> bool, weather: nat -> Weather<S>, k: nat)
    requires k >= 1 && RetriedBefore(errors, s, op, transient, weather, k)
    requires TryOnce(OthersUpTo(s, weather, k), op, weather(k), k) == Failed(e, true) && Retryable(e, transient)
    ensures RetriedBefore(errors + [e], s, op, transient, weather, k + 1)
  {
    hide TryOnce, OthersUpTo;
    forall j | 1 <= j < k + 1
      ensures RetriedAt(errors + [e], s, op, transient, weather, j)
    {
      assert j < k ==> RetriedAt(errors, s, op, transient, weather, j);
    }
  }

  ghost predicate RetriedAt<S, R>(errors: seq<Error>, s: S, op: (S, nat) -> Attempt<S, R>,
                               transient: string -> bool, weather: nat -> Weather<S>, j: nat)
    requires 1 <= j <= |errors|
  {
    && TryOnce(OthersUpTo(s, weather, j), op, weather(j), j) == Failed(errors[j - 1], true)
    && Retryable(errors[j - 1], transient)
  }

  /** The call ends with attempt k, after k - 1 retried ones and the sleeps between. It either
      committed the operation once, on top of what the others had written by then, or left no trace. */
  ghost predicate EndsAt<S, R>(out: Outcome<S, R>, s: S, op: (S, nat) -> Attempt<S, R>, transient: string -> bool,
                               weather: nat -> Weather<S>, attempts: nat, total: real, k: nat)
    requires 1 <= k <= attempts
  {
    var before := OthersUpTo(s, weather, k);
    && out.slept == Delays(attempts, total, k - 1)
    && match out.result
       case Ok(v) =>
         && Clean(weather(k)) && op(before, k) == Finished(out.state, v)
         && exists errors :: RetriedBefore(errors, s, op, transient, weather, k)
       case Denied(Propagated(e)) =>
         && out.state == before
         && (exists errors :: RetriedBefore(errors, s, op, transient, weather, k))
         && (TryOnce(before, op, weather(k), k) == Failed(e, false)
             || (TryOnce(before, op, weather(k), k) == Failed(e, true) && !Retryable(e, transient)))
       case Denied(Exhausted(errors)) =>
         && out.state == before && k == attempts
         && RetriedBefore(errors, s, op, transient, weather, attempts + 1)
  }

  /** The operation of attempt `j` is reached and raises a denial. */
  ghost predicate DeniedAt<S, R>(s: S, op: (S, nat) -> Attempt<S, R>, weather: nat -> Weather<S>, j: nat, code: string)
    requires j >= 1
  {
    weather(j).connect.None? && weather(j).begin.None? && op(OthersUpTo(s, weather, j), j) == Raised(Refused(code))
  }

  /** A call never runs past an attempt whose operation raises a denial: it ends there or before, and if
      there, with that denial, however its message reads, and with no effect of its own. */
  lemma DenialsPropagate<S, R>(out: Outcome<S, R>, s: S, op: (S, nat) -> Attempt<S, R>, transient: string -> bool,
                               weather: nat -> Weather<S>, attempts: nat, total: real, k: nat, j: nat, code: string)
    requires 1 <= k <= attempts && EndsAt(out, s, op, transient, weather, attempts, total, k)
    requires 1 <= j && DeniedAt(s, op, weather, j, code)
    ensures k <= j
    ensures k == j ==> out.result == Denied(Propagated(Refused(code))) && out.state == OthersUpTo(s, weather, j)
  {
    hide OthersUpTo, Delays, Retryable, DeniedAt, RetriedBefore;
    match out.result
    case Ok(_) =>
      var errors :| RetriedBefore(errors, s, op, transient, weather, k);
      RetriedWereNoDenials(errors, s, op, transient, weather, k, code);
      DeniedTry(s, op, transient, weather, j, code);
    case Denied(Propagated(_)) =>
      var errors :| RetriedBefore(errors, s, op, transient, weather, k);
      RetriedWereNoDenials(errors, s, op, transient, weather, k, code);
      DeniedTry(s, op, transient, weather, j, code);
    case Denied(Exhausted(errors)) =>
      RetriedWereNoDenials(errors, s, op, transient, weather, attempts + 1, code);
  }

  lemma DeniedTry<S, R>(s: S, op: (S, nat) -> Attempt<S, R>, transient: string -> bool, weather: nat -> Weather<S>,
                        j: nat, code: string)
    requires j >= 1 && DeniedAt(s, op, weather, j, code)
    ensures TryOnce(OthersUpTo(s, weather, j), op, weather(j), j) == Failed(Refused(code), true)
    ensures op(OthersUpTo(s, weather, j), j).Raised? && !Retryable(Refused(code), transient)
  {
  }

  lemma RetriedWereNoDenials<S, R>(errors: seq<Error>, s: S, op: (S, nat) -> Attempt<S, R>, transient: string -> bool,
                                   weather: nat -> Weather<S>, n: nat, code: string)
    requires n >= 1 && RetriedBefore(errors, s, op, transient, weather, n)
    ensures forall j: nat | 1 <= j && j < n :: !DeniedAt(s, op, weather, j, code)
  {
    hide OthersUpTo;
    forall j: nat | 1 <= j && j < n
      ensures !DeniedAt(s, op, weather, j, code)
    {
      assert RetriedAt(errors, s, op, transient, weather, j);
    }
  }
}
