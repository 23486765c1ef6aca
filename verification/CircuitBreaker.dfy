/**
 The circuit breaker, one call at a time: each method is an atomic step on a clock that
 never goes back. The race of several threads through the half-open gate is HalfOpenGate.
 */
module CircuitBreaking {
  import opened Wrappers

  type Instant = int

  datatype CircuitState = Closed | Open | HalfOpen

  datatype Policy = Policy(threshold: nat, timeout: nat, halfOpenMax: nat)

  datatype Breaker = Breaker(failures: nat, successes: nat, lastFailure: Option<Instant>,
                             state: CircuitState, halfOpenRequests: nat)

  const FRESH := Breaker(0, 0, None, Closed, 0)

  // Instant::elapsed saturates at zero.
  function Elapsed(since: Instant, now: Instant): nat {
    if since <= now then now - since else 0
  }

  // state(): an open breaker whose timeout has passed becomes half-open when looked at.
  function Observe(p: Policy, b: Breaker, now: Instant): Breaker {
    if b.state.Open? && b.lastFailure.Some? && Elapsed(b.lastFailure.value, now) >= p.timeout
    then b.(state := HalfOpen) else b
  }

  // can_execute reads the clock twice: `now` inside state(), `later` in the open branch.
  function Attempt(p: Policy, b: Breaker, now: Instant, later: Instant): (Breaker, bool) {
    var seen := Observe(p, b, now);
    match seen.state
    case Closed => (seen, true)
    case Open => (seen, seen.lastFailure.None? || Elapsed(seen.lastFailure.value, later) >= p.timeout)
    case HalfOpen =>
      if seen.halfOpenRequests < p.halfOpenMax
      then (seen.(halfOpenRequests := seen.halfOpenRequests + 1), true)
      else (seen, false)
  }

  function Succeed(b: Breaker): Breaker {
    var b' := b.(successes := b.successes + 1);
    match b.state
    case HalfOpen => b'.(state := Closed, failures := 0, halfOpenRequests := 0)
    case Closed => b'.(failures := 0)
    case Open => b'
  }

  function Fail(p: Policy, b: Breaker, now: Instant): Breaker {
    var b' := b.(failures := b.failures + 1, lastFailure := Some(now));
    match b.state
    case Closed => if b'.failures >= p.threshold then b'.(state := Open) else b'
    case HalfOpen => b'.(state := Open, halfOpenRequests := 0)
    case Open => b'
  }

  // ------------------------------------------------------------------------- runs

  datatype Event =
    | Execute(now: Instant, later: Instant)
    | Inspect(now: Instant)
    | Success(now: Instant)
    | Failure(now: Instant)

  function Step(p: Policy, b: Breaker, e: Event): Breaker {
    match e
    case Execute(now, later) => Attempt(p, b, now, later).0
    case Inspect(now) => Observe(p, b, now)
    case Success(_) => Succeed(b)
    case Failure(now) => Fail(p, b, now)
  }

  // A run from a new breaker; the last event is the last element.
  function After(p: Policy, run: seq<Event>): Breaker {
    if run == [] then FRESH else Step(p, After(p, run[..|run| - 1]), run[|run| - 1])
  }

  function Ends(e: Event): Instant {
    if e.Execute? then e.later else e.now
  }

  // The clock never goes back, neither between events nor inside one.
  ghost predicate Clocked(run: seq<Event>) {
    && (forall i | 0 <= i < |run| :: run[i].now <= Ends(run[i]))
    && (forall i, j | 0 <= i < j < |run| :: Ends(run[i]) <= run[j].now)
  }

  // Failures recorded since the last success that was recorded while the circuit was not open.
  function FailuresSince(p: Policy, run: seq<Event>): nat {
    if run == [] then 0
    else
      var before, e := run[..|run| - 1], run[|run| - 1];
      if e.Failure? then FailuresSince(p, before) + 1
      else if e.Success? && !After(p, before).state.Open? then 0
      else FailuresSince(p, before)
  }

  function LastFailure(run: seq<Event>): Option<Instant> {
    if run == [] then None
    else if run[|run| - 1].Failure? then Some(run[|run| - 1].now)
    else LastFailure(run[..|run| - 1])
  }

  // The event is a call let through the half-open gate.
  predicate Probe(p: Policy, b: Breaker, e: Event) {
    e.Execute? && Observe(p, b, e.now).state.HalfOpen? && Attempt(p, b, e.now, e.later).1
  }

  // Calls let through the half-open gate since the last recorded outcome.
  function Probes(p: Policy, run: seq<Event>): nat {
    if run == [] then 0
    else
      var before, e := run[..|run| - 1], run[|run| - 1];
      if e.Success? || e.Failure? then 0
      else Probes(p, before) + if Probe(p, After(p, before), e) then 1 else 0
  }

  /** The circuit is closed iff fewer than `threshold` failures (at least one) were recorded
      since the last success that counted. */
  lemma {:induction false} ClosedIffFewFailures(p: Policy, run: seq<Event>)
    ensures After(p, run).failures == FailuresSince(p, run)
    ensures After(p, run).state.Closed?
            <==> FailuresSince(p, run) < Tolerance(p)
  {
    if run != [] {
      ClosedIffFewFailures(p, run[..|run| - 1]);
    }
  }

  /** The gate over every run: the counter is zero outside the half-open state, counts the
      calls let through inside it, and never passes its maximum; a circuit that is not
      closed remembers the last failure, and a half-open one is at least `timeout` past it. */
  lemma {:induction false} GateInvariant(p: Policy, run: seq<Event>)
    requires Clocked(run)
    ensures var b := After(p, run);
            && b.lastFailure == LastFailure(run)
            && (!b.state.Closed? ==> b.lastFailure.Some?)
            && b.halfOpenRequests == Probes(p, run) <= p.halfOpenMax
            && (!b.state.HalfOpen? ==> b.halfOpenRequests == 0)
            && (b.state.HalfOpen? ==> run != [] && b.lastFailure.value + p.timeout <= Ends(run[|run| - 1]))
            && (b.lastFailure.Some? ==> run != [] && b.lastFailure.value <= Ends(run[|run| - 1]))
  {
    if run != [] {
      GateInvariant(p, run[..|run| - 1]);
    }
  }

  // The failures that open the circuit: a threshold of zero acts as one.
  function Tolerance(p: Policy): nat {
    if p.threshold == 0 then 1 else p.threshold
  }

  /** Exactly when a call is admitted, over every run, said of the recorded events alone: while few
      enough failures were recorded since the last success that counted; and otherwise, once the
      timeout since the last failure has passed at the first clock reading, if a half-open slot
      is free, or without a slot if it has passed only at the second. */
  lemma {:induction false} AdmittedIff(p: Policy, run: seq<Event>, now: Instant, later: Instant)
    requires Clocked(run + [Execute(now, later)])
    ensures Attempt(p, After(p, run), now, later).1
            <==> || FailuresSince(p, run) < Tolerance(p)
                 || (&& LastFailure(run).Some?
                     && if now - LastFailure(run).value >= p.timeout then Probes(p, run) < p.halfOpenMax
                        else later - LastFailure(run).value >= p.timeout)
  {
    var all := run + [Execute(now, later)];
    assert forall i | 0 <= i < |run| :: all[i] == run[i];
    assert all[|run|] == Execute(now, later);
    GateInvariant(p, run);
    ClosedIffFewFailures(p, run);
  }

  function Successes(run: seq<Event>): nat {
    if run == [] then 0 else Successes(run[..|run| - 1]) + if run[|run| - 1].Success? then 1 else 0
  }

  /** Every success is counted, whatever the state, and nothing resets that count. */
  lemma {:induction false} SuccessesAreCounted(p: Policy, run: seq<Event>)
    ensures After(p, run).successes == Successes(run)
  {
    if run != [] {
      SuccessesAreCounted(p, run[..|run| - 1]);
    }
  }

  /** Every call admitted while the circuit is not closed comes at least `timeout` after the
      last recorded failure. */
  lemma {:induction false} AdmittedOnlyAfterTimeout(p: Policy, run: seq<Event>, now: Instant, later: Instant)
    requires Clocked(run + [Execute(now, later)])
    ensures var b := After(p, run);
            Attempt(p, b, now, later).1 && !b.state.Closed?
            ==> LastFailure(run).Some? && later - LastFailure(run).value >= p.timeout
  {
    var all := run + [Execute(now, later)];
    assert forall i | 0 <= i < |run| :: all[i] == run[i];
    assert all[|run|] == Execute(now, later);
    GateInvariant(p, run);
  }

  /** The open branch has its own clock reading and no gate: a timeout that passes between
      the two readings admits a call even when no half-open call is allowed at all. */
  lemma {:induction false} OpenBranchBypassesGate()
    ensures var p := Policy(1, 10, 0);
            var run := [Failure(0)];
            Clocked(run + [Execute(9, 10)]) && After(p, run).state.Open? && Attempt(p, After(p, run), 9, 10).1
  {
    assert [Failure(0)][..0] == [];
    assert After(Policy(1, 10, 0), []) == FRESH;
  }

  /** Exactly when: outside the closed state a call passes without taking a slot iff the
      timeout expires between the two clock readings. */
  lemma {:induction false} UncountedAdmission(p: Policy, run: seq<Event>, now: Instant, later: Instant)
    requires Clocked(run + [Execute(now, later)]) && !After(p, run).state.Closed?
    ensures var b := After(p, run);
            var (b', admitted) := Attempt(p, b, now, later);
            (admitted && b'.halfOpenRequests == b.halfOpenRequests)
            <==> b.state.Open? && LastFailure(run).Some?
                 && now - LastFailure(run).value < p.timeout <= later - LastFailure(run).value
  {
    var all := run + [Execute(now, later)];
    assert forall i | 0 <= i < |run| :: all[i] == run[i];
    assert all[|run|] == Execute(now, later);
    GateInvariant(p, run);
  }

  // ------------------------------------------------------------------ the object

  class CircuitBreaker {
    var failures: nat
    var successes: nat
    var lastFailure: Option<Instant>
    var circuitState: CircuitState
    var halfOpenRequests: nat
    const policy: Policy

    ghost function View(): Breaker
      reads this
    {
      Breaker(failures, successes, lastFailure, circuitState, halfOpenRequests)
    }

    constructor (policy: Policy)
      ensures View() == FRESH && this.policy == policy
    {
      failures, successes, lastFailure := 0, 0, None;
      circuitState, halfOpenRequests, this.policy := Closed, 0, policy;
    }

    method State(now: Instant) returns (s: CircuitState)
      modifies this`circuitState
      ensures View() == Observe(policy, old(View()), now) && s == circuitState
    {
      var current := circuitState;
      if current == Open && lastFailure.Some? && Elapsed(lastFailure.value, now) >= policy.timeout {
        circuitState := HalfOpen;
        return HalfOpen;
      }
      s := current;
    }

    method CanExecute(now: Instant, later: Instant) returns (admitted: bool)
      modifies this`circuitState, this`halfOpenRequests
      ensures (View(), admitted) == Attempt(policy, old(View()), now, later)
    {
      var current := State(now);
      match current
      case Closed => admitted := true;
      case Open => admitted := lastFailure.None? || Elapsed(lastFailure.value, later) >= policy.timeout;
      case HalfOpen =>
        var reserved := halfOpenRequests;
        halfOpenRequests := halfOpenRequests + 1;
        admitted := reserved < policy.halfOpenMax;
        if !admitted {
          halfOpenRequests := halfOpenRequests - 1;
        }
    }

    method RecordSuccess()
      modifies this
      ensures View() == Succeed(old(View()))
    {
      successes := successes + 1;
      match circuitState
      case HalfOpen =>
        circuitState := Closed;
        failures := 0;
        halfOpenRequests := 0;
      case Closed => failures := 0;
      case Open =>
    }

    method RecordFailure(now: Instant)
      modifies this
      ensures View() == Fail(policy, old(View()), now)
    {
      failures := failures + 1;
      lastFailure := Some(now);
      match circuitState
      case Closed =>
        if failures >= policy.threshold {
          circuitState := Open;
        }
      case HalfOpen =>
        circuitState := Open;
        halfOpenRequests := 0;
      case Open =>
    }
  }
}
