/** libs/shared/resilience.py: the circuit breaker, the retry loop with capped
    exponential backoff and the total-time budget, for calls made one after another. */
module Resilience {
  import opened Wrappers
  import opened Text
  import opened Numbers

  /** What _normalize_error_code returns: not empty, without blanks, in lower case. */
  predicate IsErrorCode(code: string) {
    code != [] && forall i :: 0 <= i < |code| ==> !IsSpace(code[i]) && !('A' <= code[i] <= 'Z')
  }

  type ErrorCode = code: string | IsErrorCode(code) witness "x"

  const TIMEOUT: ErrorCode := "dependency_timeout"
  const UNKNOWN: ErrorCode := "dependency_error"
  const CIRCUIT_OPEN: ErrorCode := "circuit_open"

  datatype RetryPolicy = RetryPolicy(
    maxAttempts: int, initialBackoff: real, multiplier: real, maxBackoff: real,
    retryableCodes: set<ErrorCode>)
  {
    predicate Valid() {
      maxAttempts > 0 && initialBackoff >= 0.0 && multiplier >= 1.0 && maxBackoff >= initialBackoff
    }
  }

  datatype TimeoutBudget = TimeoutBudget(perAttempt: Option<real>, total: Option<real>) {
    predicate Valid() {
      && (perAttempt.Some? ==> perAttempt.value > 0.0)
      && (total.Some? ==> total.value > 0.0)
      && (perAttempt.Some? && total.Some? ==> total.value >= perAttempt.value)
    }
  }

  datatype BreakerPolicy = BreakerPolicy(failureThreshold: int, recoveryThreshold: int, cooldown: real) {
    predicate Valid() {
      failureThreshold > 0 && recoveryThreshold > 0 && cooldown >= 0.0
    }
  }

  datatype Config = Config(retry: RetryPolicy, budget: TimeoutBudget, breaker: BreakerPolicy) {
    predicate Valid() {
      retry.Valid() && budget.Valid() && breaker.Valid()
    }
  }

  // ---- Backoff ------------------------------------------------------------

  function Pow(base: real, exponent: nat): real {
    if exponent == 0 then 1.0 else base * Pow(base, exponent - 1)
  }

  /** delay_for_attempt, for the attempt numbers the loop uses. */
  function Delay(p: RetryPolicy, attempt: nat): real
    requires attempt > 0
  {
    MinReal(Uncapped(p.initialBackoff, p.multiplier, attempt - 1), p.maxBackoff)
  }

  function Uncapped(initial: real, multiplier: real, doublings: nat): real {
    initial * Pow(multiplier, doublings)
  }

  lemma {:induction false} PowGrows(base: real, exponent: nat)
    requires base >= 1.0
    ensures Pow(base, exponent + 1) >= Pow(base, exponent) >= 1.0
  {
    if exponent > 0 {
      PowGrows(base, exponent - 1);
    }
    MulGrows(Pow(base, exponent), base);
  }

  lemma MulGrows(x: real, factor: real)
    requires x >= 0.0 && factor >= 1.0
    ensures factor * x >= x && x * factor >= x
  {
    assert (factor - 1.0) * x >= 0.0;
  }

  lemma UncappedGrows(initial: real, multiplier: real, n: nat)
    requires initial >= 0.0 && multiplier >= 1.0
    ensures initial <= Uncapped(initial, multiplier, n) <= Uncapped(initial, multiplier, n + 1)
  {
    var power, next := Pow(multiplier, n), Pow(multiplier, n + 1);
    PowGrows(multiplier, n);
    MulGrows(initial, power);
    assert initial * (next - power) >= 0.0;
  }

  /** Delays never shrink and stay between the initial and the maximal backoff. */
  lemma {:induction false} DelaysGrowWithinBounds(p: RetryPolicy, early: nat, late: nat)
    requires p.Valid() && 0 < early <= late
    ensures p.initialBackoff <= Delay(p, early) <= Delay(p, late) <= p.maxBackoff
    decreases late - early
  {
    UncappedGrows(p.initialBackoff, p.multiplier, early - 1);
    if early < late {
      DelaysGrowWithinBounds(p, early + 1, late);
    }
  }

  /** The whole backoff schedule: it starts at the initial backoff and each delay is the
      previous one times the multiplier, capped. */
  lemma DelaySchedule(p: RetryPolicy, attempt: nat)
    requires p.Valid() && attempt > 0
    ensures Delay(p, 1) == p.initialBackoff
    ensures Delay(p, attempt + 1) == MinReal(p.multiplier * Delay(p, attempt), p.maxBackoff)
  {
    var raw := Uncapped(p.initialBackoff, p.multiplier, attempt - 1);
    var next := Uncapped(p.initialBackoff, p.multiplier, attempt);
    UncappedGrows(p.initialBackoff, p.multiplier, attempt - 1);
    assert next == p.multiplier * raw;
    if raw > p.maxBackoff {
      MulGrows(p.maxBackoff, p.multiplier);
    }
  }

  // ---- The breaker --------------------------------------------------------

  datatype Circuit = Closed | Open | HalfOpen

  datatype Breaker = Breaker(state: Circuit, failures: int, recoveries: int, openedAt: Option<real>)

  const FRESH := Breaker(Closed, 0, 0, None)

  /** _record_success; the second component is `recovered`. */
  function AfterSuccess(p: BreakerPolicy, b: Breaker): (Breaker, bool) {
    if b.state == HalfOpen then
      if b.recoveries + 1 >= p.recoveryThreshold then (FRESH, true)
      else (b.(recoveries := b.recoveries + 1), false)
    else (b.(failures := 0, recoveries := 0), false)
  }

  /** _open_circuit. */
  function Opened(b: Breaker, now: real): Breaker {
    b.(state := Open, openedAt := Some(now), recoveries := 0)
  }

  /** _record_failure; `now` is the clock reading taken if the circuit opens. */
  function AfterFailure(p: BreakerPolicy, b: Breaker, now: real): Breaker {
    if b.state == HalfOpen then Opened(b, now)
    else
      var counted := b.(failures := b.failures + 1);
      if counted.failures >= p.failureThreshold then Opened(counted, now) else counted
  }

  /** _transition_open_circuit_if_ready. */
  function Entered(p: BreakerPolicy, b: Breaker, now: real): Breaker {
    if b.state == Open && b.openedAt.Some? && now - b.openedAt.value >= p.cooldown
    then b.(state := HalfOpen, recoveries := 0)
    else b
  }

  // ---- One call -----------------------------------------------------------

  datatype Failure = Failure(code: ErrorCode, retryable: bool)

  /** How an attempt ends. A cancellation, during the operation or the sleep before it, is
      not an Exception: it passes through execute and the breaker never hears of it. */
  datatype Outcome<T> = Returned(value: T) | TimedOut | Broke(failure: Failure) | OtherError | Cancelled

  function FailureOf<T>(o: Outcome<T>): Failure
    requires !o.Returned? && !o.Cancelled?
  {
    match o
    case TimedOut => Failure(TIMEOUT, true)
    case Broke(f) => f
    case OtherError => Failure(UNKNOWN, true)
  }

  /** What the environment does to one attempt: when it starts, how it ends, and the
      clock readings taken when its failure is recorded and when a retry is weighed. */
  datatype Attempt<T> = Attempt(startsAt: real, outcome: Outcome<T>, recordedAt: real, checkedAt: real)

  datatype CallResult<T> =
    | Succeeded(attempts: nat, value: T, circuit: Circuit, recovered: bool)
    | Degraded(attempts: nat, value: T, code: string, reason: string, circuit: Circuit)
    | Raised(failure: Failure)
    | FallbackRaised(error: string)
    | Aborted

  /** The fallback handler of a call, and what it makes of the failure. */
  datatype Handler<T> = NoHandler | Yields(value: T) | Raises(error: string)

  /** _should_retry, on the breaker as the failure left it. */
  predicate ShouldRetry(
    cfg: Config, b: Breaker, f: Failure, attempt: nat, limit: int, startedAt: real, checkedAt: real)
    requires attempt > 0
  {
    if b.state == Open then false
    else if attempt >= limit then false
    else if !(f.retryable && f.code in cfg.retry.retryableCodes) then false
    else if cfg.budget.total.None? then true
    else checkedAt - startedAt + Delay(cfg.retry, attempt) < cfg.budget.total.value
  }

  /** What happened to the breaker, in order. */
  datatype Mark = Good | Bad(at: real) | Probe

  datatype LoopEnd<T> = LoopEnd(breaker: Breaker, used: nat, outcome: Outcome<T>, recovered: bool, marks: seq<Mark>)

  function Before<T>(marks: seq<Mark>, end: LoopEnd<T>): LoopEnd<T> {
    end.(marks := marks + end.marks)
  }

  /** The attempts of one call from number k on. */
  function Attempts<T>(
    cfg: Config, b: Breaker, k: nat, limit: int, startedAt: real, script: nat -> Attempt<T>): LoopEnd<T>
    requires 0 < k <= limit
    decreases limit - k
  {
    var a := script(k);
    if a.outcome.Returned? then
      var (won, recovered) := AfterSuccess(cfg.breaker, b);
      LoopEnd(won, k, a.outcome, recovered, [Good])
    else if a.outcome.Cancelled? then LoopEnd(b, k, a.outcome, false, [])
    else
      var lost := AfterFailure(cfg.breaker, b, a.recordedAt);
      if ShouldRetry(cfg, lost, FailureOf(a.outcome), k, limit, startedAt, a.checkedAt)
      then Before([Bad(a.recordedAt)], Attempts(cfg, lost, k + 1, limit, startedAt, script))
      else LoopEnd(lost, k, a.outcome, false, [Bad(a.recordedAt)])
  }

  /** A call to execute: its entry readings and what the environment does to it. */
  datatype Call<T> = Call(enteredAt: real, startedAt: real, script: nat -> Attempt<T>)

  function AttemptLimit(cfg: Config, b: Breaker): int {
    if b.state == HalfOpen then 1 else cfg.retry.maxAttempts
  }

  /** The breaker and its marks after one call; a refused call leaves no attempt. */
  function AfterCall<T>(cfg: Config, b: Breaker, c: Call<T>): (Breaker, seq<Mark>)
    requires cfg.Valid()
  {
    var entered := Entered(cfg.breaker, b, c.enteredAt);
    var probe := if entered.state != b.state then [Probe] else [];
    if entered.state == Open then (entered, probe)
    else
      var end := Attempts(cfg, entered, 1, AttemptLimit(cfg, entered), c.startedAt, c.script);
      (end.breaker, probe + end.marks)
  }

  function ResultOf<T>(end: LoopEnd<T>, fallback: Handler<T>): CallResult<T> {
    if end.outcome.Returned? then Succeeded(end.used, end.outcome.value, end.breaker.state, end.recovered)
    else if end.outcome.Cancelled? then Aborted
    else Fallback(FailureOf(end.outcome), fallback, end.used, "retry_exhausted", end.breaker.state)
  }

  /** _fallback_or_raise followed by _degraded_result. */
  function Fallback<T>(
    f: Failure, fallback: Handler<T>, attempts: nat, reason: string, circuit: Circuit): CallResult<T>
  {
    match fallback
    case NoHandler => Raised(f)
    case Yields(value) => Degraded(attempts, value, f.code, reason, circuit)
    case Raises(error) => FallbackRaised(error)
  }

  /** What one call returns or raises. */
  function CallResultOf<T>(cfg: Config, b: Breaker, c: Call<T>, fallback: Handler<T>): CallResult<T>
    requires cfg.Valid()
  {
    var entered := Entered(cfg.breaker, b, c.enteredAt);
    if entered.state == Open then Fallback(Failure(CIRCUIT_OPEN, true), fallback, 0, "circuit_open", Open)
    else ResultOf(Attempts(cfg, entered, 1, AttemptLimit(cfg, entered), c.startedAt, c.script), fallback)
  }

  class DependencyResilienceGuard {
    const config: Config
    var state: Circuit
    var failures: int
    var recoveries: int
    var openedAt: Option<real>

    ghost function Value(): Breaker
      reads this
    {
      Breaker(state, failures, recoveries, openedAt)
    }

    constructor (config: Config)
      ensures this.config == config && Value() == FRESH
    {
      this.config := config;
      state, failures, recoveries, openedAt := Closed, 0, 0, None;
    }

    method RecordSuccess() returns (recovered: bool)
      modifies this
      ensures (Value(), recovered) == AfterSuccess(config.breaker, old(Value()))
    {
      if state == HalfOpen {
        recoveries := recoveries + 1;
        if recoveries >= config.breaker.recoveryThreshold {
          state, failures, recoveries, openedAt := Closed, 0, 0, None;
          return true;
        }
        return false;
      }
      failures, recoveries := 0, 0;
      return false;
    }

    method OpenCircuit(now: real)
      modifies this
      ensures Value() == Opened(old(Value()), now)
    {
      state, openedAt, recoveries := Open, Some(now), 0;
    }

    method RecordFailure(now: real)
      modifies this
      ensures Value() == AfterFailure(config.breaker, old(Value()), now)
    {
      if state == HalfOpen {
        OpenCircuit(now);
        return;
      }
      failures := failures + 1;
      if failures >= config.breaker.failureThreshold {
        OpenCircuit(now);
      }
    }

    method TransitionOpenCircuitIfReady(now: real)
      modifies this
      ensures Value() == Entered(config.breaker, old(Value()), now)
    {
      if state != Open || openedAt.None? {
        return;
      }
      if now - openedAt.value >= config.breaker.cooldown {
        state, recoveries := HalfOpen, 0;
      }
    }

    /** execute: the retry loop computes Attempts and nothing else touches the breaker. */
    method Execute<T>(c: Call<T>, fallback: Handler<T>) returns (r: CallResult<T>)
      requires config.Valid()
      modifies this
      ensures Value() == AfterCall(config, old(Value()), c).0
      ensures r == CallResultOf(config, old(Value()), c, fallback)
    {
      TransitionOpenCircuitIfReady(c.enteredAt);
      if state == Open {
        return Fallback(Failure(CIRCUIT_OPEN, true), fallback, 0, "circuit_open", state);
      }
      var limit := if state == HalfOpen then 1 else config.retry.maxAttempts;
      ghost var whole := Attempts(config, Value(), 1, limit, c.startedAt, c.script);
      ghost var marks: seq<Mark> := [];
      var attempt := 1;
      while true
        invariant 0 < attempt <= limit
        invariant whole == Before(marks, Attempts(config, Value(), attempt, limit, c.startedAt, c.script))
        decreases limit - attempt
      {
        var outcome := c.script(attempt).outcome;
        if outcome.Returned? {
          var recovered := RecordSuccess();
          return Succeeded(attempt, outcome.value, state, recovered);
        }
        if outcome.Cancelled? {
          return Aborted;
        }
        RecordFailure(c.script(attempt).recordedAt);
        var failure := FailureOf(outcome);
        if !ShouldRetry(config, Breaker(state, failures, recoveries, openedAt), failure, attempt, limit,
                        c.startedAt, c.script(attempt).checkedAt) {
          return Fallback(failure, fallback, attempt, "retry_exhausted", state);
        }
        ghost var rest := Attempts(config, Value(), attempt + 1, limit, c.startedAt, c.script);
        ghost var mark := Bad(c.script(attempt).recordedAt);
        assert marks + ([mark] + rest.marks) == (marks + [mark]) + rest.marks;
        marks := marks + [mark];
        attempt := attempt + 1;
      }
    }
  }

  // ---- The breaker as a function of its history ---------------------------

  function Last(h: seq<Mark>): Mark
    requires h != []
  {
    h[|h| - 1]
  }

  function Init(h: seq<Mark>): seq<Mark>
    requires h != []
  {
    h[..|h| - 1]
  }

  /** Failures at the very end of the history. */
  function BadTail(h: seq<Mark>): nat {
    if h != [] && Last(h).Bad? then 1 + BadTail(Init(h)) else 0
  }

  /** When the last failure was recorded. */
  function LastBad(h: seq<Mark>): Option<real> {
    if h == [] then None else if Last(h).Bad? then Some(Last(h).at) else LastBad(Init(h))
  }

  /** Successes at the very end of the history. */
  function GoodTail(h: seq<Mark>): nat {
    if h != [] && Last(h) == Good then 1 + GoodTail(Init(h)) else 0
  }

  /** Only successes since the last probe, and there was one. */
  predicate Probing(h: seq<Mark>) {
    h != [] && (Last(h) == Probe || (Last(h) == Good && Probing(Init(h))))
  }

  /** The history ends with a probe followed by exactly the required successes. */
  predicate Recovers(p: BreakerPolicy, h: seq<Mark>) {
    Probing(h) && GoodTail(h) == p.recoveryThreshold
  }

  predicate TrippedAt(p: BreakerPolicy, h: seq<Mark>, i: nat) {
    && i <= |h|
    && BadTail(h[..i]) >= p.failureThreshold
    && forall j :: i < j <= |h| ==> !Recovers(p, h[..j])
  }

  /** Some run of failures reached the threshold and nothing recovered since. */
  ghost predicate Tripped(p: BreakerPolicy, h: seq<Mark>) {
    exists i :: TrippedAt(p, h, i)
  }

  /** The breaker's whole state, read off the history alone. */
  ghost predicate Explains(p: BreakerPolicy, h: seq<Mark>, b: Breaker) {
    && (b.state == Closed <==> !Tripped(p, h))
    && (b.state == HalfOpen <==> Tripped(p, h) && Probing(h))
    && b.failures == (if b.state == Closed then BadTail(h) else p.failureThreshold)
    && b.recoveries == (if b.state == HalfOpen then GoodTail(h) else 0)
    && b.openedAt == (if b.state == Closed then None else LastBad(h))
    && (b.state != Closed ==> b.openedAt.Some?)
    && b.recoveries < p.recoveryThreshold
    && (b.state == Closed ==> b.failures < p.failureThreshold)
  }

  lemma TripExtends(p: BreakerPolicy, h: seq<Mark>, m: Mark, i: nat)
    requires i <= |h|
    ensures TrippedAt(p, h + [m], i) <==> TrippedAt(p, h, i) && !Recovers(p, h + [m])
  {
    var g := h + [m];
    assert g[..|g|] == g;
    assert forall j :: 0 <= j <= |h| ==> g[..j] == h[..j];
  }

  lemma TailsExtend(h: seq<Mark>, m: Mark)
    ensures Init(h + [m]) == h && Last(h + [m]) == m && (h + [m])[..|h| + 1] == h + [m]
  {
  }

  /** A history is tripped after one more mark exactly when it was before and the mark
      does not complete a recovery, or the mark completes a run of failures. */
  lemma TrippedStep(p: BreakerPolicy, h: seq<Mark>, m: Mark)
    ensures Tripped(p, h + [m]) <==>
            (Tripped(p, h) && !Recovers(p, h + [m])) || BadTail(h + [m]) >= p.failureThreshold
  {
    var g := h + [m];
    TailsExtend(h, m);
    if Tripped(p, g) {
      var i: nat :| TrippedAt(p, g, i);
      if i <= |h| {
        TripExtends(p, h, m, i);
      }
    }
    if Tripped(p, h) && !Recovers(p, g) {
      var i: nat :| TrippedAt(p, h, i);
      TripExtends(p, h, m, i);
    }
    if BadTail(g) >= p.failureThreshold {
      assert TrippedAt(p, g, |g|);
    }
  }

  lemma GoodStep(p: BreakerPolicy, h: seq<Mark>, b: Breaker)
    requires p.Valid() && Explains(p, h, b) && b.state != Open
    ensures Explains(p, h + [Good], AfterSuccess(p, b).0)
  {
    TailsExtend(h, Good);
    TrippedStep(p, h, Good);
  }

  lemma BadStep(p: BreakerPolicy, h: seq<Mark>, b: Breaker, now: real)
    requires p.Valid() && Explains(p, h, b) && b.state != Open
    ensures Explains(p, h + [Bad(now)], AfterFailure(p, b, now))
  {
    TailsExtend(h, Bad(now));
    TrippedStep(p, h, Bad(now));
  }

  lemma ProbeStep(p: BreakerPolicy, h: seq<Mark>, b: Breaker, now: real)
    requires p.Valid() && Explains(p, h, b) && Entered(p, b, now).state != b.state
    ensures Explains(p, h + [Probe], Entered(p, b, now))
  {
    TailsExtend(h, Probe);
    TrippedStep(p, h, Probe);
  }

  lemma {:induction false} AttemptsExplained<T>(
    cfg: Config, h: seq<Mark>, b: Breaker, k: nat, limit: int, startedAt: real, script: nat -> Attempt<T>)
    requires cfg.Valid() && 0 < k <= limit && b.state != Open && Explains(cfg.breaker, h, b)
    ensures var end := Attempts(cfg, b, k, limit, startedAt, script);
            Explains(cfg.breaker, h + end.marks, end.breaker)
    decreases limit - k
  {
    var a := script(k);
    if a.outcome.Returned? {
      GoodStep(cfg.breaker, h, b);
    } else if a.outcome.Cancelled? {
      assert h + [] == h;
    } else {
      BadStep(cfg.breaker, h, b, a.recordedAt);
      var lost := AfterFailure(cfg.breaker, b, a.recordedAt);
      if ShouldRetry(cfg, lost, FailureOf(a.outcome), k, limit, startedAt, a.checkedAt) {
        var mark := Bad(a.recordedAt);
        AttemptsExplained(cfg, h + [mark], lost, k + 1, limit, startedAt, script);
        var rest := Attempts(cfg, lost, k + 1, limit, startedAt, script);
        assert h + [mark] + rest.marks == h + ([mark] + rest.marks);
      }
    }
  }

  lemma CallExplained<T>(cfg: Config, h: seq<Mark>, b: Breaker, c: Call<T>)
    requires cfg.Valid() && Explains(cfg.breaker, h, b)
    ensures Explains(cfg.breaker, h + AfterCall(cfg, b, c).1, AfterCall(cfg, b, c).0)
  {
    var entered := Entered(cfg.breaker, b, c.enteredAt);
    var probe := if entered.state != b.state then [Probe] else [];
    if probe != [] {
      ProbeStep(cfg.breaker, h, b, c.enteredAt);
    }
    assert h + [] == h;
    if entered.state != Open {
      AttemptsExplained(cfg, h + probe, entered, 1, AttemptLimit(cfg, entered), c.startedAt, c.script);
      var end := Attempts(cfg, entered, 1, AttemptLimit(cfg, entered), c.startedAt, c.script);
      assert h + probe + end.marks == h + (probe + end.marks);
    }
  }

  function AfterCalls<T>(cfg: Config, calls: seq<Call<T>>): (Breaker, seq<Mark>)
    requires cfg.Valid()
  {
    if calls == [] then (FRESH, [])
    else
      var (b, h) := AfterCalls(cfg, calls[..|calls| - 1]);
      var (b', marks) := AfterCall(cfg, b, calls[|calls| - 1]);
      (b', h + marks)
  }

  /** After every sequence of calls, whatever their operations and clocks do, the
      breaker is the one its history explains. */
  lemma {:induction false} HistoryDeterminesBreaker<T>(cfg: Config, calls: seq<Call<T>>)
    requires cfg.Valid()
    ensures Explains(cfg.breaker, AfterCalls(cfg, calls).1, AfterCalls(cfg, calls).0)
  {
    if calls == [] {
      assert forall i :: !TrippedAt(cfg.breaker, [], i);
    } else {
      var (b, h) := AfterCalls(cfg, calls[..|calls| - 1]);
      HistoryDeterminesBreaker(cfg, calls[..|calls| - 1]);
      CallExplained(cfg, h, b, calls[|calls| - 1]);
    }
  }

  // ---- The retry budget ---------------------------------------------------

  /** A call entered while closed never makes more attempts than the failures it takes
      to open the circuit, nor more than the policy allows. */
  lemma {:induction false} AttemptsBounded<T>(
    cfg: Config, b: Breaker, k: nat, limit: int, startedAt: real, script: nat -> Attempt<T>)
    requires cfg.Valid() && 0 < k <= limit && b.state == Closed && b.failures < cfg.breaker.failureThreshold
    ensures var end := Attempts(cfg, b, k, limit, startedAt, script);
            && k <= end.used <= limit
            && end.used - (k - 1) <= cfg.breaker.failureThreshold - b.failures
            && |end.marks| == end.used - (k - 1) - (if end.outcome.Cancelled? then 1 else 0)
    decreases limit - k
  {
    var a := script(k);
    if !a.outcome.Returned? && !a.outcome.Cancelled? {
      var lost := AfterFailure(cfg.breaker, b, a.recordedAt);
      if ShouldRetry(cfg, lost, FailureOf(a.outcome), k, limit, startedAt, a.checkedAt) {
        AttemptsBounded(cfg, lost, k + 1, limit, startedAt, script);
      }
    }
  }

  /** Every attempt but the last was retried because the budget still covered its delay. */
  lemma {:induction false} RetriesFitBudget<T>(
    cfg: Config, b: Breaker, k: nat, limit: int, startedAt: real, script: nat -> Attempt<T>, j: nat)
    requires 0 < k <= limit && cfg.budget.total.Some?
    requires k <= j < Attempts(cfg, b, k, limit, startedAt, script).used
    ensures script(j).checkedAt - startedAt + Delay(cfg.retry, j) < cfg.budget.total.value
    decreases limit - k
  {
    if j != k {
      var lost := AfterFailure(cfg.breaker, b, script(k).recordedAt);
      RetriesFitBudget(cfg, lost, k + 1, limit, startedAt, script, j);
    }
  }

  function TotalDelay(p: RetryPolicy, retries: nat): real {
    if retries == 0 then 0.0 else TotalDelay(p, retries - 1) + Delay(p, retries)
  }

  /** The sleeper waits at least the delay it is given, and clocks do not run back. */
  ghost predicate PatientSleeper<T>(cfg: Config, startedAt: real, script: nat -> Attempt<T>) {
    && script(1).checkedAt >= startedAt
    && forall k :: 0 < k ==> script(k + 1).checkedAt >= script(k).checkedAt + Delay(cfg.retry, k)
  }

  /** Each attempt starts exactly when the sleeper's delay has passed. */
  ghost predicate ExactSleeper<T>(cfg: Config, startedAt: real, script: nat -> Attempt<T>) {
    && script(1).startsAt == startedAt
    && forall k :: 0 < k ==> script(k + 1).startsAt == script(k).checkedAt + Delay(cfg.retry, k)
  }

  lemma {:induction false} SleptSoFar<T>(cfg: Config, startedAt: real, script: nat -> Attempt<T>, k: nat)
    requires 0 < k && PatientSleeper(cfg, startedAt, script)
    ensures script(k).checkedAt - startedAt >= TotalDelay(cfg.retry, k - 1)
  {
    if k > 1 {
      SleptSoFar(cfg, startedAt, script, k - 1);
    }
  }

  /** With a patient sleeper the delays of one call add up to less than the total budget. */
  lemma TotalDelayWithinBudget<T>(cfg: Config, b: Breaker, limit: int, startedAt: real, script: nat -> Attempt<T>)
    requires cfg.Valid() && 0 < limit && cfg.budget.total.Some?
    requires PatientSleeper(cfg, startedAt, script)
    ensures var used := Attempts(cfg, b, 1, limit, startedAt, script).used;
            used > 0 && TotalDelay(cfg.retry, used - 1) < cfg.budget.total.value
  {
    var used := Attempts(cfg, b, 1, limit, startedAt, script).used;
    UsedIsPositive(cfg, b, 1, limit, startedAt, script);
    if used > 1 {
      SleptSoFar(cfg, startedAt, script, used - 1);
      RetriesFitBudget(cfg, b, 1, limit, startedAt, script, used - 1);
    }
  }

  lemma {:induction false} UsedIsPositive<T>(
    cfg: Config, b: Breaker, k: nat, limit: int, startedAt: real, script: nat -> Attempt<T>)
    requires 0 < k <= limit
    ensures Attempts(cfg, b, k, limit, startedAt, script).used >= k
    decreases limit - k
  {
    if k < limit {
      UsedIsPositive(cfg, AfterFailure(cfg.breaker, b, script(k).recordedAt), k + 1, limit, startedAt, script);
    }
  }

  /** With an exact sleeper every attempt starts before the total deadline. */
  lemma AttemptsStartBeforeDeadline<T>(
    cfg: Config, b: Breaker, limit: int, startedAt: real, script: nat -> Attempt<T>, j: nat)
    requires cfg.Valid() && 0 < limit && cfg.budget.total.Some?
    requires ExactSleeper(cfg, startedAt, script)
    requires 0 < j <= Attempts(cfg, b, 1, limit, startedAt, script).used
    ensures script(j).startsAt < startedAt + cfg.budget.total.value
  {
    if j > 1 {
      RetriesFitBudget(cfg, b, 1, limit, startedAt, script, j - 1);
      assert script(j - 1 + 1).startsAt == script(j - 1).checkedAt + Delay(cfg.retry, j - 1);
    }
  }

  /** The whole budget for one call, whatever state it finds the breaker in. */
  lemma CallBudget<T>(cfg: Config, h: seq<Mark>, b: Breaker, c: Call<T>)
    requires cfg.Valid() && Explains(cfg.breaker, h, b)
    ensures var entered := Entered(cfg.breaker, b, c.enteredAt);
            var end := Attempts(cfg, entered, 1, AttemptLimit(cfg, entered), c.startedAt, c.script);
            && (b.state == Closed ==>
                  end.used <= cfg.retry.maxAttempts && end.used <= cfg.breaker.failureThreshold - b.failures)
            && (entered.state == HalfOpen ==> end.used == 1)
            && (b.state == Open && c.enteredAt - b.openedAt.value < cfg.breaker.cooldown ==>
                  AfterCall(cfg, b, c) == (b, []))
            && (b.state == Open && c.enteredAt - b.openedAt.value >= cfg.breaker.cooldown ==>
                  && entered.state == HalfOpen && AfterCall(cfg, b, c).1 == [Probe] + end.marks
                  && |end.marks| == if end.outcome.Cancelled? then 0 else 1)
  {
    var entered := Entered(cfg.breaker, b, c.enteredAt);
    if b.state == Closed {
      AttemptsBounded(cfg, b, 1, AttemptLimit(cfg, b), c.startedAt, c.script);
    }
  }

  // ---- What a call does, in terms of its attempts' outcomes ---------------

  /** The policy retries this outcome. */
  predicate Retried<T>(codes: set<ErrorCode>, o: Outcome<T>) {
    match o
    case Returned(_) => false
    case Cancelled => false
    case TimedOut => "dependency_timeout" in codes
    case OtherError => "dependency_error" in codes
    case Broke(f) => f.retryable && f.code in codes
  }

  /** Attempt k of a call that entered with so many failures is its last: it returned or
      was cancelled, it opens the circuit, it is the last one allowed, the policy does not
      retry its outcome, or the budget does not cover the delay. */
  predicate Halts<T>(cfg: Config, failures: int, startedAt: real, script: nat -> Attempt<T>, k: nat)
    requires k > 0
  {
    || script(k).outcome.Returned?
    || script(k).outcome.Cancelled?
    || failures + k >= cfg.breaker.failureThreshold
    || k == cfg.retry.maxAttempts
    || !Retried(cfg.retry.retryableCodes, script(k).outcome)
    || (cfg.budget.total.Some?
        && script(k).checkedAt - startedAt + Delay(cfg.retry, k) >= cfg.budget.total.value)
  }

  /** The first attempt that is the last. */
  ghost predicate LastAttempt<T>(
    cfg: Config, failures: int, startedAt: real, script: nat -> Attempt<T>, n: nat)
  {
    && n > 0 && Halts(cfg, failures, startedAt, script, n)
    && forall j :: 0 < j < n ==> !Halts(cfg, failures, startedAt, script, j)
  }

  /** The circuit after n attempts of a call that entered it closed with so many failures. */
  function ClosedAfter<T>(p: BreakerPolicy, failures: int, script: nat -> Attempt<T>, n: nat): Breaker {
    match script(n).outcome
    case Returned(_) => Breaker(Closed, 0, 0, None)
    case Cancelled => Breaker(Closed, failures + n - 1, 0, None)
    case _ =>
      if failures + n >= p.failureThreshold then Breaker(Open, failures + n, 0, Some(script(n).recordedAt))
      else Breaker(Closed, failures + n, 0, None)
  }

  /** The circuit after the one attempt of a call that entered it half-open. */
  function ProbedAfter<T>(p: BreakerPolicy, b: Breaker, a: Attempt<T>): Breaker {
    match a.outcome
    case Returned(_) =>
      if b.recoveries + 1 == p.recoveryThreshold then Breaker(Closed, 0, 0, None)
      else Breaker(HalfOpen, b.failures, b.recoveries + 1, b.openedAt)
    case Cancelled => b
    case _ => Breaker(Open, b.failures, 0, Some(a.recordedAt))
  }

  /** A failed call reports this code: it raises without a handler, and with one it answers
      with the handler's value or raises what the handler raises. */
  ghost predicate Reports<T>(
    r: CallResult<T>, h: Handler<T>, code: string, retryable: bool, n: nat, reason: string, circuit: Circuit)
  {
    match h
    case NoHandler => r.Raised? && r.failure.code == code && r.failure.retryable == retryable
    case Yields(v) => r == Degraded(n, v, code, reason, circuit)
    case Raises(e) => r == FallbackRaised(e)
  }

  /** The result of a call whose last attempt was number n and ended like this. */
  ghost predicate Answers<T>(
    r: CallResult<T>, h: Handler<T>, o: Outcome<T>, n: nat, circuit: Circuit, recovered: bool)
  {
    match o
    case Returned(v) => r == Succeeded(n, v, circuit, recovered)
    case Cancelled => r == Aborted
    case TimedOut => Reports(r, h, "dependency_timeout", true, n, "retry_exhausted", circuit)
    case OtherError => Reports(r, h, "dependency_error", true, n, "retry_exhausted", circuit)
    case Broke(f) => Reports(r, h, f.code, f.retryable, n, "retry_exhausted", circuit)
  }

  lemma {:induction false} LoopFromClosed<T>(
    cfg: Config, failures: int, k: nat, startedAt: real, script: nat -> Attempt<T>)
    requires cfg.Valid() && 0 < k <= cfg.retry.maxAttempts && failures + k - 1 < cfg.breaker.failureThreshold
    requires forall j :: 0 < j < k ==> !Halts(cfg, failures, startedAt, script, j)
    ensures var end := Attempts(cfg, Breaker(Closed, failures + k - 1, 0, None), k, cfg.retry.maxAttempts,
                                startedAt, script);
            && LastAttempt(cfg, failures, startedAt, script, end.used)
            && end.outcome == script(end.used).outcome && !end.recovered
            && end.breaker == ClosedAfter(cfg.breaker, failures, script, end.used)
    decreases cfg.retry.maxAttempts - k
  {
    if !Halts(cfg, failures, startedAt, script, k) {
      LoopFromClosed(cfg, failures, k + 1, startedAt, script);
    }
  }

  /** A call that finds the circuit closed: how many attempts it makes, what it answers, and
      what it leaves the circuit like, for every environment. */
  lemma CallFromClosedExactly<T>(cfg: Config, failures: int, c: Call<T>, h: Handler<T>) returns (n: nat)
    requires cfg.Valid() && 0 <= failures < cfg.breaker.failureThreshold
    ensures LastAttempt(cfg, failures, c.startedAt, c.script, n)
    ensures var b := Breaker(Closed, failures, 0, None);
            var after := ClosedAfter(cfg.breaker, failures, c.script, n);
            && AfterCall(cfg, b, c).0 == after
            && Answers(CallResultOf(cfg, b, c, h), h, c.script(n).outcome, n, after.state, false)
  {
    LoopFromClosed(cfg, failures, 1, c.startedAt, c.script);
    n := Attempts(cfg, Breaker(Closed, failures, 0, None), 1, cfg.retry.maxAttempts, c.startedAt, c.script).used;
  }

  /** A call that finds the circuit half-open, or open with the cooldown over: one attempt. */
  lemma CallFromHalfOpenExactly<T>(cfg: Config, b: Breaker, c: Call<T>, h: Handler<T>)
    requires cfg.Valid() && b.openedAt.Some?
    requires b.state == HalfOpen ==> 0 <= b.recoveries < cfg.breaker.recoveryThreshold
    requires b.state == HalfOpen
             || (b.state == Open && c.enteredAt >= b.openedAt.value + cfg.breaker.cooldown)
    ensures var from := b.(state := HalfOpen, recoveries := if b.state == Open then 0 else b.recoveries);
            var after := ProbedAfter(cfg.breaker, from, c.script(1));
            && AfterCall(cfg, b, c).0 == after
            && Answers(CallResultOf(cfg, b, c, h), h, c.script(1).outcome, 1, after.state, after.state == Closed)
  {
  }

  /** A call that finds the circuit open before the cooldown is over: no attempt. */
  lemma CallFromOpenExactly<T>(cfg: Config, b: Breaker, c: Call<T>, h: Handler<T>)
    requires cfg.Valid() && b.state == Open && b.openedAt.Some?
    requires c.enteredAt < b.openedAt.value + cfg.breaker.cooldown
    ensures AfterCall(cfg, b, c).0 == b
    ensures Reports(CallResultOf(cfg, b, c, h), h, "circuit_open", true, 0, "circuit_open", Open)
  {
  }
}
