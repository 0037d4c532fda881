/** Several execute calls of one DependencyResilienceGuard (libs/shared/resilience.py)
    interleaved at their awaits: the operation and the backoff sleep. */
module ResilienceConcurrency {
  import opened Wrappers
  import opened Runs
  import opened Resilience

  datatype Task =
    | Calling(attempt: nat, limit: int, startedAt: real)   // awaiting the operation
    | Sleeping(attempt: nat, limit: int, startedAt: real)  // awaiting the sleeper
    | Rejected                                             // found the circuit open
    | Ended                                                // returned, gave up or was cancelled

  /** One invocation of an operation, with the circuit as it was at that moment. */
  datatype Start = Start(task: nat, attempt: nat, circuit: Circuit)

  datatype System = System(breaker: Breaker, tasks: map<nat, Task>, starts: seq<Start>)

  datatype Step =
    | Enter(task: nat, enteredAt: real, startedAt: real)
    | Return(task: nat)
    | Break(task: nat, failure: Failure, recordedAt: real, checkedAt: real)
    | Wake(task: nat)
    | Cancel(task: nat)

  const INITIAL := System(FRESH, map[], [])

  function Invoke(s: System, b: Breaker, t: nat, attempt: nat, limit: int, startedAt: real): System {
    System(b, s.tasks[t := Calling(attempt, limit, startedAt)], s.starts + [Start(t, attempt, b.state)])
  }

  predicate IsCalling(s: System, t: nat) {
    t in s.tasks && s.tasks[t].Calling? && s.tasks[t].attempt > 0
  }

  /** What runs between two awaits. A step that cannot happen, or whose clock would
      have run backwards, changes nothing. */
  function Next(cfg: Config, s: System, step: Step): System {
    match step
    case Enter(t, enteredAt, startedAt) =>
      if t in s.tasks then s
      else
        var b := Entered(cfg.breaker, s.breaker, enteredAt);
        if b.state == Open then s.(tasks := s.tasks[t := Rejected])
        else Invoke(s, b, t, 1, AttemptLimit(cfg, b), startedAt)
    case Return(t) =>
      if !IsCalling(s, t) then s
      else s.(breaker := AfterSuccess(cfg.breaker, s.breaker).0, tasks := s.tasks[t := Ended])
    case Break(t, failure, recordedAt, checkedAt) =>
      if !IsCalling(s, t) || checkedAt < s.tasks[t].startedAt then s
      else
        var k := s.tasks[t];
        var b := AfterFailure(cfg.breaker, s.breaker, recordedAt);
        var next := if ShouldRetry(cfg, b, failure, k.attempt, k.limit, k.startedAt, checkedAt)
                    then Sleeping(k.attempt, k.limit, k.startedAt)
                    else Ended;
        s.(breaker := b, tasks := s.tasks[t := next])
    case Wake(t) =>
      if t !in s.tasks || !s.tasks[t].Sleeping? then s
      else Invoke(s, s.breaker, t, s.tasks[t].attempt + 1, s.tasks[t].limit, s.tasks[t].startedAt)
    case Cancel(t) =>
      if t !in s.tasks || s.tasks[t].Rejected? then s else s.(tasks := s.tasks[t := Ended])
  }

  function StepOf(cfg: Config): (System, Step) -> System {
    (s, step) => Next(cfg, s, step)
  }

  function Run(cfg: Config, s: System, steps: seq<Step>): System {
    Fold(StepOf(cfg), s, steps)
  }

  // ---- What every interleaving keeps --------------------------------------

  predicate BreakerSound(p: BreakerPolicy, b: Breaker) {
    && (b.state == Closed <==> b.openedAt.None?)
    && 0 <= b.failures && (b.state == Closed ==> b.failures < p.failureThreshold)
    && 0 <= b.recoveries < p.recoveryThreshold
    && (b.recoveries > 0 ==> b.state == HalfOpen)
  }

  predicate TaskSound(cfg: Config, k: Task) {
    && (k.Calling? ==> 0 < k.attempt <= k.limit <= cfg.retry.maxAttempts)
    && (k.Sleeping? ==> 0 < k.attempt < k.limit <= cfg.retry.maxAttempts)
  }

  /** First attempts meet a circuit that is not open; no task starts too often; a task
      that was rejected has started nothing. */
  predicate StartSound(cfg: Config, s: System, x: Start) {
    && 0 < x.attempt <= cfg.retry.maxAttempts
    && (x.attempt == 1 ==> x.circuit != Open)
    && x.task in s.tasks && !s.tasks[x.task].Rejected?
  }

  ghost predicate Sound(cfg: Config, s: System) {
    && BreakerSound(cfg.breaker, s.breaker)
    && (forall t :: t in s.tasks ==> TaskSound(cfg, s.tasks[t]))
    && (forall i :: 0 <= i < |s.starts| ==> StartSound(cfg, s, s.starts[i]))
  }

  lemma StepKeepsSound(cfg: Config, s: System, step: Step)
    requires cfg.Valid() && Sound(cfg, s)
    ensures Sound(cfg, Next(cfg, s, step))
  {
    var n := Next(cfg, s, step);
    forall i | 0 <= i < |n.starts| ensures StartSound(cfg, n, n.starts[i]) {
      if i < |s.starts| {
        assert StartSound(cfg, s, s.starts[i]);
      }
    }
  }

  /** For every interleaving of any number of calls: CLOSED exactly when opened_at is
      None, failures below the threshold while CLOSED, recovery successes below theirs
      and only while HALF_OPEN, and the bounds on what each task starts. */
  lemma {:induction false} InterleavingsSound(cfg: Config, steps: seq<Step>)
    requires cfg.Valid()
    ensures Sound(cfg, Run(cfg, INITIAL, steps))
  {
    if steps != [] {
      InterleavingsSound(cfg, steps[..|steps| - 1]);
      StepKeepsSound(cfg, Run(cfg, INITIAL, steps[..|steps| - 1]), steps[|steps| - 1]);
    }
  }

  lemma {:induction false} RejectedStays(cfg: Config, s: System, steps: seq<Step>, t: nat)
    requires t in s.tasks && s.tasks[t].Rejected?
    ensures t in Run(cfg, s, steps).tasks && Run(cfg, s, steps).tasks[t].Rejected?
  {
    if steps != [] {
      RejectedStays(cfg, s, steps[..|steps| - 1], t);
    }
  }

  /** A call that enters while OPEN before the cooldown has passed never invokes its
      operation, whatever happens before and after. */
  lemma EarlyCallNeverStarts(cfg: Config, past: seq<Step>, enter: Step, future: seq<Step>)
    requires cfg.Valid() && enter.Enter?
    requires var s := Run(cfg, INITIAL, past);
             && enter.task !in s.tasks && s.breaker.state == Open && s.breaker.openedAt.Some?
             && enter.enteredAt - s.breaker.openedAt.value < cfg.breaker.cooldown
    ensures var end := Run(cfg, INITIAL, past + [enter] + future);
            forall i :: 0 <= i < |end.starts| ==> end.starts[i].task != enter.task
  {
    FoldSplits(StepOf(cfg), INITIAL, past + [enter], future);
    FoldSplits(StepOf(cfg), INITIAL, past, [enter]);
    assert [enter][..0] == [];
    var mid := Run(cfg, INITIAL, past + [enter]);
    assert mid.tasks[enter.task].Rejected?;
    RejectedStays(cfg, mid, future, enter.task);
    InterleavingsSound(cfg, past + [enter] + future);
    var end := Run(cfg, INITIAL, past + [enter] + future);
    forall i | 0 <= i < |end.starts| ensures end.starts[i].task != enter.task {
      assert StartSound(cfg, end, end.starts[i]);
    }
  }

  // ---- Can an operation start while the circuit is open? ------------------

  /** The interleaving invokes some operation while the circuit is open. */
  ghost predicate StartsWhileOpen(cfg: Config, steps: seq<Step>) {
    var s := Run(cfg, INITIAL, steps);
    exists i :: 0 <= i < |s.starts| && s.starts[i].circuit == Open
  }

  /** The policy lets some call sleep before a retry with the circuit still not open. */
  ghost predicate CanSleep(cfg: Config) {
    && cfg.retry.maxAttempts >= 2
    && cfg.breaker.failureThreshold >= 2
    && cfg.retry.retryableCodes != {}
    && (cfg.budget.total.Some? ==> Delay(cfg.retry, 1) < cfg.budget.total.value)
  }

  ghost predicate NobodySleeps(s: System) {
    && (forall t :: t in s.tasks ==> !s.tasks[t].Sleeping?)
    && (forall i :: 0 <= i < |s.starts| ==> s.starts[i].attempt == 1)
  }

  lemma FailureCannotSleep(cfg: Config, s: System, step: Step)
    requires cfg.Valid() && Sound(cfg, s) && !CanSleep(cfg) && step.Break?
    requires IsCalling(s, step.task) && step.checkedAt >= s.tasks[step.task].startedAt
    ensures var k := s.tasks[step.task];
            !ShouldRetry(cfg, AfterFailure(cfg.breaker, s.breaker, step.recordedAt), step.failure,
                         k.attempt, k.limit, k.startedAt, step.checkedAt)
  {
    var k := s.tasks[step.task];
    assert TaskSound(cfg, k);
    if k.attempt < k.limit {
      DelaysGrowWithinBounds(cfg.retry, 1, k.attempt);
    }
  }

  lemma {:induction false} NobodyEverSleeps(cfg: Config, steps: seq<Step>)
    requires cfg.Valid() && !CanSleep(cfg)
    ensures NobodySleeps(Run(cfg, INITIAL, steps))
  {
    if steps != [] {
      var init, step := steps[..|steps| - 1], steps[|steps| - 1];
      NobodyEverSleeps(cfg, init);
      InterleavingsSound(cfg, init);
      var s := Run(cfg, INITIAL, init);
      if step.Break? && IsCalling(s, step.task) && step.checkedAt >= s.tasks[step.task].startedAt {
        FailureCannotSleep(cfg, s, step);
      }
    }
  }

  const REFUSED: ErrorCode := "refused"
  const DOOMED := Failure(REFUSED, false)

  /** n calls, tasks 1..n, each failing at once and for good. */
  function Failing(n: nat): seq<Step> {
    if n == 0 then [] else Failing(n - 1) + [Enter(n, 0.0, 0.0)] + [Break(n, DOOMED, 0.0, 0.0)]
  }

  lemma OneStep(cfg: Config, s: System, steps: seq<Step>, x: Step)
    ensures Run(cfg, s, steps + [x]) == Next(cfg, Run(cfg, s, steps), x)
  {
    assert (steps + [x])[..|steps|] == steps;
  }

  /** What n quick failures by the tasks 1..n make of s, in which only task 0 is known. */
  ghost predicate Piled(cfg: Config, s: System, e: System, n: nat) {
    && 0 in e.tasks && 0 in s.tasks && e.tasks[0] == s.tasks[0]
    && (forall t :: t in e.tasks ==> t <= n)
    && e.breaker.failures == s.breaker.failures + n
    && e.breaker.state == (if e.breaker.failures < cfg.breaker.failureThreshold then Closed else Open)
    && (e.breaker.state == Open ==> e.breaker.openedAt == Some(0.0))
  }

  /** A new call that fails at once and for good counts one failure. */
  lemma QuickFailure(cfg: Config, s: System, e: System, n: nat)
    requires cfg.Valid() && n > 0 && Piled(cfg, s, e, n - 1) && e.breaker.state == Closed
    ensures Piled(cfg, s, Next(cfg, Next(cfg, e, Enter(n, 0.0, 0.0)), Break(n, DOOMED, 0.0, 0.0)), n)
  {
    var mid := Next(cfg, e, Enter(n, 0.0, 0.0));
    assert n !in e.tasks;
    assert mid.breaker == e.breaker && mid.tasks == e.tasks[n := Calling(1, cfg.retry.maxAttempts, 0.0)];
  }

  /** n calls, one after the other, that fail at once on top of a closed breaker raise the
      counter by n and open the circuit exactly at the threshold. */
  lemma {:induction false} FailuresAddUp(cfg: Config, s: System, n: nat)
    requires cfg.Valid() && s.tasks.Keys == {0}
    requires s.breaker.state == Closed && 0 <= s.breaker.failures < cfg.breaker.failureThreshold
    requires s.breaker.failures + n <= cfg.breaker.failureThreshold
    ensures Piled(cfg, s, Run(cfg, s, Failing(n)), n)
  {
    if n == 0 {
      assert 0 in s.tasks;
    } else {
      FailuresAddUp(cfg, s, n - 1);
      OneStep(cfg, s, Failing(n - 1), Enter(n, 0.0, 0.0));
      OneStep(cfg, s, Failing(n - 1) + [Enter(n, 0.0, 0.0)], Break(n, DOOMED, 0.0, 0.0));
      QuickFailure(cfg, s, Run(cfg, s, Failing(n - 1)), n);
    }
  }

  /** Task 0 fails once, retryably, and goes to sleep. */
  lemma FirstFailureSleeps(cfg: Config) returns (steps: seq<Step>)
    requires cfg.Valid() && CanSleep(cfg)
    ensures var s := Run(cfg, INITIAL, steps);
            && s.tasks.Keys == {0} && s.tasks[0].Sleeping?
            && s.breaker.state == Closed && s.breaker.failures == 1
  {
    var code :| code in cfg.retry.retryableCodes;
    var x, y := Enter(0, 0.0, 0.0), Break(0, Failure(code, true), 0.0, 0.0);
    OneStep(cfg, INITIAL, [], x);
    OneStep(cfg, INITIAL, [] + [x], y);
    steps := [] + [x] + [y];
  }

  lemma WakingLogsCircuit(cfg: Config, s: System, steps: seq<Step>)
    requires 0 in Run(cfg, s, steps).tasks && Run(cfg, s, steps).tasks[0].Sleeping?
    ensures var e := Run(cfg, s, steps + [Wake(0)]);
            e.starts != [] && e.starts[|e.starts| - 1].circuit == Run(cfg, s, steps).breaker.state
  {
    OneStep(cfg, s, steps, Wake(0));
  }

  /** While task 0 sleeps the others open the circuit; then it wakes up. */
  lemma SleeperStartsWhileOpen(cfg: Config) returns (steps: seq<Step>)
    requires cfg.Valid() && CanSleep(cfg)
    ensures StartsWhileOpen(cfg, steps)
  {
    var first := FirstFailureSleeps(cfg);
    var n := cfg.breaker.failureThreshold - 1;
    FailuresAddUp(cfg, Run(cfg, INITIAL, first), n);
    FoldSplits(StepOf(cfg), INITIAL, first, Failing(n));
    WakingLogsCircuit(cfg, INITIAL, first + Failing(n));
    steps := first + Failing(n) + [Wake(0)];
  }

  /** The guard checks the circuit before sleeping, not after. So "no operation starts
      while the circuit is open" holds in every interleaving exactly for the policies
      under which no call ever sleeps. */
  lemma NoStartWhileOpenExactly(cfg: Config)
    requires cfg.Valid()
    ensures (forall steps :: !StartsWhileOpen(cfg, steps)) <==> !CanSleep(cfg)
  {
    if CanSleep(cfg) {
      var steps := SleeperStartsWhileOpen(cfg);
    } else {
      forall steps ensures !StartsWhileOpen(cfg, steps) {
        NobodyEverSleeps(cfg, steps);
        InterleavingsSound(cfg, steps);
        var s := Run(cfg, INITIAL, steps);
        assert forall i :: 0 <= i < |s.starts| ==> StartSound(cfg, s, s.starts[i]);
      }
    }
  }

  // ---- Does an open circuit remember its threshold? -----------------------

  /** In sequential runs the failure counter equals the threshold whenever the circuit
      is not closed. */
  predicate ShowsThreshold(p: BreakerPolicy, b: Breaker) {
    b.state != Closed ==> b.failures == p.failureThreshold
  }

  /** An attempt that is under way ends while the circuit is open. */
  predicate EndsWhileOpen(s: System, step: Step) {
    && s.breaker.state == Open
    && (step.Return? || step.Break?) && IsCalling(s, step.task)
    && (step.Break? ==> step.checkedAt >= s.tasks[step.task].startedAt)
  }

  /** A step keeps the equality if and only if it is not the end of such an attempt. */
  lemma StepShowsThresholdExactly(cfg: Config, s: System, step: Step)
    requires cfg.Valid() && BreakerSound(cfg.breaker, s.breaker) && ShowsThreshold(cfg.breaker, s.breaker)
    ensures ShowsThreshold(cfg.breaker, Next(cfg, s, step).breaker) <==> !EndsWhileOpen(s, step)
  {
  }

  ghost predicate AlwaysShowsThreshold(cfg: Config, steps: seq<Step>) {
    forall n :: 0 <= n <= |steps| ==> ShowsThreshold(cfg.breaker, Run(cfg, INITIAL, steps[..n]).breaker)
  }

  ghost predicate NothingEndsWhileOpen(cfg: Config, steps: seq<Step>) {
    forall n :: 0 <= n < |steps| ==> !EndsWhileOpen(Run(cfg, INITIAL, steps[..n]), steps[n])
  }

  lemma PrefixRuns(cfg: Config, steps: seq<Step>, n: nat)
    requires n < |steps|
    ensures Run(cfg, INITIAL, steps[..n + 1]) == Next(cfg, Run(cfg, INITIAL, steps[..n]), steps[n])
  {
    assert steps[..n + 1] == steps[..n] + [steps[n]];
    OneStep(cfg, INITIAL, steps[..n], steps[n]);
  }

  lemma {:induction false} QuietRunShowsThreshold(cfg: Config, steps: seq<Step>, n: nat)
    requires cfg.Valid() && NothingEndsWhileOpen(cfg, steps) && n <= |steps|
    ensures ShowsThreshold(cfg.breaker, Run(cfg, INITIAL, steps[..n]).breaker)
  {
    if n > 0 {
      QuietRunShowsThreshold(cfg, steps, n - 1);
      InterleavingsSound(cfg, steps[..n - 1]);
      PrefixRuns(cfg, steps, n - 1);
      StepShowsThresholdExactly(cfg, Run(cfg, INITIAL, steps[..n - 1]), steps[n - 1]);
    }
  }

  /** An interleaving shows the threshold throughout, whenever its circuit is not closed,
      if and only if no attempt under way ends while the circuit is open. */
  lemma ThresholdShownExactly(cfg: Config, steps: seq<Step>)
    requires cfg.Valid()
    ensures AlwaysShowsThreshold(cfg, steps) <==> NothingEndsWhileOpen(cfg, steps)
  {
    if NothingEndsWhileOpen(cfg, steps) {
      forall n | 0 <= n <= |steps| ensures ShowsThreshold(cfg.breaker, Run(cfg, INITIAL, steps[..n]).breaker) {
        QuietRunShowsThreshold(cfg, steps, n);
      }
    }
    if AlwaysShowsThreshold(cfg, steps) {
      forall n | 0 <= n < |steps| ensures !EndsWhileOpen(Run(cfg, INITIAL, steps[..n]), steps[n]) {
        InterleavingsSound(cfg, steps[..n]);
        PrefixRuns(cfg, steps, n);
        assert ShowsThreshold(cfg.breaker, Run(cfg, INITIAL, steps[..n + 1]).breaker);
        StepShowsThresholdExactly(cfg, Run(cfg, INITIAL, steps[..n]), steps[n]);
      }
    }
  }

  /** Task 0 is under way while enough others fail at reading 0 to open the circuit. */
  lemma OpensUnderCall(cfg: Config) returns (steps: seq<Step>)
    requires cfg.Valid()
    ensures var s := Run(cfg, INITIAL, steps);
            && IsCalling(s, 0) && s.tasks[0] == Calling(1, cfg.retry.maxAttempts, 0.0)
            && s.breaker.state == Open && s.breaker.openedAt == Some(0.0)
            && s.breaker.failures == cfg.breaker.failureThreshold
            && (forall t :: t in s.tasks ==> t <= cfg.breaker.failureThreshold)
  {
    var x, n := Enter(0, 0.0, 0.0), cfg.breaker.failureThreshold;
    OneStep(cfg, INITIAL, [], x);
    FailuresAddUp(cfg, Run(cfg, INITIAL, [] + [x]), n);
    FoldSplits(StepOf(cfg), INITIAL, [] + [x], Failing(n));
    steps := [] + [x] + Failing(n);
  }

  /** For every policy a success that comes late clears the counter of an open circuit. */
  lemma LateSuccessClearsCounter(cfg: Config) returns (steps: seq<Step>)
    requires cfg.Valid()
    ensures var s := Run(cfg, INITIAL, steps); s.breaker.state == Open && s.breaker.failures == 0
  {
    var opening := OpensUnderCall(cfg);
    OneStep(cfg, INITIAL, opening, Return(0));
    steps := opening + [Return(0)];
  }

  /** For every policy a failure that comes late, at any later reading, raises the counter
      above the threshold and starts the cooldown again: a call that would have been let
      through then is refused. */
  lemma LateFailureExtendsCooldown(cfg: Config, late: real) returns (opening: seq<Step>, steps: seq<Step>)
    requires cfg.Valid() && late > 0.0
    ensures opening <= steps
    ensures var b, c := Run(cfg, INITIAL, opening).breaker, Run(cfg, INITIAL, steps).breaker;
            && b.state == c.state == Open && b.openedAt == Some(0.0) && c.openedAt == Some(late)
            && c.failures == cfg.breaker.failureThreshold + 1
            && Entered(cfg.breaker, b, cfg.breaker.cooldown).state == HalfOpen
            && Entered(cfg.breaker, c, cfg.breaker.cooldown).state == Open
  {
    opening := OpensUnderCall(cfg);
    var x := Break(0, DOOMED, late, late);
    OneStep(cfg, INITIAL, opening, x);
    steps := opening + [x];
  }

  // ---- Which successes close the circuit? ---------------------------------

  /** An observer of the time since the circuit last opened: the tasks whose attempt was
      invoked while it was half-open, how many of those have succeeded while it was, and
      how many other attempts have. */
  datatype Watch = Watch(probing: set<nat>, probes: nat, foreign: nat)

  const UNWATCHED := Watch({}, 0, 0)

  function Observe(cfg: Config, s: System, w: Watch, step: Step): Watch {
    match step
    case Enter(t, enteredAt, _) =>
      if t !in s.tasks && Entered(cfg.breaker, s.breaker, enteredAt).state == HalfOpen
      then w.(probing := w.probing + {t}) else w
    case Wake(t) =>
      if t !in s.tasks || !s.tasks[t].Sleeping? then w
      else w.(probing := if s.breaker.state == HalfOpen then w.probing + {t} else w.probing - {t})
    case Return(t) =>
      if !IsCalling(s, t) || s.breaker.state != HalfOpen then w
      else if t in w.probing then w.(probes := w.probes + 1) else w.(foreign := w.foreign + 1)
    case Break(_, _, _, _) =>
      var n := Next(cfg, s, step);
      if n.breaker.state == Open && n.breaker != s.breaker then UNWATCHED else w
    case Cancel(_) => w
  }

  function Watched(cfg: Config, steps: seq<Step>): Watch {
    if steps == [] then UNWATCHED
    else Observe(cfg, Run(cfg, INITIAL, steps[..|steps| - 1]), Watched(cfg, steps[..|steps| - 1]), steps[|steps| - 1])
  }

  predicate Counted(b: Breaker, w: Watch) {
    && (b.state == HalfOpen ==> b.recoveries == w.probes + w.foreign)
    && (b.state == Open ==> w == UNWATCHED)
  }

  lemma StepCounts(cfg: Config, s: System, w: Watch, step: Step)
    requires cfg.Valid() && BreakerSound(cfg.breaker, s.breaker) && Counted(s.breaker, w)
    ensures Counted(Next(cfg, s, step).breaker, Observe(cfg, s, w, step))
  {
  }

  lemma WatchedSnoc(cfg: Config, steps: seq<Step>, step: Step)
    ensures Watched(cfg, steps + [step]) == Observe(cfg, Run(cfg, INITIAL, steps), Watched(cfg, steps), step)
  {
    assert (steps + [step])[..|steps|] == steps;
  }

  /** In every interleaving the recoveries of a half-open circuit are the successes since it
      last opened, of whatever attempts. */
  lemma {:induction false} RecoveriesAreSuccesses(cfg: Config, steps: seq<Step>)
    requires cfg.Valid()
    ensures Counted(Run(cfg, INITIAL, steps).breaker, Watched(cfg, steps))
  {
    if steps != [] {
      var init := steps[..|steps| - 1];
      RecoveriesAreSuccesses(cfg, init);
      InterleavingsSound(cfg, init);
      StepCounts(cfg, Run(cfg, INITIAL, init), Watched(cfg, init), steps[|steps| - 1]);
    }
  }

  /** Step n of the interleaving closes a half-open circuit. */
  predicate Closes(cfg: Config, steps: seq<Step>, n: nat)
    requires n < |steps|
  {
    && Run(cfg, INITIAL, steps[..n]).breaker.state == HalfOpen
    && Run(cfg, INITIAL, steps[..n + 1]).breaker.state == Closed
  }

  lemma ClosingStep(cfg: Config, s: System, w: Watch, step: Step)
    requires cfg.Valid() && BreakerSound(cfg.breaker, s.breaker) && Counted(s.breaker, w)
    requires s.breaker.state == HalfOpen
    ensures var v := Observe(cfg, s, w, step);
            Next(cfg, s, step).breaker.state == Closed
            <==> step.Return? && IsCalling(s, step.task) && v.probes + v.foreign == cfg.breaker.recoveryThreshold
  {
  }

  /** The circuit closes exactly when a success is the required one in number, counting all
      of them; so it closes on the required probes, and on nothing else, if and only if no
      foreign attempt has succeeded since it opened. */
  lemma ClosedByProbesExactly(cfg: Config, steps: seq<Step>, n: nat)
    requires cfg.Valid() && n < |steps| && Closes(cfg, steps, n)
    ensures var w := Watched(cfg, steps[..n + 1]);
            && w.probes + w.foreign == cfg.breaker.recoveryThreshold
            && (w.probes == cfg.breaker.recoveryThreshold <==> w.foreign == 0)
  {
    var past := steps[..n];
    InterleavingsSound(cfg, past);
    RecoveriesAreSuccesses(cfg, past);
    PrefixRuns(cfg, steps, n);
    assert steps[..n + 1] == past + [steps[n]];
    WatchedSnoc(cfg, past, steps[n]);
    ClosingStep(cfg, Run(cfg, INITIAL, past), Watched(cfg, past), steps[n]);
  }

  /** The situation in which a foreign success has been counted in place of a probe's. */
  predicate OneForeign(cfg: Config, steps: seq<Step>, probes: nat, waiting: nat) {
    var s, w := Run(cfg, INITIAL, steps), Watched(cfg, steps);
    && w.foreign == 1 && w.probes == probes
    && waiting in s.tasks && s.tasks[waiting].Calling? && waiting in w.probing
    && (probes + 1 < cfg.breaker.recoveryThreshold ==> s.breaker.state == HalfOpen)
    && (probes + 1 == cfg.breaker.recoveryThreshold ==> s.breaker.state == Closed)
  }

  /** A call that was under way when the circuit opened returns while a probe waits. */
  lemma ForeignSuccess(cfg: Config) returns (steps: seq<Step>, probe: nat)
    requires cfg.Valid()
    ensures OneForeign(cfg, steps, 0, probe)
    ensures forall t :: t in Run(cfg, INITIAL, steps).tasks ==> t <= probe
  {
    var opening := OpensUnderCall(cfg);
    var s := Run(cfg, INITIAL, opening);
    probe := cfg.breaker.failureThreshold + 1;
    assert probe !in s.tasks;
    var x, y := Enter(probe, cfg.breaker.cooldown, cfg.breaker.cooldown), Return(0);
    RecoveriesAreSuccesses(cfg, opening);
    OneStep(cfg, INITIAL, opening, x);
    WatchedSnoc(cfg, opening, x);
    OneStep(cfg, INITIAL, opening + [x], y);
    WatchedSnoc(cfg, opening + [x], y);
    steps := opening + [x] + [y];
  }

  /** One more probe enters and succeeds. */
  lemma ProbeSucceeds(cfg: Config, past: seq<Step>, probes: nat, waiting: nat, t: nat) returns (steps: seq<Step>)
    requires cfg.Valid() && OneForeign(cfg, past, probes, waiting) && probes + 1 < cfg.breaker.recoveryThreshold
    requires forall k :: k in Run(cfg, INITIAL, past).tasks ==> k < t
    ensures OneForeign(cfg, steps, probes + 1, waiting)
    ensures forall k :: k in Run(cfg, INITIAL, steps).tasks ==> k <= t
  {
    var x, y := Enter(t, cfg.breaker.cooldown, cfg.breaker.cooldown), Return(t);
    RecoveriesAreSuccesses(cfg, past);
    assert t !in Run(cfg, INITIAL, past).tasks;
    OneStep(cfg, INITIAL, past, x);
    WatchedSnoc(cfg, past, x);
    OneStep(cfg, INITIAL, past + [x], y);
    WatchedSnoc(cfg, past + [x], y);
    steps := past + [x] + [y];
  }

  lemma {:induction false} ProbesSucceed(cfg: Config, past: seq<Step>, probes: nat, waiting: nat, t: nat)
    returns (steps: seq<Step>)
    requires cfg.Valid() && OneForeign(cfg, past, probes, waiting) && probes + 1 <= cfg.breaker.recoveryThreshold
    requires forall k :: k in Run(cfg, INITIAL, past).tasks ==> k < t
    ensures OneForeign(cfg, steps, cfg.breaker.recoveryThreshold - 1, waiting)
    decreases cfg.breaker.recoveryThreshold - probes
  {
    if probes + 1 == cfg.breaker.recoveryThreshold {
      steps := past;
    } else {
      var next := ProbeSucceeds(cfg, past, probes, waiting, t);
      steps := ProbesSucceed(cfg, next, probes + 1, waiting, t + 1);
    }
  }

  /** For every policy some interleaving closes the circuit one successful probe short, with
      a probe still waiting: a call from before the opening has been counted instead. */
  lemma ForeignSuccessCloses(cfg: Config) returns (steps: seq<Step>, waiting: nat)
    requires cfg.Valid()
    ensures var s, w := Run(cfg, INITIAL, steps), Watched(cfg, steps);
            && s.breaker.state == Closed && w.probes == cfg.breaker.recoveryThreshold - 1 && w.foreign == 1
            && waiting in s.tasks && s.tasks[waiting].Calling? && waiting in w.probing
  {
    var past, probe := ForeignSuccess(cfg);
    steps := ProbesSucceed(cfg, past, 0, probe, probe + 1);
    waiting := probe;
  }

  // ---- One call on its own ------------------------------------------------

  /** After a failure a call goes to sleep exactly if the circuit was closed and stays so,
      an attempt is left, the policy retries the failure, and the budget covers the delay. */
  lemma SleepsExactly(cfg: Config, s: System, step: Step)
    requires cfg.Valid() && BreakerSound(cfg.breaker, s.breaker)
    requires step.Break? && IsCalling(s, step.task) && step.checkedAt >= s.tasks[step.task].startedAt
    ensures var k, f := s.tasks[step.task], step.failure;
            Next(cfg, s, step).tasks[step.task].Sleeping?
            <==> && ((s.breaker.state == Closed && s.breaker.failures + 1 < cfg.breaker.failureThreshold))
                 && k.attempt < k.limit && f.retryable && f.code in cfg.retry.retryableCodes
                 && (cfg.budget.total.Some? ==>
                       step.checkedAt - k.startedAt + Delay(cfg.retry, k.attempt) < cfg.budget.total.value)
  {
  }

  lemma {:induction false} AloneLoop<T>(
    cfg: Config, past: seq<Step>, t: nat, k: nat, limit: int, startedAt: real, script: nat -> Attempt<T>)
    returns (steps: seq<Step>)
    requires 0 < k <= limit
    requires t in Run(cfg, INITIAL, past).tasks
    requires Run(cfg, INITIAL, past).tasks[t] == Calling(k, limit, startedAt)
    requires forall j :: 0 < j ==> script(j).checkedAt >= startedAt
    ensures Run(cfg, INITIAL, past + steps).breaker
         == Attempts(cfg, Run(cfg, INITIAL, past).breaker, k, limit, startedAt, script).breaker
    decreases limit - k
  {
    var s, a := Run(cfg, INITIAL, past), script(k);
    if a.outcome.Returned? || a.outcome.Cancelled? {
      steps := [if a.outcome.Returned? then Return(t) else Cancel(t)];
      OneStep(cfg, INITIAL, past, steps[0]);
    } else {
      var x, y := Break(t, FailureOf(a.outcome), a.recordedAt, a.checkedAt), Wake(t);
      OneStep(cfg, INITIAL, past, x);
      if Run(cfg, INITIAL, past + [x]).tasks[t].Sleeping? {
        OneStep(cfg, INITIAL, past + [x], y);
        var rest := AloneLoop(cfg, past + [x] + [y], t, k + 1, limit, startedAt, script);
        steps := [x] + [y] + rest;
        assert past + steps == past + [x] + [y] + rest;
      } else {
        steps := [x];
      }
    }
  }

  /** A call whose steps nobody interrupts leaves the breaker as the sequential call does. */
  lemma AloneIsSequential<T>(cfg: Config, past: seq<Step>, t: nat, c: Call<T>) returns (steps: seq<Step>)
    requires cfg.Valid() && t !in Run(cfg, INITIAL, past).tasks
    requires forall j :: 0 < j ==> c.script(j).checkedAt >= c.startedAt
    ensures Run(cfg, INITIAL, past + steps).breaker == AfterCall(cfg, Run(cfg, INITIAL, past).breaker, c).0
  {
    var s, x := Run(cfg, INITIAL, past), Enter(t, c.enteredAt, c.startedAt);
    var b := Entered(cfg.breaker, s.breaker, c.enteredAt);
    OneStep(cfg, INITIAL, past, x);
    if b.state == Open {
      steps := [x];
    } else {
      var rest := AloneLoop(cfg, past + [x], t, 1, AttemptLimit(cfg, b), c.startedAt, c.script);
      steps := [x] + rest;
      assert past + steps == past + [x] + rest;
    }
  }
}
