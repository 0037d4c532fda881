/** APIGatewayASGIMiddleware.__call__ of libs/shared/gateway.py: rate limit, admission,
    slot acquisition, downstream call and slot release, interleaved over many requests. */
module Gateway {
  import opened Wrappers
  import opened Text
  import opened AlignedWindows
  import opened Numbers
  import opened Runs
  import RL = RateLimit
  import TR = TenantResources

  /** Where one request stands. Calling the downstream app is its only suspension
      point between taking a slot and giving it back. */
  datatype Phase =
    | Refused                    // answered with an error before taking a slot
    | InFlight(tenant: string)   // inside the downstream app
    | Leaked(tenant: string)     // took a slot, then building the downstream scope raised
    | Done(tenant: string)       // downstream returned or raised; the slot was released

  datatype System = System(windows: RL.Windows, manager: TR.Manager, calls: map<nat, Phase>)

  /** A request as the middleware meets it: its tenant, the limiter key, whether a route
      matches, whether the downstream scope can be built, and the clock readings. */
  datatype Request = Request(
    tenant: string, key: string, routed: bool, scopeBuilds: bool,
    checkedAt: int, admittedAt: int, acquiredAt: int)

  datatype Step =
    | Begin(call: nat, request: Request)
    | End(call: nat, releasedAt: int)
    | Configure(tenant: string, plan: TR.ValidPlan, now: int)

  /** Everything from the top of __call__ to the downstream await. */
  function Entry(p: RL.ValidPolicy, s: System, call: nat, r: Request): System {
    var limited := s.(windows := RL.Checked(p, s.windows, r.key, r.checkedAt));
    var admitted := limited.(manager := TR.Admitted(s.manager, r.tenant, r.admittedAt));
    var acquired := admitted.(manager := TR.Reserved(admitted.manager, r.tenant, TR.Slot, 1, r.acquiredAt));
    if !r.routed then s.(calls := s.calls[call := Refused])
    else if !RL.Allows(p, s.windows, r.key, r.checkedAt) then limited.(calls := s.calls[call := Refused])
    else if !TR.MayAdmit(s.manager, r.tenant, r.admittedAt) then admitted.(calls := s.calls[call := Refused])
    else if !TR.MayReserve(admitted.manager, r.tenant, TR.Slot, 1, r.acquiredAt) then
      acquired.(calls := s.calls[call := Refused])
    else acquired.(calls := s.calls[call := if r.scopeBuilds then InFlight(r.tenant) else Leaked(r.tenant)])
  }

  function Next(p: RL.ValidPolicy, s: System, step: Step): System {
    match step
    case Begin(c, r) => if c in s.calls then s else Entry(p, s, c, r)
    case End(c, now) =>
      if c !in s.calls || !s.calls[c].InFlight? then s
      else s.(manager := TR.Released(s.manager, s.calls[c].tenant, TR.Slot, 1, now),
              calls := s.calls[c := Done(s.calls[c].tenant)])
    case Configure(t, plan, now) => s.(manager := TR.Configured(s.manager, t, plan, now))
  }

  function StepOf(p: RL.ValidPolicy): (System, Step) -> System {
    (s, step) => Next(p, s, step)
  }

  function Run(p: RL.ValidPolicy, s: System, steps: seq<Step>): System {
    Fold(StepOf(p), s, steps)
  }

  function Initial(m: TR.Manager): System {
    System(map[], m, map[])
  }

  // ---- The middleware object ----------------------------------------------

  class APIGatewayMiddleware {
    const rateLimiter: RL.InMemoryRateLimiter
    const resourceManager: TR.InMemoryTenantResourceManager

    constructor (rateLimiter: RL.InMemoryRateLimiter, resourceManager: TR.InMemoryTenantResourceManager)
      ensures this.rateLimiter == rateLimiter && this.resourceManager == resourceManager
    {
      this.rateLimiter, this.resourceManager := rateLimiter, resourceManager;
    }

    ghost function Value(calls: map<nat, Phase>): System
      reads rateLimiter, resourceManager
    {
      System(rateLimiter.windows, resourceManager.Value(), calls)
    }

    /** __call__ up to the downstream await. The context's tenant id has passed the
        tenant pattern, and the keys built from it are not blank. */
    method Enter(r: Request, operation: string, service: string, ghost call: nat, ghost calls: map<nat, Phase>)
      returns (phase: Phase)
      requires rateLimiter.Valid() && ValidatedTenantId(r.tenant) == Some(r.tenant)
      requires Strip(r.key) != [] && Strip(operation) != [] && Strip(service) != []
      modifies rateLimiter, resourceManager`states
      ensures rateLimiter.Valid()
      ensures Value(calls[call := phase]) == Entry(rateLimiter.policy, old(Value(calls)), call, r)
    {
      if !r.routed {
        return Refused;
      }
      var limit := rateLimiter.Check(r.key, r.checkedAt);
      if !limit.value.allowed {
        return Refused;
      }
      var admission := resourceManager.AdmitRequest(r.tenant, service, operation, r.admittedAt, r.admittedAt);
      if !admission.value.allowed {
        return Refused;
      }
      var slot := resourceManager.AcquireOperationSlot(r.tenant, operation, r.acquiredAt);
      if !slot.value.allowed {
        return Refused;
      }
      return if r.scopeBuilds then InFlight(r.tenant) else Leaked(r.tenant);
    }

    /** The finally block after the downstream app returned or raised. */
    method Leave(tenant: string, operation: string, now: int)
      requires ValidatedTenantId(tenant) == Some(tenant) && Strip(operation) != []
      modifies resourceManager`states
      ensures resourceManager.Value() == TR.Released(old(resourceManager.Value()), tenant, TR.Slot, 1, now)
    {
      var _ := resourceManager.ReleaseOperationSlot(tenant, operation, now);
    }
  }

  // ---- Slot conservation --------------------------------------------------

  function Having(calls: map<nat, Phase>, phase: Phase): set<nat> {
    set c | c in calls && calls[c] == phase
  }

  function Flying(s: System, t: string): set<nat> {
    Having(s.calls, InFlight(t))
  }

  function Leaks(s: System, t: string): set<nat> {
    Having(s.calls, Leaked(t))
  }

  /** The tenant's slots are held by its calls in flight and its leaked calls. */
  ghost predicate Balanced(s: System, t: string) {
    TR.Used(s.manager, t, TR.Slot) == |Flying(s, t)| + |Leaks(s, t)|
  }

  lemma ManagerSteps(m: TR.Manager, t: string, r: Request)
    ensures var a := TR.Admitted(m, r.tenant, r.admittedAt);
            var b := TR.Reserved(a, r.tenant, TR.Slot, 1, r.acquiredAt);
            && TR.Used(a, t, TR.Slot) == TR.Used(m, t, TR.Slot)
            && TR.Used(b, t, TR.Slot) == TR.Used(m, t, TR.Slot)
                 + (if t == r.tenant && TR.MayReserve(a, t, TR.Slot, 1, r.acquiredAt) then 1 else 0)
  {
  }

  lemma EntryTakesSlot(p: RL.ValidPolicy, s: System, c: nat, r: Request, t: string)
    ensures var n := Entry(p, s, c, r);
            && c in n.calls && n.calls == s.calls[c := n.calls[c]] && !n.calls[c].Done?
            && TR.Used(n.manager, t, TR.Slot) == TR.Used(s.manager, t, TR.Slot)
                 + (if n.calls[c] == InFlight(t) || n.calls[c] == Leaked(t) then 1 else 0)
  {
    ManagerSteps(s.manager, t, r);
  }

  lemma NewCallCounts(calls: map<nat, Phase>, c: nat, phase: Phase, asked: Phase)
    requires c !in calls
    ensures |Having(calls[c := phase], asked)| == |Having(calls, asked)| + (if phase == asked then 1 else 0)
  {
    assert Having(calls[c := phase], asked) == Having(calls, asked) + (if phase == asked then {c} else {});
  }

  lemma OldCallCounts(calls: map<nat, Phase>, c: nat, phase: Phase, asked: Phase)
    requires c in calls && phase != asked
    ensures |Having(calls[c := phase], asked)| == |Having(calls, asked)| - (if calls[c] == asked then 1 else 0)
  {
    assert Having(calls[c := phase], asked) == Having(calls, asked) - {c};
  }

  lemma EntryKeepsBalance(p: RL.ValidPolicy, s: System, c: nat, r: Request, t: string)
    requires Balanced(s, t) && c !in s.calls
    ensures Balanced(Entry(p, s, c, r), t)
  {
    EntryTakesSlot(p, s, c, r, t);
    var phase := Entry(p, s, c, r).calls[c];
    NewCallCounts(s.calls, c, phase, InFlight(t));
    NewCallCounts(s.calls, c, phase, Leaked(t));
  }

  /** A request that ends finds its own slot still counted: the release clamp at zero
      never hides anything. */
  lemma EndFindsItsSlot(s: System, c: nat)
    requires c in s.calls && s.calls[c].InFlight? && Balanced(s, s.calls[c].tenant)
    ensures TR.Used(s.manager, s.calls[c].tenant, TR.Slot) >= 1
  {
    assert c in Flying(s, s.calls[c].tenant);
  }

  lemma EndKeepsBalance(p: RL.ValidPolicy, s: System, c: nat, now: int, t: string)
    requires c in s.calls && s.calls[c].InFlight?
    requires Balanced(s, t) && Balanced(s, s.calls[c].tenant)
    ensures Balanced(Next(p, s, End(c, now)), t)
  {
    var n, own := Next(p, s, End(c, now)), s.calls[c].tenant;
    EndFindsItsSlot(s, c);
    assert TR.Used(n.manager, t, TR.Slot) == TR.Used(s.manager, t, TR.Slot) - (if t == own then 1 else 0);
    OldCallCounts(s.calls, c, Done(own), InFlight(t));
    OldCallCounts(s.calls, c, Done(own), Leaked(t));
  }

  /** In every interleaving, with requests that return or raise and plans that change,
      slots held equal calls in flight plus calls that leaked theirs. */
  lemma {:induction false} SlotsConserved(p: RL.ValidPolicy, m: TR.Manager, steps: seq<Step>, t: string)
    requires m.states == map[]
    ensures Balanced(Run(p, Initial(m), steps), t)
  {
    var end := Run(p, Initial(m), steps);
    if steps == [] {
      assert Flying(end, t) == {} && Leaks(end, t) == {};
    } else {
      var init, step := steps[..|steps| - 1], steps[|steps| - 1];
      var s := Run(p, Initial(m), init);
      SlotsConserved(p, m, init, t);
      match step
      case Begin(c, r) =>
        if c !in s.calls {
          EntryKeepsBalance(p, s, c, r, t);
        }
      case End(c, now) =>
        if c in s.calls && s.calls[c].InFlight? {
          SlotsConserved(p, m, init, s.calls[c].tenant);
          EndKeepsBalance(p, s, c, now, t);
        }
      case Configure(_, _, _) =>
        assert Flying(end, t) == Flying(s, t) && Leaks(end, t) == Leaks(s, t);
    }
  }

  // ---- The concurrency bound ----------------------------------------------

  ghost predicate NeverConfigured(steps: seq<Step>, t: string) {
    forall i :: 0 <= i < |steps| && steps[i].Configure? ==> steps[i].tenant != t
  }

  lemma StepWithinLimit(p: RL.ValidPolicy, s: System, step: Step, t: string)
    requires step.Configure? ==> step.tenant != t
    requires 0 <= TR.Used(s.manager, t, TR.Slot) <= TR.PlanFor(s.manager, t).concurrentOperations
    ensures var n := Next(p, s, step);
            && TR.PlanFor(n.manager, t) == TR.PlanFor(s.manager, t)
            && 0 <= TR.Used(n.manager, t, TR.Slot) <= TR.PlanFor(n.manager, t).concurrentOperations
  {
    if step.Begin? {
      ManagerSteps(s.manager, t, step.request);
      var a := TR.Admitted(s.manager, step.request.tenant, step.request.admittedAt);
      TR.GrantRespectsLimit(a, step.request.tenant, TR.Slot, 1, step.request.acquiredAt);
    }
  }

  lemma {:induction false} UsedWithinLimit(p: RL.ValidPolicy, m: TR.Manager, steps: seq<Step>, t: string)
    requires m.states == map[] && NeverConfigured(steps, t)
    ensures var s := Run(p, Initial(m), steps);
            && TR.PlanFor(s.manager, t) == TR.PlanFor(m, t)
            && 0 <= TR.Used(s.manager, t, TR.Slot) <= TR.PlanFor(m, t).concurrentOperations
  {
    if steps != [] {
      var init := steps[..|steps| - 1];
      assert NeverConfigured(init, t);
      UsedWithinLimit(p, m, init, t);
      StepWithinLimit(p, Run(p, Initial(m), init), steps[|steps| - 1], t);
    }
  }

  /** Under a fixed plan a tenant never has more calls downstream than the plan's
      concurrency minus the slots it has leaked. */
  lemma InFlightBounded(p: RL.ValidPolicy, m: TR.Manager, steps: seq<Step>, t: string)
    requires m.states == map[] && NeverConfigured(steps, t)
    ensures var s := Run(p, Initial(m), steps);
            |Flying(s, t)| + |Leaks(s, t)| <= TR.PlanFor(m, t).concurrentOperations
  {
    SlotsConserved(p, m, steps, t);
    UsedWithinLimit(p, m, steps, t);
  }

  lemma LeakedStays(p: RL.ValidPolicy, s: System, step: Step, c: nat)
    requires c in s.calls && s.calls[c].Leaked?
    ensures c in Next(p, s, step).calls && Next(p, s, step).calls[c] == s.calls[c]
  {
    if step.Begin? {
      EntryTakesSlot(p, s, step.call, step.request, "");
    }
  }

  lemma {:induction false} LeaksOnlyGrow(p: RL.ValidPolicy, s: System, steps: seq<Step>, t: string)
    ensures Leaks(s, t) <= Leaks(Run(p, s, steps), t)
  {
    if steps != [] {
      var init := steps[..|steps| - 1];
      LeaksOnlyGrow(p, s, init, t);
      forall c | c in Leaks(s, t) ensures c in Leaks(Run(p, s, steps), t) {
        assert c in Leaks(Run(p, s, init), t);
        LeakedStays(p, Run(p, s, init), steps[|steps| - 1], c);
      }
    }
  }

  lemma RunSnoc(p: RL.ValidPolicy, s: System, steps: seq<Step>, step: Step)
    ensures Run(p, s, steps + [step]) == Next(p, Run(p, s, steps), step)
  {
    assert (steps + [step])[..|steps|] == steps;
  }

  /** A leaked slot is gone for good: once a tenant has leaked its whole concurrency,
      no continuation under that plan ever has a call of the tenant in flight. */
  lemma LeaksStarveTenant(
    p: RL.ValidPolicy, m: TR.Manager, past: seq<Step>, future: seq<Step>, t: string)
    requires m.states == map[] && NeverConfigured(past + future, t)
    requires |Leaks(Run(p, Initial(m), past), t)| >= TR.PlanFor(m, t).concurrentOperations
    ensures Flying(Run(p, Initial(m), past + future), t) == {}
  {
    var mid, end := Run(p, Initial(m), past), Run(p, Initial(m), past + future);
    FoldSplits(StepOf(p), Initial(m), past, future);
    LeaksOnlyGrow(p, mid, future, t);
    SubsetSize(Leaks(mid, t), Leaks(end, t));
    InFlightBounded(p, m, past + future, t);
  }

  lemma SubsetSize(a: set<nat>, b: set<nat>)
    requires a <= b
    ensures |a| <= |b|
  {
    assert b == a + (b - a);
  }

  // ---- Starved exactly by leaks -------------------------------------------

  /** Every call of the tenant ends, one after the other. */
  lemma {:induction false} Drain(p: RL.ValidPolicy, s: System, t: string, now: int) returns (steps: seq<Step>)
    ensures forall i :: 0 <= i < |steps| ==> steps[i].End? && steps[i].releasedAt == now
    ensures Flying(Run(p, s, steps), t) == {} && Leaks(Run(p, s, steps), t) == Leaks(s, t)
    decreases |Flying(s, t)|
  {
    if Flying(s, t) == {} {
      steps := [];
    } else {
      var c :| c in Flying(s, t);
      var n := Next(p, s, End(c, now));
      assert Flying(n, t) == Flying(s, t) - {c} && Leaks(n, t) == Leaks(s, t);
      var rest := Drain(p, n, t, now);
      FoldSplits(StepOf(p), s, [End(c, now)], rest);
      assert [End(c, now)][..0] == [];
      steps := [End(c, now)] + rest;
    }
  }

  lemma FreshCall(calls: set<nat>) returns (c: nat)
    ensures forall d :: d in calls ==> d < c
  {
    if calls == {} {
      c := 0;
    } else {
      var d :| d in calls;
      var rest := FreshCall(calls - {d});
      c := if rest > d then rest else d + 1;
      assert forall e :: e in calls ==> e == d || e in calls - {d};
    }
  }

  /** From this reading on a window is open that neither the limiter nor the manager has seen. */
  function FreshReading(p: RL.ValidPolicy, s: System, t: string, key: string): int {
    var a := if key in s.windows then s.windows[key].startedAt + p.windowSeconds else 0;
    var b := if t in s.manager.states
             then s.manager.states[t].windowStart + TR.PlanFor(s.manager, t).windowSeconds else 0;
    Max(a, b)
  }

  lemma FreshReadingIsFree(p: RL.ValidPolicy, s: System, t: string, key: string, now: int)
    requires TR.PlanFor(s.manager, t).requestLimit > 0 && now >= FreshReading(p, s, t, key)
    ensures RL.Allows(p, s.windows, key, now) && TR.MayAdmit(s.manager, t, now)
  {
    WindowHolds(p.windowSeconds, now);
    WindowHolds(TR.PlanFor(s.manager, t).windowSeconds, now);
  }

  /** With a slot free a new request reaches the downstream app once its window is fresh. */
  lemma FreeSlotIsUsed(p: RL.ValidPolicy, s: System, t: string, key: string, now: int) returns (c: nat)
    requires TR.PlanFor(s.manager, t).requestLimit > 0 && now >= FreshReading(p, s, t, key)
    requires TR.Used(s.manager, t, TR.Slot) < TR.PlanFor(s.manager, t).concurrentOperations
    ensures c in Flying(Next(p, s, Begin(c, Request(t, key, true, true, now, now, now))), t)
  {
    FreshReadingIsFree(p, s, t, key, now);
    var r := Request(t, key, true, true, now, now, now);
    ManagerSteps(s.manager, t, r);
    TR.GrantRespectsLimit(TR.Admitted(s.manager, t, now), t, TR.Slot, 1, now);
    c := FreshCall(s.calls.Keys);
    assert c !in s.calls;
  }

  function FirstReading(step: Step): int {
    match step
    case Begin(_, r) => r.checkedAt
    case End(_, releasedAt) => releasedAt
    case Configure(_, _, now) => now
  }

  function LastReading(step: Step): int {
    if step.Begin? then step.request.acquiredAt else FirstReading(step)
  }

  /** The clock does not go back within a step. */
  predicate Ordered(step: Step) {
    step.Begin? ==> step.request.checkedAt <= step.request.admittedAt <= step.request.acquiredAt
  }

  /** Nor from one step to a later one. */
  ghost predicate Timely(steps: seq<Step>) {
    && (forall i :: 0 <= i < |steps| ==> Ordered(steps[i]))
    && (forall i, j :: 0 <= i < j < |steps| ==> LastReading(steps[i]) <= FirstReading(steps[j]))
  }

  /** The last reading of a run. */
  function Clock(steps: seq<Step>): int {
    if steps == [] then 0 else LastReading(steps[|steps| - 1])
  }

  lemma TimelySnoc(steps: seq<Step>, step: Step)
    requires Timely(steps) && Ordered(step) && (steps != [] ==> Clock(steps) <= FirstReading(step))
    ensures Timely(steps + [step])
  {
    forall i | 0 <= i < |steps| ensures LastReading(steps[i]) <= Clock(steps) {
      var last := |steps| - 1;
      assert Ordered(steps[last]);
      assert i < last ==> LastReading(steps[i]) <= FirstReading(steps[last]);
    }
  }

  lemma {:induction false} TimelyEnds(past: seq<Step>, ends: seq<Step>)
    requires Timely(past)
    requires forall i :: 0 <= i < |ends| ==> ends[i].End? && ends[i].releasedAt == Clock(past)
    ensures Timely(past + ends) && Clock(past + ends) == Clock(past)
  {
    if ends == [] {
      assert past + ends == past;
    } else {
      var init, last := ends[..|ends| - 1], ends[|ends| - 1];
      TimelyEnds(past, init);
      TimelySnoc(past + init, last);
      assert past + ends == (past + init) + [last];
    }
  }

  /** _rate_limit_key. */
  function LimitKey(tenant: string, subject: Option<string>, service: string): string {
    "tenant:" + tenant + ":subject:" + (if subject.None? || subject.value == [] then "anonymous" else subject.value)
    + ":service:" + service
  }

  /** A tenant with a positive request limit is shut out for good, under its plan and a
      clock that does not go back, if and only if it has leaked its whole concurrency. */
  lemma StarvedExactly(p: RL.ValidPolicy, m: TR.Manager, past: seq<Step>, t: string)
    requires m.states == map[] && Timely(past) && NeverConfigured(past, t)
    requires TR.PlanFor(m, t).requestLimit > 0
    ensures |Leaks(Run(p, Initial(m), past), t)| >= TR.PlanFor(m, t).concurrentOperations
        <==> forall future :: NeverConfigured(future, t) && Timely(past + future) ==>
               Flying(Run(p, Initial(m), past + future), t) == {}
  {
    if |Leaks(Run(p, Initial(m), past), t)| >= TR.PlanFor(m, t).concurrentOperations {
      forall future | NeverConfigured(future, t) ensures Flying(Run(p, Initial(m), past + future), t) == {} {
        LeaksStarveTenant(p, m, past, future, t);
      }
    } else {
      var future := UnstarvedContinuation(p, m, past, t, LimitKey(t, None, "service"));
    }
  }

  /** With leaks to spare the tenant is served again, under whatever limiter key: its calls
      in flight end, and a request comes in a fresh window. */
  lemma UnstarvedContinuation(p: RL.ValidPolicy, m: TR.Manager, past: seq<Step>, t: string, key: string)
    returns (future: seq<Step>)
    requires m.states == map[] && Timely(past) && NeverConfigured(past, t)
    requires TR.PlanFor(m, t).requestLimit > 0
    requires |Leaks(Run(p, Initial(m), past), t)| < TR.PlanFor(m, t).concurrentOperations
    ensures NeverConfigured(future, t) && Timely(past + future)
    ensures future != [] && future[|future| - 1].Begin? && future[|future| - 1].request.key == key
    ensures future[|future| - 1].call in Flying(Run(p, Initial(m), past + future), t)
  {
    var drain := Drain(p, Run(p, Initial(m), past), t, Clock(past));
    FoldSplits(StepOf(p), Initial(m), past, drain);
    TimelyEnds(past, drain);
    var s := Run(p, Initial(m), past + drain);
    SlotsConserved(p, m, past + drain, t);
    UsedWithinLimit(p, m, past + drain, t);
    var now := Max(Clock(past), FreshReading(p, s, t, key));
    var c := FreeSlotIsUsed(p, s, t, key, now);
    var step := Begin(c, Request(t, key, true, true, now, now, now));
    future := drain + [step];
    TimelySnoc(past + drain, step);
    assert past + future == (past + drain) + [step];
    RunSnoc(p, Initial(m), past + drain, step);
  }

  /** The first request of all, with a scope that cannot be built, leaks a slot. */
  lemma FirstLeaks(p: RL.ValidPolicy, m: TR.Manager, r: Request)
    requires m.states == map[] && TR.PlanFor(m, r.tenant).requestLimit > 0
    requires TR.PlanFor(m, r.tenant).concurrentOperations > 0
    requires r.routed && !r.scopeBuilds
    ensures var s := Run(p, Initial(m), [Begin(0, r)]);
            && s.calls == map[0 := Leaked(r.tenant)] && TR.Used(s.manager, r.tenant, TR.Slot) == 1
            && TR.PlanFor(s.manager, r.tenant) == TR.PlanFor(m, r.tenant)
  {
    var a := TR.Admitted(m, r.tenant, r.admittedAt);
    assert TR.MayAdmit(m, r.tenant, r.admittedAt);
    ManagerSteps(m, r.tenant, r);
    TR.GrantRespectsLimit(a, r.tenant, TR.Slot, 1, r.acquiredAt);
    assert TR.PlanFor(a, r.tenant) == TR.PlanFor(m, r.tenant);
    assert [] + [Begin(0, r)] == [Begin(0, r)] && Run(p, Initial(m), []) == Initial(m);
    RunSnoc(p, Initial(m), [], Begin(0, r));
  }

  lemma SecondRefused(p: RL.ValidPolicy, s: System, r: Request)
    requires s.calls == map[0 := Leaked(r.tenant)] && TR.Used(s.manager, r.tenant, TR.Slot) == 1
    requires TR.PlanFor(s.manager, r.tenant).concurrentOperations == 1
    ensures Next(p, s, Begin(1, r)).calls == map[0 := Leaked(r.tenant), 1 := Refused]
  {
    EntryTakesSlot(p, s, 1, r, r.tenant);
    EntryTenant(p, s, 1, r);
    StepWithinLimit(p, s, Begin(1, r), r.tenant);
  }

  /** With one slot in the plan, one request whose scope cannot be built has the tenant's
      next request refused, whatever it is. */
  lemma LeakRefusesNext(p: RL.ValidPolicy, m: TR.Manager, first: Request, next: Request)
    requires m.states == map[] && TR.PlanFor(m, first.tenant).requestLimit > 0
    requires TR.PlanFor(m, first.tenant).concurrentOperations == 1
    requires first.routed && !first.scopeBuilds && next.tenant == first.tenant
    ensures Run(p, Initial(m), [Begin(0, first)] + [Begin(1, next)]).calls
         == map[0 := Leaked(first.tenant), 1 := Refused]
  {
    FirstLeaks(p, m, first);
    RunSnoc(p, Initial(m), [Begin(0, first)], Begin(1, next));
    SecondRefused(p, Run(p, Initial(m), [Begin(0, first)]), next);
  }

  /** A request becomes a call of its own tenant or is refused. */
  lemma EntryTenant(p: RL.ValidPolicy, s: System, c: nat, r: Request)
    ensures Entry(p, s, c, r).calls[c] in {Refused, InFlight(r.tenant), Leaked(r.tenant)}
  {
  }
}
