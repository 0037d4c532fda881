/** Who gets through the middleware of libs/shared/gateway.py: its rate limit and the
    tenant's quotas over interleaved requests, in terms of the requests that came before. */
module GatewayLimits {
  import opened Gateway
  import opened AlignedWindows
  import opened Runs
  import RL = RateLimit
  import TR = TenantResources

  /** Every request is a call of its own. */
  ghost predicate DistinctCalls(steps: seq<Step>) {
    forall i, j :: 0 <= i < j < |steps| && steps[i].Begin? && steps[j].Begin? ==> steps[i].call != steps[j].call
  }

  /** The routed requests, as the limiter is asked about them. */
  function Arrivals(steps: seq<Step>): seq<RL.Request> {
    if steps == [] then []
    else
      var last := steps[|steps| - 1];
      Arrivals(steps[..|steps| - 1])
      + (if last.Begin? && last.request.routed
         then [RL.Request(last.request.key, last.request.checkedAt)] else [])
  }

  /** The request is routed, and fewer than the limit of its key came earlier in its window. */
  predicate PassesLimiter(p: RL.ValidPolicy, past: seq<Step>, r: Request) {
    r.routed && RL.CallsAlongside(p.windowSeconds, Arrivals(past), r.key, r.checkedAt) < p.limit
  }

  /** The requests that pass the limiter, as admission is asked about them. */
  function Admissions(p: RL.ValidPolicy, steps: seq<Step>): seq<RL.Request> {
    if steps == [] then []
    else
      var init, last := steps[..|steps| - 1], steps[|steps| - 1];
      Admissions(p, init)
      + (if last.Begin? && PassesLimiter(p, init, last.request)
         then [RL.Request(last.request.tenant, last.request.admittedAt)] else [])
  }

  /** Under a plan with limit and window q: fewer than the limit of the tenant's requests asked for admission earlier in
      its window. */
  predicate Admissible(p: RL.ValidPolicy, q: RL.WindowPolicy, past: seq<Step>, r: Request) {
    RL.CallsAlongside(q.windowSeconds, Admissions(p, past), r.tenant, r.admittedAt) < q.limit
  }


  lemma TimelyPrefix(past: seq<Step>, x: Step)
    requires Timely(past + [x])
    ensures Timely(past) && Ordered(x) && (past != [] ==> Clock(past) <= FirstReading(x))
    ensures FirstReading(x) <= LastReading(x) == Clock(past + [x])
  {
    var all, n := past + [x], |past|;
    assert all[n] == x && Ordered(all[n]);
    forall i | 0 <= i < n ensures Ordered(past[i]) && LastReading(past[i]) <= FirstReading(x) {
      assert all[i] == past[i] && Ordered(all[i]) && LastReading(all[i]) <= FirstReading(all[n]);
    }
    forall i, j | 0 <= i < j < n ensures LastReading(past[i]) <= FirstReading(past[j]) {
      assert LastReading(all[i]) <= FirstReading(all[j]);
    }
  }

  lemma DistinctPrefix(past: seq<Step>, x: Step)
    requires DistinctCalls(past + [x])
    ensures DistinctCalls(past)
    ensures x.Begin? ==> forall i :: 0 <= i < |past| && past[i].Begin? ==> past[i].call != x.call
  {
    var all := past + [x];
    forall i, j | 0 <= i < j < |past| && past[i].Begin? && past[j].Begin? ensures past[i].call != past[j].call {
      assert all[i].call != all[j].call;
    }
    if x.Begin? {
      forall i | 0 <= i < |past| && past[i].Begin? ensures past[i].call != x.call {
        assert all[i].call != all[|past|].call;
      }
    }
  }

  /** A known call began at some step. */
  lemma {:induction false} KnownBegan(p: RL.ValidPolicy, m: TR.Manager, steps: seq<Step>, c: nat) returns (i: nat)
    requires c in Run(p, Initial(m), steps).calls
    ensures i < |steps| && steps[i].Begin? && steps[i].call == c
  {
    var n := |steps| - 1;
    if c in Run(p, Initial(m), steps[..n]).calls {
      i := KnownBegan(p, m, steps[..n], c);
    } else {
      EntryCalls(p, Run(p, Initial(m), steps[..n]), steps[n]);
      i := n;
    }
  }

  lemma EntryCalls(p: RL.ValidPolicy, s: System, x: Step)
    ensures Next(p, s, x).calls.Keys == s.calls.Keys + (if x.Begin? then {x.call} else {})
  {
    if x.Begin? && x.call !in s.calls {
      EntryTakesSlot(p, s, x.call, x.request, "");
    }
  }

  lemma FreshCallBegins(p: RL.ValidPolicy, m: TR.Manager, past: seq<Step>, x: Step)
    requires DistinctCalls(past + [x]) && x.Begin?
    ensures x.call !in Run(p, Initial(m), past).calls
  {
    DistinctPrefix(past, x);
    if x.call in Run(p, Initial(m), past).calls {
      var i := KnownBegan(p, m, past, x.call);
    }
  }

  // ---- Plans --------------------------------------------------------------

  /** The plan of a tenant after a run that began with `first`. */
  function PlanAfter(first: TR.ValidPlan, steps: seq<Step>, t: string): TR.ValidPlan {
    if steps == [] then first
    else
      var last := steps[|steps| - 1];
      if last.Configure? && last.tenant == t then last.plan else PlanAfter(first, steps[..|steps| - 1], t)
  }

  /** In every interleaving a tenant is under the plan it was last given. */
  lemma {:induction false} PlanInForce(p: RL.ValidPolicy, m: TR.Manager, steps: seq<Step>, t: string)
    ensures TR.PlanFor(Run(p, Initial(m), steps).manager, t) == PlanAfter(TR.PlanFor(m, t), steps, t)
  {
    if steps == [] {
      assert Run(p, Initial(m), steps) == Initial(m);
    } else {
      var init, x := steps[..|steps| - 1], steps[|steps| - 1];
      assert steps == init + [x];
      PlanInForce(p, m, init, t);
      RunSnoc(p, Initial(m), init, x);
      StepKeepsPlan(p, Run(p, Initial(m), init), x, t);
    }
  }

  lemma StepKeepsPlan(p: RL.ValidPolicy, s: System, x: Step, t: string)
    ensures TR.PlanFor(Next(p, s, x).manager, t)
         == if x.Configure? && x.tenant == t then x.plan else TR.PlanFor(s.manager, t)
  {
    if x.Begin? {
      EntryKeepsPlans(p, s, x.call, x.request);
    }
  }

  lemma EntryKeepsPlans(p: RL.ValidPolicy, s: System, c: nat, r: Request)
    ensures Entry(p, s, c, r).manager.plans == s.manager.plans
    ensures Entry(p, s, c, r).manager.defaultPlan == s.manager.defaultPlan
  {
  }

  // ---- The limiter --------------------------------------------------------

  lemma ArrivalsSnoc(past: seq<Step>, x: Step)
    ensures Arrivals(past + [x])
         == if x.Begin? && x.request.routed
            then Arrivals(past) + [RL.Request(x.request.key, x.request.checkedAt)] else Arrivals(past)
  {
    assert (past + [x])[..|past|] == past && Arrivals(past) + [] == Arrivals(past);
  }

  lemma {:induction false} ArrivalsInOrder(steps: seq<Step>)
    requires Timely(steps)
    ensures RL.Monotone(Arrivals(steps)) && RL.Until(Arrivals(steps), Clock(steps))
  {
    if steps != [] {
      var init, x := steps[..|steps| - 1], steps[|steps| - 1];
      assert steps == init + [x];
      TimelyPrefix(init, x);
      ArrivalsInOrder(init);
      ArrivalsSnoc(init, x);
      if init != [] {
        RL.UntilLater(Arrivals(init), Clock(init), FirstReading(x));
      }
      if x.Begin? && x.request.routed {
        RL.OrderSnoc(Arrivals(init), FirstReading(x), RL.Request(x.request.key, x.request.checkedAt));
      }
      RL.UntilLater(Arrivals(steps), FirstReading(x), LastReading(x));
    }
  }

  lemma ArrivalsUntil(past: seq<Step>, now: int)
    requires Timely(past) && (past != [] ==> Clock(past) <= now)
    ensures RL.Monotone(Arrivals(past)) && RL.Until(Arrivals(past), now)
  {
    ArrivalsInOrder(past);
    if past != [] {
      RL.UntilLater(Arrivals(past), Clock(past), now);
    }
  }

  lemma EntryChecks(p: RL.ValidPolicy, s: System, c: nat, r: Request)
    ensures Entry(p, s, c, r).windows
         == if r.routed then RL.Checked(p, s.windows, r.key, r.checkedAt) else s.windows
  {
  }

  /** The limiter's table is the replay of the routed requests. */
  lemma {:induction false} WindowsReplay(p: RL.ValidPolicy, m: TR.Manager, steps: seq<Step>)
    requires DistinctCalls(steps)
    ensures Run(p, Initial(m), steps).windows == RL.Replay(p, Arrivals(steps))
  {
    if steps == [] {
      assert Run(p, Initial(m), steps) == Initial(m);
    } else {
      var init, x := steps[..|steps| - 1], steps[|steps| - 1];
      assert steps == init + [x];
      DistinctPrefix(init, x);
      WindowsReplay(p, m, init);
      RunSnoc(p, Initial(m), init, x);
      ArrivalsSnoc(init, x);
      if x.Begin? {
        FreshCallBegins(p, m, init, x);
        EntryChecks(p, Run(p, Initial(m), init), x.call, x.request);
        RL.ReplaySnoc(p, Arrivals(init), RL.Request(x.request.key, x.request.checkedAt));
      }
    }
  }

  lemma ReplayAllows(p: RL.ValidPolicy, past: seq<Step>, r: Request)
    requires Timely(past) && (past != [] ==> Clock(past) <= r.checkedAt)
    ensures r.routed && RL.Allows(p, RL.Replay(p, Arrivals(past)), r.key, r.checkedAt) <==> PassesLimiter(p, past, r)
  {
    ArrivalsUntil(past, r.checkedAt);
    RL.AllowsExactly(p, Arrivals(past), r.key, r.checkedAt);
  }

  lemma LimiterExactly(p: RL.ValidPolicy, m: TR.Manager, past: seq<Step>, c: nat, r: Request)
    requires Timely(past + [Begin(c, r)]) && DistinctCalls(past)
    ensures r.routed && RL.Allows(p, Run(p, Initial(m), past).windows, r.key, r.checkedAt)
        <==> PassesLimiter(p, past, r)
  {
    TimelyPrefix(past, Begin(c, r));
    WindowsReplay(p, m, past);
    ReplayAllows(p, past, r);
  }

  // ---- Admission ----------------------------------------------------------

  lemma AdmissionsSnoc(p: RL.ValidPolicy, past: seq<Step>, x: Step)
    ensures Admissions(p, past + [x])
         == if x.Begin? && PassesLimiter(p, past, x.request)
            then Admissions(p, past) + [RL.Request(x.request.tenant, x.request.admittedAt)] else Admissions(p, past)
  {
    assert (past + [x])[..|past|] == past && Admissions(p, past) + [] == Admissions(p, past);
  }

  lemma {:induction false} AdmissionsInOrder(p: RL.ValidPolicy, steps: seq<Step>)
    requires Timely(steps)
    ensures RL.Monotone(Admissions(p, steps)) && RL.Until(Admissions(p, steps), Clock(steps))
  {
    if steps != [] {
      var init, x := steps[..|steps| - 1], steps[|steps| - 1];
      assert steps == init + [x];
      TimelyPrefix(init, x);
      AdmissionsInOrder(p, init);
      AdmissionsSnoc(p, init, x);
      if init != [] {
        RL.UntilLater(Admissions(p, init), Clock(init), FirstReading(x));
      }
      if x.Begin? && PassesLimiter(p, init, x.request) {
        RL.UntilLater(Admissions(p, init), FirstReading(x), x.request.admittedAt);
        RL.OrderSnoc(Admissions(p, init), x.request.admittedAt, RL.Request(x.request.tenant, x.request.admittedAt));
        RL.UntilLater(Admissions(p, steps), x.request.admittedAt, LastReading(x));
      } else {
        RL.UntilLater(Admissions(p, steps), FirstReading(x), LastReading(x));
      }
    }
  }

  lemma AdmissionsUntil(p: RL.ValidPolicy, past: seq<Step>, now: int)
    requires Timely(past) && (past != [] ==> Clock(past) <= now)
    ensures RL.Monotone(Admissions(p, past)) && RL.Until(Admissions(p, past), now)
  {
    AdmissionsInOrder(p, past);
    if past != [] {
      RL.UntilLater(Admissions(p, past), Clock(past), now);
    }
  }

  lemma LaterStep(q: RL.WindowPolicy, m: TR.Manager, ws: map<string, RL.Window>, t: string, early: int, late: int)
    requires RL.InStep(q, m, ws, t, early) && early <= late
    ensures RL.InStep(q, m, ws, t, late)
  {
    StartsMonotone(q.windowSeconds, early, late);
  }

  /** One operation on the manager, mirrored in the limiter's terms. */
  lemma OpInStep(q: RL.WindowPolicy, m: TR.Manager, ws: map<string, RL.Window>, t: string, last: int, op: TR.Op)
    requires RL.InStep(q, m, ws, t, last) && op.now >= last && (op.Configure? ==> op.tenant != t)
    ensures RL.InStep(q, TR.Apply(m, op), RL.Mirror(q, ws, op), t, op.now)
  {
    if op.tenant == t {
      RL.OwnOpKeepsStep(q, m, ws, last, op);
    } else {
      RL.OtherTenantUntouched(m, op, t);
      StartsMonotone(q.windowSeconds, last, op.now);
    }
  }

  /** What a request that passes the limiter does to the manager. */
  lemma EntryAdmits(p: RL.ValidPolicy, s: System, c: nat, r: Request)
    requires r.routed && RL.Allows(p, s.windows, r.key, r.checkedAt)
    ensures var admitted := TR.Apply(s.manager, TR.Admit(r.tenant, r.admittedAt));
            Entry(p, s, c, r).manager
            == if TR.MayAdmit(s.manager, r.tenant, r.admittedAt)
               then TR.Apply(admitted, TR.Reserve(r.tenant, TR.Slot, 1, r.acquiredAt)) else admitted
  {
  }

  lemma EntryWithoutAdmission(p: RL.ValidPolicy, s: System, c: nat, r: Request)
    requires !(r.routed && RL.Allows(p, s.windows, r.key, r.checkedAt))
    ensures Entry(p, s, c, r).manager == s.manager && Entry(p, s, c, r).calls == s.calls[c := Refused]
  {
  }

  lemma BeginInStep(
    p: RL.ValidPolicy, s: System, ws: map<string, RL.Window>, q: RL.WindowPolicy, t: string, c: nat, r: Request, last: int)
    requires RL.InStep(q, s.manager, ws, t, last)
    requires last <= r.checkedAt && Ordered(Begin(c, r))
    ensures var passed := r.routed && RL.Allows(p, s.windows, r.key, r.checkedAt);
            RL.InStep(q, Entry(p, s, c, r).manager,
                      if passed then RL.Checked(q, ws, r.tenant, r.admittedAt) else ws, t, r.acquiredAt)
  {
    if r.routed && RL.Allows(p, s.windows, r.key, r.checkedAt) {
      var ask, take := TR.Admit(r.tenant, r.admittedAt), TR.Reserve(r.tenant, TR.Slot, 1, r.acquiredAt);
      EntryAdmits(p, s, c, r);
      OpInStep(q, s.manager, ws, t, last, ask);
      var m, vs := TR.Apply(s.manager, ask), RL.Mirror(q, ws, ask);
      if TR.MayAdmit(s.manager, r.tenant, r.admittedAt) {
        OpInStep(q, m, vs, t, r.admittedAt, take);
      } else {
        LaterStep(q, m, vs, t, r.admittedAt, r.acquiredAt);
      }
    } else {
      EntryWithoutAdmission(p, s, c, r);
      LaterStep(q, s.manager, ws, t, last, r.acquiredAt);
    }
  }

  lemma StepInStep(
    p: RL.ValidPolicy, s: System, ws: map<string, RL.Window>, q: RL.WindowPolicy, t: string, x: Step, last: int)
    requires RL.InStep(q, s.manager, ws, t, last) && last <= FirstReading(x) && !x.Begin?
    requires x.Configure? ==> x.tenant != t
    ensures RL.InStep(q, Next(p, s, x).manager, ws, t, LastReading(x))
  {
    match x
    case End(c, now) =>
      if c in s.calls && s.calls[c].InFlight? {
        OpInStep(q, s.manager, ws, t, last, TR.Release(s.calls[c].tenant, TR.Slot, 1, now));
      } else {
        LaterStep(q, s.manager, ws, t, last, now);
      }
    case Configure(u, plan, now) => OpInStep(q, s.manager, ws, t, last, TR.Op.Configure(u, plan, now));
  }

  lemma OneMoreInStep(p: RL.ValidPolicy, m: TR.Manager, init: seq<Step>, x: Step, q: RL.WindowPolicy, t: string)
    requires Timely(init + [x]) && DistinctCalls(init + [x]) && (x.Configure? ==> x.tenant != t)
    requires CountsAlike(p, m, init, q, t, FirstReading(x))
    ensures CountsAlike(p, m, init + [x], q, t, LastReading(x))
  {
    var s, ws := Run(p, Initial(m), init), RL.Replay(q, Admissions(p, init));
    TimelyPrefix(init, x);
    DistinctPrefix(init, x);
    RunSnoc(p, Initial(m), init, x);
    AdmissionsSnoc(p, init, x);
    if x.Begin? {
      FreshCallBegins(p, m, init, x);
      LimiterExactly(p, m, init, x.call, x.request);
      BeginInStep(p, s, ws, q, t, x.call, x.request, FirstReading(x));
      RL.ReplaySnoc(q, Admissions(p, init), RL.Request(x.request.tenant, x.request.admittedAt));
    } else {
      StepInStep(p, s, ws, q, t, x, FirstReading(x));
    }
  }

  lemma StartInStep(m: TR.Manager, q: RL.WindowPolicy, t: string, last: int)
    requires RL.UnderPlan(q, m, t) && m.states == map[]
    ensures RL.InStep(q, m, map[], t, last)
  {
  }

  /** The manager counts what the replay of the admissions counts. */
  ghost predicate CountsAlike(
    p: RL.ValidPolicy, m: TR.Manager, steps: seq<Step>, q: RL.WindowPolicy, t: string, last: int)
  {
    RL.InStep(q, Run(p, Initial(m), steps).manager, RL.Replay(q, Admissions(p, steps)), t, last)
  }

  lemma CountsAlikeLater(
    p: RL.ValidPolicy, m: TR.Manager, steps: seq<Step>, q: RL.WindowPolicy, t: string, early: int, late: int)
    requires CountsAlike(p, m, steps, q, t, early) && early <= late
    ensures CountsAlike(p, m, steps, q, t, late)
  {
    LaterStep(q, Run(p, Initial(m), steps).manager, RL.Replay(q, Admissions(p, steps)), t, early, late);
  }

  lemma CountsAlikeAtStart(p: RL.ValidPolicy, m: TR.Manager, q: RL.WindowPolicy, t: string, last: int)
    requires RL.UnderPlan(q, m, t) && m.states == map[]
    ensures CountsAlike(p, m, [], q, t, last)
  {
    StartInStep(m, q, t, last);
  }

  lemma OneMoreCountsAlike(
    p: RL.ValidPolicy, m: TR.Manager, init: seq<Step>, x: Step, q: RL.WindowPolicy, t: string, last: int)
    requires Timely(init + [x]) && DistinctCalls(init + [x]) && (x.Configure? ==> x.tenant != t)
    requires CountsAlike(p, m, init, q, t, FirstReading(x)) && LastReading(x) <= last
    ensures CountsAlike(p, m, init + [x], q, t, last)
  {
    OneMoreInStep(p, m, init, x, q, t);
    CountsAlikeLater(p, m, init + [x], q, t, LastReading(x), last);
  }

  lemma PrefixStays(init: seq<Step>, x: Step, t: string)
    requires Timely(init + [x]) && DistinctCalls(init + [x]) && NeverConfigured(init + [x], t)
    ensures Timely(init) && DistinctCalls(init) && NeverConfigured(init, t)
    ensures init != [] ==> Clock(init) <= FirstReading(x)
    ensures LastReading(x) == Clock(init + [x]) && (x.Configure? ==> x.tenant != t)
  {
    TimelyPrefix(init, x);
    DistinctPrefix(init, x);
    assert (init + [x])[|init|] == x;
    assert forall i :: 0 <= i < |init| ==> (init + [x])[i] == init[i];
  }

  /** For a tenant whose plan stays it does so throughout. */
  lemma {:induction false} ManagerInStep(
    p: RL.ValidPolicy, m: TR.Manager, steps: seq<Step>, q: RL.WindowPolicy, t: string, last: int)
    requires RL.UnderPlan(q, m, t) && m.states == map[]
    requires Timely(steps) && DistinctCalls(steps) && NeverConfigured(steps, t)
    requires steps != [] ==> Clock(steps) <= last
    ensures CountsAlike(p, m, steps, q, t, last)
  {
    if steps == [] {
      CountsAlikeAtStart(p, m, q, t, last);
    } else {
      var init, x := steps[..|steps| - 1], steps[|steps| - 1];
      assert steps == init + [x];
      PrefixStays(init, x, t);
      ManagerInStep(p, m, init, q, t, FirstReading(x));
      OneMoreCountsAlike(p, m, init, x, q, t, last);
    }
  }

  lemma ReplayAdmits(p: RL.ValidPolicy, q: RL.WindowPolicy, past: seq<Step>, r: Request)
    requires Timely(past) && (past != [] ==> Clock(past) <= r.admittedAt)
    ensures RL.Allows(q, RL.Replay(q, Admissions(p, past)), r.tenant, r.admittedAt) <==> Admissible(p, q, past, r)
  {
    AdmissionsUntil(p, past, r.admittedAt);
    RL.AllowsExactly(q, Admissions(p, past), r.tenant, r.admittedAt);
  }

  lemma AdmissionExactly(
    p: RL.ValidPolicy, m: TR.Manager, past: seq<Step>, q: RL.WindowPolicy, c: nat, r: Request)
    requires RL.UnderPlan(q, m, r.tenant)
    requires m.states == map[] && Timely(past + [Begin(c, r)]) && DistinctCalls(past)
    requires NeverConfigured(past, r.tenant)
    ensures TR.MayAdmit(Run(p, Initial(m), past).manager, r.tenant, r.admittedAt)
        <==> Admissible(p, q, past, r)
  {
    TimelyPrefix(past, Begin(c, r));
    ManagerInStep(p, m, past, q, r.tenant, r.admittedAt);
    RL.AdmitAgrees(q, Run(p, Initial(m), past).manager, RL.Replay(q, Admissions(p, past)), r.tenant, r.admittedAt);
    ReplayAdmits(p, q, past, r);
  }

  // ---- Who gets through ---------------------------------------------------

  /** Some slot of the tenant's plan is held by nobody. */
  predicate SlotFree(plan: TR.ValidPlan, s: System, t: string) {
    |Flying(s, t)| + |Leaks(s, t)| < plan.concurrentOperations
  }

  lemma EntryOutcome(p: RL.ValidPolicy, s: System, c: nat, r: Request)
    requires Balanced(s, r.tenant)
    ensures Entry(p, s, c, r).calls
         == s.calls[c := if && r.routed && RL.Allows(p, s.windows, r.key, r.checkedAt)
                            && TR.MayAdmit(s.manager, r.tenant, r.admittedAt)
                            && SlotFree(TR.PlanFor(s.manager, r.tenant), s, r.tenant)
                         then (if r.scopeBuilds then InFlight(r.tenant) else Leaked(r.tenant)) else Refused]
  {
    ManagerSteps(s.manager, r.tenant, r);
    var a := TR.Admitted(s.manager, r.tenant, r.admittedAt);
    TR.GrantRespectsLimit(a, r.tenant, TR.Slot, 1, r.acquiredAt);
    assert TR.PlanFor(a, r.tenant) == TR.PlanFor(s.manager, r.tenant);
  }

  /** What becomes of a request, in every interleaving with a clock that does not go back
      and under a plan that stays: it is in flight, or leaks its slot if its scope cannot be
      built, exactly if it is routed, fewer than the limit of its key came in its window,
      fewer than the tenant's limit asked for admission in the tenant's window, and a slot
      of the tenant is free; else it is refused. */
  lemma EntersExactly(
    p: RL.ValidPolicy, m: TR.Manager, past: seq<Step>, q: RL.WindowPolicy, c: nat, r: Request)
    requires RL.UnderPlan(q, m, r.tenant)
    requires m.states == map[] && Timely(past + [Begin(c, r)]) && DistinctCalls(past + [Begin(c, r)])
    requires NeverConfigured(past, r.tenant)
    ensures var plan, before := TR.PlanFor(m, r.tenant), Run(p, Initial(m), past);
            Run(p, Initial(m), past + [Begin(c, r)]).calls
            == before.calls[c := if PassesLimiter(p, past, r) && Admissible(p, q, past, r)
                                    && SlotFree(plan, before, r.tenant)
                                 then (if r.scopeBuilds then InFlight(r.tenant) else Leaked(r.tenant))
                                 else Refused]
  {
    var s, x := Run(p, Initial(m), past), Begin(c, r);
    DistinctPrefix(past, x);
    FreshCallBegins(p, m, past, x);
    RunSnoc(p, Initial(m), past, x);
    SlotsConserved(p, m, past, r.tenant);
    UsedWithinLimit(p, m, past, r.tenant);
    LimiterExactly(p, m, past, c, r);
    AdmissionExactly(p, m, past, q, c, r);
    EntryOutcome(p, s, c, r);
  }

  // ---- How many get through -----------------------------------------------

  /** Step i is a request that got past limiter, admission and slots. */
  predicate GotIn(p: RL.ValidPolicy, m: TR.Manager, steps: seq<Step>, i: nat) {
    && i < |steps| && steps[i].Begin?
    && var calls, c, t := Run(p, Initial(m), steps[..i + 1]).calls, steps[i].call, steps[i].request.tenant;
       c in calls && (calls[c] == InFlight(t) || calls[c] == Leaked(t))
  }

  /** How many requests of a limiter key with a reading in [from, to) got in. */
  function EntriesOfKey(p: RL.ValidPolicy, m: TR.Manager, steps: seq<Step>, key: string, from: int, to: int): nat {
    if steps == [] then 0
    else
      var n := |steps| - 1;
      EntriesOfKey(p, m, steps[..n], key, from, to)
      + (if GotIn(p, m, steps, n) && steps[n].request.key == key && from <= steps[n].request.checkedAt < to
         then 1 else 0)
  }

  /** How many requests of a tenant with a reading in [from, to) got in. */
  function EntriesOfTenant(p: RL.ValidPolicy, m: TR.Manager, steps: seq<Step>, t: string, from: int, to: int): nat {
    if steps == [] then 0
    else
      var n := |steps| - 1;
      EntriesOfTenant(p, m, steps[..n], t, from, to)
      + (if GotIn(p, m, steps, n) && steps[n].request.tenant == t && from <= steps[n].request.admittedAt < to
         then 1 else 0)
  }

  lemma GrantsSnoc(q: RL.WindowPolicy, rs: seq<RL.Request>, r: RL.Request, key: string, from: int, to: int)
    ensures RL.Grants(q, rs + [r], key, from, to)
         == RL.Grants(q, rs, key, from, to)
            + (if r.key == key && from <= r.now < to && RL.Allows(q, RL.Replay(q, rs), r.key, r.now) then 1 else 0)
  {
    assert (rs + [r])[..|rs|] == rs;
  }

  /** Who got in had been allowed by the limiter. */
  lemma GotInWasAllowed(p: RL.ValidPolicy, m: TR.Manager, init: seq<Step>, x: Step)
    requires DistinctCalls(init + [x]) && GotIn(p, m, init + [x], |init|)
    ensures x.request.routed
    ensures RL.Allows(p, RL.Replay(p, Arrivals(init)), x.request.key, x.request.checkedAt)
  {
    var s, all := Run(p, Initial(m), init), init + [x];
    assert all[..|init| + 1] == all;
    DistinctPrefix(init, x);
    FreshCallBegins(p, m, init, x);
    RunSnoc(p, Initial(m), init, x);
    WindowsReplay(p, m, init);
    assert Run(p, Initial(m), all).calls == Entry(p, s, x.call, x.request).calls;
  }

  lemma KeySnoc(p: RL.ValidPolicy, m: TR.Manager, init: seq<Step>, x: Step, key: string, from: int, to: int)
    ensures EntriesOfKey(p, m, init + [x], key, from, to)
         == EntriesOfKey(p, m, init, key, from, to)
            + (if GotIn(p, m, init + [x], |init|) && x.request.key == key && from <= x.request.checkedAt < to
               then 1 else 0)
  {
    assert (init + [x])[..|init|] == init;
  }

  lemma {:induction false} EntriesAreGrants(
    p: RL.ValidPolicy, m: TR.Manager, steps: seq<Step>, key: string, from: int, to: int)
    requires DistinctCalls(steps)
    ensures EntriesOfKey(p, m, steps, key, from, to) <= RL.Grants(p, Arrivals(steps), key, from, to)
  {
    if steps != [] {
      var init, x := steps[..|steps| - 1], steps[|steps| - 1];
      assert steps == init + [x];
      DistinctPrefix(init, x);
      EntriesAreGrants(p, m, init, key, from, to);
      KeySnoc(p, m, init, x, key, from, to);
      ArrivalsSnoc(init, x);
      if GotIn(p, m, steps, |init|) {
        GotInWasAllowed(p, m, init, x);
      }
      if x.Begin? {
        GrantsSnoc(p, Arrivals(init), RL.Request(x.request.key, x.request.checkedAt), key, from, to);
      }
    }
  }

  /** In every interleaving with a clock that does not go back at most `limit` requests of a
      limiter key get in in an aligned window, and at most twice that in any interval of
      the same length. */
  lemma KeyBounds(p: RL.ValidPolicy, m: TR.Manager, steps: seq<Step>, key: string, from: int)
    requires Timely(steps) && DistinctCalls(steps)
    ensures EntriesOfKey(p, m, steps, key, from, from + p.windowSeconds) <= 2 * p.limit
    ensures from % p.windowSeconds == 0 ==>
              EntriesOfKey(p, m, steps, key, from, from + p.windowSeconds) <= p.limit
  {
    ArrivalsInOrder(steps);
    EntriesAreGrants(p, m, steps, key, from, from + p.windowSeconds);
    RL.GrantBounds(p, Arrivals(steps), key, from);
  }

  /** Who got in had been admitted. */
  lemma GotInWasAdmitted(p: RL.ValidPolicy, m: TR.Manager, init: seq<Step>, q: RL.WindowPolicy, x: Step)
    requires x.Begin? && RL.UnderPlan(q, m, x.request.tenant)
    requires m.states == map[] && Timely(init + [x]) && DistinctCalls(init + [x])
    requires GotIn(p, m, init + [x], |init|) && NeverConfigured(init, x.request.tenant)
    ensures PassesLimiter(p, init, x.request)
    ensures Admissible(p, q, init, x.request)
  {
    var all := init + [x];
    assert all[..|init| + 1] == all && x == Begin(x.call, x.request);
    EntersExactly(p, m, init, q, x.call, x.request);
  }

  lemma TenantSnoc(p: RL.ValidPolicy, m: TR.Manager, init: seq<Step>, x: Step, t: string, from: int, to: int)
    ensures EntriesOfTenant(p, m, init + [x], t, from, to)
         == EntriesOfTenant(p, m, init, t, from, to)
            + (if GotIn(p, m, init + [x], |init|) && x.request.tenant == t && from <= x.request.admittedAt < to
               then 1 else 0)
  {
    assert (init + [x])[..|init|] == init;
  }

  lemma EntryIsAdmission(
    p: RL.ValidPolicy, m: TR.Manager, init: seq<Step>, q: RL.WindowPolicy, x: Step, t: string, from: int, to: int)
    requires RL.UnderPlan(q, m, t)
    requires m.states == map[] && Timely(init + [x]) && DistinctCalls(init + [x]) && NeverConfigured(init, t)
    requires GotIn(p, m, init + [x], |init|) && x.request.tenant == t
    ensures RL.Grants(q, Admissions(p, init + [x]), t, from, to)
         == RL.Grants(q, Admissions(p, init), t, from, to) + (if from <= x.request.admittedAt < to then 1 else 0)
  {
    TimelyPrefix(init, x);
    GotInWasAdmitted(p, m, init, q, x);
    ReplayAdmits(p, q, init, x.request);
    AdmissionsSnoc(p, init, x);
    GrantsSnoc(q, Admissions(p, init), RL.Request(t, x.request.admittedAt), t, from, to);
  }

  lemma AdmissionsGrow(p: RL.ValidPolicy, q: RL.WindowPolicy, init: seq<Step>, x: Step, t: string, from: int, to: int)
    ensures RL.Grants(q, Admissions(p, init + [x]), t, from, to) >= RL.Grants(q, Admissions(p, init), t, from, to)
  {
    AdmissionsSnoc(p, init, x);
    if x.Begin? {
      GrantsSnoc(q, Admissions(p, init), RL.Request(x.request.tenant, x.request.admittedAt), t, from, to);
    }
  }

  lemma {:induction false} EntriesAreAdmissions(
    p: RL.ValidPolicy, m: TR.Manager, steps: seq<Step>, q: RL.WindowPolicy, t: string, from: int, to: int)
    requires RL.UnderPlan(q, m, t)
    requires m.states == map[] && Timely(steps) && DistinctCalls(steps) && NeverConfigured(steps, t)
    ensures EntriesOfTenant(p, m, steps, t, from, to)
         <= RL.Grants(q, Admissions(p, steps), t, from, to)
  {
    if steps != [] {
      var init, x := steps[..|steps| - 1], steps[|steps| - 1];
      assert steps == init + [x];
      TimelyPrefix(init, x);
      DistinctPrefix(init, x);
      EntriesAreAdmissions(p, m, init, q, t, from, to);
      TenantSnoc(p, m, init, x, t, from, to);
      AdmissionsGrow(p, q, init, x, t, from, to);
      if GotIn(p, m, steps, |init|) && x.request.tenant == t {
        EntryIsAdmission(p, m, init, q, x, t, from, to);
      }
    }
  }

  /** Likewise at most `requestLimit` requests of a tenant whose plan stays, in its windows. */
  lemma TenantBounds(
    p: RL.ValidPolicy, m: TR.Manager, steps: seq<Step>, q: RL.WindowPolicy, t: string, from: int)
    requires RL.UnderPlan(q, m, t)
    requires m.states == map[] && Timely(steps) && DistinctCalls(steps) && NeverConfigured(steps, t)
    ensures EntriesOfTenant(p, m, steps, t, from, from + q.windowSeconds) <= 2 * q.limit
    ensures from % q.windowSeconds == 0 ==>
              EntriesOfTenant(p, m, steps, t, from, from + q.windowSeconds) <= q.limit
  {
    AdmissionsInOrder(p, steps);
    EntriesAreAdmissions(p, m, steps, q, t, from, from + q.windowSeconds);
    RL.GrantBounds(q, Admissions(p, steps), t, from);
  }
}
