/** libs/shared/tenant_resources.py: per-tenant request windows and clamped
    reserve/release counters, under plans that may change at any time. */
module TenantResources {
  import opened Wrappers
  import opened Text
  import opened AlignedWindows
  import opened Numbers

  datatype Plan = Plan(
    name: string, requestLimit: int, windowSeconds: int,
    concurrentOperations: int, storageBytes: int, queueDepth: int)
  {
    predicate Valid() {
      && Strip(name) != [] && windowSeconds > 0 && requestLimit >= 0
      && concurrentOperations >= 0 && storageBytes >= 0 && queueDepth >= 0
    }
  }

  type ValidPlan = p: Plan | p.Valid() witness Plan("free", 0, 1, 0, 0, 0)

  datatype Usage = Usage(
    plan: ValidPlan, windowStart: int, requests: int, slots: int, storage: int, queue: int)

  /** The three counters that are reserved and released. */
  datatype Kind = Slot | Queue | Storage

  function Counter(u: Usage, k: Kind): int {
    match k case Slot => u.slots case Queue => u.queue case Storage => u.storage
  }

  function WithCounter(u: Usage, k: Kind, v: int): Usage {
    match k case Slot => u.(slots := v) case Queue => u.(queue := v) case Storage => u.(storage := v)
  }

  function Limit(p: Plan, k: Kind): int {
    match k
    case Slot => p.concurrentOperations
    case Queue => p.queueDepth
    case Storage => p.storageBytes
  }

  datatype Manager = Manager(
    defaultPlan: ValidPlan, plans: map<string, ValidPlan>, states: map<string, Usage>)

  // ---- The operations on values -------------------------------------------

  function PlanFor(m: Manager, tenant: string): ValidPlan {
    if tenant in m.plans then m.plans[tenant] else m.defaultPlan
  }

  /** The plans a manager starts with, by validated tenant id; a later entry wins. */
  function InitialPlans(tenantPlans: seq<(string, ValidPlan)>): Option<map<string, ValidPlan>> {
    if tenantPlans == [] then Some(map[])
    else
      var (id, plan) := tenantPlans[|tenantPlans| - 1];
      var t, init := ValidatedTenantId(id), InitialPlans(tenantPlans[..|tenantPlans| - 1]);
      if t.None? || init.None? then None else Some(init.value[t.value := plan])
  }

  /** _roll_window_if_needed. */
  function Rolled(u: Usage, now: int): Usage {
    if u.windowStart == WindowStart(u.plan.windowSeconds, now) then u
    else u.(windowStart := WindowStart(u.plan.windowSeconds, now), requests := 0)
  }

  /** _state_for_context: create, or refresh the plan and roll the window. */
  function StateFor(m: Manager, tenant: string, now: int): Usage {
    var plan := PlanFor(m, tenant);
    if tenant in m.states then Rolled(m.states[tenant].(plan := plan), now)
    else Usage(plan, WindowStart(plan.windowSeconds, now), 0, 0, 0, 0)
  }

  function Store(m: Manager, tenant: string, u: Usage): Manager {
    m.(states := m.states[tenant := u])
  }

  function Configured(m: Manager, tenant: string, plan: ValidPlan, now: int): Manager {
    var planned := m.(plans := m.plans[tenant := plan]);
    if tenant in m.states then Store(planned, tenant, Rolled(m.states[tenant].(plan := plan), now))
    else planned
  }

  predicate MayAdmit(m: Manager, tenant: string, now: int) {
    var u := StateFor(m, tenant, now);
    u.requests < u.plan.requestLimit
  }

  function Admitted(m: Manager, tenant: string, now: int): Manager {
    var u := StateFor(m, tenant, now);
    Store(m, tenant, if MayAdmit(m, tenant, now) then u.(requests := u.requests + 1) else u)
  }

  predicate Fits(u: Usage, k: Kind, amount: int) {
    Counter(u, k) + amount <= Limit(u.plan, k)
  }

  /** The usage after asking for an amount: taken if it fits the plan, else unchanged. */
  function Taken(u: Usage, k: Kind, amount: int): Usage {
    if Fits(u, k, amount) then WithCounter(u, k, Counter(u, k) + amount) else u
  }

  function GivenBack(u: Usage, k: Kind, amount: int): Usage {
    WithCounter(u, k, Max(Counter(u, k) - amount, 0))
  }

  predicate MayReserve(m: Manager, tenant: string, k: Kind, amount: int, now: int) {
    Fits(StateFor(m, tenant, now), k, amount)
  }

  function Reserved(m: Manager, tenant: string, k: Kind, amount: int, now: int): Manager {
    Store(m, tenant, Taken(StateFor(m, tenant, now), k, amount))
  }

  function Released(m: Manager, tenant: string, k: Kind, amount: int, now: int): Manager {
    Store(m, tenant, GivenBack(StateFor(m, tenant, now), k, amount))
  }

  // ---- The manager object -------------------------------------------------

  datatype Reason =
    | Granted | RequestLimitExceeded | ConcurrencyLimitExceeded | QueueDepthExceeded | StorageQuotaExceeded

  datatype Decision = Decision(allowed: bool, reason: Reason, retryAfter: int, usage: Usage)
  datatype ResourceError = ValueError

  class InMemoryTenantResourceManager {
    const defaultPlan: ValidPlan
    var plans: map<string, ValidPlan>
    var states: map<string, Usage>

    ghost function Value(): Manager
      reads this
    {
      Manager(defaultPlan, plans, states)
    }

    /** Any malformed tenant id among the plans raises, and there is no manager. */
    constructor (defaultPlan: ValidPlan, tenantPlans: seq<(string, ValidPlan)>)
      requires InitialPlans(tenantPlans).Some?
      ensures Value() == Manager(defaultPlan, InitialPlans(tenantPlans).value, map[])
    {
      this.defaultPlan, plans, states := defaultPlan, InitialPlans(tenantPlans).value, map[];
    }

    method StateForContext(tenant: string, now: int) returns (u: Usage)
      modifies this`states
      ensures u == StateFor(old(Value()), tenant, now) && Value() == Store(old(Value()), tenant, u)
    {
      var plan := if tenant in plans then plans[tenant] else defaultPlan;
      if tenant !in states {
        u := Usage(plan, now - now % plan.windowSeconds, 0, 0, 0, 0);
      } else {
        u := states[tenant];
        if u.plan != plan {
          u := u.(plan := plan);
        }
        u := RollWindowIfNeeded(u, now);
      }
      states := states[tenant := u];
    }

    method RollWindowIfNeeded(u: Usage, now: int) returns (r: Usage)
      ensures r == Rolled(u, now)
    {
      var started := now - now % u.plan.windowSeconds;
      r := u;
      if r.windowStart != started {
        r := r.(windowStart := started, requests := 0);
      }
    }

    method ConfigureTenant(tenantId: string, plan: ValidPlan, now: int) returns (r: Result<(), ResourceError>)
      modifies this
      ensures var t := ValidatedTenantId(tenantId);
              if t.None? then r.Err? && Value() == old(Value())
              else r.Ok? && Value() == Configured(old(Value()), t.value, plan, now)
    {
      var t := ValidatedTenantId(tenantId);
      if t.None? {
        return Err(ValueError);
      }
      plans := plans[t.value := plan];
      if t.value in states {
        var u := RollWindowIfNeeded(states[t.value].(plan := plan), now);
        states := states[t.value := u];
      }
      return Ok(());
    }

    /** Write back the state that StateForContext handed out. */
    method Put(tenant: string, u: Usage)
      modifies this`states
      ensures Value() == Store(old(Value()), tenant, u)
      ensures forall m, v :: old(Value()) == Store(m, tenant, v) ==> Value() == Store(m, tenant, u)
    {
      states := states[tenant := u];
      forall m, v | old(Value()) == Store(m, tenant, v) ensures Value() == Store(m, tenant, u) {
        assert m.states[tenant := v][tenant := u] == m.states[tenant := u];
      }
    }

    /** admit_request; the second clock reading is only used for the retry hint. */
    method AdmitRequest(tenantId: string, service: string, operation: string, now: int, later: int)
      returns (r: Result<Decision, ResourceError>)
      modifies this`states
      ensures var t := ValidatedTenantId(tenantId);
              if Strip(service) == [] || Strip(operation) == [] || t.None?
              then r.Err? && Value() == old(Value())
              else
                && Value() == Admitted(old(Value()), t.value, now)
                && r.Ok? && r.value.allowed == MayAdmit(old(Value()), t.value, now)
                && r.value.usage == Value().states[t.value]
                && r.value.reason == (if r.value.allowed then Granted else RequestLimitExceeded)
                && r.value.retryAfter ==
                   (if r.value.allowed then 0
                    else Max(1, r.value.usage.windowStart + r.value.usage.plan.windowSeconds - later))
    {
      if Strip(service) == [] || Strip(operation) == [] {
        return Err(ValueError);
      }
      var t := ValidatedTenantId(tenantId);
      if t.None? {
        return Err(ValueError);
      }
      var u := StateForContext(t.value, now);
      var retryAfter := Max(1, u.windowStart + u.plan.windowSeconds - later);
      if u.requests >= u.plan.requestLimit {
        return Ok(Decision(false, RequestLimitExceeded, retryAfter, u));
      }
      u := u.(requests := u.requests + 1);
      Put(t.value, u);
      return Ok(Decision(true, Granted, 0, u));
    }

    method AcquireOperationSlot(tenantId: string, operation: string, now: int)
      returns (r: Result<Decision, ResourceError>)
      modifies this`states
      ensures var t := ValidatedTenantId(tenantId);
              if Strip(operation) == [] || t.None? then r.Err? && Value() == old(Value())
              else && Value() == Reserved(old(Value()), t.value, Slot, 1, now)
                   && r.Ok? && r.value.allowed == MayReserve(old(Value()), t.value, Slot, 1, now)
                   && r.value.reason == (if r.value.allowed then Granted else ConcurrencyLimitExceeded)
                   && r.value.retryAfter == (if r.value.allowed then 0 else 1)
                   && r.value.usage == Value().states[t.value]
    {
      var t := ValidatedTenantId(tenantId);
      if Strip(operation) == [] || t.None? {
        return Err(ValueError);
      }
      var u := StateForContext(t.value, now);
      if u.slots >= u.plan.concurrentOperations {
        return Ok(Decision(false, ConcurrencyLimitExceeded, 1, u));
      }
      u := u.(slots := u.slots + 1);
      Put(t.value, u);
      return Ok(Decision(true, Granted, 0, u));
    }

    method ReleaseOperationSlot(tenantId: string, operation: string, now: int)
      returns (r: Result<Usage, ResourceError>)
      modifies this`states
      ensures var t := ValidatedTenantId(tenantId);
              if Strip(operation) == [] || t.None? then r.Err? && Value() == old(Value())
              else && Value() == Released(old(Value()), t.value, Slot, 1, now)
                   && r == Ok(Value().states[t.value])
    {
      var t := ValidatedTenantId(tenantId);
      if Strip(operation) == [] || t.None? {
        return Err(ValueError);
      }
      var u := StateForContext(t.value, now);
      u := u.(slots := Max(u.slots - 1, 0));
      Put(t.value, u);
      return Ok(u);
    }

    method ReserveQueueItems(tenantId: string, queueName: string, amount: int, now: int)
      returns (r: Result<Decision, ResourceError>)
      modifies this`states
      ensures var t := ValidatedTenantId(tenantId);
              if Strip(queueName) == [] || amount <= 0 || t.None? then r.Err? && Value() == old(Value())
              else && Value() == Reserved(old(Value()), t.value, Queue, amount, now)
                   && r.Ok? && r.value.allowed == MayReserve(old(Value()), t.value, Queue, amount, now)
                   && r.value.reason == (if r.value.allowed then Granted else QueueDepthExceeded)
                   && r.value.retryAfter == (if r.value.allowed then 0 else 1)
                   && r.value.usage == Value().states[t.value]
    {
      var t := ValidatedTenantId(tenantId);
      if Strip(queueName) == [] || amount <= 0 || t.None? {
        return Err(ValueError);
      }
      var u := StateForContext(t.value, now);
      if u.queue + amount > u.plan.queueDepth {
        return Ok(Decision(false, QueueDepthExceeded, 1, u));
      }
      assert Taken(u, Queue, amount) == u.(queue := u.queue + amount);
      u := u.(queue := u.queue + amount);
      Put(t.value, u);
      return Ok(Decision(true, Granted, 0, u));
    }

    method ReleaseQueueItems(tenantId: string, queueName: string, amount: int, now: int)
      returns (r: Result<Usage, ResourceError>)
      modifies this`states
      ensures var t := ValidatedTenantId(tenantId);
              if Strip(queueName) == [] || amount <= 0 || t.None? then r.Err? && Value() == old(Value())
              else && Value() == Released(old(Value()), t.value, Queue, amount, now)
                   && r == Ok(Value().states[t.value])
    {
      var t := ValidatedTenantId(tenantId);
      if Strip(queueName) == [] || amount <= 0 || t.None? {
        return Err(ValueError);
      }
      var u := StateForContext(t.value, now);
      u := u.(queue := Max(u.queue - amount, 0));
      Put(t.value, u);
      return Ok(u);
    }

    method ReserveStorageBytes(tenantId: string, resourceType: string, amount: int, now: int)
      returns (r: Result<Decision, ResourceError>)
      modifies this`states
      ensures var t := ValidatedTenantId(tenantId);
              if amount <= 0 || Strip(resourceType) == [] || t.None? then r.Err? && Value() == old(Value())
              else && Value() == Reserved(old(Value()), t.value, Storage, amount, now)
                   && r.Ok? && r.value.allowed == MayReserve(old(Value()), t.value, Storage, amount, now)
                   && r.value.reason == (if r.value.allowed then Granted else StorageQuotaExceeded)
                   && r.value.retryAfter == 0
                   && r.value.usage == Value().states[t.value]
    {
      var t := ValidatedTenantId(tenantId);
      if amount <= 0 || Strip(resourceType) == [] || t.None? {
        return Err(ValueError);
      }
      var u := StateForContext(t.value, now);
      if u.storage + amount > u.plan.storageBytes {
        return Ok(Decision(false, StorageQuotaExceeded, 0, u));
      }
      assert Taken(u, Storage, amount) == u.(storage := u.storage + amount);
      u := u.(storage := u.storage + amount);
      Put(t.value, u);
      return Ok(Decision(true, Granted, 0, u));
    }

    method ReleaseStorageBytes(tenantId: string, resourceType: string, amount: int, now: int)
      returns (r: Result<Usage, ResourceError>)
      modifies this`states
      ensures var t := ValidatedTenantId(tenantId);
              if Strip(resourceType) == [] || amount <= 0 || t.None? then r.Err? && Value() == old(Value())
              else && Value() == Released(old(Value()), t.value, Storage, amount, now)
                   && r == Ok(Value().states[t.value])
    {
      var t := ValidatedTenantId(tenantId);
      if Strip(resourceType) == [] || amount <= 0 || t.None? {
        return Err(ValueError);
      }
      var u := StateForContext(t.value, now);
      u := u.(storage := Max(u.storage - amount, 0));
      Put(t.value, u);
      return Ok(u);
    }
  }

  // ---- Runs ---------------------------------------------------------------

  datatype Op =
    | Configure(tenant: string, plan: ValidPlan, now: int)
    | Admit(tenant: string, now: int)
    | Reserve(tenant: string, kind: Kind, amount: nat, now: int)
    | Release(tenant: string, kind: Kind, amount: nat, now: int)
    | Snapshot(tenant: string, now: int)

  function Apply(m: Manager, op: Op): Manager {
    match op
    case Configure(t, plan, now) => Configured(m, t, plan, now)
    case Admit(t, now) => Admitted(m, t, now)
    case Reserve(t, k, amount, now) => Reserved(m, t, k, amount, now)
    case Release(t, k, amount, now) => Released(m, t, k, amount, now)
    case Snapshot(t, now) => Store(m, t, StateFor(m, t, now))
  }

  function Run(m: Manager, ops: seq<Op>): Manager {
    if ops == [] then m else Apply(Run(m, ops[..|ops| - 1]), ops[|ops| - 1])
  }

  /** A tenant's counter; a tenant never seen has used nothing. */
  function Used(m: Manager, tenant: string, k: Kind): int {
    if tenant in m.states then Counter(m.states[tenant], k) else 0
  }

  /** What one operation adds to the ledger: granted reserves and all releases. */
  function Delta(m: Manager, op: Op, tenant: string, k: Kind): seq<int> {
    match op
    case Reserve(t, kind, amount, now) =>
      if t == tenant && kind == k && MayReserve(m, t, kind, amount, now) then [amount] else []
    case Release(t, kind, amount, _) =>
      var back: int := amount; if t == tenant && kind == k then [-back] else []
    case _ => []
  }

  function Ledger(m: Manager, ops: seq<Op>, tenant: string, k: Kind): seq<int> {
    if ops == [] then []
    else Ledger(m, ops[..|ops| - 1], tenant, k)
         + Delta(Run(m, ops[..|ops| - 1]), ops[|ops| - 1], tenant, k)
  }

  function Sum(ds: seq<int>): int {
    if ds == [] then 0 else Sum(ds[..|ds| - 1]) + ds[|ds| - 1]
  }

  /** v is the largest sum of a suffix, the empty suffix included. */
  ghost predicate LargestSuffixSum(ds: seq<int>, v: int) {
    && (exists i :: 0 <= i <= |ds| && Sum(ds[i..]) == v)
    && (forall i :: 0 <= i <= |ds| ==> Sum(ds[i..]) <= v)
  }

  lemma SuffixSumSnoc(ds: seq<int>, d: int, i: nat)
    requires i <= |ds|
    ensures Sum((ds + [d])[i..]) == Sum(ds[i..]) + d
  {
    var tail := (ds + [d])[i..];
    assert tail[..|tail| - 1] == ds[i..];
  }

  lemma ClampStep(ds: seq<int>, v: int, d: int)
    requires LargestSuffixSum(ds, v)
    ensures LargestSuffixSum(ds + [d], Max(v + d, 0))
  {
    var all := ds + [d];
    assert all[|all|..] == [] && ds[|ds|..] == [];
    forall i | 0 <= i <= |all| ensures Sum(all[i..]) <= Max(v + d, 0) {
      if i <= |ds| {
        SuffixSumSnoc(ds, d, i);
      }
    }
    var best :| 0 <= best <= |ds| && Sum(ds[best..]) == v;
    SuffixSumSnoc(ds, d, best);
    assert Sum(all[if v + d >= 0 then best else |all|..]) == Max(v + d, 0);
  }

  /** One operation moves one tenant's counters by its ledger entry, clamped at zero. */
  lemma OpMovesCounter(m: Manager, op: Op, k: Kind)
    requires Used(m, op.tenant, k) >= 0
    ensures Used(Apply(m, op), op.tenant, k)
         == (var d := Delta(m, op, op.tenant, k);
             if d == [] then Used(m, op.tenant, k) else Max(Used(m, op.tenant, k) + d[0], 0))
  {
    var u := StateFor(m, op.tenant, op.now);
    assert Counter(u, k) == Used(m, op.tenant, k);
  }

  /** It leaves every other tenant's usage alone. */
  lemma OpIsLocal(m: Manager, op: Op, tenant: string)
    requires op.tenant != tenant
    ensures tenant in Apply(m, op).states <==> tenant in m.states
    ensures tenant in m.states ==> Apply(m, op).states[tenant] == m.states[tenant]
  {
  }

  /** After any run, with over-releases and plan changes, every counter is the largest
      suffix sum of the tenant's granted reserves minus releases. */
  lemma {:induction false} CountersAreLargestSuffixSums(m: Manager, ops: seq<Op>, tenant: string, k: Kind)
    requires m.states == map[]
    ensures LargestSuffixSum(Ledger(m, ops, tenant, k), Used(Run(m, ops), tenant, k))
  {
    if ops == [] {
      assert Sum(Ledger(m, ops, tenant, k)[0..]) == 0;
    } else {
      var init, op := ops[..|ops| - 1], ops[|ops| - 1];
      var before, ledger := Run(m, init), Ledger(m, init, tenant, k);
      CountersAreLargestSuffixSums(m, init, tenant, k);
      assert ledger[|ledger|..] == [];
      assert Used(before, tenant, k) >= 0;
      if op.tenant == tenant {
        OpMovesCounter(before, op, k);
      } else {
        OpIsLocal(before, op, tenant);
      }
      var d := Delta(before, op, tenant, k);
      if d == [] {
        assert ledger + d == ledger;
      } else {
        assert d == [d[0]];
        ClampStep(ledger, Used(before, tenant, k), d[0]);
      }
    }
  }

  /** A granted reserve leaves the counter within the plan in force; a denied one would
      have left it above. Nothing but the plan in force matters, so a downgrade may
      leave usage over the limit until it is released. */
  lemma GrantRespectsLimit(m: Manager, tenant: string, k: Kind, amount: nat, now: int)
    ensures var n := Reserved(m, tenant, k, amount, now);
            && n.states[tenant].plan == PlanFor(m, tenant)
            && (MayReserve(m, tenant, k, amount, now) <==>
                  Used(m, tenant, k) + amount <= Limit(PlanFor(m, tenant), k))
            && Used(n, tenant, k) == Used(m, tenant, k)
                 + (if Used(m, tenant, k) + amount <= Limit(PlanFor(m, tenant), k) then amount else 0)
  {
  }

  // ---- Field by field -----------------------------------------------------

  /** What an operation finds: the plan in force, the counters as they were, and the
      requests of the current window only. */
  lemma FoundExactly(m: Manager, t: string, now: int)
    ensures var u := StateFor(m, t, now);
            && u.plan == PlanFor(m, t) && u.windowStart == now - now % u.plan.windowSeconds
            && if t !in m.states then u.requests == u.slots == u.queue == u.storage == 0
               else && u.slots == m.states[t].slots && u.queue == m.states[t].queue
                    && u.storage == m.states[t].storage
                    && u.requests == if m.states[t].windowStart == u.windowStart then m.states[t].requests else 0
  {
  }

  /** A reserve adds its amount to the one counter it is about, if that stays within the
      limit of the plan that is about it. */
  lemma ReserveExactly(m: Manager, t: string, k: Kind, amount: nat, now: int)
    ensures var u := StateFor(m, t, now);
            var slot := k == Slot && u.slots + amount <= u.plan.concurrentOperations;
            var queue := k == Queue && u.queue + amount <= u.plan.queueDepth;
            var storage := k == Storage && u.storage + amount <= u.plan.storageBytes;
            && (MayReserve(m, t, k, amount, now) <==> slot || queue || storage)
            && Reserved(m, t, k, amount, now).states
               == m.states[t := u.(slots := u.slots + (if slot then amount else 0),
                                   queue := u.queue + (if queue then amount else 0),
                                   storage := u.storage + (if storage then amount else 0))]
  {
  }

  /** A release takes at most what is there from the one counter it is about. */
  lemma ReleaseExactly(m: Manager, t: string, k: Kind, amount: nat, now: int)
    ensures var u := StateFor(m, t, now);
            var n := Released(m, t, k, amount, now).states[t];
            && (u.slots >= 0 ==> n.slots == u.slots - (if k == Slot then Min(amount, u.slots) else 0))
            && (u.queue >= 0 ==> n.queue == u.queue - (if k == Queue then Min(amount, u.queue) else 0))
            && (u.storage >= 0 ==> n.storage == u.storage - (if k == Storage then Min(amount, u.storage) else 0))
            && n == u.(slots := n.slots, queue := n.queue, storage := n.storage)
  {
  }

  // ---- Which plan is in force ---------------------------------------------

  /** The plan a run last gave a tenant. */
  function LastConfigured(ops: seq<Op>, t: string): Option<ValidPlan> {
    if ops == [] then None
    else if ops[|ops| - 1].Configure? && ops[|ops| - 1].tenant == t then Some(ops[|ops| - 1].plan)
    else LastConfigured(ops[..|ops| - 1], t)
  }

  /** After every run a tenant is under the plan it was last given, else the one it had at
      the start, and its stored usage is under that plan, too. */
  lemma {:induction false} PlanInForce(m: Manager, ops: seq<Op>, t: string)
    requires m.states == map[]
    ensures var e, last := Run(m, ops), LastConfigured(ops, t);
            && PlanFor(e, t) == (if last.Some? then last.value else if t in m.plans then m.plans[t] else m.defaultPlan)
            && e.defaultPlan == m.defaultPlan
            && (t in e.states ==> e.states[t].plan == PlanFor(e, t))
  {
    if ops != [] {
      var init, op := ops[..|ops| - 1], ops[|ops| - 1];
      PlanInForce(m, init, t);
      OpKeepsPlans(Run(m, init), op);
      if op.tenant == t {
        OpStoresPlan(Run(m, init), op);
      } else {
        OpIsLocal(Run(m, init), op, t);
      }
    }
  }

  lemma OpKeepsPlans(m: Manager, op: Op)
    ensures Apply(m, op).defaultPlan == m.defaultPlan
    ensures Apply(m, op).plans == if op.Configure? then m.plans[op.tenant := op.plan] else m.plans
  {
  }

  lemma OpStoresPlan(m: Manager, op: Op)
    ensures var n := Apply(m, op);
            op.tenant in n.states ==> n.states[op.tenant].plan == PlanFor(n, op.tenant)
  {
  }

  /** A manager starts with the plans it was given, each tenant under the last one whose
      id stands for it; a single malformed id raises. */
  lemma {:induction false} InitialPlansExactly(tenantPlans: seq<(string, ValidPlan)>, t: string)
    ensures InitialPlans(tenantPlans).Some? <==> forall p :: p in tenantPlans ==> ValidatedTenantId(p.0).Some?
    ensures var plans := InitialPlans(tenantPlans);
            plans.Some? ==> LastFor(tenantPlans, t) == (if t in plans.value then Some(plans.value[t]) else None)
  {
    if tenantPlans != [] {
      var n := |tenantPlans| - 1;
      InitialPlansExactly(tenantPlans[..n], t);
      assert tenantPlans == tenantPlans[..n] + [tenantPlans[n]];
    }
  }

  /** The last plan given under an id that stands for the tenant. */
  function LastFor(tenantPlans: seq<(string, ValidPlan)>, t: string): Option<ValidPlan> {
    if tenantPlans == [] then None
    else
      var (id, plan) := tenantPlans[|tenantPlans| - 1];
      if ValidatedTenantId(id) == Some(t) then Some(plan) else LastFor(tenantPlans[..|tenantPlans| - 1], t)
  }
}
