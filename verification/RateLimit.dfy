/** libs/shared/gateway.py: the fixed-window rate limiter, for every run with a
    clock that does not go back. */
module RateLimit {
  import opened Wrappers
  import opened Text
  import opened AlignedWindows
  import opened Numbers
  import TR = TenantResources

  datatype Policy = Policy(limit: int, windowSeconds: int) {
    predicate Valid() {
      limit > 0 && windowSeconds > 0
    }
  }

  type ValidPolicy = p: Policy | p.Valid() witness Policy(1, 1)

  /** What counting in windows needs; a tenant plan may also have a limit of zero. */
  type WindowPolicy = p: Policy | p.limit >= 0 && p.windowSeconds > 0 witness Policy(0, 1)

  datatype Window = Window(startedAt: int, count: int)

  type Windows = map<string, Window>

  function CurrentWindow(p: WindowPolicy, ws: Windows, key: string, now: int): Window {
    if key in ws && ws[key].startedAt == WindowStart(p.windowSeconds, now) then ws[key]
    else Window(WindowStart(p.windowSeconds, now), 0)
  }

  predicate Allows(p: WindowPolicy, ws: Windows, key: string, now: int) {
    CurrentWindow(p, ws, key, now).count < p.limit
  }

  function Checked(p: WindowPolicy, ws: Windows, key: string, now: int): Windows {
    var w := CurrentWindow(p, ws, key, now);
    ws[key := if Allows(p, ws, key, now) then w.(count := w.count + 1) else w]
  }

  datatype Decision = Decision(allowed: bool, limit: int, remaining: int, resetAt: int, retryAfter: int)
  datatype LimiterError = BlankKey

  class InMemoryRateLimiter {
    const policy: ValidPolicy
    var windows: Windows

    ghost predicate Valid()
      reads this
    {
      forall key :: key in windows ==> 0 <= windows[key].count <= policy.limit
    }

    constructor (policy: ValidPolicy)
      ensures Valid() && this.policy == policy && windows == map[]
    {
      this.policy, windows := policy, map[];
    }

    method Check(key: string, now: int) returns (r: Result<Decision, LimiterError>)
      requires Valid()
      modifies this
      ensures Valid()
      ensures Strip(key) == [] ==> r.Err? && windows == old(windows)
      ensures Strip(key) != [] ==>
        && windows == Checked(policy, old(windows), key, now)
        && r.Ok? && r.value.allowed == Allows(policy, old(windows), key, now)
        && r.value.remaining == policy.limit - windows[key].count
        && r.value.resetAt == WindowStart(policy.windowSeconds, now) + policy.windowSeconds
        && r.value.limit == policy.limit
        && r.value.retryAfter == (if r.value.allowed then 0 else r.value.resetAt - now)
    {
      if Strip(key) == [] {
        return Err(BlankKey);
      }
      var startedAt := now - now % policy.windowSeconds;
      var resetAt := startedAt + policy.windowSeconds;
      var window := if key in windows then windows[key] else Window(startedAt, 0);
      if window.startedAt != startedAt {
        window := Window(startedAt, 0);
      }
      windows := windows[key := window];
      assert windows[key] == CurrentWindow(policy, old(windows), key, now);
      if window.count >= policy.limit {
        return Ok(Decision(false, policy.limit, 0, resetAt, Max(1, resetAt - now)));
      }
      window := window.(count := window.count + 1);
      windows := windows[key := window];
      return Ok(Decision(true, policy.limit, policy.limit - window.count, resetAt, 0));
    }
  }

  // ---- Runs ---------------------------------------------------------------

  datatype Request = Request(key: string, now: int)

  ghost predicate Monotone(rs: seq<Request>) {
    forall i, j :: 0 <= i <= j < |rs| ==> rs[i].now <= rs[j].now
  }

  /** No request comes later than this reading. */
  ghost predicate Until(rs: seq<Request>, last: int) {
    forall i :: 0 <= i < |rs| ==> rs[i].now <= last
  }

  lemma UntilLater(rs: seq<Request>, early: int, late: int)
    requires Until(rs, early) && early <= late
    ensures Until(rs, late)
  {
  }

  lemma OrderSnoc(rs: seq<Request>, last: int, r: Request)
    requires Monotone(rs) && Until(rs, last) && last <= r.now
    ensures Monotone(rs + [r]) && Until(rs + [r], r.now)
  {
  }

  function Replay(p: WindowPolicy, rs: seq<Request>): Windows {
    if rs == [] then map[]
    else var last := rs[|rs| - 1]; Checked(p, Replay(p, rs[..|rs| - 1]), last.key, last.now)
  }

  /** Whether the i-th request of a run is allowed. */
  predicate Granted(p: WindowPolicy, rs: seq<Request>, i: nat)
    requires i < |rs|
  {
    Allows(p, Replay(p, rs[..i]), rs[i].key, rs[i].now)
  }

  /** Requests for a key in [from, to), allowed or not. */
  function Calls(rs: seq<Request>, key: string, from: int, to: int): nat {
    if rs == [] then 0
    else
      var last := rs[|rs| - 1];
      Calls(rs[..|rs| - 1], key, from, to) + (if last.key == key && from <= last.now < to then 1 else 0)
  }

  /** Allowed requests for a key in [from, to). */
  function Grants(p: WindowPolicy, rs: seq<Request>, key: string, from: int, to: int): nat {
    if rs == [] then 0
    else
      var n := |rs| - 1;
      Grants(p, rs[..n], key, from, to)
      + (if rs[n].key == key && from <= rs[n].now < to && Granted(p, rs, n) then 1 else 0)
  }

  lemma {:induction false} NoCallsAfter(rs: seq<Request>, key: string, from: int, to: int)
    requires forall i :: 0 <= i < |rs| ==> rs[i].key == key ==> rs[i].now < from
    ensures Calls(rs, key, from, to) == 0
  {
    if rs != [] {
      NoCallsAfter(rs[..|rs| - 1], key, from, to);
    }
  }

  /** What the stored window of a key says about the requests so far. */
  ghost predicate Tracks(p: WindowPolicy, rs: seq<Request>, ws: Windows, key: string) {
    if key in ws then
      var s := ws[key].startedAt;
      && s % p.windowSeconds == 0
      && ws[key].count == Min(p.limit, Calls(rs, key, s, s + p.windowSeconds))
      && (forall i :: 0 <= i < |rs| ==> rs[i].key == key ==> rs[i].now < s + p.windowSeconds)
      && (exists i :: 0 <= i < |rs| && WindowStart(p.windowSeconds, rs[i].now) == s)
    else
      forall i :: 0 <= i < |rs| ==> rs[i].key != key
  }

  lemma CurrentCount(p: WindowPolicy, rs: seq<Request>, ws: Windows, key: string, now: int)
    requires Tracks(p, rs, ws, key)
    requires forall i :: 0 <= i < |rs| ==> rs[i].now <= now
    ensures var s := WindowStart(p.windowSeconds, now);
            CurrentWindow(p, ws, key, now) == Window(s, Min(p.limit, Calls(rs, key, s, s + p.windowSeconds)))
  {
    var s := WindowStart(p.windowSeconds, now);
    WindowHolds(p.windowSeconds, now);
    if key !in ws {
      NoCallsAfter(rs, key, s, s + p.windowSeconds);
    } else if ws[key].startedAt != s {
      var i :| 0 <= i < |rs| && WindowStart(p.windowSeconds, rs[i].now) == ws[key].startedAt;
      StartsMonotone(p.windowSeconds, rs[i].now, now);
      AlignedApart(ws[key].startedAt, s, p.windowSeconds);
      NoCallsAfter(rs, key, s, s + p.windowSeconds);
    }
  }

  lemma TracksStep(p: WindowPolicy, rs: seq<Request>, ws: Windows, r: Request, key: string)
    requires Tracks(p, rs, ws, key) && Tracks(p, rs, ws, r.key)
    requires forall i :: 0 <= i < |rs| ==> rs[i].now <= r.now
    ensures Tracks(p, rs + [r], Checked(p, ws, r.key, r.now), key)
  {
    var all, next := rs + [r], Checked(p, ws, r.key, r.now);
    assert all[..|rs|] == rs && all[|rs|] == r;
    WindowHolds(p.windowSeconds, r.now);
    if key == r.key {
      CurrentCount(p, rs, ws, key, r.now);
      assert WindowStart(p.windowSeconds, all[|rs|].now) == next[key].startedAt;
    } else if key in ws {
      var i :| 0 <= i < |rs| && WindowStart(p.windowSeconds, rs[i].now) == ws[key].startedAt;
      assert WindowStart(p.windowSeconds, all[i].now) == next[key].startedAt;
    }
  }

  lemma {:induction false} ReplayTracks(p: WindowPolicy, rs: seq<Request>, key: string)
    requires Monotone(rs)
    ensures Tracks(p, rs, Replay(p, rs), key)
  {
    if rs != [] {
      var init, last := rs[..|rs| - 1], rs[|rs| - 1];
      ReplayTracks(p, init, key);
      ReplayTracks(p, init, last.key);
      assert rs == init + [last];
      assert forall i :: 0 <= i < |init| ==> init[i].now <= last.now;
      TracksStep(p, init, Replay(p, init), last, key);
    }
  }

  /** How many requests for the key came in the aligned window of a reading. */
  function CallsAlongside(width: int, rs: seq<Request>, key: string, now: int): nat
    requires width > 0
  {
    Calls(rs, key, WindowStart(width, now), WindowStart(width, now) + width)
  }

  /** Whether one more request would be allowed after a run, in closed form. */
  lemma AllowsExactly(p: WindowPolicy, rs: seq<Request>, key: string, now: int)
    requires Monotone(rs) && Until(rs, now)
    ensures Allows(p, Replay(p, rs), key, now) <==> CallsAlongside(p.windowSeconds, rs, key, now) < p.limit
  {
    ReplayTracks(p, rs, key);
    CurrentCount(p, rs, Replay(p, rs), key, now);
  }

  /** The closed form of the limiter: a request is allowed exactly when fewer than
      `limit` requests for its key came earlier in its aligned window. */
  lemma GrantedExactly(p: WindowPolicy, rs: seq<Request>, i: nat)
    requires Monotone(rs) && i < |rs|
    ensures Granted(p, rs, i) <==> CallsAlongside(p.windowSeconds, rs[..i], rs[i].key, rs[i].now) < p.limit
  {
    AllowsExactly(p, rs[..i], rs[i].key, rs[i].now);
  }

  /** Each aligned window grants exactly min(limit, requests). */
  lemma {:induction false} WindowGrants(p: WindowPolicy, rs: seq<Request>, key: string, s: int)
    requires Monotone(rs) && s % p.windowSeconds == 0
    ensures Grants(p, rs, key, s, s + p.windowSeconds)
         == Min(p.limit, Calls(rs, key, s, s + p.windowSeconds))
  {
    if rs != [] {
      var n := |rs| - 1;
      WindowGrants(p, rs[..n], key, s);
      if rs[n].key == key && s <= rs[n].now < s + p.windowSeconds {
        InWindow(p.windowSeconds, rs[n].now, s);
        GrantedExactly(p, rs, n);
      }
    }
  }

  lemma {:induction false} GrantsCover(
    p: WindowPolicy, rs: seq<Request>, key: string, a: int, b: int, c: int, from: int, to: int)
    requires a <= from && to <= c
    ensures Grants(p, rs, key, from, to) <= Grants(p, rs, key, a, b) + Grants(p, rs, key, b, c)
  {
    if rs != [] {
      GrantsCover(p, rs[..|rs| - 1], key, a, b, c, from, to);
    }
  }

  /** No interval as long as the window sees more than twice the limit. */
  lemma SlidingBound(p: WindowPolicy, rs: seq<Request>, key: string, from: int)
    requires Monotone(rs)
    ensures Grants(p, rs, key, from, from + p.windowSeconds) <= 2 * p.limit
  {
    var s, w := WindowStart(p.windowSeconds, from), p.windowSeconds;
    WindowHolds(p.windowSeconds, from);
    WindowGrants(p, rs, key, s);
    NextAligned(s, w);
    WindowGrants(p, rs, key, s + w);
    GrantsCover(p, rs, key, s, s + w, s + w + w, from, from + w);
  }

  /** Both bounds at once. */
  lemma GrantBounds(p: WindowPolicy, rs: seq<Request>, key: string, from: int)
    requires Monotone(rs)
    ensures Grants(p, rs, key, from, from + p.windowSeconds) <= 2 * p.limit
    ensures from % p.windowSeconds == 0 ==> Grants(p, rs, key, from, from + p.windowSeconds) <= p.limit
  {
    SlidingBound(p, rs, key, from);
    if from % p.windowSeconds == 0 {
      WindowGrants(p, rs, key, from);
    }
  }

  lemma {:induction false} CallsGrow(rs: seq<Request>, key: string, from: int, to: int, i: nat)
    requires i <= |rs|
    ensures Calls(rs[..i], key, from, to) <= Calls(rs, key, from, to)
  {
    if i < |rs| {
      var init := rs[..|rs| - 1];
      CallsGrow(init, key, from, to, i);
      assert init[..i] == rs[..i];
    } else {
      assert rs[..i] == rs;
    }
  }

  lemma DeniedUntilReset(p: WindowPolicy, rs: seq<Request>, i: nat, j: nat)
    requires Monotone(rs) && i < j < |rs| && rs[i].key == rs[j].key && !Granted(p, rs, i)
    requires rs[j].now < WindowStart(p.windowSeconds, rs[i].now) + p.windowSeconds
    ensures !Granted(p, rs, j)
  {
    var s, w := WindowStart(p.windowSeconds, rs[i].now), p.windowSeconds;
    WindowHolds(p.windowSeconds, rs[i].now);
    InWindow(p.windowSeconds, rs[j].now, s);
    GrantedExactly(p, rs, i);
    GrantedExactly(p, rs, j);
    CallsGrow(rs[..j], rs[i].key, s, s + w, i);
    assert rs[..j][..i] == rs[..i];
  }

  lemma GrantedAfterReset(p: ValidPolicy, rs: seq<Request>, reset: int, j: nat)
    requires Monotone(rs) && j < |rs| && rs[j].now >= reset && reset % p.windowSeconds == 0
    requires forall k :: 0 <= k < j && rs[k].key == rs[j].key ==> rs[k].now < reset
    ensures Granted(p, rs, j)
  {
    var t := WindowStart(p.windowSeconds, rs[j].now);
    StartsMonotone(p.windowSeconds, reset, rs[j].now);
    NoCallsAfter(rs[..j], rs[j].key, t, t + p.windowSeconds);
    GrantedExactly(p, rs, j);
  }

  /** After a denial the hint is exact: every later request for the key before the
      reset is denied, and the first one at or after the reset is allowed. */
  lemma RetryAfterIsExact(p: ValidPolicy, rs: seq<Request>, i: nat, j: nat)
    requires Monotone(rs) && i < j < |rs| && rs[i].key == rs[j].key && !Granted(p, rs, i)
    ensures var reset := WindowStart(p.windowSeconds, rs[i].now) + p.windowSeconds;
            && (rs[j].now < reset ==> !Granted(p, rs, j))
            && (rs[j].now >= reset && (forall k :: i < k < j && rs[k].key == rs[j].key ==> rs[k].now < reset) ==>
                  Granted(p, rs, j))
  {
    var reset := WindowStart(p.windowSeconds, rs[i].now) + p.windowSeconds;
    WindowHolds(p.windowSeconds, rs[i].now);
    if rs[j].now < reset {
      DeniedUntilReset(p, rs, i, j);
    } else if forall k :: i < k < j && rs[k].key == rs[j].key ==> rs[k].now < reset {
      NextAligned(reset - p.windowSeconds, p.windowSeconds);
      forall k | 0 <= k < j && rs[k].key == rs[j].key ensures rs[k].now < reset {
        assert k <= i ==> rs[k].now <= rs[i].now;
      }
      GrantedAfterReset(p, rs, reset, j);
    }
  }

  // ---- The tenant manager admits the same sequence ------------------------

  /** The tenant is under a plan with this limit and window. */
  predicate UnderPlan(p: WindowPolicy, m: TR.Manager, t: string) {
    TR.PlanFor(m, t).requestLimit == p.limit && TR.PlanFor(m, t).windowSeconds == p.windowSeconds
  }

  /** From `last` on, limiter and manager would count the same for the tenant. */
  ghost predicate InStep(p: WindowPolicy, m: TR.Manager, ws: Windows, t: string, last: int) {
    && UnderPlan(p, m, t)
    && (t in ws ==> ws[t].startedAt <= WindowStart(p.windowSeconds, last))
    && (forall now :: now >= last ==> TR.StateFor(m, t, now).requests == CurrentWindow(p, ws, t, now).count)
  }

  /** The limiter sees only the admissions. */
  function Mirror(p: WindowPolicy, ws: Windows, op: TR.Op): Windows {
    if op.Admit? then Checked(p, ws, op.tenant, op.now) else ws
  }

  lemma AdmitAgrees(p: WindowPolicy, m: TR.Manager, ws: Windows, tenant: string, now: int)
    requires InStep(p, m, ws, tenant, now)
    ensures TR.MayAdmit(m, tenant, now) <==> Allows(p, ws, tenant, now)
  {
    assert TR.StateFor(m, tenant, now).plan == TR.PlanFor(m, tenant);
  }

  /** A stored usage counts at a later reading only within its own window. */
  lemma LaterUsage(p: WindowPolicy, m: TR.Manager, t: string, stored: int, now: int)
    requires t in m.states && m.states[t].windowStart == WindowStart(p.windowSeconds, stored)
    requires TR.PlanFor(m, t).windowSeconds == p.windowSeconds
    ensures TR.StateFor(m, t, now).requests
         == if WindowStart(p.windowSeconds, now) == WindowStart(p.windowSeconds, stored)
            then m.states[t].requests else 0
  {
  }

  /** So does a stored window. */
  lemma LaterWindow(p: WindowPolicy, ws: Windows, t: string, stored: int, now: int)
    requires t in ws ==> ws[t].startedAt <= WindowStart(p.windowSeconds, stored)
    requires stored <= now
    ensures CurrentWindow(p, ws, t, now).count
         == if WindowStart(p.windowSeconds, now) == WindowStart(p.windowSeconds, stored)
            then CurrentWindow(p, ws, t, stored).count else 0
  {
    StartsMonotone(p.windowSeconds, stored, now);
  }

  lemma StoredByOp(p: WindowPolicy, m: TR.Manager, ws: Windows, op: TR.Op)
    requires !op.Configure? && UnderPlan(p, m, op.tenant)
    requires TR.StateFor(m, op.tenant, op.now).requests == CurrentWindow(p, ws, op.tenant, op.now).count
    ensures var n := TR.Apply(m, op);
            && op.tenant in n.states && n.plans == m.plans && n.defaultPlan == m.defaultPlan
            && n.states[op.tenant].windowStart == WindowStart(p.windowSeconds, op.now)
            && n.states[op.tenant].requests == CurrentWindow(p, Mirror(p, ws, op), op.tenant, op.now).count
  {
    var u := TR.StateFor(m, op.tenant, op.now);
    assert u.plan == TR.PlanFor(m, op.tenant) && u.windowStart == WindowStart(p.windowSeconds, op.now);
  }

  lemma OwnOpKeepsStep(p: WindowPolicy, m: TR.Manager, ws: Windows, last: int, op: TR.Op)
    requires InStep(p, m, ws, op.tenant, last) && op.now >= last && !op.Configure?
    ensures InStep(p, TR.Apply(m, op), Mirror(p, ws, op), op.tenant, op.now)
  {
    var n, vs, t := TR.Apply(m, op), Mirror(p, ws, op), op.tenant;
    StartsMonotone(p.windowSeconds, last, op.now);
    StoredByOp(p, m, ws, op);
    forall now | now >= op.now ensures TR.StateFor(n, t, now).requests == CurrentWindow(p, vs, t, now).count {
      LaterUsage(p, n, t, op.now, now);
      LaterWindow(p, vs, t, op.now, now);
    }
  }

  /** Other tenants may do anything, be reconfigured included. */
  lemma OtherTenantUntouched(m: TR.Manager, op: TR.Op, t: string)
    requires t != op.tenant
    ensures TR.PlanFor(TR.Apply(m, op), t) == TR.PlanFor(m, t)
    ensures forall now :: TR.StateFor(TR.Apply(m, op), t, now) == TR.StateFor(m, t, now)
  {
  }

  function MirrorAll(p: WindowPolicy, ops: seq<TR.Op>): Windows {
    if ops == [] then map[] else Mirror(p, MirrorAll(p, ops[..|ops| - 1]), ops[|ops| - 1])
  }

  ghost predicate PlanFixed(ops: seq<TR.Op>, t: string) {
    forall i :: 0 <= i < |ops| && ops[i].Configure? ==> ops[i].tenant != t
  }

  ghost predicate InOrder(ops: seq<TR.Op>) {
    forall i, j :: 0 <= i <= j < |ops| ==> ops[i].now <= ops[j].now
  }

  lemma {:induction false} RunsStayInStep(p: WindowPolicy, m: TR.Manager, ops: seq<TR.Op>, t: string, last: int)
    requires UnderPlan(p, m, t) && m.states == map[] && PlanFixed(ops, t) && InOrder(ops)
    requires ops != [] ==> ops[|ops| - 1].now <= last
    ensures InStep(p, TR.Run(m, ops), MirrorAll(p, ops), t, last)
  {
    if ops != [] {
      var init, op := ops[..|ops| - 1], ops[|ops| - 1];
      RunsStayInStep(p, m, init, t, op.now);
      StartsMonotone(p.windowSeconds, op.now, last);
      if op.tenant == t {
        OwnOpKeepsStep(p, TR.Run(m, init), MirrorAll(p, init), op.now, op);
      } else {
        OtherTenantUntouched(TR.Run(m, init), op, t);
      }
    }
  }

  /** For a tenant under a fixed plan, admit_request answers as the limiter with that limit
      and window would, also when the tenant reserves and releases in between and other
      tenants do anything, under any plans. */
  lemma AdmissionEqualsLimiter(p: WindowPolicy, m: TR.Manager, ops: seq<TR.Op>, i: nat)
    requires i < |ops| && ops[i].Admit?
    requires UnderPlan(p, m, ops[i].tenant) && m.states == map[]
    requires PlanFixed(ops, ops[i].tenant) && InOrder(ops)
    ensures TR.MayAdmit(TR.Run(m, ops[..i]), ops[i].tenant, ops[i].now)
        <==> Allows(p, MirrorAll(p, ops[..i]), ops[i].tenant, ops[i].now)
  {
    RunsStayInStep(p, m, ops[..i], ops[i].tenant, ops[i].now);
    AdmitAgrees(p, TR.Run(m, ops[..i]), MirrorAll(p, ops[..i]), ops[i].tenant, ops[i].now);
  }

  /** The calls of admit_request, as requests to count. */
  function Admissions(ops: seq<TR.Op>): seq<Request> {
    if ops == [] then []
    else
      var op := ops[|ops| - 1];
      Admissions(ops[..|ops| - 1]) + (if op.Admit? then [Request(op.tenant, op.now)] else [])
  }

  lemma ReplaySnoc(p: WindowPolicy, rs: seq<Request>, r: Request)
    ensures Replay(p, rs + [r]) == Checked(p, Replay(p, rs), r.key, r.now)
  {
    assert (rs + [r])[..|rs|] == rs;
  }

  lemma {:induction false} MirrorReplays(p: WindowPolicy, ops: seq<TR.Op>)
    ensures MirrorAll(p, ops) == Replay(p, Admissions(ops))
  {
    if ops != [] {
      var init, op := ops[..|ops| - 1], ops[|ops| - 1];
      MirrorReplays(p, init);
      if op.Admit? {
        ReplaySnoc(p, Admissions(init), Request(op.tenant, op.now));
      } else {
        assert Admissions(ops) == Admissions(init) + [] == Admissions(init);
      }
    }
  }

  lemma {:induction false} AdmissionsInOrder(ops: seq<TR.Op>)
    requires InOrder(ops)
    ensures Monotone(Admissions(ops)) && (ops != [] ==> Until(Admissions(ops), ops[|ops| - 1].now))
  {
    if ops != [] {
      var n := |ops| - 1;
      AdmissionsInOrder(ops[..n]);
      assert n > 0 ==> ops[n - 1].now <= ops[n].now;
    }
  }

  lemma AdmissionCounts(p: WindowPolicy, past: seq<TR.Op>, tenant: string, now: int)
    requires InOrder(past) && (past != [] ==> past[|past| - 1].now <= now)
    ensures Allows(p, MirrorAll(p, past), tenant, now)
        <==> CallsAlongside(p.windowSeconds, Admissions(past), tenant, now) < p.limit
  {
    MirrorReplays(p, past);
    AdmissionsInOrder(past);
    AllowsExactly(p, Admissions(past), tenant, now);
  }

  /** So it admits exactly while fewer than the plan's limit of the tenant's own calls came
      earlier in the aligned window. */
  lemma AdmittedExactly(m: TR.Manager, ops: seq<TR.Op>, i: nat)
    requires i < |ops| && ops[i].Admit? && m.states == map[]
    requires PlanFixed(ops, ops[i].tenant) && InOrder(ops)
    ensures var plan := TR.PlanFor(m, ops[i].tenant);
            TR.MayAdmit(TR.Run(m, ops[..i]), ops[i].tenant, ops[i].now)
            <==> CallsAlongside(plan.windowSeconds, Admissions(ops[..i]), ops[i].tenant, ops[i].now) < plan.requestLimit
  {
    var plan := TR.PlanFor(m, ops[i].tenant);
    var p := Policy(plan.requestLimit, plan.windowSeconds);
    AdmissionEqualsLimiter(p, m, ops, i);
    AdmissionCounts(p, ops[..i], ops[i].tenant, ops[i].now);
  }
}
