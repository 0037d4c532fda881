/** The supervised RL-KPI iteration of services/analytics-engine/analytics_engine/api.py:
    KPI metrics from events, optimisation proposals, council approval and effects. */
module RlKpi {
  import opened Wrappers
  import opened Numbers

  // ---- Rounding to four decimals ------------------------------------------

  /** Python's round to an integer: nearest, ties to even. */
  function RoundHalfEven(x: real): int {
    var f := x.Floor;
    var d := x - f as real;
    if d < 0.5 then f else if d > 0.5 then f + 1 else if f % 2 == 0 then f else f + 1
  }

  /** _round_metric. */
  function Round4(x: real): real {
    RoundHalfEven(x * 10000.0) as real / 10000.0
  }

  /** A whole number of ten-thousandths. */
  predicate OnGrid(x: real) {
    (x * 10000.0).Floor as real == x * 10000.0
  }

  lemma RoundNearest(x: real)
    ensures x - 0.5 <= RoundHalfEven(x) as real <= x + 0.5
  {
  }

  lemma RoundMonotone(x: real, y: real)
    requires x <= y
    ensures RoundHalfEven(x) <= RoundHalfEven(y)
  {
    RoundNearest(x);
    RoundNearest(y);
  }

  lemma Round4Facts(x: real)
    ensures OnGrid(Round4(x))
    ensures OnGrid(x) ==> Round4(x) == x
    ensures x - 0.00005 <= Round4(x) <= x + 0.00005
  {
    RoundNearest(x * 10000.0);
    assert Round4(x) * 10000.0 == RoundHalfEven(x * 10000.0) as real;
  }

  lemma Round4Monotone(x: real, y: real)
    requires x <= y
    ensures Round4(x) <= Round4(y)
  {
    RoundMonotone(x * 10000.0, y * 10000.0);
  }

  lemma GridDifference(x: real, y: real)
    requires OnGrid(x) && OnGrid(y)
    ensures OnGrid(x - y)
  {
    var n := (x * 10000.0).Floor - (y * 10000.0).Floor;
    assert (x - y) * 10000.0 == n as real;
  }

  // ---- Metrics ------------------------------------------------------------

  datatype EventKind =
    | MemberActive | MemberJoined | MaterialPublished | ContentViewed
    | ReadingTimeRecorded | CommentCreated | TaskCompleted | InitiativeCreated

  datatype Event = Event(kind: EventKind, value: real, samples: Option<int>, member: Option<string>)

  datatype Key =
    | ActiveMembers | NewMembers | MaterialsPublished | ContentViews
    | AvgReadingMinutes | Comments | TasksCompleted | InitiativesCreated

  datatype Definition = Definition(key: Key, min: Option<real>, max: Option<real>)

  /** _KPI_DEFINITIONS. */
  const DEFINITIONS: seq<Definition> := [
    Definition(ActiveMembers, Some(15.0), Some(25.0)),
    Definition(NewMembers, Some(3.0), Some(5.0)),
    Definition(MaterialsPublished, Some(20.0), Some(30.0)),
    Definition(ContentViews, Some(10000.0), None),
    Definition(AvgReadingMinutes, Some(3.0), None),
    Definition(Comments, Some(50.0), None),
    Definition(TasksCompleted, Some(10.0), None),
    Definition(InitiativesCreated, Some(1.0), Some(2.0))]

  function Total(es: seq<Event>, f: Event -> real): real {
    if es == [] then 0.0 else Total(es[..|es| - 1], f) + f(es[|es| - 1])
  }

  function ValueIf(kind: EventKind): Event -> real {
    (e: Event) => if e.kind == kind then e.value else 0.0
  }

  function AnonymousActivity(): Event -> real {
    (e: Event) => if e.kind == MemberActive && e.member.None? then e.value else 0.0
  }

  /** `sample_count or 1` for a reading event. */
  function SampleCount(): Event -> real {
    (e: Event) =>
      if e.kind != ReadingTimeRecorded then 0.0
      else if e.samples.None? || e.samples.value == 0 then 1.0
      else e.samples.value as real
  }

  function ActiveHashes(es: seq<Event>): set<string> {
    set e | e in es && e.kind == MemberActive && e.member.Some? :: e.member.value
  }

  function Average(total: real, count: real): real {
    if count == 0.0 then 0.0 else total / count / 60.0
  }

  function AverageReading(es: seq<Event>): real {
    Average(Total(es, ValueIf(ReadingTimeRecorded)), Total(es, SampleCount()))
  }

  /** The unrounded value of a metric. */
  function Raw(es: seq<Event>, key: Key): real {
    match key
    case ActiveMembers => |ActiveHashes(es)| as real + Total(es, AnonymousActivity())
    case NewMembers => Total(es, ValueIf(MemberJoined))
    case MaterialsPublished => Total(es, ValueIf(MaterialPublished))
    case ContentViews => Total(es, ValueIf(ContentViewed))
    case AvgReadingMinutes => AverageReading(es)
    case Comments => Total(es, ValueIf(CommentCreated))
    case TasksCompleted => Total(es, ValueIf(TaskCompleted))
    case InitiativesCreated => Total(es, ValueIf(InitiativeCreated))
  }

  datatype KpiStatus = BelowTarget | OnTrack | AboveTarget

  /** _status_for_value. */
  function StatusOf(value: real, min: Option<real>, max: Option<real>): KpiStatus {
    if min.Some? && value < min.value then BelowTarget
    else if max.Some? && value > max.value then AboveTarget
    else OnTrack
  }

  datatype Metric = Metric(key: Key, value: real, min: Option<real>, max: Option<real>, status: KpiStatus)

  /** The status looks at the unrounded value, the report at the rounded one. */
  function MetricFor(es: seq<Event>, d: Definition): Metric {
    var raw := Raw(es, d.key);
    Metric(d.key, Round4(raw), d.min, d.max, StatusOf(raw, d.min, d.max))
  }

  /** _build_kpi_metrics. */
  function Metrics(es: seq<Event>): seq<Metric> {
    seq(|DEFINITIONS|, i requires 0 <= i < |DEFINITIONS| => MetricFor(es, DEFINITIONS[i]))
  }

  /** The metric an event kind feeds. */
  function FedBy(kind: EventKind): Key {
    match kind
    case MemberActive => ActiveMembers
    case MemberJoined => NewMembers
    case MaterialPublished => MaterialsPublished
    case ContentViewed => ContentViews
    case ReadingTimeRecorded => AvgReadingMinutes
    case CommentCreated => Comments
    case TaskCompleted => TasksCompleted
    case InitiativeCreated => InitiativesCreated
  }

  lemma TotalSnoc(es: seq<Event>, e: Event, f: Event -> real)
    ensures Total(es + [e], f) == Total(es, f) + f(e)
  {
    assert (es + [e])[..|es|] == es;
  }

  /** One more event of a summed kind adds its value to the metric of its kind, and leaves
      every other summed metric alone. */
  lemma EventMovesItsSum(es: seq<Event>, e: Event, key: Key)
    requires key != ActiveMembers && key != AvgReadingMinutes
    ensures Raw(es + [e], key) == Raw(es, key) + (if key == FedBy(e.kind) then e.value else 0.0)
  {
    match key
    case NewMembers => TotalSnoc(es, e, ValueIf(MemberJoined));
    case MaterialsPublished => TotalSnoc(es, e, ValueIf(MaterialPublished));
    case ContentViews => TotalSnoc(es, e, ValueIf(ContentViewed));
    case Comments => TotalSnoc(es, e, ValueIf(CommentCreated));
    case TasksCompleted => TotalSnoc(es, e, ValueIf(TaskCompleted));
    case InitiativesCreated => TotalSnoc(es, e, ValueIf(InitiativeCreated));
  }

  /** An identified member is counted once however often it is active; anonymous activity
      adds its value; no other event counts. */
  lemma EventMovesActiveMembers(es: seq<Event>, e: Event)
    ensures Raw(es + [e], ActiveMembers) == Raw(es, ActiveMembers)
      + (if e.kind != MemberActive then 0.0
         else if e.member.None? then e.value
         else if e.member.value in ActiveHashes(es) then 0.0 else 1.0)
  {
    TotalSnoc(es, e, AnonymousActivity());
    HashesSnoc(es, e);
    if e.kind == MemberActive && e.member.Some? {
      assert |ActiveHashes(es + [e])| == |ActiveHashes(es)| + (if e.member.value in ActiveHashes(es) then 0 else 1) by {
        if e.member.value in ActiveHashes(es) {
          assert ActiveHashes(es + [e]) == ActiveHashes(es);
        }
      }
    } else {
      assert ActiveHashes(es + [e]) == ActiveHashes(es);
    }
  }

  /** A reading event folds its seconds and its samples into the average; no other event
      moves it. */
  lemma EventMovesAverage(es: seq<Event>, e: Event)
    ensures Raw(es + [e], AvgReadingMinutes)
         == if e.kind != ReadingTimeRecorded then Raw(es, AvgReadingMinutes)
            else Average(Total(es, ValueIf(ReadingTimeRecorded)) + e.value,
                         Total(es, SampleCount()) + SampleCount()(e))
  {
    TotalSnoc(es, e, ValueIf(ReadingTimeRecorded));
    TotalSnoc(es, e, SampleCount());
  }

  lemma HashesSnoc(es: seq<Event>, e: Event)
    ensures var added := if e.kind == MemberActive && e.member.Some? then {e.member.value} else {};
            ActiveHashes(es + [e]) == ActiveHashes(es) + added
  {
    var added := if e.kind == MemberActive && e.member.Some? then {e.member.value} else {};
    forall h | h in ActiveHashes(es) + added ensures h in ActiveHashes(es + [e]) {
      if h in ActiveHashes(es) {
        var x :| x in es && x.kind == MemberActive && x.member.Some? && x.member.value == h;
        assert x in es + [e];
      } else {
        assert e in es + [e];
      }
    }
  }

  /** One more event touches the reported metric of its kind and no other. Unless it is a
      reading, a non-negative value never lowers what is reported and never makes a metric
      fall short that did not before. */
  lemma EventMovesOneMetric(es: seq<Event>, e: Event, i: nat)
    requires i < |DEFINITIONS| && e.value >= 0.0
    ensures var before, after := Metrics(es)[i], Metrics(es + [e])[i];
            && (DEFINITIONS[i].key != FedBy(e.kind) ==> after == before)
            && (e.kind != ReadingTimeRecorded ==>
                  && after.value >= before.value
                  && (after.status == BelowTarget ==> before.status == BelowTarget))
  {
    var key := DEFINITIONS[i].key;
    if key == ActiveMembers {
      EventMovesActiveMembers(es, e);
    } else if key == AvgReadingMinutes {
      EventMovesAverage(es, e);
    } else {
      EventMovesItsSum(es, e, key);
    }
    if e.kind != ReadingTimeRecorded {
      Round4Monotone(Raw(es, key), Raw(es + [e], key));
    }
  }

  lemma {:induction false} TotalSplits(a: seq<Event>, b: seq<Event>, f: Event -> real)
    ensures Total(a + b, f) == Total(a, f) + Total(b, f)
  {
    if b == [] {
      assert a + b == a;
    } else {
      TotalSplits(a, b[..|b| - 1], f);
      assert (a + b)[..|a + b| - 1] == a + b[..|b| - 1];
    }
  }

  lemma SameWithoutOne<T>(a: seq<T>, rest: seq<T>, b: seq<T>, before: seq<T>, after: seq<T>, x: T)
    requires multiset(a) == multiset(b) && a == rest + [x] && b == before + [x] + after
    ensures multiset(rest) == multiset(before + after)
  {
    assert multiset(a) == multiset(rest) + multiset([x]);
    assert multiset(b) == multiset(before) + multiset([x]) + multiset(after);
    assert multiset(before + after) == multiset(before) + multiset(after);
    assert multiset(rest) == multiset(a) - multiset([x]) == multiset(before) + multiset(after);
  }

  lemma {:induction false} TotalPermutes(a: seq<Event>, b: seq<Event>, f: Event -> real)
    requires multiset(a) == multiset(b)
    ensures Total(a, f) == Total(b, f)
    decreases |a|
  {
    if a == [] {
      assert |multiset(b)| == 0 && b == [];
    } else {
      var last := a[|a| - 1];
      assert last in multiset(b);
      var i :| 0 <= i < |b| && b[i] == last;
      var rest, before, after := a[..|a| - 1], b[..i], b[i + 1..];
      assert a == rest + [last];
      assert b == before + [last] + after;
      SameWithoutOne(a, rest, b, before, after, last);
      TotalPermutes(rest, before + after, f);
      TotalSplits(before, after, f);
      TotalSplits(before + [last], after, f);
      TotalSplits(before, [last], f);
      assert [last][..0] == [];
    }
  }

  /** The metrics of a period depend only on the multiset of its events. */
  lemma MetricsIgnoreOrder(a: seq<Event>, b: seq<Event>)
    requires multiset(a) == multiset(b)
    ensures Metrics(a) == Metrics(b)
  {
    forall e ensures e in a <==> e in b {
      assert e in multiset(a) <==> e in multiset(b);
    }
    assert ActiveHashes(a) == ActiveHashes(b);
    TotalPermutes(a, b, AnonymousActivity());
    TotalPermutes(a, b, SampleCount());
    forall kind ensures Total(a, ValueIf(kind)) == Total(b, ValueIf(kind)) {
      TotalPermutes(a, b, ValueIf(kind));
    }
    forall key ensures Raw(a, key) == Raw(b, key) {
    }
  }

  // ---- Proposals ----------------------------------------------------------

  datatype Direction = Increase | Decrease
  datatype ProposalStatus = Proposed | Approved | Rejected
  datatype EffectStatus = Pending | Improved | Degraded | Stable

  datatype Effect = Effect(
    baseline: real, evaluation: real, absoluteDelta: real, relativeDelta: Option<real>,
    status: EffectStatus, rollbackRecommended: bool)

  datatype Proposal = Proposal(
    key: Key, status: ProposalStatus, baseline: real, latest: real,
    min: Option<real>, max: Option<real>, direction: Direction, lift: real, effect: Option<Effect>)

  function DirectionFor(m: Metric): Direction {
    if m.status == AboveTarget then Decrease else Increase
  }

  /** _expected_lift. */
  function LiftFor(m: Metric, d: Direction): real {
    if d == Increase && m.min.Some? then Round4(MaxReal(m.min.value - m.value, 0.0))
    else if d == Decrease && m.max.Some? then Round4(MaxReal(m.value - m.max.value, 0.0))
    else 0.0
  }

  /** The reported values of one metric over all periods. */
  function Series(periods: seq<seq<Metric>>, key: Key): seq<real> {
    if periods == [] then [] else Series(periods[..|periods| - 1], key) + ValuesOf(periods[|periods| - 1], key)
  }

  function ValuesOf(ms: seq<Metric>, key: Key): seq<real> {
    if ms == [] then []
    else
      ValuesOf(ms[..|ms| - 1], key)
      + (if ms[|ms| - 1].key == key then [ms[|ms| - 1].value] else [])
  }

  function SumOf(xs: seq<real>): real {
    if xs == [] then 0.0 else SumOf(xs[..|xs| - 1]) + xs[|xs| - 1]
  }

  function Baseline(xs: seq<real>): real {
    if xs == [] then 0.0 else Round4(SumOf(xs) / |xs| as real)
  }

  function ProposalFor(periods: seq<seq<Metric>>, m: Metric): Proposal {
    Proposal(m.key, Proposed, Baseline(Series(periods, m.key)), m.value, m.min, m.max,
             DirectionFor(m), LiftFor(m, DirectionFor(m)), None)
  }

  /** The metrics that are not on track, in order. */
  function OffTarget(ms: seq<Metric>): seq<Metric> {
    if ms == [] then []
    else OffTarget(ms[..|ms| - 1]) + (if ms[|ms| - 1].status == OnTrack then [] else [ms[|ms| - 1]])
  }

  function ProposalsOf(periods: seq<seq<Metric>>, ms: seq<Metric>): seq<Proposal> {
    if ms == [] then []
    else
      var last := ms[|ms| - 1];
      ProposalsOf(periods, ms[..|ms| - 1])
      + (if last.status == OnTrack then [] else [ProposalFor(periods, last)])
  }

  function Proposals(periods: seq<seq<Metric>>): seq<Proposal> {
    if periods == [] then [] else ProposalsOf(periods, periods[|periods| - 1])
  }

  /** _build_rl_kpi_proposals. */
  method BuildProposals(periods: seq<seq<Metric>>) returns (proposals: seq<Proposal>)
    ensures proposals == Proposals(periods)
  {
    proposals := [];
    if periods == [] {
      return;
    }
    var latest := periods[|periods| - 1];
    var i := 0;
    while i < |latest|
      invariant 0 <= i <= |latest| && proposals == ProposalsOf(periods, latest[..i])
    {
      assert latest[..i + 1][..i] == latest[..i];
      if latest[i].status != OnTrack {
        proposals := proposals + [ProposalFor(periods, latest[i])];
      }
      i := i + 1;
    }
    assert latest[..i] == latest;
  }

  /** One fresh proposal for each off-target metric, in their order, and no other. */
  lemma {:induction false} ProposalsMatchOffTarget(periods: seq<seq<Metric>>, ms: seq<Metric>)
    ensures |ProposalsOf(periods, ms)| == |OffTarget(ms)|
    ensures forall i :: 0 <= i < |OffTarget(ms)| ==>
              ProposalsOf(periods, ms)[i] == ProposalFor(periods, OffTarget(ms)[i])
  {
    if ms != [] {
      ProposalsMatchOffTarget(periods, ms[..|ms| - 1]);
    }
  }

  lemma {:induction false} OffTargetExactly(ms: seq<Metric>, m: Metric)
    ensures m in OffTarget(ms) <==> m in ms && m.status != OnTrack
  {
    if ms != [] {
      OffTargetExactly(ms[..|ms| - 1], m);
      assert ms == ms[..|ms| - 1] + [ms[|ms| - 1]];
    }
  }

  /** The target bounds are whole numbers, in order. */
  predicate CleanTargets(d: Definition) {
    && (d.min.Some? ==> OnGrid(d.min.value))
    && (d.max.Some? ==> OnGrid(d.max.value))
    && (d.min.Some? && d.max.Some? ==> d.min.value <= d.max.value)
  }

  /** Where the expected lift leads from the reported value. */
  function Landing(m: Metric): real {
    if DirectionFor(m) == Increase then m.value + LiftFor(m, Increase) else m.value - LiftFor(m, Decrease)
  }

  lemma LiftReachesBound(raw: real, d: Definition)
    requires CleanTargets(d)
    ensures var status := StatusOf(raw, d.min, d.max);
            var m := Metric(d.key, Round4(raw), d.min, d.max, status);
            && (status == BelowTarget ==> Landing(m) == d.min.value)
            && (status == AboveTarget ==> Landing(m) == d.max.value)
            && (status != OnTrack ==> StatusOf(Landing(m), d.min, d.max) == OnTrack)
  {
    var status := StatusOf(raw, d.min, d.max);
    Round4Facts(raw);
    if status == BelowTarget {
      Round4Facts(d.min.value);
      Round4Monotone(raw, d.min.value);
      GridDifference(d.min.value, Round4(raw));
      Round4Facts(d.min.value - Round4(raw));
    } else if status == AboveTarget {
      Round4Facts(d.max.value);
      Round4Monotone(d.max.value, raw);
      GridDifference(Round4(raw), d.max.value);
      Round4Facts(Round4(raw) - d.max.value);
    }
  }

  /** Moving the stored latest value by the stored lift in the stored direction lands
      exactly on the bound it missed, and is on track. */
  predicate Lands(p: Proposal) {
    var landing := if p.direction == Increase then p.latest + p.lift else p.latest - p.lift;
    && Some(landing) == (if p.direction == Increase then p.min else p.max)
    && StatusOf(landing, p.min, p.max) == OnTrack
  }

  /** So it is for every off-target metric of every list of events, although the status
      saw the unrounded value and the lift the rounded one. */
  lemma LiftsLandOnTarget(periods: seq<seq<Metric>>, es: seq<Event>, i: nat)
    requires i < |DEFINITIONS| && Metrics(es)[i].status != OnTrack
    ensures OnGrid(Metrics(es)[i].value) && Lands(ProposalFor(periods, Metrics(es)[i]))
  {
    BoundsAreEven(i);
    Round4Facts(Raw(es, DEFINITIONS[i].key));
    LiftReachesBound(Raw(es, DEFINITIONS[i].key), DEFINITIONS[i]);
  }

  /** Whether a metric that missed its bound did so by at most half a ten-thousandth. */
  predicate NarrowMiss(raw: real, m: Metric)
    requires m.status == BelowTarget ==> m.min.Some?
    requires m.status == AboveTarget ==> m.max.Some?
  {
    match m.status
    case BelowTarget => m.min.value - raw <= 0.00005
    case AboveTarget => raw - m.max.value <= 0.00005
    case OnTrack => false
  }

  lemma LiftVanishes(raw: real, d: Definition)
    requires CleanTargets(d) && (d.min.Some? ==> EvenOnGrid(d.min.value)) && (d.max.Some? ==> EvenOnGrid(d.max.value))
    requires StatusOf(raw, d.min, d.max) != OnTrack
    ensures var m := Metric(d.key, Round4(raw), d.min, d.max, StatusOf(raw, d.min, d.max));
            LiftFor(m, DirectionFor(m)) == 0.0 <==> NarrowMiss(raw, m)
  {
    LiftReachesBound(raw, d);
    TieGoesToEven(raw, if StatusOf(raw, d.min, d.max) == BelowTarget then d.min.value else d.max.value);
  }

  /** Rounding can hide a miss: the proposal asks for a lift of zero exactly when the
      value misses its bound, below or above, by at most half a ten-thousandth. */
  lemma LiftVanishesExactly(es: seq<Event>, i: nat)
    requires i < |DEFINITIONS| && Metrics(es)[i].status != OnTrack
    ensures var m := Metrics(es)[i];
            LiftFor(m, DirectionFor(m)) == 0.0 <==> NarrowMiss(Raw(es, DEFINITIONS[i].key), m)
  {
    BoundsAreEven(i);
    LiftVanishes(Raw(es, DEFINITIONS[i].key), DEFINITIONS[i]);
  }

  predicate EvenOnGrid(x: real) {
    OnGrid(x) && (x * 10000.0).Floor % 2 == 0
  }

  lemma BoundsAreEven(i: nat)
    requires i < |DEFINITIONS|
    ensures CleanTargets(DEFINITIONS[i])
    ensures DEFINITIONS[i].min.Some? && EvenOnGrid(DEFINITIONS[i].min.value)
    ensures DEFINITIONS[i].max.Some? ==> EvenOnGrid(DEFINITIONS[i].max.value)
  {
  }

  lemma TieGoesToEven(x: real, bound: real)
    requires EvenOnGrid(bound)
    ensures Round4(x) == bound <==> bound - 0.00005 <= x <= bound + 0.00005
  {
    var even := (bound * 10000.0).Floor;
    assert bound == even as real / 10000.0;
    RoundsTo(x * 10000.0, even);
  }

  lemma RoundsTo(x: real, even: int)
    requires even % 2 == 0
    ensures RoundHalfEven(x) == even <==> even as real - 0.5 <= x <= even as real + 0.5
  {
  }

  /** Such a miss can be reported: one event, below target, and nothing to lift. */
  lemma VanishingLift() returns (es: seq<Event>)
    ensures Metrics(es)[1].status == BelowTarget && LiftFor(Metrics(es)[1], Increase) == 0.0
  {
    es := [Event(MemberJoined, 2.99996, None, None)];
    assert es[..0] == [];
    assert Raw(es, NewMembers) == 2.99996;
    LiftVanishesExactly(es, 1);
  }

  // ---- Effects ------------------------------------------------------------

  /** _proposal_effect_status. */
  function EffectFor(direction: Direction, delta: real): EffectStatus {
    if delta == 0.0 then Stable
    else if direction == Increase then (if delta > 0.0 then Improved else Degraded)
    else if delta < 0.0 then Improved else Degraded
  }

  /** _measure_rl_kpi_effect. */
  function Measured(p: Proposal, evaluation: real): Effect {
    var delta := Round4(evaluation - p.latest);
    var relative := if p.latest > 0.0 then Some(Round4(delta / p.latest)) else None;
    var status := EffectFor(p.direction, delta);
    Effect(p.latest, evaluation, delta, relative, status, status == Degraded)
  }

  /** Rounding the difference of two reported values changes nothing, so an effect is
      stable, improved or degraded exactly as the reported values compare. */
  lemma EffectIsExact(p: Proposal, evaluation: real)
    requires OnGrid(p.latest) && OnGrid(evaluation)
    ensures var e := Measured(p, evaluation);
            && e.absoluteDelta == evaluation - p.latest
            && (e.status == Stable <==> evaluation == p.latest)
            && (e.status == Improved <==> if p.direction == Increase then evaluation > p.latest
                                          else evaluation < p.latest)
  {
    GridDifference(evaluation, p.latest);
    Round4Facts(evaluation - p.latest);
  }

  // ---- The lifecycle ------------------------------------------------------

  datatype IterationStatus =
    | AwaitingCouncilApproval | CouncilApproved | CouncilRejected | EffectMeasured | RollbackRequired | MonitoringOnly

  datatype Approval = NotRequired | ApprovalPending | ApprovalGiven | ApprovalDenied

  datatype Record = Record(
    status: IterationStatus, proposals: seq<Proposal>, approval: Approval, approvedBy: Option<string>,
    effectStatus: EffectStatus, metrics: seq<Key>)

  datatype ApiError = Conflict | NotFound | NotAwaitingApproval | RequiresApproval

  function Keys(ps: seq<Proposal>): seq<Key> {
    seq(|ps|, i requires 0 <= i < |ps| => ps[i].key)
  }

  function NewIteration(proposals: seq<Proposal>): Record {
    if proposals == [] then Record(MonitoringOnly, [], NotRequired, None, Pending, [])
    else Record(AwaitingCouncilApproval, proposals, ApprovalPending, None, Pending, Keys(proposals))
  }

  function WithStatus(ps: seq<Proposal>, status: ProposalStatus): seq<Proposal> {
    seq(|ps|, i requires 0 <= i < |ps| => ps[i].(status := status))
  }

  /** approve_rl_kpi_iteration on a record that awaits approval. */
  function Decided(r: Record, approve: bool, decidedBy: string): Record {
    r.(status := if approve then CouncilApproved else CouncilRejected,
       proposals := WithStatus(r.proposals, if approve then Approved else Rejected),
       approval := if approve then ApprovalGiven else ApprovalDenied,
       approvedBy := Some(decidedBy))
  }

  /** The reported value of a key; every period reports every key. */
  function Reported(ms: seq<Metric>, key: Key): Option<real> {
    if ms == [] then None
    else if ms[|ms| - 1].key == key then Some(ms[|ms| - 1].value)
    else Reported(ms[..|ms| - 1], key)
  }

  /** _measure_rl_kpi_proposal_effects, with its filter on reported keys. */
  function WithEffects(ps: seq<Proposal>, ms: seq<Metric>): seq<Proposal> {
    if ps == [] then []
    else
      var last, init := ps[|ps| - 1], WithEffects(ps[..|ps| - 1], ms);
      var value := Reported(ms, last.key);
      if value.None? then init else init + [last.(effect := Some(Measured(last, value.value)))]
  }

  predicate SomeEffect(ps: seq<Proposal>, status: EffectStatus) {
    exists i :: 0 <= i < |ps| && ps[i].effect.Some? && ps[i].effect.value.status == status
  }

  /** _overall_rl_kpi_effect_status. */
  function Overall(ps: seq<Proposal>): EffectStatus {
    if SomeEffect(ps, Degraded) then Degraded else if SomeEffect(ps, Improved) then Improved else Stable
  }

  function AfterMeasuring(r: Record, ms: seq<Metric>): Record {
    var measured := WithEffects(r.proposals, ms);
    r.(proposals := measured, effectStatus := Overall(measured),
       status := if Overall(measured) == Degraded then RollbackRequired else EffectMeasured)
  }

  /** The KPI report of each period. */
  function Reports(periods: seq<seq<Event>>): seq<seq<Metric>> {
    seq(|periods|, i requires 0 <= i < |periods| => Metrics(periods[i]))
  }

  type Id = (string, string)

  /** What the three handlers return or raise. */
  function Created(rs: map<Id, Record>, id: Id, periods: seq<seq<Event>>): Result<Record, ApiError> {
    if id in rs then Err(Conflict) else Ok(NewIteration(Proposals(Reports(periods))))
  }

  function ApprovedAt(rs: map<Id, Record>, id: Id, approve: bool, decidedBy: string): Result<Record, ApiError> {
    if id !in rs then Err(NotFound)
    else if rs[id].status != AwaitingCouncilApproval then Err(NotAwaitingApproval)
    else Ok(Decided(rs[id], approve, decidedBy))
  }

  function MeasuredAt(rs: map<Id, Record>, id: Id, evaluation: seq<Event>): Result<Record, ApiError> {
    if id !in rs then Err(NotFound)
    else if rs[id].approval != ApprovalGiven then Err(RequiresApproval)
    else Ok(AfterMeasuring(rs[id], Metrics(evaluation)))
  }

  /** A record that a handler returns is saved; one that raises saves nothing. */
  function Saved(rs: map<Id, Record>, id: Id, r: Result<Record, ApiError>): map<Id, Record> {
    if r.Ok? then rs[id := r.value] else rs
  }

  /** The RL-KPI part of the repository and its three handlers. */
  class InMemoryAnalyticsRepository {
    var iterations: map<Id, Record>

    constructor ()
      ensures iterations == map[]
    {
      iterations := map[];
    }

    method CreateIteration(id: Id, periods: seq<seq<Event>>) returns (r: Result<Record, ApiError>)
      modifies this
      ensures r == Created(old(iterations), id, periods)
      ensures iterations == Saved(old(iterations), id, r)
    {
      if id in iterations {
        return Err(Conflict);
      }
      var proposals := BuildProposals(Reports(periods));
      var record := NewIteration(proposals);
      iterations := iterations[id := record];
      return Ok(record);
    }

    method ApproveIteration(id: Id, approve: bool, decidedBy: string) returns (r: Result<Record, ApiError>)
      modifies this
      ensures r == ApprovedAt(old(iterations), id, approve, decidedBy)
      ensures iterations == Saved(old(iterations), id, r)
    {
      if id !in iterations {
        return Err(NotFound);
      }
      var record := iterations[id];
      if record.status != AwaitingCouncilApproval {
        return Err(NotAwaitingApproval);
      }
      var updated := Decided(record, approve, decidedBy);
      iterations := iterations[id := updated];
      return Ok(updated);
    }

    method MeasureEffect(id: Id, evaluation: seq<Event>) returns (r: Result<Record, ApiError>)
      modifies this
      ensures r == MeasuredAt(old(iterations), id, evaluation)
      ensures iterations == Saved(old(iterations), id, r)
    {
      if id !in iterations {
        return Err(NotFound);
      }
      var record := iterations[id];
      if record.approval != ApprovalGiven {
        return Err(RequiresApproval);
      }
      var updated := AfterMeasuring(record, Metrics(evaluation));
      iterations := iterations[id := updated];
      return Ok(updated);
    }
  }

  // ---- Runs ---------------------------------------------------------------

  datatype Op =
    | Create(id: Id, periods: seq<seq<Event>>)
    | Approve(id: Id, approve: bool, decidedBy: string)
    | Measure(id: Id, evaluation: seq<Event>)

  /** The repository, and how many council decisions each iteration has received. */
  datatype System = System(records: map<Id, Record>, decisions: map<Id, nat>)

  const INITIAL := System(map[], map[])

  function Next(s: System, op: Op): System {
    match op
    case Create(id, periods) =>
      var r := Created(s.records, id, periods);
      System(Saved(s.records, id, r), if r.Ok? then s.decisions[id := 0] else s.decisions)
    case Approve(id, approve, who) =>
      var r := ApprovedAt(s.records, id, approve, who);
      System(Saved(s.records, id, r),
             if r.Ok? && id in s.decisions then s.decisions[id := s.decisions[id] + 1] else s.decisions)
    case Measure(id, es) => s.(records := Saved(s.records, id, MeasuredAt(s.records, id, es)))
  }

  function Run(s: System, ops: seq<Op>): System {
    if ops == [] then s else Next(Run(s, ops[..|ops| - 1]), ops[|ops| - 1])
  }

  predicate All(ps: seq<Proposal>, status: ProposalStatus, measured: bool) {
    forall i :: 0 <= i < |ps| ==> ps[i].status == status && ps[i].effect.Some? == measured
  }

  /** Reported values are on the grid, the lift lands on target, and a stored effect is
      the measured one. */
  predicate Truthful(p: Proposal) {
    && OnGrid(p.latest) && Lands(p)
    && (p.effect.Some? ==>
          OnGrid(p.effect.value.evaluation) && p.effect.value == Measured(p, p.effect.value.evaluation))
  }

  predicate AllTruthful(ps: seq<Proposal>) {
    forall i :: 0 <= i < |ps| ==> Truthful(ps[i])
  }

  /** The reported value moved against the proposal's direction. */
  predicate Worsened(p: Proposal) {
    && p.effect.Some?
    && if p.direction == Increase then p.effect.value.evaluation < p.latest else p.effect.value.evaluation > p.latest
  }

  /** Iteration status, approval status, proposal statuses, effects and the number of
      council decisions all tell the same story. */
  predicate Agrees(r: Record, decisions: nat) {
    && r.metrics == Keys(r.proposals) && AllTruthful(r.proposals)
    && (r.status == MonitoringOnly <==> r.proposals == [])
    && match r.status
       case MonitoringOnly => r.approval == NotRequired && decisions == 0 && r.effectStatus == Pending
       case AwaitingCouncilApproval =>
         r.approval == ApprovalPending && decisions == 0 && r.effectStatus == Pending
         && All(r.proposals, Proposed, false)
       case CouncilApproved =>
         r.approval == ApprovalGiven && decisions == 1 && r.effectStatus == Pending
         && All(r.proposals, Approved, false)
       case CouncilRejected =>
         r.approval == ApprovalDenied && decisions == 1 && r.effectStatus == Pending
         && All(r.proposals, Rejected, false)
       case EffectMeasured =>
         r.approval == ApprovalGiven && decisions == 1 && r.effectStatus == Overall(r.proposals)
         && All(r.proposals, Approved, true) && !SomeEffect(r.proposals, Degraded)
       case RollbackRequired =>
         r.approval == ApprovalGiven && decisions == 1 && r.effectStatus == Overall(r.proposals)
         && All(r.proposals, Approved, true) && SomeEffect(r.proposals, Degraded)
  }

  lemma {:induction false} EveryKeyReported(ms: seq<Metric>, key: Key, i: nat)
    requires i < |ms| && ms[i].key == key
    requires forall j :: 0 <= j < |ms| ==> OnGrid(ms[j].value)
    ensures Reported(ms, key).Some? && OnGrid(Reported(ms, key).value)
  {
    if ms[|ms| - 1].key != key {
      EveryKeyReported(ms[..|ms| - 1], key, i);
    }
  }

  lemma MetricsReportEveryKey(es: seq<Event>, key: Key)
    ensures Reported(Metrics(es), key).Some? && OnGrid(Reported(Metrics(es), key).value)
  {
    forall j | 0 <= j < |DEFINITIONS| ensures OnGrid(Metrics(es)[j].value) {
      Round4Facts(Raw(es, DEFINITIONS[j].key));
    }
    var i: nat := match key
      case ActiveMembers => 0
      case NewMembers => 1
      case MaterialsPublished => 2
      case ContentViews => 3
      case AvgReadingMinutes => 4
      case Comments => 5
      case TasksCompleted => 6
      case InitiativesCreated => 7;
    EveryKeyReported(Metrics(es), key, i);
  }

  /** Measuring drops, adds and reorders nothing: only the effects change. */
  lemma {:induction false} EffectsKeepProposals(ps: seq<Proposal>, es: seq<Event>)
    ensures var qs := WithEffects(ps, Metrics(es));
            && |qs| == |ps|
            && (forall i :: 0 <= i < |ps| ==> qs[i].effect.Some? && qs[i].(effect := ps[i].effect) == ps[i])
            && (AllTruthful(ps) ==> AllTruthful(qs))
  {
    if ps != [] {
      var last := ps[|ps| - 1];
      EffectsKeepProposals(ps[..|ps| - 1], es);
      MetricsReportEveryKey(es, last.key);
      assert AllTruthful(ps) ==> Truthful(last);
    }
  }

  lemma MeasuringAgrees(r: Record, decisions: nat, es: seq<Event>)
    requires Agrees(r, decisions) && r.approval == ApprovalGiven
    ensures Agrees(AfterMeasuring(r, Metrics(es)), decisions)
    ensures Keys(AfterMeasuring(r, Metrics(es)).proposals) == Keys(r.proposals)
  {
    EffectsKeepProposals(r.proposals, es);
  }

  lemma DecidingAgrees(r: Record, approve: bool, who: string)
    requires Agrees(r, 0) && r.status == AwaitingCouncilApproval
    ensures Agrees(Decided(r, approve, who), 1)
    ensures Keys(Decided(r, approve, who).proposals) == Keys(r.proposals)
  {
    assert Keys(Decided(r, approve, who).proposals) == Keys(r.proposals);
  }

  /** Every fresh proposal lands on target. */
  lemma ProposalsLand(periods: seq<seq<Event>>, k: nat)
    requires k < |Proposals(Reports(periods))|
    ensures var p := Proposals(Reports(periods))[k];
            p.status == Proposed && p.effect.None? && Truthful(p)
  {
    var es, reports := periods[|periods| - 1], Reports(periods);
    ProposalsMatchOffTarget(reports, Metrics(es));
    var m := OffTarget(Metrics(es))[k];
    OffTargetExactly(Metrics(es), m);
    var i :| 0 <= i < |DEFINITIONS| && Metrics(es)[i] == m;
    LiftsLandOnTarget(reports, es, i);
  }

  lemma CreatingAgrees(periods: seq<seq<Event>>)
    ensures Agrees(NewIteration(Proposals(Reports(periods))), 0)
  {
    var ps := Proposals(Reports(periods));
    forall k | 0 <= k < |ps|
      ensures ps[k].status == Proposed && ps[k].effect.None? && Truthful(ps[k])
    {
      ProposalsLand(periods, k);
    }
  }

  ghost predicate Sound(s: System) {
    && s.records.Keys == s.decisions.Keys
    && forall id :: id in s.records ==> Agrees(s.records[id], s.decisions[id])
  }

  /** A step touches only its own iteration. */
  lemma StepIsLocal(s: System, op: Op, id: Id)
    requires id != op.id
    ensures id in Next(s, op).records <==> id in s.records
    ensures id in Next(s, op).decisions <==> id in s.decisions
    ensures id in s.records ==> Next(s, op).records[id] == s.records[id]
    ensures id in s.decisions ==> Next(s, op).decisions[id] == s.decisions[id]
  {
  }

  lemma StepAgrees(s: System, op: Op)
    requires Sound(s)
    ensures var n := Next(s, op);
            && (op.id in n.records <==> op.id in n.decisions)
            && (op.id in n.records ==> Agrees(n.records[op.id], n.decisions[op.id]))
  {
    if op.id !in s.records {
      if op.Create? {
        CreatingAgrees(op.periods);
      }
    } else {
      var r, d := s.records[op.id], s.decisions[op.id];
      assert Agrees(r, d);
      if op.Measure? && r.approval == ApprovalGiven {
        MeasuringAgrees(r, d, op.evaluation);
      } else if op.Approve? && r.status == AwaitingCouncilApproval {
        DecidingAgrees(r, op.approve, op.decidedBy);
      }
    }
  }

  lemma StepStaysSound(s: System, op: Op)
    requires Sound(s)
    ensures Sound(Next(s, op))
  {
    var n := Next(s, op);
    StepAgrees(s, op);
    forall id ensures id in n.records <==> id in n.decisions
              ensures id in n.records ==> Agrees(n.records[id], n.decisions[id])
    {
      if id != op.id {
        StepIsLocal(s, op, id);
      }
    }
  }

  /** In every reachable state all iterations agree with themselves: effects exist only
      after exactly one approval, ROLLBACK_REQUIRED exactly with a degraded effect. */
  lemma {:induction false} RunsStaySound(ops: seq<Op>)
    ensures Sound(Run(INITIAL, ops))
  {
    if ops != [] {
      RunsStaySound(ops[..|ops| - 1]);
      StepStaysSound(Run(INITIAL, ops[..|ops| - 1]), ops[|ops| - 1]);
    }
  }

  /** In every reachable state a measured iteration demands a rollback exactly when some
      reported value moved against the direction its proposal promised. */
  lemma RollbackMeansWorse(ops: seq<Op>, id: Id)
    requires id in Run(INITIAL, ops).records
    ensures var r := Run(INITIAL, ops).records[id];
            r.status == RollbackRequired <==> exists i :: 0 <= i < |r.proposals| && Worsened(r.proposals[i])
  {
    RunsStaySound(ops);
    var s := Run(INITIAL, ops);
    var r := s.records[id];
    assert Agrees(r, s.decisions[id]);
    forall i | 0 <= i < |r.proposals|
      ensures Worsened(r.proposals[i]) <==>
              r.proposals[i].effect.Some? && r.proposals[i].effect.value.status == Degraded
    {
      var p := r.proposals[i];
      assert Truthful(p);
      if p.effect.Some? {
        EffectIsExact(p, p.effect.value.evaluation);
      }
    }
  }

  /** In every reachable state every proposal, decided or measured, lands on target. */
  lemma ReachableProposalsLand(ops: seq<Op>, id: Id, i: nat)
    requires id in Run(INITIAL, ops).records && i < |Run(INITIAL, ops).records[id].proposals|
    ensures Lands(Run(INITIAL, ops).records[id].proposals[i])
  {
    RunsStaySound(ops);
    var s := Run(INITIAL, ops);
    assert Agrees(s.records[id], s.decisions[id]);
    assert Truthful(s.records[id].proposals[i]);
  }

  /** What a proposal proposes: everything but its status and its effect. */
  function Plan(p: Proposal): Proposal {
    p.(status := Proposed, effect := None)
  }

  function Plans(ps: seq<Proposal>): seq<Proposal> {
    seq(|ps|, i requires 0 <= i < |ps| => Plan(ps[i]))
  }

  lemma SamePlans(ps: seq<Proposal>, qs: seq<Proposal>)
    requires |ps| == |qs| && forall i :: 0 <= i < |ps| ==> Plan(ps[i]) == Plan(qs[i])
    ensures Plans(ps) == Plans(qs)
  {
  }

  function PlansOf(s: System, id: Id): seq<Proposal> {
    if id in s.records then Plans(s.records[id].proposals) else []
  }

  lemma StepKeepsPlans(s: System, op: Op, id: Id)
    requires id in s.records
    ensures id in Next(s, op).records && PlansOf(Next(s, op), id) == PlansOf(s, id)
  {
    var ps, qs := s.records[id].proposals, Next(s, op).records[id].proposals;
    if id != op.id {
      StepIsLocal(s, op, id);
    } else if op.Measure? && s.records[id].approval == ApprovalGiven {
      EffectsKeepProposals(ps, op.evaluation);
      forall i | 0 <= i < |ps| ensures Plan(ps[i]) == Plan(qs[i]) {
        assert qs[i].(effect := ps[i].effect) == ps[i];
      }
      SamePlans(ps, qs);
    } else {
      SamePlans(ps, qs);
    }
  }

  /** From any state on, no decision and no measurement, however often repeated, loses,
      reorders or changes what was proposed: key, baseline, latest value, target, direction
      and lift. */
  lemma {:induction false} ProposalsAreKept(s: System, future: seq<Op>, id: Id)
    requires id in s.records
    ensures id in Run(s, future).records && PlansOf(Run(s, future), id) == PlansOf(s, id)
  {
    if future != [] {
      var init, op := future[..|future| - 1], future[|future| - 1];
      ProposalsAreKept(s, init, id);
      StepKeepsPlans(Run(s, init), op, id);
    }
  }
}
