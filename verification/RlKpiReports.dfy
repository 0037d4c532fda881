/** What the RL-KPI service of services/analytics-engine/analytics_engine/api.py reports,
    proposes and decides, in terms of the events and the council's decisions. */
module RlKpiReports {
  import opened Wrappers
  import opened RlKpi

  // ---- Metrics ------------------------------------------------------------

  /** A period without events reports zero everywhere. */
  lemma EmptyPeriod(key: Key)
    ensures Raw([], key) == 0.0
  {
    assert ActiveHashes([]) == {};
  }

  /** How many samples a reading event stands for: one if it does not say or says zero. */
  lemma SamplesCounted(es: seq<Event>, e: Event)
    ensures Total(es + [e], SampleCount())
         == Total(es, SampleCount())
            + (if e.kind != ReadingTimeRecorded then 0.0
               else if e.samples == None || e.samples == Some(0) then 1.0 else e.samples.value as real)
    ensures Total([], SampleCount()) == 0.0
  {
    TotalSnoc(es, e, SampleCount());
  }

  /** The average reading time, in minutes per sample, times samples and seconds per minute
      is the recorded time; without samples it is zero. */
  lemma AverageExactly(es: seq<Event>)
    ensures var samples := Total(es, SampleCount());
            if samples == 0.0 then Raw(es, AvgReadingMinutes) == 0.0
            else Raw(es, AvgReadingMinutes) * samples * 60.0 == Total(es, ValueIf(ReadingTimeRecorded))
  {
    var total, count := Total(es, ValueIf(ReadingTimeRecorded)), Total(es, SampleCount());
    if count != 0.0 {
      AverageTimes(total, count);
    }
  }

  lemma AverageTimes(total: real, count: real)
    requires count != 0.0
    ensures Average(total, count) * count * 60.0 == total
  {
    var q := total / count;
    assert q * count == total;
    assert q / 60.0 * count * 60.0 == q * count;
  }

  /** What is reported of a metric: its key and bounds, the value to the nearest
      ten-thousandth, and a status that looks at the value before rounding. */
  lemma MetricExactly(es: seq<Event>, i: nat)
    requires i < |DEFINITIONS|
    ensures var m, raw := Metrics(es)[i], Raw(es, DEFINITIONS[i].key);
            && m.key == DEFINITIONS[i].key && m.min == DEFINITIONS[i].min && m.max == DEFINITIONS[i].max
            && OnGrid(m.value) && raw - 0.00005 <= m.value <= raw + 0.00005
            && (m.status == BelowTarget <==> m.min.Some? && raw < m.min.value)
            && (m.status == AboveTarget <==> m.max.Some? && raw > m.max.value)
  {
    Round4Facts(Raw(es, DEFINITIONS[i].key));
    BoundsAreEven(i);
  }

  /** A value half-way between two ten-thousandths is reported as the even one. */
  lemma TieExactly(x: real)
    requires Round4(x) - x == 0.00005 || x - Round4(x) == 0.00005
    ensures EvenOnGrid(Round4(x))
  {
    Round4Facts(x);
    var n := RoundHalfEven(x * 10000.0);
    assert Round4(x) * 10000.0 == n as real;
    HalfIsEven(x * 10000.0);
  }

  lemma HalfIsEven(x: real)
    requires RoundHalfEven(x) as real - x == 0.5 || x - RoundHalfEven(x) as real == 0.5
    ensures RoundHalfEven(x) % 2 == 0
  {
  }

  /** An empty period falls short of every target, by the target. */
  lemma QuietPeriod(i: nat)
    requires i < 8
    ensures var m := Metrics([])[i];
            && m.key == [ActiveMembers, NewMembers, MaterialsPublished, ContentViews,
                         AvgReadingMinutes, Comments, TasksCompleted, InitiativesCreated][i]
            && m.value == 0.0 && m.status == BelowTarget && DirectionFor(m) == Increase
            && LiftFor(m, Increase) == [15.0, 3.0, 20.0, 10000.0, 3.0, 50.0, 10.0, 1.0][i]
  {
    EmptyPeriod(DEFINITIONS[i].key);
    Round4Facts(0.0);
    BoundsAreEven(i);
    Round4Facts(DEFINITIONS[i].min.value);
  }

  /** A period in which the bounded metrics are one over their targets. */
  const BUSY: seq<Event> := [
    Event(MemberActive, 26.0, None, None), Event(MemberJoined, 6.0, None, None),
    Event(MaterialPublished, 31.0, None, None), Event(InitiativeCreated, 3.0, None, None)]

  lemma BusyValues()
    ensures Raw(BUSY, ActiveMembers) == 26.0 && Raw(BUSY, NewMembers) == 6.0
    ensures Raw(BUSY, MaterialsPublished) == 31.0 && Raw(BUSY, InitiativesCreated) == 3.0
  {
    assert BUSY[..3] == [BUSY[0], BUSY[1], BUSY[2]] && BUSY[..3][..2] == [BUSY[0], BUSY[1]];
    assert BUSY[..3][..2][..1] == [BUSY[0]] && BUSY[..3][..2][..1][..0] == [];
    assert ActiveHashes(BUSY) == {};
    TotalsOf(BUSY[0], BUSY[1], BUSY[2], BUSY[3], AnonymousActivity());
    TotalsOf(BUSY[0], BUSY[1], BUSY[2], BUSY[3], ValueIf(MemberJoined));
    TotalsOf(BUSY[0], BUSY[1], BUSY[2], BUSY[3], ValueIf(MaterialPublished));
    TotalsOf(BUSY[0], BUSY[1], BUSY[2], BUSY[3], ValueIf(InitiativeCreated));
  }

  lemma TotalsOf(a: Event, b: Event, c: Event, d: Event, f: Event -> real)
    ensures Total([a, b, c, d], f) == f(a) + f(b) + f(c) + f(d)
  {
    TotalSnoc([a, b, c], d, f);
    TotalSnoc([a, b], c, f);
    TotalSnoc([a], b, f);
    TotalSnoc([], a, f);
    assert [a, b, c] + [d] == [a, b, c, d] && [a, b] + [c] == [a, b, c] && [a] + [b] == [a, b] && [] + [a] == [a];
  }

  /** It is to fall by one in each of them. */
  lemma BusyPeriod(i: nat)
    requires i == 0 || i == 1 || i == 2 || i == 7
    ensures var m := Metrics(BUSY)[i];
            && m.value == [26.0, 6.0, 31.0, 0.0, 0.0, 0.0, 0.0, 3.0][i]
            && m.status == AboveTarget && DirectionFor(m) == Decrease && LiftFor(m, Decrease) == 1.0
  {
    BusyValues();
    Round4Facts(26.0);
    Round4Facts(6.0);
    Round4Facts(31.0);
    Round4Facts(3.0);
    Round4Facts(1.0);
  }

  // ---- Proposals ----------------------------------------------------------

  ghost predicate DistinctKeys(ms: seq<Metric>) {
    forall i, j :: 0 <= i < j < |ms| ==> ms[i].key != ms[j].key
  }

  lemma MetricKeysAreDistinct(es: seq<Event>)
    ensures DistinctKeys(Metrics(es))
  {
    var ms := Metrics(es);
    forall i, j | 0 <= i < j < |ms| ensures ms[i].key != ms[j].key {
      assert ms[i].key == DEFINITIONS[i].key && ms[j].key == DEFINITIONS[j].key;
    }
  }

  lemma {:induction false} NoValues(ms: seq<Metric>, key: Key)
    requires forall i :: 0 <= i < |ms| ==> ms[i].key != key
    ensures ValuesOf(ms, key) == []
  {
    if ms != [] {
      NoValues(ms[..|ms| - 1], key);
    }
  }

  lemma {:induction false} OneValue(ms: seq<Metric>, i: nat)
    requires DistinctKeys(ms) && i < |ms|
    ensures ValuesOf(ms, ms[i].key) == [ms[i].value] && Reported(ms, ms[i].key) == Some(ms[i].value)
  {
    var n := |ms| - 1;
    if i < n {
      OneValue(ms[..n], i);
      assert ms[n].key != ms[i].key;
    } else {
      NoValues(ms[..n], ms[n].key);
    }
  }

  /** What a metric's baseline averages: its reported value in each period, in order. */
  lemma {:induction false} SeriesExactly(periods: seq<seq<Event>>, i: nat)
    requires i < |DEFINITIONS|
    ensures var xs := Series(Reports(periods), DEFINITIONS[i].key);
            |xs| == |periods| && forall j :: 0 <= j < |periods| ==> xs[j] == Metrics(periods[j])[i].value
  {
    if periods != [] {
      var n := |periods| - 1;
      SeriesExactly(periods[..n], i);
      assert Reports(periods)[..n] == Reports(periods[..n]);
      MetricKeysAreDistinct(periods[n]);
      OneValue(Metrics(periods[n]), i);
    }
  }

  lemma {:induction false} SumPieces(a: seq<real>, b: seq<real>)
    ensures SumOf(a + b) == SumOf(a) + SumOf(b)
    ensures |b| == 1 ==> SumOf(b) == b[0]
  {
    if b == [] {
      assert a + b == a;
    } else {
      var init, last := b[..|b| - 1], b[|b| - 1];
      SumPieces(a, init);
      assert (a + b)[..|a + b| - 1] == a + init;
    }
  }

  /** The baseline is the mean to the nearest ten-thousandth. */
  lemma BaselineExactly(xs: seq<real>)
    requires xs != []
    ensures OnGrid(Baseline(xs))
    ensures SumOf(xs) / |xs| as real - 0.00005 <= Baseline(xs) <= SumOf(xs) / |xs| as real + 0.00005
  {
    Round4Facts(SumOf(xs) / |xs| as real);
  }

  /** A proposal says what the off-target metric of the last period says, with the mean of
      its reported values as baseline. */
  lemma ProposalExactly(periods: seq<seq<Event>>, k: nat) returns (i: nat)
    requires k < |Proposals(Reports(periods))|
    ensures periods != [] && i < |DEFINITIONS|
    ensures var p, m := Proposals(Reports(periods))[k], Metrics(periods[|periods| - 1])[i];
            && m.status != OnTrack && p.key == DEFINITIONS[i].key && p.latest == m.value
            && p.min == DEFINITIONS[i].min && p.max == DEFINITIONS[i].max
            && p.direction == (if m.status == AboveTarget then Decrease else Increase)
            && p.baseline == Baseline(Series(Reports(periods), DEFINITIONS[i].key))
  {
    var es, reports := periods[|periods| - 1], Reports(periods);
    ProposalsMatchOffTarget(reports, Metrics(es));
    var m := OffTarget(Metrics(es))[k];
    OffTargetExactly(Metrics(es), m);
    i :| 0 <= i < |DEFINITIONS| && Metrics(es)[i] == m;
  }

  lemma OffTargetOne(m: Metric)
    ensures OffTarget([m]) == if m.status == OnTrack then [] else [m]
  {
    OffTargetSnoc([], m);
    assert [] + [m] == [m];
  }

  lemma OffTargetSnoc(ms: seq<Metric>, m: Metric)
    ensures OffTarget(ms + [m]) == OffTarget(ms) + (if m.status == OnTrack then [] else [m])
  {
    assert (ms + [m])[..|ms|] == ms;
  }

  /** Proposals keep the order of the metrics: they go piece by piece. */
  lemma {:induction false} OffTargetPieces(a: seq<Metric>, b: seq<Metric>)
    ensures OffTarget(a + b) == OffTarget(a) + OffTarget(b)
  {
    if b == [] {
      assert a + b == a;
    } else {
      var init, last := b[..|b| - 1], b[|b| - 1];
      OffTargetPieces(a, init);
      assert b == init + [last] && a + b == (a + init) + [last];
      OffTargetSnoc(a + init, last);
      OffTargetSnoc(init, last);
      var tail := if last.status == OnTrack then [] else [last];
      assert OffTarget(a) + (OffTarget(init) + tail) == (OffTarget(a) + OffTarget(init)) + tail;
    }
  }

  // ---- Decisions ----------------------------------------------------------

  /** The council's decision on an iteration: the first one made while it has proposals. */
  function Verdict(ops: seq<Op>, id: Id): Option<bool> {
    if ops == [] then None
    else
      var init, op := ops[..|ops| - 1], ops[|ops| - 1];
      var rs := Run(INITIAL, init).records;
      if Verdict(init, id).Some? then Verdict(init, id)
      else if op.Approve? && op.id == id && id in rs && rs[id].proposals != [] then Some(op.approve)
      else None
  }

  /** The approval status says what that decision was. */
  predicate Follows(r: Record, verdict: Option<bool>) {
    && (r.approval == NotRequired <==> r.proposals == [])
    && (r.proposals == [] ==> verdict.None?)
    && (r.proposals != [] ==>
          r.approval == if verdict.None? then ApprovalPending else if verdict.value then ApprovalGiven else ApprovalDenied)
  }

  /** In every reachable state an iteration follows the council's one decision. */
  lemma {:induction false} VerdictIsFollowed(ops: seq<Op>, id: Id)
    ensures var rs := Run(INITIAL, ops).records;
            if id in rs then Follows(rs[id], Verdict(ops, id)) else Verdict(ops, id).None?
  {
    if ops != [] {
      var init, op := ops[..|ops| - 1], ops[|ops| - 1];
      var s := Run(INITIAL, init);
      VerdictIsFollowed(init, id);
      RunsStaySound(init);
      if id in s.records {
        assert Agrees(s.records[id], s.decisions[id]);
        if op.Measure? && op.id == id {
          EffectsKeepProposals(s.records[id].proposals, op.evaluation);
        }
      }
      if op.id != id {
        StepIsLocal(s, op, id);
      }
    }
  }

  /** A decision is accepted exactly for a known iteration with proposals and no decision so
      far; what it decides shows in the status of the iteration and of every proposal. */
  lemma ApprovalExactly(ops: seq<Op>, id: Id, approve: bool, who: string)
    ensures var rs := Run(INITIAL, ops).records;
            var r := ApprovedAt(rs, id, approve, who);
            && (r.Ok? <==> id in rs && rs[id].proposals != [] && Verdict(ops, id).None?)
            && (r == Err(NotFound) <==> id !in rs)
            && (r.Ok? ==>
                  && r.value.status == (if approve then CouncilApproved else CouncilRejected)
                  && r.value.approvedBy == Some(who)
                  && |r.value.proposals| == |rs[id].proposals|
                  && forall i :: 0 <= i < |rs[id].proposals| ==>
                       r.value.proposals[i] == rs[id].proposals[i].(status := if approve then Approved else Rejected))
  {
    VerdictIsFollowed(ops, id);
    RunsStaySound(ops);
    var s := Run(INITIAL, ops);
    if id in s.records {
      assert Agrees(s.records[id], s.decisions[id]);
    }
  }

  /** A measurement is accepted exactly for an iteration that the council approved, and
      compares each proposal with what the evaluation period reports of its metric. */
  lemma MeasurementExactly(ops: seq<Op>, id: Id, es: seq<Event>)
    ensures var rs := Run(INITIAL, ops).records;
            var r := MeasuredAt(rs, id, es);
            && (r.Ok? <==> id in rs && Verdict(ops, id) == Some(true))
            && (r == Err(NotFound) <==> id !in rs)
            && (r.Ok? ==> |r.value.proposals| == |rs[id].proposals|)
  {
    VerdictIsFollowed(ops, id);
    var rs := Run(INITIAL, ops).records;
    if id in rs {
      EffectsKeepProposals(rs[id].proposals, es);
    }
  }

  /** The effect of a proposal is measured against the reported value of its own metric. */
  lemma {:induction false} EffectComparesOwnMetric(ps: seq<Proposal>, es: seq<Event>, k: nat, i: nat)
    requires k < |ps| && i < |DEFINITIONS| && ps[k].key == DEFINITIONS[i].key
    ensures |WithEffects(ps, Metrics(es))| == |ps|
    ensures var e := WithEffects(ps, Metrics(es))[k].effect;
            e.Some? && e.value.baseline == ps[k].latest && e.value.evaluation == Metrics(es)[i].value
  {
    var n := |ps| - 1;
    EffectsKeepProposals(ps, es);
    EffectsKeepProposals(ps[..n], es);
    MetricKeysAreDistinct(es);
    OneValue(Metrics(es), i);
    if k < n {
      EffectComparesOwnMetric(ps[..n], es, k, i);
      MetricsReportEveryKey(es, ps[n].key);
    }
  }

  /** The relative change is the change in parts of the latest value, to the nearest
      ten-thousandth, and there is none for a latest value that is not positive. */
  lemma RelativeDeltaExactly(p: Proposal, evaluation: real)
    requires OnGrid(p.latest) && OnGrid(evaluation)
    ensures var e := Measured(p, evaluation);
            && (e.relativeDelta.Some? <==> p.latest > 0.0)
            && (e.relativeDelta.Some? ==>
                  && OnGrid(e.relativeDelta.value)
                  && (evaluation - p.latest) / p.latest - 0.00005 <= e.relativeDelta.value
                     <= (evaluation - p.latest) / p.latest + 0.00005)
            && (e.rollbackRecommended <==> e.status == Degraded)
  {
    EffectIsExact(p, evaluation);
    if p.latest > 0.0 {
      Round4Facts((evaluation - p.latest) / p.latest);
    }
  }

  /** The reported value moved in the proposal's direction. */
  predicate Bettered(p: Proposal) {
    && p.effect.Some?
    && if p.direction == Increase then p.effect.value.evaluation > p.latest else p.effect.value.evaluation < p.latest
  }

  /** In every reachable state the effect of a measured iteration is degraded if some value
      moved against its proposal, else improved if some moved with it, else stable. */
  lemma EffectStatusExactly(ops: seq<Op>, id: Id)
    requires id in Run(INITIAL, ops).records
    requires Run(INITIAL, ops).records[id].status in {EffectMeasured, RollbackRequired}
    ensures var r := Run(INITIAL, ops).records[id];
            r.effectStatus == if exists i :: 0 <= i < |r.proposals| && Worsened(r.proposals[i]) then Degraded
                              else if exists i :: 0 <= i < |r.proposals| && Bettered(r.proposals[i]) then Improved
                              else Stable
  {
    RunsStaySound(ops);
    var s := Run(INITIAL, ops);
    var r := s.records[id];
    assert Agrees(r, s.decisions[id]);
    forall i | 0 <= i < |r.proposals|
      ensures Worsened(r.proposals[i]) <==> r.proposals[i].effect.value.status == Degraded
      ensures Bettered(r.proposals[i]) <==> r.proposals[i].effect.value.status == Improved
    {
      var p := r.proposals[i];
      assert Truthful(p) && p.effect.Some?;
      EffectIsExact(p, p.effect.value.evaluation);
    }
  }
}
