/** The idempotent inbox of libs/shared/events.py: the store's two sets, and every
    interleaving of handler calls that succeed, raise or are cancelled. */
module Inbox {
  import opened Wrappers
  import opened Runs
  import Events

  datatype Store = Store(inProgress: set<string>, completed: set<string>) {
    predicate Free(id: string) {
      id !in completed && id !in inProgress
    }

    function Begin(id: string): Store {
      if Free(id) then this.(inProgress := inProgress + {id}) else this
    }

    function Complete(id: string): Store {
      Store(inProgress - {id}, completed + {id})
    }

    function Fail(id: string): Store {
      this.(inProgress := inProgress - {id})
    }
  }

  datatype TokenError = InvalidEventId

  class InMemoryEventIdempotencyStore {
    var inProgress: set<string>
    var completed: set<string>

    ghost function Value(): Store
      reads this
    {
      Store(inProgress, completed)
    }

    constructor ()
      ensures Value() == Store({}, {})
    {
      inProgress, completed := {}, {};
    }

    method Begin(eventId: string) returns (r: Result<bool, TokenError>)
      modifies this
      ensures var id := Events.NormalizeToken(eventId);
              if id.None? then r.Err? && Value() == old(Value())
              else r == Ok(old(Value()).Free(id.value)) && Value() == old(Value()).Begin(id.value)
    {
      var id := Events.NormalizeToken(eventId);
      if id.None? {
        return Err(InvalidEventId);
      }
      if id.value in completed || id.value in inProgress {
        return Ok(false);
      }
      inProgress := inProgress + {id.value};
      return Ok(true);
    }

    method Complete(eventId: string) returns (r: Result<(), TokenError>)
      modifies this
      ensures var id := Events.NormalizeToken(eventId);
              if id.None? then r.Err? && Value() == old(Value())
              else r.Ok? && Value() == old(Value()).Complete(id.value)
    {
      var id := Events.NormalizeToken(eventId);
      if id.None? {
        return Err(InvalidEventId);
      }
      inProgress := inProgress - {id.value};
      completed := completed + {id.value};
      return Ok(());
    }

    method Fail(eventId: string) returns (r: Result<(), TokenError>)
      modifies this
      ensures var id := Events.NormalizeToken(eventId);
              if id.None? then r.Err? && Value() == old(Value())
              else r.Ok? && Value() == old(Value()).Fail(id.value)
    {
      var id := Events.NormalizeToken(eventId);
      if id.None? {
        return Err(InvalidEventId);
      }
      inProgress := inProgress - {id.value};
      return Ok(());
    }
  }

  // ---- Interleaved IdempotentEventProcessor.handle calls ------------------

  /** Where one call stands. The handler's await is its only suspension point. */
  datatype Phase =
    | Running(id: string)     // inside the handler
    | Refused(id: string)     // begin answered False
    | Succeeded(id: string)   // the handler returned and complete ran
    | Raised(id: string)      // the handler raised an Exception and fail ran
    | Cancelled(id: string)   // CancelledError is not an Exception: neither ran

  datatype System = System(store: Store, calls: map<nat, Phase>)

  datatype Step =
    | Handle(call: nat, id: string)
    | Return(call: nat)
    | Raise(call: nat)
    | Cancel(call: nat)

  const INITIAL := System(Store({}, {}), map[])

  /** One atomic piece of a call; a step that cannot happen changes nothing. */
  function Next(s: System, step: Step): System {
    match step
    case Handle(c, id) =>
      if c in s.calls then s
      else System(s.store.Begin(id), s.calls[c := if s.store.Free(id) then Running(id) else Refused(id)])
    case Return(c) =>
      if c !in s.calls || !s.calls[c].Running? then s
      else System(s.store.Complete(s.calls[c].id), s.calls[c := Succeeded(s.calls[c].id)])
    case Raise(c) =>
      if c !in s.calls || !s.calls[c].Running? then s
      else System(s.store.Fail(s.calls[c].id), s.calls[c := Raised(s.calls[c].id)])
    case Cancel(c) =>
      if c !in s.calls || !s.calls[c].Running? then s
      else s.(calls := s.calls[c := Cancelled(s.calls[c].id)])
  }

  function Run(s: System, steps: seq<Step>): System {
    Fold(Next, s, steps)
  }

  /** A call that holds its event: running, cancelled in the handler, or done. */
  predicate Holds(p: Phase) {
    p.Running? || p.Cancelled? || p.Succeeded?
  }

  predicate HeldBy(s: System, id: string, c: nat) {
    c in s.calls && Holds(s.calls[c]) && s.calls[c].id == id
  }

  /** The store's sets say what the calls are doing. */
  ghost predicate Accounted(s: System) {
    && s.store.inProgress !! s.store.completed
    && (forall c :: c in s.calls && Holds(s.calls[c]) ==>
          s.calls[c].id in if s.calls[c].Succeeded? then s.store.completed else s.store.inProgress)
    && (forall id :: !s.store.Free(id) ==> exists c :: HeldBy(s, id, c))
  }

  ghost predicate Exclusive(s: System) {
    forall id, c, d :: HeldBy(s, id, c) && HeldBy(s, id, d) ==> c == d
  }

  ghost predicate Safe(s: System) {
    Accounted(s) && Exclusive(s)
  }

  lemma HandleKeepsSafe(s: System, c: nat, id: string)
    requires Safe(s) && c !in s.calls
    ensures Safe(Next(s, Handle(c, id)))
  {
    var t := Next(s, Handle(c, id));
    assert forall e, d :: d != c ==> (HeldBy(t, e, d) <==> HeldBy(s, e, d));
    forall e | !t.store.Free(e) ensures exists d :: HeldBy(t, e, d) {
      if s.store.Free(e) {
        assert HeldBy(t, e, c);
      } else {
        var d :| HeldBy(s, e, d);
        assert HeldBy(t, e, d);
      }
    }
  }

  lemma EndKeepsSafe(s: System, step: Step)
    requires Safe(s) && !step.Handle? && step.call in s.calls && s.calls[step.call].Running?
    ensures Safe(Next(s, step))
  {
    var t, c := Next(s, step), step.call;
    var id := s.calls[c].id;
    assert HeldBy(s, id, c);
    assert forall e, d :: HeldBy(t, e, d) ==> HeldBy(s, e, d);
    assert id in s.store.inProgress;
    forall d | d in t.calls && Holds(t.calls[d]) && d != c ensures t.calls[d].id != id {
      assert HeldBy(s, t.calls[d].id, d);
    }
    forall e | !t.store.Free(e) ensures exists d :: HeldBy(t, e, d) {
      if e == id {
        assert HeldBy(t, e, c);
      } else {
        assert !s.store.Free(e);
        var d :| HeldBy(s, e, d);
        assert HeldBy(t, e, d);
      }
    }
  }

  lemma StepKeepsSafe(s: System, step: Step)
    requires Safe(s)
    ensures Safe(Next(s, step))
  {
    if step.Handle? {
      if step.call !in s.calls {
        HandleKeepsSafe(s, step.call, step.id);
      }
    } else if step.call in s.calls && s.calls[step.call].Running? {
      EndKeepsSafe(s, step);
    }
  }

  /** In every interleaving: one handler per event at a time, one success ever, the two
      sets disjoint and filled by exactly the calls that hold an event. */
  lemma {:induction false} AtMostOnce(steps: seq<Step>)
    ensures Safe(Run(INITIAL, steps))
  {
    if steps != [] {
      AtMostOnce(steps[..|steps| - 1]);
      StepKeepsSafe(Run(INITIAL, steps[..|steps| - 1]), steps[|steps| - 1]);
    }
  }

  /** An event can be started exactly when every call that ever started it raised. */
  lemma RunnableExactly(steps: seq<Step>, id: string)
    ensures var s := Run(INITIAL, steps);
            s.store.Free(id) <==>
            forall c :: c in s.calls && s.calls[c].id == id ==> s.calls[c].Raised? || s.calls[c].Refused?
  {
    AtMostOnce(steps);
    var s := Run(INITIAL, steps);
    if !s.store.Free(id) {
      var c :| HeldBy(s, id, c);
    }
  }

  lemma {:induction false} EndedStaysEnded(s: System, steps: seq<Step>, c: nat)
    requires c in s.calls && !s.calls[c].Running?
    ensures c in Run(s, steps).calls && Run(s, steps).calls[c] == s.calls[c]
  {
    if steps != [] {
      EndedStaysEnded(s, steps[..|steps| - 1], c);
    }
  }

  /** Once a call succeeded or was cancelled inside its handler, no continuation of the
      run ever starts or completes that event again. */
  lemma HeldForever(past: seq<Step>, future: seq<Step>, c: nat, d: nat)
    requires c in Run(INITIAL, past).calls
    requires Run(INITIAL, past).calls[c].Succeeded? || Run(INITIAL, past).calls[c].Cancelled?
    requires d in Run(INITIAL, past + future).calls && d != c
    ensures var end := Run(INITIAL, past + future);
            end.calls[d].id == Run(INITIAL, past).calls[c].id ==>
              end.calls[d].Refused? || end.calls[d].Raised?
  {
    FoldSplits(Next, INITIAL, past, future);
    EndedStaysEnded(Run(INITIAL, past), future, c);
    AtMostOnce(past + future);
    var end, id := Run(INITIAL, past + future), Run(INITIAL, past).calls[c].id;
    assert HeldBy(end, id, c);
    assert end.calls[d].id == id && Holds(end.calls[d]) ==> HeldBy(end, id, d);
  }

  /** Handle an event, cancel the call inside its handler, handle the event again: refused. */
  lemma CancelledIsRefused(id: string) returns (steps: seq<Step>)
    ensures |steps| == 3 && steps[1] == Cancel(0) && steps[2] == Handle(1, id)
    ensures Run(INITIAL, steps).calls == map[0 := Cancelled(id), 1 := Refused(id)]
    ensures id !in Run(INITIAL, steps).store.completed
  {
    var x, y, z := Handle(0, id), Cancel(0), Handle(1, id);
    steps := [x, y, z];
    assert steps[..2] == [x, y] && [x, y][..1] == [x] && [x][..0] == [];
    assert Run(INITIAL, []) == INITIAL;
    assert Run(INITIAL, [x]) == System(Store({id}, {}), map[0 := Running(id)]);
    assert Run(INITIAL, [x, y]) == System(Store({id}, {}), map[0 := Cancelled(id)]);
  }
}
